/** Feed records and the conversion of a fetched body into a channel: Atom
    versus RSS detection, and the mapping of decoded Atom structures onto the
    RSS-shaped `Channel`. Fetching and XML decoding are parameters. */
module Feed {
  import opened Common

  datatype Item = Item(title: string, link: string, pubDate: string, read: bool)

  /** `feedUrl` records the URL the channel was requested from. */
  datatype Channel = Channel(
    title: string,
    description: string,
    link: string,
    language: string,
    items: seq<Item>,
    category: string,
    tags: seq<string>,
    feedUrl: string)

  datatype Article = Article(title: string, content: string, author: string, url: string)

  function EmptyArticle(): Article { Article("", "", "", "") }

  // ---- decoded Atom documents ----

  datatype AtomLink = AtomLink(href: string, rel: string, mediaType: string)

  datatype AtomEntry = AtomEntry(
    title: string,
    links: seq<AtomLink>,
    id: string,
    updated: string,
    published: string,
    summary: string,
    content: string)

  datatype AtomFeed = AtomFeed(
    title: string,
    subtitle: string,
    links: seq<AtomLink>,
    id: string,
    updated: string,
    entries: seq<AtomEntry>)

  /** A decoded RSS document is its channel element. */
  datatype RssFeed = RssFeed(channel: Channel)

  /** A missing `rel` means "alternate" (section 4.2.7.2 of RFC 4287). */
  predicate IsAlternate(l: AtomLink) {
    l.rel == "alternate" || l.rel == ""
  }

  /** Index of the first alternate link. */
  function FirstAlternate(links: seq<AtomLink>): (r: Option<nat>)
    ensures r.Some? ==> r.value < |links| && IsAlternate(links[r.value])
    ensures r.Some? ==> forall k :: 0 <= k < r.value ==> !IsAlternate(links[k])
    ensures r.None? <==> forall k :: 0 <= k < |links| ==> !IsAlternate(links[k])
  {
    if links == [] then None
    else if IsAlternate(links[0]) then Some(0)
    else match FirstAlternate(links[1..])
      case None => None
      case Some(k) => Some(k + 1)
  }

  /** The link selection rule: the first alternate link's href, falling back
      to the first link's href when that is empty or there is none. */
  function SelectLink(links: seq<AtomLink>): (r: string)
    ensures links == [] ==> r == []
    ensures FirstAlternate(links).Some? && links[FirstAlternate(links).value].href != [] ==>
              r == links[FirstAlternate(links).value].href
    ensures links != [] && (FirstAlternate(links).None? || links[FirstAlternate(links).value].href == []) ==>
              r == links[0].href
    ensures r == [] || exists k :: 0 <= k < |links| && r == links[k].href
  {
    var alt := match FirstAlternate(links) case None => [] case Some(i) => links[i].href;
    if alt == [] && |links| > 0 then links[0].href else alt
  }

  /** An entry's link: the selected link, or the entry ID when that is empty. */
  function EntryLink(e: AtomEntry): (r: string)
    ensures SelectLink(e.links) != [] ==> r == SelectLink(e.links)
    ensures SelectLink(e.links) == [] ==> r == e.id
  {
    var l := SelectLink(e.links);
    if l == [] then e.id else l
  }

  function EntryItem(e: AtomEntry): (it: Item)
    ensures it.title == e.title && it.link == EntryLink(e) && !it.read
    ensures it.pubDate == (if e.published != [] then e.published else e.updated)
  {
    Item(e.title, EntryLink(e), if e.published != [] then e.published else e.updated, false)
  }

  /** `parseAtom` after decoding: one item per entry, in order. */
  function ConvertAtom(atom: AtomFeed, feedUrl: string): (c: Channel)
    ensures c.title == atom.title && c.description == atom.subtitle && c.feedUrl == feedUrl
    ensures c.link == SelectLink(atom.links)
    ensures |c.items| == |atom.entries|
    ensures forall i :: 0 <= i < |c.items| ==> c.items[i] == EntryItem(atom.entries[i])
    ensures c.language == [] && c.category == [] && c.tags == []
  {
    Channel(atom.title, atom.subtitle, SelectLink(atom.links), "",
            seq(|atom.entries|, i requires 0 <= i < |atom.entries| => EntryItem(atom.entries[i])),
            "", [], feedUrl)
  }

  /** The body is taken for an Atom document. */
  predicate LooksLikeAtom(body: string) {
    Contains(body, "<feed") || Contains(body, "<feed>")
  }

  /** The second test of the detection adds nothing: `<feed>` contains `<feed`. */
  lemma LooksLikeAtomIsFeedPrefix(body: string)
    ensures LooksLikeAtom(body) <==> Contains(body, "<feed")
  {
    if Contains(body, "<feed>") {
      var k := IndexOf(body, "<feed>").value;
      assert body[k..k + 5] == body[k..k + 6][..5];
      ContainsWitness(body, "<feed", k);
    }
  }

  /** `Read` from the fetched body on. Decoding is abstract; whichever path is
      taken, the channel records the requested URL. */
  function ReadBody(
    decodeAtom: string -> Result<AtomFeed>,
    decodeRss: string -> Result<RssFeed>,
    body: string,
    feedUrl: string): (r: Result<Channel>)
    ensures r.Ok? ==> r.value.feedUrl == feedUrl
    ensures LooksLikeAtom(body) ==>
              (decodeAtom(body).Err? <==> r.Err?) &&
              (r.Ok? ==> r.value == ConvertAtom(decodeAtom(body).value, feedUrl))
    ensures !LooksLikeAtom(body) ==>
              (decodeRss(body).Err? <==> r.Err?) &&
              (r.Ok? ==> r.value == decodeRss(body).value.channel.(feedUrl := feedUrl))
  {
    if LooksLikeAtom(body) then
      match decodeAtom(body)
      case Err(e) => Err("error parsing Atom feed: " + e)
      case Ok(atom) => Ok(ConvertAtom(atom, feedUrl))
    else
      match decodeRss(body)
      case Err(e) => Err("error parsing RSS feed: " + e)
      case Ok(rss) => Ok(rss.channel.(feedUrl := feedUrl))
  }
}
