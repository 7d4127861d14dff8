/** Persistent data of the reader: the read-article set, the feed list of the
    configuration, the clean-up applied after a file is decoded, and the
    normalisation of feed URLs. File and JSON I/O are outside the model: a
    decoded file is a value whose absent collections are `None`. */
module Storage {
  import opened Common

  /** One configured feed. */
  datatype FeedConfig = FeedConfig(url: string, category: string, tags: seq<string>)

  datatype Config = Config(
    feeds: seq<FeedConfig>,
    autoSave: bool,
    markReadOnView: bool,
    defaultCategory: string,
    refreshIntervalMin: int)

  /** `lastSync` is an abstract timestamp; `ZeroTime` stands for Go's zero time. */
  datatype AppState = AppState(readArticles: map<string, bool>, feedUrls: seq<FeedConfig>, lastSync: int)

  const ZeroTime: int := 0

  // ---- read state ----

  /** `IsRead`: a missing key reads as Go's zero value, false. */
  function IsRead(s: AppState, u: string): (b: bool)
    ensures u !in s.readArticles ==> !b
    ensures b ==> u in s.readArticles
  {
    u in s.readArticles && s.readArticles[u]
  }

  /** Every key of `a` other than `u` reads the same in `b`, and the rest of
      the state is untouched. */
  ghost predicate SameExcept(a: AppState, b: AppState, u: string) {
    && (forall k :: k != u ==> (k in a.readArticles <==> k in b.readArticles))
    && (forall k :: k != u && k in a.readArticles ==> a.readArticles[k] == b.readArticles[k])
    && a.feedUrls == b.feedUrls && a.lastSync == b.lastSync
  }

  /** `MarkAsRead`: the article reads as read afterwards, nothing else changes. */
  function MarkAsRead(s: AppState, u: string): (r: AppState)
    ensures IsRead(r, u)
    ensures SameExcept(s, r, u)
    ensures forall k :: k != u ==> IsRead(r, k) == IsRead(s, k)
  {
    s.(readArticles := s.readArticles[u := true])
  }

  lemma MarkAsReadIdempotent(s: AppState, u: string)
    ensures MarkAsRead(MarkAsRead(s, u), u) == MarkAsRead(s, u)
  {
  }

  /** Marking an article that already reads as read changes nothing. */
  lemma MarkAsReadWhenRead(s: AppState, u: string)
    requires IsRead(s, u)
    ensures MarkAsRead(s, u) == s
  {
  }

  /** `delete(ReadArticles, u)`: the article reads as unread afterwards,
      nothing else changes. */
  function MarkUnread(s: AppState, u: string): (r: AppState)
    ensures !IsRead(r, u) && u !in r.readArticles
    ensures SameExcept(s, r, u)
  {
    s.(readArticles := s.readArticles - {u})
  }

  lemma MarkUnreadUndoesMark(s: AppState, u: string)
    requires u !in s.readArticles
    ensures MarkUnread(MarkAsRead(s, u), u) == s
  {
    assert MarkUnread(MarkAsRead(s, u), u).readArticles == s.readArticles;
  }

  /** `NewAppState`: nothing read, no feeds, stamped with the given time. */
  function NewAppState(now: int): (r: AppState)
    ensures forall u :: !IsRead(r, u)
    ensures r.feedUrls == [] && r.lastSync == now
  {
    AppState(map[], [], now)
  }

  /** The state file as decoded: a JSON `null` or missing member is `None`. */
  datatype DecodedState = DecodedState(
    readArticles: Option<map<string, bool>>,
    feedUrls: Option<seq<FeedConfig>>,
    lastSync: int)

  /** The clean-up `LoadState` applies after decoding. */
  function NormalizeDecodedState(d: DecodedState): (r: AppState)
    ensures d.readArticles.None? ==> forall u :: !IsRead(r, u)
    ensures d.readArticles.Some? ==> r.readArticles == d.readArticles.value
    ensures d.feedUrls.None? ==> r.feedUrls == []
    ensures d.feedUrls.Some? ==> r.feedUrls == d.feedUrls.value
    ensures r.lastSync == d.lastSync
  {
    AppState(
      match d.readArticles case None => map[] case Some(m) => m,
      match d.feedUrls case None => [] case Some(f) => f,
      d.lastSync)
  }

  // ---- feed URL normalisation ----

  predicate IsAsciiLetter(c: char) { 'a' <= c <= 'z' || 'A' <= c <= 'Z' }

  predicate IsSchemeChar(c: char) {
    IsAsciiLetter(c) || '0' <= c <= '9' || c == '+' || c == '-' || c == '.'
  }

  /** Index of the `:` that ends a scheme: `ALPHA *( ALPHA / DIGIT / "+" / "-" / "." )`
      of section 3.1 of RFC 3986, scanning as the URL parser does from `i`. */
  function SchemeEnd(s: string, i: nat): (r: Option<nat>)
    requires 0 < i <= |s|
    ensures r.Some? ==> i <= r.value < |s| && s[r.value] == ':'
    ensures r.Some? ==> forall k :: i <= k < r.value ==> IsSchemeChar(s[k])
    decreases |s| - i
  {
    if i == |s| then None
    else if s[i] == ':' then Some(i)
    else if IsSchemeChar(s[i]) then SchemeEnd(s, i + 1)
    else None
  }

  /** A `:` reached through scheme characters is found. */
  lemma {:induction false} SchemeEndFinds(s: string, i: nat, j: nat)
    requires 0 < i <= j < |s| && s[j] == ':'
    requires forall k :: i <= k < j ==> IsSchemeChar(s[k])
    ensures SchemeEnd(s, i) == Some(j)
    decreases j - i
  {
    if i < j {
      assert IsSchemeChar(s[i]) && s[i] != ':';
      SchemeEndFinds(s, i + 1, j);
    }
  }

  /** The URL has a non-empty scheme. A leading `:` is a parse error, which
      the caller treats like a missing scheme. */
  predicate HasScheme(s: string) {
    s != [] && IsAsciiLetter(s[0]) && SchemeEnd(s, 1).Some?
  }

  lemma HasSchemeHttpsPrefix(s: string)
    requires |s| >= 6 && s[0] == 'h' && s[1] == 't' && s[2] == 't' && s[3] == 'p' && s[4] == 's' && s[5] == ':'
    ensures HasScheme(s)
  {
    assert SchemeEnd(s, 5) == Some(5);
    assert SchemeEnd(s, 4) == Some(5);
    assert SchemeEnd(s, 3) == Some(5);
    assert SchemeEnd(s, 2) == Some(5);
  }

  lemma HasSchemeHttps(t: string)
    ensures HasScheme("https://" + t)
  {
    HasSchemeHttpsPrefix("https://" + t);
  }

  /** `normalizeFeedURL`. `parseFails` stands for the URL parser's checks other
      than the scheme (control characters, malformed escapes or hosts). */
  function NormalizeFeedUrl(parseFails: string -> bool, raw: string): (r: string)
    ensures var t := TrimSpace(raw);
            && (t == [] ==> r == [])
            && (t != [] && HasScheme(t) && !parseFails(t) ==> r == t)
            && (t != [] && !(HasScheme(t) && !parseFails(t)) ==> r == "https://" + t)
    ensures r == [] <==> forall i :: 0 <= i < |raw| ==> IsSpace(raw[i])
    ensures r == [] || (!IsSpace(r[0]) && !IsSpace(r[|r| - 1]))
  {
    var t := TrimSpace(raw);
    if t == [] then t
    else if HasScheme(t) && !parseFails(t) then t
    else "https://" + t
  }

  /** Normalising again changes nothing once the parser accepts the result. */
  lemma NormalizeFeedUrlIdempotent(parseFails: string -> bool, raw: string)
    requires !parseFails(NormalizeFeedUrl(parseFails, raw))
    ensures NormalizeFeedUrl(parseFails, NormalizeFeedUrl(parseFails, raw)) == NormalizeFeedUrl(parseFails, raw)
  {
    var t := TrimSpace(raw);
    var r := NormalizeFeedUrl(parseFails, raw);
    TrimSpaceOfTrimmed(r);
    if r != [] && r != t {
      HasSchemeHttps(t);
    }
  }

  function WithUrl(f: FeedConfig, u: string): (g: FeedConfig)
    ensures g.url == u && g.category == f.category && g.tags == f.tags
  {
    f.(url := u)
  }

  /** The normalisation loop of `LoadConfig`, over any rewriting of URLs:
      every URL is replaced by its rewrite, and a save is needed exactly when
      one of them changed. */
  method RewriteUrls(norm: string -> string, feeds: seq<FeedConfig>) returns (out: seq<FeedConfig>, needsSave: bool)
    ensures |out| == |feeds|
    ensures forall i :: 0 <= i < |feeds| ==> out[i] == WithUrl(feeds[i], norm(feeds[i].url))
    ensures needsSave <==> exists i :: 0 <= i < |feeds| && norm(feeds[i].url) != feeds[i].url
  {
    out := feeds;
    needsSave := false;
    var i := 0;
    while i < |feeds|
      invariant 0 <= i <= |feeds| && |out| == |feeds|
      invariant forall k :: 0 <= k < i ==> out[k] == WithUrl(feeds[k], norm(feeds[k].url))
      invariant forall k :: i <= k < |feeds| ==> out[k] == feeds[k]
      invariant needsSave <==> exists k :: 0 <= k < i && norm(feeds[k].url) != feeds[k].url
    {
      var f := out[i];
      var normalized := norm(f.url);
      if normalized != f.url {
        out := out[i := WithUrl(f, normalized)];
        needsSave := true;
      } else {
        assert WithUrl(f, normalized) == f;
      }
      i := i + 1;
    }
  }

  /** `LoadConfig`'s pass over the feeds with `normalizeFeedURL`. */
  method NormalizeFeeds(parseFails: string -> bool, feeds: seq<FeedConfig>) returns (out: seq<FeedConfig>, needsSave: bool)
    ensures |out| == |feeds|
    ensures forall i :: 0 <= i < |feeds| ==> out[i] == WithUrl(feeds[i], NormalizeFeedUrl(parseFails, feeds[i].url))
    ensures needsSave <==> exists i :: 0 <= i < |feeds| && NormalizeFeedUrl(parseFails, feeds[i].url) != feeds[i].url
  {
    out, needsSave := RewriteUrls(u => NormalizeFeedUrl(parseFails, u), feeds);
  }

  /** The configuration file as decoded; a `null` feed list is `None`. */
  datatype DecodedConfig = DecodedConfig(
    feeds: Option<seq<FeedConfig>>,
    autoSave: bool,
    markReadOnView: bool,
    defaultCategory: string,
    refreshIntervalMin: int)

  /** The part of `LoadConfig` after decoding: a missing list becomes empty,
      then every URL is normalised. Also reports whether a save is due. */
  method LoadDecodedConfig(parseFails: string -> bool, d: DecodedConfig) returns (c: Config, needsSave: bool)
    ensures d.feeds.None? ==> c.feeds == [] && !needsSave
    ensures d.feeds.Some? ==> |c.feeds| == |d.feeds.value|
    ensures d.feeds.Some? ==> forall i :: 0 <= i < |c.feeds| ==>
              c.feeds[i] == WithUrl(d.feeds.value[i], NormalizeFeedUrl(parseFails, d.feeds.value[i].url))
    ensures c.autoSave == d.autoSave && c.markReadOnView == d.markReadOnView
    ensures c.defaultCategory == d.defaultCategory && c.refreshIntervalMin == d.refreshIntervalMin
  {
    var feeds := match d.feeds case None => [] case Some(f) => f;
    var normalized;
    normalized, needsSave := NormalizeFeeds(parseFails, feeds);
    c := Config(normalized, d.autoSave, d.markReadOnView, d.defaultCategory, d.refreshIntervalMin);
  }

  const DefaultFeedUrl: string := "https://mitchellh.com/feed.xml"

  /** `DefaultConfig`: the configuration written on first start. */
  function DefaultConfig(): (c: Config)
    ensures |c.feeds| == 1 && c.feeds[0].url == DefaultFeedUrl
    ensures c.feeds[0].category == "Tech" && |c.feeds[0].tags| == 2
    ensures c.autoSave && c.markReadOnView && c.defaultCategory == [] && c.refreshIntervalMin == 60
  {
    Config([FeedConfig(DefaultFeedUrl, "Tech", ["golang", "infrastructure"])], true, true, "", 60)
  }

  /** The default feed URL is already in normal form, so a freshly written
      configuration needs no re-save on the next start. */
  lemma DefaultConfigNormalized(parseFails: string -> bool)
    requires !parseFails(DefaultFeedUrl)
    ensures NormalizeFeedUrl(parseFails, DefaultFeedUrl) == DefaultFeedUrl
  {
    DefaultUrlTrimmed();
    DefaultUrlHasScheme();
  }

  lemma DefaultUrlTrimmed()
    ensures TrimSpace(DefaultFeedUrl) == DefaultFeedUrl
  {
    var u := DefaultFeedUrl;
    assert u[0] == 'h' && u[|u| - 1] == 'l';
    TrimSpaceOfTrimmed(u);
  }

  lemma DefaultUrlHasScheme()
    ensures HasScheme(DefaultFeedUrl)
  {
    HasSchemeHttpsPrefix(DefaultFeedUrl);
  }
}
