/** The handlers for the results of commands: loaded feeds and articles, the
    read state and configuration, the feed-list edits, and clipboard text.
    The markdown renderer is a parameter `glamour` that turns markdown into
    styled text or fails. */
module Messages {
  import opened Common
  import opened Text
  import opened Storage
  import opened Feed
  import opened LinkScan
  import opened TuiModel
  import opened Keys

  /** `handleFeedLoad`: loading ends; a channel is appended as it is, even
      when one from the same URL is already there. */
  function HandleFeedLoad(m: Model, channel: Result<Channel>): (r: (Model, Cmd))
    ensures r.1 == NoCmd
    ensures channel.Err? ==> r.0 == m.(loading := false, err := Some(channel.msg))
    ensures channel.Ok? ==> r.0 == m.(loading := false, feeds := m.feeds + [channel.value], err := None)
    ensures channel.Ok? ==> |r.0.feeds| == |m.feeds| + 1 && r.0.feeds[|m.feeds|] == channel.value
  {
    match channel
    case Err(e) => (m.(loading := false, err := Some(e)), NoCmd)
    case Ok(c) => (m.(loading := false, feeds := m.feeds + [c], err := None), NoCmd)
  }

  /** Appending a channel leaves every earlier match of a URL in place and
      makes the new channel the match for a URL that had none. */
  lemma {:induction false} FindLoadedAppend(feeds: seq<Channel>, c: Channel, u: string)
    ensures FindLoaded(feeds + [c], u) ==
              if FindLoaded(feeds, u).Some? then FindLoaded(feeds, u)
              else if c.feedUrl == u then Some(|feeds|) else None
  {
    if feeds != [] {
      assert (feeds + [c])[1..] == feeds[1..] + [c];
      FindLoadedAppend(feeds[1..], c, u);
    }
  }

  /** A loaded feed keeps showing the channel it showed: the selected
      channel, the feed selection and an article cursor that addressed an
      item all survive another channel's arrival. */
  lemma FeedLoadKeepsSelection(m: Model, channel: Result<Channel>)
    ensures var r := HandleFeedLoad(m, channel).0;
            && (SelectedItems(m).Some? ==> SelectedItems(r) == SelectedItems(m))
            && (FeedSelectionInRange(r) <==> FeedSelectionInRange(m))
            && (ArticleCursorInRange(m) && (SelectedItems(m).Some? || m.cursor == 0) ==> ArticleCursorInRange(r))
  {
    if channel.Ok? && 0 <= m.currentFeed < |m.config.feeds| {
      FindLoadedAppend(m.feeds, channel.value, m.config.feeds[m.currentFeed].url);
    }
  }

  /** Channels delivered one after another, as the load commands complete. */
  function DeliverAll(m: Model, channels: seq<Channel>): (r: Model)
    ensures r.config == m.config
    ensures |r.feeds| == |m.feeds| + |channels|
    decreases |channels|
  {
    if channels == [] then m
    else DeliverAll(HandleFeedLoad(m, Ok(channels[0])).0, channels[1..])
  }

  /** Delivering channels keeps every channel that was already found. */
  lemma {:induction false} DeliverAllKeepsFound(m: Model, channels: seq<Channel>, u: string)
    requires FindLoaded(m.feeds, u).Some?
    ensures FindLoaded(DeliverAll(m, channels).feeds, u) == FindLoaded(m.feeds, u)
    decreases |channels|
  {
    if channels != [] {
      var m1 := HandleFeedLoad(m, Ok(channels[0])).0;
      FindLoadedAppend(m.feeds, channels[0], u);
      DeliverAllKeepsFound(m1, channels[1..], u);
    }
  }

  /** A delivered channel is found for its URL afterwards. */
  lemma {:induction false} DeliverAllFinds(m: Model, channels: seq<Channel>, i: int)
    requires 0 <= i < |channels|
    ensures FindLoaded(DeliverAll(m, channels).feeds, channels[i].feedUrl).Some?
    decreases |channels|
  {
    var m1 := HandleFeedLoad(m, Ok(channels[0])).0;
    if i == 0 {
      FindLoadedAppend(m.feeds, channels[0], channels[0].feedUrl);
      DeliverAllKeepsFound(m1, channels[1..], channels[0].feedUrl);
    } else {
      DeliverAllFinds(m1, channels[1..], i - 1);
    }
  }

  /** Loading a configuration and then receiving the channels its load
      commands fetched: configured feed `i` has a loaded channel as soon as
      some delivered channel, the `j`th, came from its URL. */
  lemma ConfigLoadThenFeedsArrive(m: Model, c: Config, channels: seq<Channel>, i: int, j: int)
    requires 0 <= i < |c.feeds| && 0 <= j < |channels| && channels[j].feedUrl == c.feeds[i].url
    ensures LoadedFeedIndex(DeliverAll(HandleConfigLoad(m, Ok(c)).0, channels), i).Some?
  {
    DeliverAllFinds(HandleConfigLoad(m, Ok(c)).0, channels, j);
  }

  /** Index of the first item linking to `url`. */
  function FirstItemWithLink(items: seq<Item>, url: string): (r: Option<nat>)
    ensures r.Some? ==> r.value < |items| && items[r.value].link == url
    ensures r.Some? ==> forall k :: 0 <= k < r.value ==> items[k].link != url
    ensures r.None? <==> forall k :: 0 <= k < |items| ==> items[k].link != url
  {
    if items == [] then None
    else if items[0].link == url then Some(0)
    else match FirstItemWithLink(items[1..], url)
      case None => None
      case Some(k) => Some(k + 1)
  }

  /** The first item linking to `url` marked read; every other item as it was. */
  function MarkFirstRead(items: seq<Item>, url: string): (r: seq<Item>)
    ensures |r| == |items|
    ensures forall k :: 0 <= k < |items| && Some(k) != FirstItemWithLink(items, url) ==> r[k] == items[k]
    ensures FirstItemWithLink(items, url).Some? ==>
              var k := FirstItemWithLink(items, url).value;
              r[k] == items[k].(read := true)
  {
    match FirstItemWithLink(items, url)
    case None => items
    case Some(k) => items[k := items[k].(read := true)]
  }

  /** `renderMarkdownForScrolling`: empty content renders to nothing without
      calling the renderer. */
  function RenderForScrolling(glamour: string -> Result<string>, content: string): (r: Result<string>)
    ensures content == [] ==> r == Ok([])
    ensures content != [] ==> r == glamour(content)
  {
    if content == [] then Ok([]) else glamour(content)
  }

  /** The article text cut into lines, with the links found in it: the
      rendered text and its on-screen links, or the raw markdown and its
      source links when rendering fails. */
  function ArticleText(w: WidthFn, glamour: string -> Result<string>, content: string): (r: (seq<string>, seq<Link>))
    ensures forall k :: 0 <= k < |r.1| ==> 0 <= r.1[k].line < |r.0|
    ensures RenderForScrolling(glamour, content).Err? ==>
              r.0 == Split(content, '\n') && r.1 == ParseLinksFromMarkdown(content)
    ensures RenderForScrolling(glamour, content).Ok? ==>
              var text := RenderForScrolling(glamour, content).value;
              r.0 == Split(text, '\n') && r.1 == ParseLinksFromRenderedContent(w, text)
  {
    match RenderForScrolling(glamour, content)
    case Err(_) => (Split(content, '\n'), ParseLinksFromMarkdown(content))
    case Ok(text) => (Split(text, '\n'), ParseLinksFromRenderedContent(w, text))
  }

  /** `handleArticleLoad`. On failure only the error is recorded. On success
      the article is shown from its top with the cursor home, its URL is
      marked read, and so is the first matching item of the channel at
      position `currentFeed` of the loaded channels. */
  function HandleArticleLoad(w: WidthFn, glamour: string -> Result<string>, m: Model,
                             article: Article, err: Option<string>): (r: (Model, Cmd))
    ensures err.Some? ==> r == (m.(loading := false, err := err), NoCmd)
    ensures err.None? ==>
              && r.0.view == Content && !r.0.loading && r.0.err.None?
              && r.0.scrollOffset == 0 && r.0.cursorX == 0 && r.0.cursorY == 0
              && r.0.currentArticle == article && r.0.articleContent == article.content
              && (r.0.articleLines, r.0.articleLinks) == ArticleText(w, glamour, article.content)
              && r.0.state == MarkAsRead(m.state, article.url)
              && r.1 == SaveStateCmd(r.0.state)
              && |r.0.feeds| == |m.feeds|
              && (forall i :: 0 <= i < |m.feeds| && i != m.currentFeed ==> r.0.feeds[i] == m.feeds[i])
              && (m.currentFeed < |m.feeds| ==>
                    r.0.feeds[m.currentFeed] == m.feeds[m.currentFeed].(items := MarkFirstRead(m.feeds[m.currentFeed].items, article.url)))
              && r.0 == m.(loading := false, err := None, view := Content, scrollOffset := 0, cursorX := 0, cursorY := 0,
                           currentArticle := article, articleContent := article.content,
                           articleLines := r.0.articleLines, articleLinks := r.0.articleLinks,
                           state := r.0.state, feeds := r.0.feeds)
  {
    if err.Some? then (m.(loading := false, err := err), NoCmd)
    else
      var state := MarkAsRead(m.state, article.url);
      var feeds :=
        if m.currentFeed < |m.feeds| then
          m.feeds[m.currentFeed := m.feeds[m.currentFeed].(items := MarkFirstRead(m.feeds[m.currentFeed].items, article.url))]
        else m.feeds;
      var (lines, links) := ArticleText(w, glamour, article.content);
      (m.(loading := false, currentArticle := article, articleContent := article.content, state := state, feeds := feeds,
          articleLines := lines, articleLinks := links, scrollOffset := 0, cursorX := 0, cursorY := 0,
          view := Content, err := None),
       SaveStateCmd(state))
  }

  /** Every item's read flag taken from the read state. */
  function SyncItems(items: seq<Item>, s: AppState): (r: seq<Item>)
    ensures |r| == |items|
    ensures forall j :: 0 <= j < |items| ==> r[j] == items[j].(read := IsRead(s, items[j].link))
  {
    if items == [] then [] else [items[0].(read := IsRead(s, items[0].link))] + SyncItems(items[1..], s)
  }

  function SyncFeeds(feeds: seq<Channel>, s: AppState): (r: seq<Channel>)
    ensures |r| == |feeds|
    ensures forall i :: 0 <= i < |feeds| ==> r[i] == feeds[i].(items := SyncItems(feeds[i].items, s))
  {
    if feeds == [] then [] else [feeds[0].(items := SyncItems(feeds[0].items, s))] + SyncFeeds(feeds[1..], s)
  }

  /** The state installed when loading it fails. */
  function EmptyState(): (s: AppState)
    ensures s.feedUrls == [] && forall u :: !IsRead(s, u)
  {
    AppState(map[], [], ZeroTime)
  }

  /** `handleStateLoad`: on failure an empty state; on success the loaded
      state, with every loaded item's read flag brought in line with it. */
  function HandleStateLoad(m: Model, state: Result<AppState>): (r: (Model, Cmd))
    ensures r.1 == NoCmd
    ensures state.Err? ==> r.0 == m.(state := EmptyState())
    ensures state.Ok? ==> r.0 == m.(state := state.value, feeds := r.0.feeds)
    ensures state.Ok? ==> |r.0.feeds| == |m.feeds|
    ensures state.Ok? ==> forall i :: 0 <= i < |m.feeds| ==>
              r.0.feeds[i] == m.feeds[i].(items := r.0.feeds[i].items) && |r.0.feeds[i].items| == |m.feeds[i].items|
    ensures state.Ok? ==> forall i, j :: 0 <= i < |m.feeds| && 0 <= j < |m.feeds[i].items| ==>
              r.0.feeds[i].items[j] == m.feeds[i].items[j].(read := IsRead(state.value, m.feeds[i].items[j].link))
  {
    match state
    case Err(_) => (m.(state := EmptyState()), NoCmd)
    case Ok(s) => (m.(state := s, feeds := SyncFeeds(m.feeds, s)), NoCmd)
  }

  /** After a successful state load, every item's flag agrees with the state. */
  lemma StateLoadSyncsFlags(m: Model, s: AppState)
    ensures var r := HandleStateLoad(m, Ok(s)).0;
            forall i, j :: 0 <= i < |r.feeds| && 0 <= j < |r.feeds[i].items| ==>
              r.feeds[i].items[j].read == IsRead(r.state, r.feeds[i].items[j].link)
  {
    var r := HandleStateLoad(m, Ok(s)).0;
    forall i, j | 0 <= i < |r.feeds| && 0 <= j < |r.feeds[i].items|
      ensures r.feeds[i].items[j].read == IsRead(r.state, r.feeds[i].items[j].link)
    {
      assert r.feeds[i].items[j] == m.feeds[i].items[j].(read := IsRead(s, m.feeds[i].items[j].link));
    }
  }

  /** Records an error, if there is one. */
  function SetErr(m: Model, err: Option<string>): (r: Model)
    ensures err.Some? ==> r == m.(err := err)
    ensures err.None? ==> r == m
  {
    if err.Some? then m.(err := err) else m
  }

  /** A load command per configured feed, in order. */
  function LoadFeedCmds(feeds: seq<FeedConfig>): (r: seq<Cmd>)
    ensures |r| == |feeds|
    ensures forall i :: 0 <= i < |feeds| ==> r[i] == LoadFeedCmd(feeds[i].url)
  {
    if feeds == [] then [] else [LoadFeedCmd(feeds[0].url)] + LoadFeedCmds(feeds[1..])
  }

  /** `handleConfigLoad`: the loaded configuration replaces the old one and
      every configured feed is requested. */
  function HandleConfigLoad(m: Model, config: Result<Config>): (r: (Model, Cmd))
    ensures config.Err? ==> r == (m.(err := Some(config.msg)), NoCmd)
    ensures config.Ok? ==> r.0 == m.(config := config.value)
    ensures config.Ok? && config.value.feeds == [] ==> r.1 == NoCmd
    ensures config.Ok? && config.value.feeds != [] ==> r.1 == Batch(LoadFeedCmds(config.value.feeds))
  {
    match config
    case Err(e) => (m.(err := Some(e)), NoCmd)
    case Ok(c) => (m.(config := c), if |c.feeds| > 0 then Batch(LoadFeedCmds(c.feeds)) else NoCmd)
  }

  /** Success or failure of a command that reports only an error: the error
      is recorded, success clears any earlier one. */
  function ClearOrSetErr(m: Model, err: Option<string>): (r: Model)
    ensures r == m.(err := err)
  {
    m.(err := err)
  }

  /** `handleFeedDeleted`. The loaded channel removed is the one at the
      deleted feed's position among the loaded channels. The manager cursor
      moves back when it is past the end of the edited list. A negative
      index on success would make Go's slice expression panic; the delete
      command reports an error for it instead. */
  function HandleFeedDeleted(m: Model, index: int, err: Option<string>): (r: (Model, Cmd))
    requires err.None? ==> index >= 0
    ensures r.1 == NoCmd
    ensures err.Some? ==> r.0 == m.(err := err)
    ensures err.None? && index >= |m.feeds| ==> r.0.feeds == m.feeds
    ensures err.None? && index < |m.feeds| ==>
              && |r.0.feeds| == |m.feeds| - 1
              && (forall k :: 0 <= k < index ==> r.0.feeds[k] == m.feeds[k])
              && (forall k :: index <= k < |r.0.feeds| ==> r.0.feeds[k] == m.feeds[k + 1])
    ensures err.None? ==>
              && r.0 == m.(feeds := r.0.feeds, cursor := r.0.cursor, err := None)
              && (if m.cursor >= |m.config.feeds| && m.cursor > 0 then r.0.cursor == m.cursor - 1
                  else r.0.cursor == m.cursor)
  {
    if err.Some? then (m.(err := err), NoCmd)
    else
      var feeds := if index < |m.feeds| then m.feeds[..index] + m.feeds[index + 1..] else m.feeds;
      var cursor := if m.cursor >= |m.config.feeds| && m.cursor > 0 then m.cursor - 1 else m.cursor;
      (m.(feeds := feeds, cursor := cursor, err := None), NoCmd)
  }

  /** `handleFeedUpdated`: on success the updated feed is fetched again. */
  function HandleFeedUpdated(m: Model, feed: FeedConfig, err: Option<string>): (r: (Model, Cmd))
    ensures r.0 == m.(err := err)
    ensures r.1 == (if err.Some? then NoCmd else LoadFeedCmd(feed.url))
  {
    if err.Some? then (m.(err := err), NoCmd) else (m.(err := None), LoadFeedCmd(feed.url))
  }

  /** `handleClipboardPaste`: the text goes to the active add-form field, or
      to the edited value, and nowhere else. */
  function HandleClipboardPaste(m: Model, content: string, err: Option<string>): (r: (Model, Cmd))
    ensures r.1 == NoCmd
    ensures err.Some? ==> r.0 == m.(err := err)
    ensures err.None? && m.addingFeed ==> r.0 == AppendAddField(m, content)
    ensures err.None? && !m.addingFeed && m.editingFeed ==> r.0 == m.(editValue := m.editValue + content)
    ensures err.None? && !m.addingFeed && !m.editingFeed ==> r.0 == m
  {
    if err.Some? then (m.(err := err), NoCmd)
    else if m.addingFeed then (AppendAddField(m, content), NoCmd)
    else if m.editingFeed then (m.(editValue := m.editValue + content), NoCmd)
    else (m, NoCmd)
  }

  /** Pasting into the add form is typing the text into the active field. */
  lemma PasteIsTyping(m: Model, key: string)
    requires m.addingFeed && IsTyped(key) && key !in {"esc", "tab", "enter", "ctrl+v", "backspace"}
    ensures HandleClipboardPaste(m, key, None).0 == HandleAddFeedKeys(m, key).0
  {
  }
}
