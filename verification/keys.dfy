/** Key handling: the screen state machine (landing, feed list, article list,
    article content, feed manager), list selection, read toggling, the
    add-feed and edit-feed forms, and link opening in the article view. A key
    is the string the terminal library names it by ("j", "enter", "ctrl+v",
    ...). */
module Keys {
  import opened Common
  import opened Text
  import opened Storage
  import opened Feed
  import opened TuiModel
  import opened Scroll
  import opened ContentNav
  import opened HitTest
  import opened FeedForm

  /** The items of the channel loaded for the selected feed, if any. */
  function SelectedItems(m: Model): Option<seq<Item>> {
    match LoadedFeedIndex(m, m.currentFeed)
    case None => None
    case Some(i) => Some(m.feeds[i].items)
  }

  /** `handleDown`: the next feed in the feed list, the next article in the
      article list, never past the last. */
  function HandleDown(m: Model): (r: (Model, Cmd))
    ensures r.1 == NoCmd
    ensures m.view == FeedView ==>
              && r.0 == m.(currentFeed := r.0.currentFeed)
              && (if m.currentFeed < |m.config.feeds| - 1 then r.0.currentFeed == m.currentFeed + 1
                  else r.0.currentFeed == m.currentFeed)
    ensures m.view == Articles ==>
              && r.0 == m.(cursor := r.0.cursor)
              && (if SelectedItems(m).Some? && m.cursor < |SelectedItems(m).value| - 1
                  then r.0.cursor == m.cursor + 1 else r.0.cursor == m.cursor)
    ensures m.view != FeedView && m.view != Articles ==> r.0 == m
  {
    match m.view
    case FeedView =>
      if m.currentFeed < |m.config.feeds| - 1 then (m.(currentFeed := m.currentFeed + 1), NoCmd) else (m, NoCmd)
    case Articles =>
      (match SelectedItems(m)
       case Some(items) =>
         if m.cursor < |items| - 1 then (m.(cursor := m.cursor + 1), NoCmd) else (m, NoCmd)
       case None => (m, NoCmd))
    case _ => (m, NoCmd)
  }

  /** `handleUp`: the previous feed or article, never before the first. */
  function HandleUp(m: Model): (r: (Model, Cmd))
    ensures r.1 == NoCmd
    ensures m.view == FeedView ==>
              r.0 == m.(currentFeed := if m.currentFeed > 0 then m.currentFeed - 1 else 0)
    ensures m.view == Articles ==> r.0 == m.(cursor := if m.cursor > 0 then m.cursor - 1 else 0)
    ensures m.view != FeedView && m.view != Articles ==> r.0 == m
  {
    match m.view
    case FeedView => if m.currentFeed > 0 then (m.(currentFeed := m.currentFeed - 1), NoCmd) else (m, NoCmd)
    case Articles => if m.cursor > 0 then (m.(cursor := m.cursor - 1), NoCmd) else (m, NoCmd)
    case _ => (m, NoCmd)
  }

  /** The selected feed index addresses a configured feed, or is 0 when none
      is configured. */
  predicate FeedSelectionInRange(m: Model) {
    m.currentFeed <= Max(|m.config.feeds| - 1, 0)
  }

  /** In the article list the cursor addresses an item of the selected
      channel, or is 0 when it has none. */
  predicate ArticleCursorInRange(m: Model) {
    m.view == Articles && SelectedItems(m).Some? ==> m.cursor <= Max(|SelectedItems(m).value| - 1, 0)
  }

  /** Moving through the lists keeps both selections in range. */
  lemma UpDownKeepSelection(m: Model)
    requires FeedSelectionInRange(m) && ArticleCursorInRange(m)
    ensures FeedSelectionInRange(HandleDown(m).0) && ArticleCursorInRange(HandleDown(m).0)
    ensures FeedSelectionInRange(HandleUp(m).0) && ArticleCursorInRange(HandleUp(m).0)
  {
    assert HandleDown(m).0.config == m.config && HandleDown(m).0.feeds == m.feeds;
    assert HandleUp(m).0.config == m.config && HandleUp(m).0.feeds == m.feeds;
  }

  /** `handleEnter`: a feed whose channel has items opens its article list;
      an article in range starts loading with a request for its link. */
  function HandleEnter(m: Model): (r: (Model, Cmd))
    ensures m.view == FeedView && SelectedItems(m).Some? && |SelectedItems(m).value| > 0 ==>
              r == (m.(view := Articles, cursor := 0), NoCmd)
    ensures m.view == Articles && SelectedItems(m).Some? && m.cursor < |SelectedItems(m).value| ==>
              r == (m.(loading := true), LoadArticleCmd(SelectedItems(m).value[m.cursor].link))
    ensures !(m.view == FeedView && SelectedItems(m).Some? && |SelectedItems(m).value| > 0) &&
            !(m.view == Articles && SelectedItems(m).Some? && m.cursor < |SelectedItems(m).value|) ==>
              r == (m, NoCmd)
  {
    match m.view
    case FeedView =>
      (match SelectedItems(m)
       case Some(items) => if |items| > 0 then (m.(view := Articles, cursor := 0), NoCmd) else (m, NoCmd)
       case None => (m, NoCmd))
    case Articles =>
      (match SelectedItems(m)
       case Some(items) =>
         if m.cursor < |items| then (m.(loading := true), LoadArticleCmd(items[m.cursor].link)) else (m, NoCmd)
       case None => (m, NoCmd))
    case _ => (m, NoCmd)
  }

  /** `handleEscape`: one level back towards the landing screen. Leaving an
      article drops it and puts the cursor home but keeps the scroll offset. */
  function HandleEscape(m: Model): (r: (Model, Cmd))
    ensures r.1 == NoCmd
    ensures m.view == FeedView ==> r.0 == m.(view := Landing, cursor := 0)
    ensures m.view == Articles ==> r.0 == m.(view := FeedView, cursor := 0)
    ensures m.view == Content ==>
              r.0 == m.(view := Articles, articleContent := "", currentArticle := EmptyArticle(), cursorX := 0, cursorY := 0)
    ensures m.view == Manage ==> r.0 == m.(view := Landing, cursor := 0)
    ensures m.view == Landing ==> r.0 == m
  {
    match m.view
    case FeedView => (m.(view := Landing, cursor := 0), NoCmd)
    case Articles => (m.(view := FeedView, cursor := 0), NoCmd)
    case Content =>
      (m.(view := Articles, articleContent := "", currentArticle := EmptyArticle(), cursorX := 0, cursorY := 0), NoCmd)
    case Manage => (m.(view := Landing, cursor := 0), NoCmd)
    case Landing => (m, NoCmd)
  }

  /** Enter on a feed with articles and then Esc return to the feed list
      with the same feed selected; only the list cursor is reset. */
  lemma EnterThenEscape(m: Model)
    requires m.view == FeedView && SelectedItems(m).Some? && |SelectedItems(m).value| > 0
    ensures HandleEnter(m).0.view == Articles
    ensures HandleEscape(HandleEnter(m).0).0 == m.(cursor := 0)
  {
  }

  /** Esc out of an article and Enter again request the same article: the
      article list keeps the selection the article was opened from. */
  lemma EscapeThenEnter(m: Model)
    requires m.view == Content && SelectedItems(m).Some? && m.cursor < |SelectedItems(m).value|
    ensures var back := HandleEscape(m).0;
            && back.view == Articles && back.cursor == m.cursor
            && HandleEnter(back).1 == LoadArticleCmd(SelectedItems(m).value[m.cursor].link)
  {
    assert SelectedItems(HandleEscape(m).0) == SelectedItems(m);
  }

  /** The channel list with the read flag of item `k` of channel `i` flipped. */
  function FlipRead(feeds: seq<Channel>, i: nat, k: nat): (r: seq<Channel>)
    requires i < |feeds| && k < |feeds[i].items|
    ensures |r| == |feeds|
    ensures forall j :: 0 <= j < |feeds| && j != i ==> r[j] == feeds[j]
    ensures r[i] == feeds[i].(items := r[i].items)
    ensures |r[i].items| == |feeds[i].items|
    ensures r[i].items[k] == feeds[i].items[k].(read := !feeds[i].items[k].read)
    ensures forall j :: 0 <= j < |feeds[i].items| && j != k ==> r[i].items[j] == feeds[i].items[j]
  {
    var item := feeds[i].items[k];
    feeds[i := feeds[i].(items := feeds[i].items[k := item.(read := !item.read)])]
  }

  /** `toggleReadStatus`: in the article list, flip the selected article's
      read flag and record the new value in the read state, then ask for the
      state to be saved. Without a loaded channel or a selected item it does
      nothing. */
  function ToggleReadStatus(m: Model): (r: (Model, Cmd))
    ensures var items := SelectedItems(m);
            !(m.view == Articles && items.Some? && m.cursor < |items.value|) ==> r == (m, NoCmd)
    ensures var items := SelectedItems(m);
            m.view == Articles && items.Some? && m.cursor < |items.value| ==>
              var i := LoadedFeedIndex(m, m.currentFeed).value;
              var item := items.value[m.cursor];
              && r.0 == m.(feeds := FlipRead(m.feeds, i, m.cursor), state := r.0.state)
              && r.1 == SaveStateCmd(r.0.state)
              && IsRead(r.0.state, item.link) == !item.read
              && (forall u :: u != item.link ==> IsRead(r.0.state, u) == IsRead(m.state, u))
  {
    if m.view != Articles then (m, NoCmd)
    else match LoadedFeedIndex(m, m.currentFeed)
      case None => (m, NoCmd)
      case Some(i) =>
        if m.cursor >= |m.feeds[i].items| then (m, NoCmd)
        else
          var item := m.feeds[i].items[m.cursor];
          var state := if !item.read then MarkAsRead(m.state, item.link) else MarkUnread(m.state, item.link);
          (m.(feeds := FlipRead(m.feeds, i, m.cursor), state := state), SaveStateCmd(state))
  }

  /** After a toggle the item's flag and the read state agree. */
  lemma ToggleSyncsState(m: Model)
    requires m.view == Articles && SelectedItems(m).Some? && m.cursor < |SelectedItems(m).value|
    ensures var r := ToggleReadStatus(m).0;
            && SelectedItems(r).Some?
            && IsRead(r.state, SelectedItems(r).value[m.cursor].link) == SelectedItems(r).value[m.cursor].read
  {
    var i := LoadedFeedIndex(m, m.currentFeed).value;
    var r := ToggleReadStatus(m).0;
    FlipKeepsUrls(m.feeds, i, m.cursor);
    assert LoadedFeedIndex(r, r.currentFeed) == Some(i);
  }

  /** Flipping a read flag changes no channel's URL. */
  lemma FlipKeepsUrls(feeds: seq<Channel>, i: nat, k: nat)
    requires i < |feeds| && k < |feeds[i].items|
    ensures forall j :: 0 <= j < |feeds| ==> FlipRead(feeds, i, k)[j].feedUrl == feeds[j].feedUrl
    ensures forall u :: FindLoaded(FlipRead(feeds, i, k), u) == FindLoaded(feeds, u)
  {
    var r := FlipRead(feeds, i, k);
    forall u ensures FindLoaded(r, u) == FindLoaded(feeds, u) {
      FindLoadedSameUrls(r, feeds, u);
    }
  }

  /** `FindLoaded` looks only at the URLs. */
  lemma {:induction false} FindLoadedSameUrls(a: seq<Channel>, b: seq<Channel>, u: string)
    requires |a| == |b| && forall j :: 0 <= j < |a| ==> a[j].feedUrl == b[j].feedUrl
    ensures FindLoaded(a, u) == FindLoaded(b, u)
  {
    if a != [] && a[0].feedUrl != u {
      FindLoadedSameUrls(a[1..], b[1..], u);
    }
  }

  /** Toggling twice restores the channels. */
  lemma ToggleTwiceRestoresFeeds(m: Model)
    requires m.view == Articles && SelectedItems(m).Some? && m.cursor < |SelectedItems(m).value|
    ensures ToggleReadStatus(ToggleReadStatus(m).0).0.feeds == m.feeds
  {
    var i := LoadedFeedIndex(m, m.currentFeed).value;
    var r := ToggleReadStatus(m).0;
    FlipKeepsUrls(m.feeds, i, m.cursor);
    assert LoadedFeedIndex(r, r.currentFeed) == Some(i);
    var twice := FlipRead(r.feeds, i, m.cursor);
    assert twice[i].items == m.feeds[i].items;
    assert twice == m.feeds;
  }

  // ---- feed manager ----

  /** The text without its last character, if it has one. */
  function DropLast(s: string): (r: string)
    ensures s == [] ==> r == []
    ensures s != [] ==> r + [s[|s| - 1]] == s
  {
    if s == [] then s else s[..|s| - 1]
  }

  /** The active add-form field with `text` appended to it. */
  function AppendAddField(m: Model, text: string): (r: Model)
    ensures m.addFeedField == UrlField ==> r == m.(addFeedUrl := m.addFeedUrl + text)
    ensures m.addFeedField == CategoryField ==> r == m.(addFeedCat := m.addFeedCat + text)
    ensures m.addFeedField == TagsField ==> r == m.(addFeedTags := m.addFeedTags + text)
    ensures m.addFeedField == NoField ==> r == m
  {
    match m.addFeedField
    case UrlField => m.(addFeedUrl := m.addFeedUrl + text)
    case CategoryField => m.(addFeedCat := m.addFeedCat + text)
    case TagsField => m.(addFeedTags := m.addFeedTags + text)
    case NoField => m
  }

  /** The active add-form field with its last character removed. */
  function BackspaceAddField(m: Model): (r: Model)
    ensures m.addFeedField == UrlField ==> r == m.(addFeedUrl := DropLast(m.addFeedUrl))
    ensures m.addFeedField == CategoryField ==> r == m.(addFeedCat := DropLast(m.addFeedCat))
    ensures m.addFeedField == TagsField ==> r == m.(addFeedTags := DropLast(m.addFeedTags))
    ensures m.addFeedField == NoField ==> r == m
  {
    match m.addFeedField
    case UrlField => m.(addFeedUrl := DropLast(m.addFeedUrl))
    case CategoryField => m.(addFeedCat := DropLast(m.addFeedCat))
    case TagsField => m.(addFeedTags := DropLast(m.addFeedTags))
    case NoField => m
  }

  /** Whether a key is typed text: its name is a single byte long. */
  predicate IsTyped(key: string) {
    ByteLen(key) == 1
  }

  /** Every named key is longer than one byte, so it is never typed text. */
  lemma NamedKeysNotTyped()
    ensures !IsTyped("esc") && !IsTyped("tab") && !IsTyped("enter") && !IsTyped("ctrl+v") && !IsTyped("backspace")
  {
    assert "esc"[..2][..1] == "e";
  }

  const UrlRequired: string := "URL is required"

  /** The feed the add form describes. */
  function NewFeed(m: Model): (f: FeedConfig)
    ensures f.url == m.addFeedUrl && f.category == m.addFeedCat && f.tags == ParseTags(m.addFeedTags)
  {
    FeedConfig(m.addFeedUrl, m.addFeedCat, ParseTags(m.addFeedTags))
  }

  /** `handleAddFeedKeys`. */
  function HandleAddFeedKeys(m: Model, key: string): (r: (Model, Cmd))
    ensures key == "esc" ==> r == (m.(addingFeed := false, addFeedUrl := "", addFeedCat := "", addFeedTags := ""), NoCmd)
    ensures key == "tab" ==> r == (m.(addFeedField := NextField(m.addFeedField)), NoCmd)
    ensures key == "enter" && m.addFeedUrl == [] ==> r == (m.(err := Some(UrlRequired)), NoCmd)
    ensures key == "enter" && m.addFeedUrl != [] ==>
              && r.0 == m.(addingFeed := false, addFeedUrl := "", addFeedCat := "", addFeedTags := "")
              && r.1 == Batch([AddFeedCmd(NewFeed(m)), LoadFeedCmd(m.addFeedUrl)])
    ensures key == "ctrl+v" ==> r == (m, PasteCmd)
    ensures key == "backspace" ==> r == (BackspaceAddField(m), NoCmd)
    ensures key !in {"esc", "tab", "enter", "ctrl+v", "backspace"} ==>
              r == (if IsTyped(key) then AppendAddField(m, key) else m, NoCmd)
  {
    if key == "esc" then (m.(addingFeed := false, addFeedUrl := "", addFeedCat := "", addFeedTags := ""), NoCmd)
    else if key == "tab" then (m.(addFeedField := NextField(m.addFeedField)), NoCmd)
    else if key == "enter" then
      if m.addFeedUrl == [] then (m.(err := Some(UrlRequired)), NoCmd)
      else
        var feed := NewFeed(m);
        (m.(addingFeed := false, addFeedUrl := "", addFeedCat := "", addFeedTags := ""),
         Batch([AddFeedCmd(feed), LoadFeedCmd(feed.url)]))
    else if key == "ctrl+v" then (m, PasteCmd)
    else if key == "backspace" then (BackspaceAddField(m), NoCmd)
    else if IsTyped(key) then (AppendAddField(m, key), NoCmd)
    else (m, NoCmd)
  }

  /** Typing a character and then Backspace leaves the form as it was. */
  lemma TypeThenBackspace(m: Model, key: string)
    requires IsTyped(key) && key !in {"esc", "tab", "enter", "ctrl+v", "backspace"}
    ensures HandleAddFeedKeys(HandleAddFeedKeys(m, key).0, "backspace").0 == m
  {
    assert |key| == 1;
    assert (m.addFeedUrl + key)[..|m.addFeedUrl|] == m.addFeedUrl;
    assert (m.addFeedCat + key)[..|m.addFeedCat|] == m.addFeedCat;
    assert (m.addFeedTags + key)[..|m.addFeedTags|] == m.addFeedTags;
  }

  /** The field being edited applied to `feed`. */
  function ApplyEdit(feed: FeedConfig, field: Field, value: string): (r: FeedConfig)
    ensures field == UrlField ==> r == feed.(url := value)
    ensures field == CategoryField ==> r == feed.(category := value)
    ensures field == TagsField ==> r == feed.(tags := ParseTags(value))
    ensures field == NoField ==> r == feed
  {
    match field
    case UrlField => feed.(url := value)
    case CategoryField => feed.(category := value)
    case TagsField => feed.(tags := ParseTags(value))
    case NoField => feed
  }

  /** What the edit form shows for a field of `feed`. */
  function FieldText(feed: FeedConfig, field: Field): string {
    match field
    case UrlField => feed.url
    case CategoryField => feed.category
    case TagsField => Join(feed.tags, ", ")
    case NoField => ""
  }

  /** `handleEditFeedKeys`. Tab stores the field into the configuration held
      in memory (without saving) and shows the next field; Enter hands the
      edited feed to the update command. */
  function HandleEditFeedKeys(m: Model, key: string): (r: (Model, Cmd))
    ensures m.cursor >= |m.config.feeds| ==> r == (m.(editingFeed := false), NoCmd)
    ensures m.cursor < |m.config.feeds| ==>
              var feed := ApplyEdit(m.config.feeds[m.cursor], m.editField, m.editValue);
              && (key == "esc" ==> r == (m.(editingFeed := false, editField := NoField, editValue := ""), NoCmd))
              && (key == "tab" ==>
                    r == (m.(config := m.config.(feeds := m.config.feeds[m.cursor := feed]),
                             editField := NextField(m.editField),
                             editValue := if m.editField == NoField then m.editValue
                                          else FieldText(feed, NextField(m.editField))), NoCmd))
              && (key == "enter" ==>
                    r == (m.(editingFeed := false, editField := NoField, editValue := ""), UpdateFeedCmd(m.cursor, feed)))
              && (key == "ctrl+v" ==> r == (m, PasteCmd))
              && (key == "backspace" ==> r == (m.(editValue := DropLast(m.editValue)), NoCmd))
              && (key !in {"esc", "tab", "enter", "ctrl+v", "backspace"} ==>
                    r == (if IsTyped(key) then m.(editValue := m.editValue + key) else m, NoCmd))
  {
    if m.cursor >= |m.config.feeds| then (m.(editingFeed := false), NoCmd)
    else
      var feed := m.config.feeds[m.cursor];
      if key == "esc" then (m.(editingFeed := false, editField := NoField, editValue := ""), NoCmd)
      else if key == "tab" then
        var edited := ApplyEdit(feed, m.editField, m.editValue);
        var value := match m.editField
          case UrlField => edited.category
          case CategoryField => Join(edited.tags, ", ")
          case TagsField => edited.url
          case NoField => m.editValue;
        (m.(config := m.config.(feeds := m.config.feeds[m.cursor := edited]),
            editField := NextField(m.editField), editValue := value), NoCmd)
      else if key == "enter" then
        (m.(editingFeed := false, editField := NoField, editValue := ""),
         UpdateFeedCmd(m.cursor, ApplyEdit(feed, m.editField, m.editValue)))
      else if key == "ctrl+v" then (m, PasteCmd)
      else if key == "backspace" then (m.(editValue := DropLast(m.editValue)), NoCmd)
      else if IsTyped(key) then (m.(editValue := m.editValue + key), NoCmd)
      else (m, NoCmd)
  }

  /** One Tab over a field whose text already matches the stored feed:
      the stored feed stays and the next field's text is shown. */
  lemma TabKeepsStoredFeed(m: Model)
    requires m.cursor < |m.config.feeds| && m.editField != NoField
    requires ApplyEdit(m.config.feeds[m.cursor], m.editField, m.editValue) == m.config.feeds[m.cursor]
    ensures HandleEditFeedKeys(m, "tab").0
            == m.(editField := NextField(m.editField), editValue := FieldText(m.config.feeds[m.cursor], NextField(m.editField)))
  {
    assert m.config.feeds[m.cursor := m.config.feeds[m.cursor]] == m.config.feeds;
  }

  /** Tabbing through all three fields without typing leaves the feed as it
      was, provided its tags read back unchanged. */
  lemma EditTabCycleKeepsFeed(m: Model)
    requires m.cursor < |m.config.feeds| && m.editField == UrlField
    requires m.editValue == m.config.feeds[m.cursor].url
    requires var tags := m.config.feeds[m.cursor].tags;
             tags != [""] && forall i :: 0 <= i < |tags| ==> ',' !in tags[i] && Trimmed(tags[i])
    ensures var m3 := HandleEditFeedKeys(HandleEditFeedKeys(HandleEditFeedKeys(m, "tab").0, "tab").0, "tab").0;
            m3 == m
  {
    var feed := m.config.feeds[m.cursor];
    TabKeepsStoredFeed(m);
    var m1 := HandleEditFeedKeys(m, "tab").0;
    assert m1 == m.(editField := CategoryField, editValue := feed.category);
    TabKeepsStoredFeed(m1);
    var m2 := HandleEditFeedKeys(m1, "tab").0;
    assert m2 == m.(editField := TagsField, editValue := Join(feed.tags, ", "));
    TagsRoundTrip(feed.tags);
    TabKeepsStoredFeed(m2);
  }

  /** `handleFeedManagementKeys`: an open form takes the key; otherwise the
      manager moves its cursor, opens a form, or asks for a delete or reload. */
  function HandleFeedManagementKeys(m: Model, key: string): (r: (Model, Cmd))
    ensures m.addingFeed ==> r == HandleAddFeedKeys(m, key)
    ensures !m.addingFeed && m.editingFeed ==> r == HandleEditFeedKeys(m, key)
    ensures !m.addingFeed && !m.editingFeed ==>
              && (key == "esc" ==> r == (m.(view := FeedView, cursor := 0), NoCmd))
              && (key == "j" || key == "down" ==>
                    r == (m.(cursor := if m.cursor < |m.config.feeds| - 1 then m.cursor + 1 else m.cursor), NoCmd))
              && (key == "k" || key == "up" ==>
                    r == (m.(cursor := if m.cursor > 0 then m.cursor - 1 else 0), NoCmd))
              && (key == "a" ==>
                    r == (m.(addingFeed := true, addFeedUrl := "", addFeedCat := "", addFeedTags := "", addFeedField := UrlField), NoCmd))
              && (key == "e" && m.cursor < |m.config.feeds| ==>
                    r == (m.(editingFeed := true, editField := UrlField, editValue := m.config.feeds[m.cursor].url), NoCmd))
              && (key == "d" && m.cursor < |m.config.feeds| ==> r == (m, DeleteFeedCmd(m.cursor)))
              && (key == "r" ==> r == (m, LoadConfigCmd))
              && ((key == "e" || key == "d") && m.cursor >= |m.config.feeds| ==> r == (m, NoCmd))
              && (key !in {"esc", "j", "down", "k", "up", "a", "e", "d", "r"} ==> r == (m, NoCmd))
  {
    if m.addingFeed then HandleAddFeedKeys(m, key)
    else if m.editingFeed then HandleEditFeedKeys(m, key)
    else if key == "esc" then (m.(view := FeedView, cursor := 0), NoCmd)
    else if key == "j" || key == "down" then
      if m.cursor < |m.config.feeds| - 1 then (m.(cursor := m.cursor + 1), NoCmd) else (m, NoCmd)
    else if key == "k" || key == "up" then
      if m.cursor > 0 then (m.(cursor := m.cursor - 1), NoCmd) else (m, NoCmd)
    else if key == "a" then
      (m.(addingFeed := true, addFeedUrl := "", addFeedCat := "", addFeedTags := "", addFeedField := UrlField), NoCmd)
    else if key == "e" then
      if m.cursor < |m.config.feeds| then
        (m.(editingFeed := true, editField := UrlField, editValue := m.config.feeds[m.cursor].url), NoCmd)
      else (m, NoCmd)
    else if key == "d" then
      if m.cursor < |m.config.feeds| then (m, DeleteFeedCmd(m.cursor)) else (m, NoCmd)
    else if key == "r" then (m, LoadConfigCmd)
    else (m, NoCmd)
  }

  // ---- article view ----

  /** `openLinkUnderCursor`: the lenient tester's link, if any, is opened. */
  function OpenLinkUnderCursor(w: WidthFn, m: Model): (r: (Model, Cmd))
    ensures r.0 == m
    ensures r.1 == NoCmd || r.1.OpenLinkCmd?
    ensures r.1.OpenLinkCmd? <==> FindLinkLenient(w, m.view == Content, m.articleLines, m.articleLinks,
                                                   m.scrollOffset, m.cursorX, m.cursorY).Some?
    ensures r.1.OpenLinkCmd? ==>
              exists k :: 0 <= k < |m.articleLinks| && m.articleLinks[k].url == r.1.url
                          && m.articleLinks[k].line == m.scrollOffset + m.cursorY
    ensures r.1.OpenLinkCmd? ==>
              r.1.url == FindLinkLenient(w, m.view == Content, m.articleLines, m.articleLinks,
                                         m.scrollOffset, m.cursorX, m.cursorY).value.url
  {
    match FindLinkLenient(w, m.view == Content, m.articleLines, m.articleLinks, m.scrollOffset, m.cursorX, m.cursorY)
    case None => (m, NoCmd)
    case Some(l) => (m, OpenLinkCmd(l.url))
  }

  /** `copyLinkUnderCursor`: the same link, copied instead. */
  function CopyLinkUnderCursor(w: WidthFn, m: Model): (r: (Model, Cmd))
    ensures r.0 == m
    ensures r.1 == NoCmd || r.1.CopyLinkCmd?
    ensures r.1.CopyLinkCmd? <==> FindLinkLenient(w, m.view == Content, m.articleLines, m.articleLinks,
                                                   m.scrollOffset, m.cursorX, m.cursorY).Some?
    ensures r.1.CopyLinkCmd? ==>
              exists k :: 0 <= k < |m.articleLinks| && m.articleLinks[k].url == r.1.url
                          && m.articleLinks[k].line == m.scrollOffset + m.cursorY
    ensures r.1.CopyLinkCmd? ==>
              r.1.url == FindLinkLenient(w, m.view == Content, m.articleLines, m.articleLinks,
                                         m.scrollOffset, m.cursorX, m.cursorY).value.url
  {
    match FindLinkLenient(w, m.view == Content, m.articleLines, m.articleLinks, m.scrollOffset, m.cursorX, m.cursorY)
    case None => (m, NoCmd)
    case Some(l) => (m, CopyLinkCmd(l.url))
  }

  /** The keys the article view handles itself. */
  predicate IsContentKey(key: string) {
    key in {"j", "down", "k", "up", "h", "left", "l", "right", "ctrl+u", "ctrl+d", "g", "G", "o", "c"}
  }

  /** The article view's own keys: cursor moves, half-page scrolling, top
      and bottom, and opening or copying the link under the cursor. */
  function HandleContentKey(w: WidthFn, m: Model, key: string): (r: (Model, Cmd))
    requires IsContentKey(key)
    ensures key == "j" || key == "down" ==> r == ContentDown(w, m)
    ensures key == "k" || key == "up" ==> r == ContentUp(w, m)
    ensures key == "h" || key == "left" ==> r == ContentLeft(m)
    ensures key == "l" || key == "right" ==> r == ContentRight(w, m)
    ensures key == "ctrl+u" ==> r == ScrollPageUp(m)
    ensures key == "ctrl+d" ==> r == ScrollPageDown(m)
    ensures key == "g" ==> r == (GoTop(m), NoCmd)
    ensures key == "G" ==> r == (GoBottom(m), NoCmd)
    ensures key == "o" ==> r == OpenLinkUnderCursor(w, m)
    ensures key == "c" ==> r == CopyLinkUnderCursor(w, m)
    ensures key !in {"o", "c"} ==> r.1 == NoCmd
  {
    if key == "j" || key == "down" then ContentDown(w, m)
    else if key == "k" || key == "up" then ContentUp(w, m)
    else if key == "h" || key == "left" then ContentLeft(m)
    else if key == "l" || key == "right" then ContentRight(w, m)
    else if key == "ctrl+u" then ScrollPageUp(m)
    else if key == "ctrl+d" then ScrollPageDown(m)
    else if key == "g" then (GoTop(m), NoCmd)
    else if key == "G" then (GoBottom(m), NoCmd)
    else if key == "o" then OpenLinkUnderCursor(w, m)
    else CopyLinkUnderCursor(w, m)
  }

  /** The keys every screen but the manager shares. */
  function HandleGeneralKey(m: Model, key: string): (r: (Model, Cmd))
    ensures key == "q" || key == "ctrl+c" ==> r == (m, Quit)
    ensures key == "j" || key == "down" ==> r == HandleDown(m)
    ensures key == "k" || key == "up" ==> r == HandleUp(m)
    ensures key == "enter" ==> r == HandleEnter(m)
    ensures key == "esc" ==> r == HandleEscape(m)
    ensures key == "s" ==> r == (m, SaveStateCmd(m.state))
    ensures key == "m" && (m.view == Landing || m.view == FeedView) ==> r == (m.(view := Manage, cursor := 0), NoCmd)
    ensures key == "m" && m.view == Articles ==> r == ToggleReadStatus(m)
    ensures key == "f" && m.view == Landing ==> r == (m.(view := FeedView, cursor := 0), NoCmd)
    ensures key == "f" && m.view == FeedView ==> r == (m.(view := Manage, cursor := 0), NoCmd)
    ensures key == "f" && m.view == Articles ==> r == (m, NoCmd)
    ensures (key == "m" || key == "f") && (m.view == Content || m.view == Manage) ==> r == (m, NoCmd)
    ensures key !in {"q", "ctrl+c", "j", "down", "k", "up", "enter", "esc", "m", "s", "f"} ==> r == (m, NoCmd)
  {
    if key == "q" || key == "ctrl+c" then (m, Quit)
    else if key == "j" || key == "down" then HandleDown(m)
    else if key == "k" || key == "up" then HandleUp(m)
    else if key == "enter" then HandleEnter(m)
    else if key == "esc" then HandleEscape(m)
    else if key == "m" then
      if m.view == Landing || m.view == FeedView then (m.(view := Manage, cursor := 0), NoCmd)
      else if m.view == Articles then ToggleReadStatus(m)
      else (m, NoCmd)
    else if key == "s" then (m, SaveStateCmd(m.state))
    else if key == "f" then
      if m.view == Landing then (m.(view := FeedView, cursor := 0), NoCmd)
      else if m.view == FeedView then (m.(view := Manage, cursor := 0), NoCmd)
      else (m, NoCmd)
    else (m, NoCmd)
  }

  /** `handleKeyMsg`: ignored while loading; the manager takes every key;
      the article view takes its own keys first; the rest is shared. */
  function HandleKeyMsg(w: WidthFn, m: Model, key: string): (r: (Model, Cmd))
    ensures m.loading ==> r == (m, NoCmd)
    ensures !m.loading && m.view == Manage ==> r == HandleFeedManagementKeys(m, key)
    ensures !m.loading && m.view == Content && IsContentKey(key) ==> r == HandleContentKey(w, m, key)
    ensures !m.loading && m.view != Manage && !(m.view == Content && IsContentKey(key)) ==> r == HandleGeneralKey(m, key)
  {
    if m.loading then (m, NoCmd)
    else if m.view == Manage then HandleFeedManagementKeys(m, key)
    else if m.view == Content && IsContentKey(key) then HandleContentKey(w, m, key)
    else HandleGeneralKey(m, key)
  }

  /** From the manager no key leads straight to the landing screen: its own
      Esc goes to the feed list, so the manager case of `handleEscape` is
      never used. */
  lemma ManagerNeverReachesLanding(w: WidthFn, m: Model, key: string)
    requires m.view == Manage
    ensures HandleKeyMsg(w, m, key).0.view == Manage || HandleKeyMsg(w, m, key).0.view == FeedView
  {
  }

  /** In the article view, `q` still quits and Esc goes back to the list. */
  lemma ContentFallsThroughToGeneral(w: WidthFn, m: Model)
    requires !m.loading && m.view == Content
    ensures HandleKeyMsg(w, m, "q") == (m, Quit)
    ensures HandleKeyMsg(w, m, "esc").0.view == Articles
  {
    assert !IsContentKey("q") && !IsContentKey("esc");
  }
}
