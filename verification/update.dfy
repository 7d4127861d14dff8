/** `Update`, the single entry point of the terminal UI: every incoming
    message goes to its handler. Also the round trips through the runtime
    that involve two handlers. */
module TuiUpdate {
  import opened Common
  import opened Text
  import opened Storage
  import opened Feed
  import opened TuiModel
  import opened Keys
  import opened Messages
  import opened Commands

  /** The messages `Update` can be given: a successful delete never carries
      a negative index, because the delete command reports those as errors. */
  predicate WellFormedMsg(msg: Msg) {
    msg.FeedDeletedMsg? && msg.err.None? ==> msg.index >= 0
  }

  /** Every message the delete command sends is well formed. */
  lemma DeleteSendsWellFormed(config: Config, index: int, saveErr: Option<string>)
    ensures WellFormedMsg(DeleteFeedFromConfig(config, index, saveErr).1)
  {
  }

  function Update(w: WidthFn, glamour: string -> Result<string>, m: Model, msg: Msg): (r: (Model, Cmd))
    requires WellFormedMsg(msg)
    ensures msg.KeyMsg? ==> r == HandleKeyMsg(w, m, msg.key)
    ensures msg.FeedLoadMsg? ==> r == HandleFeedLoad(m, msg.channel)
    ensures msg.ArticleLoadMsg? ==> r == HandleArticleLoad(w, glamour, m, msg.article, msg.err)
    ensures msg.LinkOpenedMsg? || msg.LinkCopiedMsg? ==> r == (SetErr(m, msg.err), NoCmd)
    ensures msg.StateLoadMsg? ==> r == HandleStateLoad(m, msg.state)
    ensures msg.StateSaveMsg? ==> r == (SetErr(m, msg.err), NoCmd)
    ensures msg.ConfigLoadMsg? ==> r == HandleConfigLoad(m, msg.config)
    ensures msg.FeedAddedMsg? || msg.ConfigSavedMsg? ==> r == (ClearOrSetErr(m, msg.err), NoCmd)
    ensures msg.FeedDeletedMsg? ==> r == HandleFeedDeleted(m, msg.index, msg.err)
    ensures msg.FeedUpdatedMsg? ==> r == HandleFeedUpdated(m, msg.feed, msg.err)
    ensures msg.ClipboardPasteMsg? ==> r == HandleClipboardPaste(m, msg.content, msg.err)
    ensures msg.WindowSizeMsg? ==> r == (m.(width := msg.width, height := msg.height), NoCmd)
    ensures msg.FeedsLoadedMsg? || msg.OtherMsg? ==> r == (m, NoCmd)
  {
    match msg
    case KeyMsg(key) => HandleKeyMsg(w, m, key)
    case FeedLoadMsg(channel) => HandleFeedLoad(m, channel)
    case ArticleLoadMsg(article, err) => HandleArticleLoad(w, glamour, m, article, err)
    case LinkOpenedMsg(_, err) => (SetErr(m, err), NoCmd)
    case LinkCopiedMsg(_, err) => (SetErr(m, err), NoCmd)
    case StateLoadMsg(state) => HandleStateLoad(m, state)
    case StateSaveMsg(err) => (SetErr(m, err), NoCmd)
    case ConfigLoadMsg(config) => HandleConfigLoad(m, config)
    case FeedsLoadedMsg(_) => (m, NoCmd)
    case FeedAddedMsg(_, err) => (ClearOrSetErr(m, err), NoCmd)
    case FeedDeletedMsg(index, err) => HandleFeedDeleted(m, index, err)
    case FeedUpdatedMsg(_, feed, err) => HandleFeedUpdated(m, feed, err)
    case ConfigSavedMsg(err) => (ClearOrSetErr(m, err), NoCmd)
    case ClipboardPasteMsg(content, err) => HandleClipboardPaste(m, content, err)
    case WindowSizeMsg(width, height) => (m.(width := width, height := height), NoCmd)
    case OtherMsg => (m, NoCmd)
  }

  /** Window size changes touch nothing but the dimensions. */
  lemma ResizeOnlyResizes(w: WidthFn, glamour: string -> Result<string>, m: Model, width: int, height: int)
    ensures var r := Update(w, glamour, m, WindowSizeMsg(width, height)).0;
            r.width == width && r.height == height && r == m.(width := r.width, height := r.height)
  {
  }

  /** Deleting the selected feed in the manager: `d` issues the delete, the
      runtime edits the shared list, and the handler of the reply adjusts
      the cursor. The list loses exactly the selected feed even when saving
      fails; only on success is the cursor pulled back inside the list. */
  lemma DeleteRoundTrip(w: WidthFn, glamour: string -> Result<string>, m: Model, saveErr: Option<string>)
    requires !m.loading && m.view == Manage && !m.addingFeed && !m.editingFeed
    requires m.cursor < |m.config.feeds|
    ensures HandleKeyMsg(w, m, "d") == (m, DeleteFeedCmd(m.cursor))
    ensures var (m2, reply) := RunConfigCmd(m, DeleteFeedCmd(m.cursor), saveErr);
            && WellFormedMsg(reply)
            && var m3 := Update(w, glamour, m2, reply).0;
            && m3.config.feeds == m.config.feeds[..m.cursor] + m.config.feeds[m.cursor + 1..]
            && (saveErr.None? ==> m3.cursor <= Max(|m3.config.feeds| - 1, 0))
            && (saveErr.Some? ==> m3.cursor == m.cursor && m3.err == saveErr)
  {
    var (m2, reply) := RunConfigCmd(m, DeleteFeedCmd(m.cursor), saveErr);
    assert reply == FeedDeletedMsg(m.cursor, saveErr);
    var m3 := Update(w, glamour, m2, reply).0;
    assert m3.config == m2.config;
  }

  /** Adding a feed from the form: the feed is appended to the list and,
      once the reply arrives, any earlier error is cleared. */
  lemma AddRoundTrip(w: WidthFn, glamour: string -> Result<string>, m: Model)
    requires !m.loading && m.view == Manage && m.addingFeed && m.addFeedUrl != []
    ensures var (m1, cmd) := HandleKeyMsg(w, m, "enter");
            && cmd == Batch([AddFeedCmd(NewFeed(m)), LoadFeedCmd(m.addFeedUrl)])
            && var (m2, reply) := RunConfigCmd(m1, cmd.cmds[0], None);
            && var m3 := Update(w, glamour, m2, reply).0;
            && m3.config.feeds == m.config.feeds + [NewFeed(m)]
            && m3.err.None? && !m3.addingFeed
  {
  }

  // ---- the article read flag is set by position ----

  const ChanA: Channel := Channel("", "", "", "", [Item("", "u", "", false)], "", [], "a")
  const ChanB: Channel := Channel("", "", "", "", [], "", [], "b")

  /** Two configured feeds whose channels arrived in the opposite order, with
      the article list of the first feed open. */
  function SwappedModel(): (m: Model)
    ensures SelectedItems(m) == Some(ChanA.items)
  {
    var m := NewModel(0).(config := Config([FeedConfig("a", "", []), FeedConfig("b", "", [])], true, true, "", 60),
                          feeds := [ChanB, ChanA], view := Articles, loading := true);
    assert [ChanB, ChanA][1..] == [ChanA];
    assert FindLoaded([ChanA], "a") == Some(0);
    assert FindLoaded(m.feeds, "a") == Some(1);
    m
  }

  /** Opening the article of the first feed's only item marks it read in the
      read state, but the item shown in the article list keeps its unread
      flag: the handler marks items of the channel at the feed's position
      among the loaded channels, which here belongs to the other feed. */
  lemma ArticleLoadMarksByPosition(w: WidthFn, glamour: string -> Result<string>)
    ensures var m := SwappedModel();
            var r := HandleArticleLoad(w, glamour, m, Article("", "", "", "u"), None).0;
            && IsRead(r.state, "u")
            && SelectedItems(r).Some? && SelectedItems(r).value[0].link == "u"
            && !SelectedItems(r).value[0].read
  {
    var m := SwappedModel();
    var r := HandleArticleLoad(w, glamour, m, Article("", "", "", "u"), None).0;
    assert MarkFirstRead(ChanB.items, "u") == [];
    assert r.feeds == [ChanB, ChanA];
    assert LoadedFeedIndex(r, 0) == Some(1);
  }
}
