/** The application state of the terminal UI, the effects it can request,
    and the messages it receives. Every handler is a pure function from a
    `Model` (and a message) to a new `Model` and a `Cmd`. */
module TuiModel {
  import opened Common
  import opened Storage
  import opened Feed
  import opened LinkScan

  /** The screens; the Go code keeps them as the strings "landing", "feed",
      "articles", "content" and "manage". */
  datatype View = Landing | FeedView | Articles | Content | Manage

  /** A form field name: "" | "url" | "category" | "tags". */
  datatype Field = NoField | UrlField | CategoryField | TagsField

  /** `state` and `config` are never nil: the initial model sets both and every
      later assignment stores a value the loaders produced. */
  datatype Model = Model(
    state: AppState,
    config: Config,
    view: View,
    cursor: nat,
    feeds: seq<Channel>,
    currentFeed: nat,
    articleContent: string,
    currentArticle: Article,
    articleLines: seq<string>,
    articleLinks: seq<Link>,
    loading: bool,
    err: Option<string>,
    width: int,
    height: int,
    scrollOffset: int,
    cursorX: nat,
    cursorY: nat,
    editingFeed: bool,
    editField: Field,
    editValue: string,
    addingFeed: bool,
    addFeedUrl: string,
    addFeedCat: string,
    addFeedTags: string,
    addFeedField: Field)

  /** The effect a handler asks the runtime to perform, by name. */
  datatype Cmd =
    | NoCmd
    | Quit
    | SaveStateCmd(state: AppState)
    | LoadConfigCmd
    | LoadFeedCmd(url: string)
    | LoadArticleCmd(url: string)
    | OpenLinkCmd(url: string)
    | CopyLinkCmd(url: string)
    | PasteCmd
    | AddFeedCmd(feed: FeedConfig)
    | DeleteFeedCmd(index: int)
    | UpdateFeedCmd(index: int, feed: FeedConfig)
    | Batch(cmds: seq<Cmd>)

  /** Incoming events. A Go error is `Some(message)`. */
  datatype Msg =
    | KeyMsg(key: string)
    | FeedLoadMsg(channel: Result<Channel>)
    | ArticleLoadMsg(article: Article, err: Option<string>)
    | LinkOpenedMsg(url: string, err: Option<string>)
    | LinkCopiedMsg(url: string, err: Option<string>)
    | StateLoadMsg(state: Result<AppState>)
    | StateSaveMsg(err: Option<string>)
    | ConfigLoadMsg(config: Result<Config>)
    | FeedsLoadedMsg(count: int)
    | FeedAddedMsg(feed: FeedConfig, err: Option<string>)
    | FeedDeletedMsg(index: int, err: Option<string>)
    | FeedUpdatedMsg(index: int, feed: FeedConfig, err: Option<string>)
    | ConfigSavedMsg(err: Option<string>)
    | ClipboardPasteMsg(content: string, err: Option<string>)
    | WindowSizeMsg(width: int, height: int)
    | OtherMsg

  /** `NewModel`, with the clock reading `now` for the fresh state. */
  function NewModel(now: int): (m: Model)
    ensures m.view == Landing && !m.loading && m.err.None?
    ensures m.cursor == 0 && m.currentFeed == 0 && m.scrollOffset == 0 && m.cursorX == 0 && m.cursorY == 0
    ensures m.width == 80 && m.height == 24
    ensures !m.editingFeed && !m.addingFeed && m.addFeedField == UrlField && m.editField == NoField
    ensures m.editValue == [] && m.addFeedUrl == [] && m.addFeedCat == [] && m.addFeedTags == []
    ensures m.feeds == [] && m.articleLines == [] && m.articleLinks == [] && m.articleContent == []
    ensures forall u :: !IsRead(m.state, u)
    ensures m.config == DefaultConfig()
  {
    Model(NewAppState(now), DefaultConfig(), Landing, 0, [], 0, "", EmptyArticle(), [], [],
          false, None, 80, 24, 0, 0, 0, false, NoField, "", false, "", "", "", UrlField)
  }

  /** Index of the first loaded channel fetched from `url`. */
  function FindLoaded(feeds: seq<Channel>, url: string): (r: Option<nat>)
    ensures r.Some? ==> r.value < |feeds| && feeds[r.value].feedUrl == url
    ensures r.Some? ==> forall k :: 0 <= k < r.value ==> feeds[k].feedUrl != url
    ensures r.None? <==> forall k :: 0 <= k < |feeds| ==> feeds[k].feedUrl != url
  {
    if feeds == [] then None
    else if feeds[0].feedUrl == url then Some(0)
    else match FindLoaded(feeds[1..], url)
      case None => None
      case Some(k) => Some(k + 1)
  }

  /** `getLoadedFeedForConfigIndex`, as an index into `m.feeds`: none for an
      index outside the configured feeds, else the first channel loaded from
      that feed's URL. */
  function LoadedFeedIndex(m: Model, configIndex: int): (r: Option<nat>)
    ensures !(0 <= configIndex < |m.config.feeds|) ==> r.None?
    ensures 0 <= configIndex < |m.config.feeds| ==> r == FindLoaded(m.feeds, m.config.feeds[configIndex].url)
    ensures r.Some? ==> r.value < |m.feeds| && m.feeds[r.value].feedUrl == m.config.feeds[configIndex].url
  {
    if configIndex < 0 || configIndex >= |m.config.feeds| then None
    else FindLoaded(m.feeds, m.config.feeds[configIndex].url)
  }
}
