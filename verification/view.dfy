/** Which screen `View` draws for a model, and the article counts shown on
    the landing page. Drawing itself (styles, borders, layout) is not
    modelled; a screen names what is drawn and the values it is drawn from. */
module ViewSelect {
  import opened Common
  import opened Text
  import opened Storage
  import opened Feed
  import opened TuiModel
  import opened Keys
  import opened Messages

  /** Terminals narrower than 40 columns are drawn as 80 wide. */
  function EffectiveWidth(width: int): (r: int)
    ensures r >= 40
    ensures width >= 40 <==> r == width
    ensures width < 40 ==> r == 80
  {
    if width < 40 then 80 else width
  }

  datatype Screen =
    | ErrorScreen(msg: string, width: int)
    | LoadingScreen(width: int)
    | LandingScreen(feedCount: nat, totalArticles: nat, readCount: nat, width: int, height: int)
    | FeedListScreen(currentFeed: nat, width: int)
    | ArticleListScreen(channel: Channel, cursor: nat, width: int)
    | FeedLoadingScreen(width: int)
    | NoFeedSelected
    | ContentScreen(title: string, width: int, height: int)
    | AddFormScreen(field: Field, width: int)
    | ManagerScreen(cursor: nat, width: int)

  // ---- landing page counts ----

  /** Items whose read flag is set. */
  function CountRead(items: seq<Item>): (r: nat)
    ensures r <= |items|
  {
    if items == [] then 0
    else CountRead(items[..|items| - 1]) + (if items[|items| - 1].read then 1 else 0)
  }

  /** Items over all channels. */
  function TotalItems(feeds: seq<Channel>): nat {
    if feeds == [] then 0 else TotalItems(feeds[..|feeds| - 1]) + |feeds[|feeds| - 1].items|
  }

  /** Read items over all channels. */
  function ReadItems(feeds: seq<Channel>): nat {
    if feeds == [] then 0 else ReadItems(feeds[..|feeds| - 1]) + CountRead(feeds[|feeds| - 1].items)
  }

  /** No more items are read than there are. */
  lemma {:induction false} ReadWithinTotal(feeds: seq<Channel>)
    ensures ReadItems(feeds) <= TotalItems(feeds)
  {
    if feeds != [] {
      ReadWithinTotal(feeds[..|feeds| - 1]);
    }
  }

  /** The landing page counts, computed the way `View` does: one pass over
      the channels and, inside it, one over each channel's items. */
  method LandingStats(feeds: seq<Channel>) returns (total: nat, readCount: nat)
    ensures total == TotalItems(feeds)
    ensures readCount == ReadItems(feeds)
    ensures readCount <= total
  {
    total, readCount := 0, 0;
    var i := 0;
    while i < |feeds|
      invariant 0 <= i <= |feeds|
      invariant total == TotalItems(feeds[..i])
      invariant readCount == ReadItems(feeds[..i])
    {
      var items := feeds[i].items;
      total := total + |items|;
      var j := 0;
      var before := readCount;
      while j < |items|
        invariant 0 <= j <= |items|
        invariant readCount == before + CountRead(items[..j])
      {
        if items[j].read {
          readCount := readCount + 1;
        }
        assert items[..j + 1][..j] == items[..j];
        j := j + 1;
      }
      assert items[..j] == items;
      assert feeds[..i + 1][..i] == feeds[..i];
      i := i + 1;
    }
    assert feeds[..i] == feeds;
    ReadWithinTotal(feeds);
  }

  /** Flipping one item's flag moves the read count of its list by one. */
  lemma {:induction false} CountReadFlip(items: seq<Item>, k: nat)
    requires k < |items|
    ensures var flipped := items[k := items[k].(read := !items[k].read)];
            CountRead(flipped) == CountRead(items) + (if items[k].read then -1 else 1)
  {
    var flipped := items[k := items[k].(read := !items[k].read)];
    var n := |items| - 1;
    if k == n {
      assert flipped[..n] == items[..n];
    } else {
      CountReadFlip(items[..n], k);
      assert flipped[..n] == items[..n][k := items[k].(read := !items[k].read)];
    }
  }

  /** Replacing one channel changes the totals by that channel's difference. */
  lemma {:induction false} ReplaceChannelCounts(feeds: seq<Channel>, i: nat, c: Channel)
    requires i < |feeds|
    ensures TotalItems(feeds[i := c]) == TotalItems(feeds) - |feeds[i].items| + |c.items|
    ensures ReadItems(feeds[i := c]) == ReadItems(feeds) - CountRead(feeds[i].items) + CountRead(c.items)
  {
    var n := |feeds| - 1;
    var replaced := feeds[i := c];
    if i == n {
      assert replaced[..n] == feeds[..n];
    } else {
      ReplaceChannelCounts(feeds[..n], i, c);
      assert replaced[..n] == feeds[..n][i := c];
    }
  }

  /** Toggling the selected article in the article list keeps the landing
      page's article count and moves its read count by exactly one. */
  lemma ToggleMovesReadCountByOne(m: Model)
    requires m.view == Articles && SelectedItems(m).Some? && m.cursor < |SelectedItems(m).value|
    ensures var r := ToggleReadStatus(m).0;
            var item := SelectedItems(m).value[m.cursor];
            && TotalItems(r.feeds) == TotalItems(m.feeds)
            && ReadItems(r.feeds) == ReadItems(m.feeds) + (if item.read then -1 else 1)
  {
    var i := LoadedFeedIndex(m, m.currentFeed).value;
    var items := m.feeds[i].items;
    var flipped := FlipRead(m.feeds, i, m.cursor);
    assert flipped == m.feeds[i := m.feeds[i].(items := items[m.cursor := items[m.cursor].(read := !items[m.cursor].read)])];
    ReplaceChannelCounts(m.feeds, i, flipped[i]);
    CountReadFlip(items, m.cursor);
  }

  // ---- screen selection ----

  /** `View`: an error hides everything, then a load in progress; otherwise
      the current view decides. The article list needs its channel to have
      arrived; until then a configured feed shows a loading line. */
  function ViewScreen(m: Model): (r: Screen)
    ensures m.err.Some? ==> r == ErrorScreen(m.err.value, EffectiveWidth(m.width))
    ensures m.err.None? && m.loading ==> r == LoadingScreen(EffectiveWidth(m.width))
    ensures r.ErrorScreen? <==> m.err.Some?
    ensures r.LoadingScreen? <==> m.err.None? && m.loading
    ensures m.err.None? && !m.loading ==> match m.view
              case Landing => r == LandingScreen(|m.config.feeds|, TotalItems(m.feeds), ReadItems(m.feeds),
                                                 EffectiveWidth(m.width), m.height)
              case FeedView => r == FeedListScreen(m.currentFeed, EffectiveWidth(m.width))
              case Articles =>
                (SelectedItems(m).Some? <==> r.ArticleListScreen?)
                && (r.ArticleListScreen? ==> r.channel.items == SelectedItems(m).value && r.cursor == m.cursor)
                && (r.FeedLoadingScreen? <==> SelectedItems(m).None? && m.currentFeed < |m.config.feeds|)
                && (r == NoFeedSelected <==> m.currentFeed >= |m.config.feeds|)
              case Content => r == ContentScreen(m.currentArticle.title, EffectiveWidth(m.width), m.height)
              case Manage =>
                r == (if m.addingFeed then AddFormScreen(m.addFeedField, EffectiveWidth(m.width))
                      else ManagerScreen(m.cursor, EffectiveWidth(m.width)))
  {
    var width := EffectiveWidth(m.width);
    if m.err.Some? then ErrorScreen(m.err.value, width)
    else if m.loading then LoadingScreen(width)
    else match m.view
      case Landing => LandingScreen(|m.config.feeds|, TotalItems(m.feeds), ReadItems(m.feeds), width, m.height)
      case FeedView => FeedListScreen(m.currentFeed, width)
      case Articles =>
        (match LoadedFeedIndex(m, m.currentFeed)
         case Some(i) => ArticleListScreen(m.feeds[i], m.cursor, width)
         case None => if m.currentFeed < |m.config.feeds| then FeedLoadingScreen(width) else NoFeedSelected)
      case Content => ContentScreen(m.currentArticle.title, width, m.height)
      case Manage => if m.addingFeed then AddFormScreen(m.addFeedField, width) else ManagerScreen(m.cursor, width)
  }

  /** When an article arrives the reader shows it, or the error that came
      instead of it. */
  lemma ArticleLoadShows(w: WidthFn, glamour: string -> Result<string>, m: Model, article: Article, err: Option<string>)
    ensures var r := HandleArticleLoad(w, glamour, m, article, err).0;
            ViewScreen(r) == (if err.Some? then ErrorScreen(err.value, EffectiveWidth(m.width))
                              else ContentScreen(article.title, EffectiveWidth(m.width), m.height))
  {
  }

  /** A recorded error stays on screen through key presses that only move
      around: none of the navigation keys clears it. */
  lemma ErrorSurvivesNavigation(w: WidthFn, m: Model, key: string)
    requires m.err.Some? && !m.loading && m.view != Manage
    requires key in {"j", "down", "k", "up"}
    ensures ViewScreen(HandleKeyMsg(w, m, key).0).ErrorScreen?
  {
  }
}
