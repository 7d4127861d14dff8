/** The commands that change the list of configured feeds. Each edits the
    shared configuration, asks for it to be saved and reports back with a
    message. Saving is a parameter: `saveErr` is what the save returned. */
module Commands {
  import opened Common
  import opened Storage
  import opened TuiModel

  const InvalidIndex: string := "invalid feed index"

  /** `AddFeedToConfig`: the feed goes to the end of the list. */
  function AddFeedToConfig(config: Config, feed: FeedConfig, saveErr: Option<string>): (r: (Config, Msg))
    ensures r.0 == config.(feeds := r.0.feeds)
    ensures |r.0.feeds| == |config.feeds| + 1
    ensures r.0.feeds[..|config.feeds|] == config.feeds && r.0.feeds[|config.feeds|] == feed
    ensures r.1 == FeedAddedMsg(feed, saveErr)
  {
    (config.(feeds := config.feeds + [feed]), FeedAddedMsg(feed, saveErr))
  }

  /** `DeleteFeedFromConfig`: an index outside the list is an error and
      nothing is saved; otherwise the feed at the index goes and the others
      keep their order. */
  function DeleteFeedFromConfig(config: Config, index: int, saveErr: Option<string>): (r: (Config, Msg))
    ensures r.0 == config.(feeds := r.0.feeds)
    ensures !(0 <= index < |config.feeds|) ==> r == (config, FeedDeletedMsg(index, Some(InvalidIndex)))
    ensures 0 <= index < |config.feeds| ==>
              && |r.0.feeds| == |config.feeds| - 1
              && (forall k :: 0 <= k < index ==> r.0.feeds[k] == config.feeds[k])
              && (forall k :: index <= k < |r.0.feeds| ==> r.0.feeds[k] == config.feeds[k + 1])
              && r.1 == FeedDeletedMsg(index, saveErr)
  {
    if index < 0 || index >= |config.feeds| then (config, FeedDeletedMsg(index, Some(InvalidIndex)))
    else (config.(feeds := config.feeds[..index] + config.feeds[index + 1..]), FeedDeletedMsg(index, saveErr))
  }

  /** `UpdateFeedInConfig`: an index outside the list is an error; otherwise
      only the feed at the index is replaced. */
  function UpdateFeedInConfig(config: Config, index: int, feed: FeedConfig, saveErr: Option<string>): (r: (Config, Msg))
    ensures r.0 == config.(feeds := r.0.feeds)
    ensures !(0 <= index < |config.feeds|) ==> r == (config, FeedUpdatedMsg(index, feed, Some(InvalidIndex)))
    ensures 0 <= index < |config.feeds| ==>
              && |r.0.feeds| == |config.feeds|
              && r.0.feeds[index] == feed
              && (forall k :: 0 <= k < |config.feeds| && k != index ==> r.0.feeds[k] == config.feeds[k])
              && r.1 == FeedUpdatedMsg(index, feed, saveErr)
  {
    if index < 0 || index >= |config.feeds| then (config, FeedUpdatedMsg(index, feed, Some(InvalidIndex)))
    else (config.(feeds := config.feeds[index := feed]), FeedUpdatedMsg(index, feed, saveErr))
  }

  /** Deleting the feed just added restores the configuration. */
  lemma DeleteUndoesAdd(config: Config, feed: FeedConfig, e1: Option<string>, e2: Option<string>)
    ensures DeleteFeedFromConfig(AddFeedToConfig(config, feed, e1).0, |config.feeds|, e2).0 == config
  {
    var added := AddFeedToConfig(config, feed, e1).0;
    assert added.feeds[..|config.feeds|] + added.feeds[|config.feeds| + 1..] == config.feeds;
  }

  /** A delete removes exactly one occurrence of the deleted feed. */
  lemma DeleteRemovesOne(config: Config, index: int, saveErr: Option<string>)
    requires 0 <= index < |config.feeds|
    ensures multiset(DeleteFeedFromConfig(config, index, saveErr).0.feeds) + multiset{config.feeds[index]}
            == multiset(config.feeds)
  {
    var f := config.feeds;
    assert f == f[..index] + [f[index]] + f[index + 1..];
  }

  /** Writing back the old value undoes an update. */
  lemma UpdateUndone(config: Config, index: int, feed: FeedConfig, e1: Option<string>, e2: Option<string>)
    requires 0 <= index < |config.feeds|
    ensures UpdateFeedInConfig(UpdateFeedInConfig(config, index, feed, e1).0, index, config.feeds[index], e2).0 == config
  {
    var once := UpdateFeedInConfig(config, index, feed, e1).0;
    assert once.feeds[index := config.feeds[index]] == config.feeds;
  }

  /** The runtime's execution of a list command. The command was built over
      the model's configuration pointer, so the handler of its message sees
      the edited list; `saveErr` is what saving returned. */
  function RunConfigCmd(m: Model, cmd: Cmd, saveErr: Option<string>): (r: (Model, Msg))
    requires cmd.AddFeedCmd? || cmd.DeleteFeedCmd? || cmd.UpdateFeedCmd?
    ensures r.0 == m.(config := r.0.config)
    ensures cmd.AddFeedCmd? ==> r == (m.(config := AddFeedToConfig(m.config, cmd.feed, saveErr).0),
                                        AddFeedToConfig(m.config, cmd.feed, saveErr).1)
    ensures cmd.DeleteFeedCmd? ==> r == (m.(config := DeleteFeedFromConfig(m.config, cmd.index, saveErr).0),
                                           DeleteFeedFromConfig(m.config, cmd.index, saveErr).1)
    ensures cmd.UpdateFeedCmd? ==> r == (m.(config := UpdateFeedInConfig(m.config, cmd.index, cmd.feed, saveErr).0),
                                           UpdateFeedInConfig(m.config, cmd.index, cmd.feed, saveErr).1)
  {
    var (c, msg) := match cmd
      case AddFeedCmd(f) => AddFeedToConfig(m.config, f, saveErr)
      case DeleteFeedCmd(i) => DeleteFeedFromConfig(m.config, i, saveErr)
      case UpdateFeedCmd(i, f) => UpdateFeedInConfig(m.config, i, f, saveErr);
    (m.(config := c), msg)
  }
}
