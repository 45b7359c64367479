/**
  One refresh cycle (the `refresh` closure of `main`): collect the items,
  render the feed, load the state, detect the new ids and record the
  current ones.

  Writing the feed file and saving the state file are the cycle's results:
  on success it hands back the document and the state object to be written;
  on failure it hands back neither, as the source writes nothing once
  `collect_items` or `build_rss` has raised. The clock is the two formatted
  times `now` (RFC 2822) and `isoNow` (ISO 8601).
*/
module Cycle {
  import opened Wrappers
  import opened Fetcher
  import opened Feed
  import opened Collector
  import opened State

  datatype CycleError = CollectFailed(collect: CollectError) | RenderFailed(render: RenderError)

  /** What one successful cycle writes and reports. */
  datatype Report<Id> = Report(feed: string, state: Entries<Id>, newIds: seq<Id>, count: nat)

  /** `[item["id"] for item in items]`. */
  function IdsOf<Id>(items: seq<Item<Id>>): (ids: seq<Id>)
    ensures |ids| == |items|
    ensures forall k :: 0 <= k < |items| ==> ids[k] == items[k].id
  {
    seq(|items|, k requires 0 <= k < |items| => items[k].id)
  }

  method Refresh<Id(==)>(top: Outcome<seq<Summary<Id>>>, fetchDetail: Id -> Outcome<Detail>, format: string -> string,
                         limit: int, now: string, isoNow: string, stateFile: Option<Entries<Id>>)
    returns (r: Result<Report<Id>, CycleError>)
    ensures var collected := Collected(top, fetchDetail, format, now, limit);
      collected.Err? ==> r == Err(CollectFailed(collected.error))
    ensures var collected := Collected(top, fetchDetail, format, now, limit);
      collected.Ok? && RenderFeed(collected.value, now).Err? ==> r == Err(RenderFailed(RenderFeed(collected.value, now).error))
    ensures var collected := Collected(top, fetchDetail, format, now, limit);
      collected.Ok? && RenderFeed(collected.value, now).Ok? ==>
        var items := collected.value;
        var loaded := LoadState(stateFile);
        r == Ok(Report(RenderFeed(items, now).value,
                       Recorded(loaded, IdsOf(items), isoNow),
                       NewIds(IdsOf(items), PreviousIds(loaded)),
                       |items|))
  {
    var collected := CollectItems(top, fetchDetail, format, now, limit);
    if collected.Err? {
      return Err(CollectFailed(collected.error));
    }
    var items := collected.value;
    var rss := BuildRss(items, now);
    if rss.Err? {
      return Err(RenderFailed(rss.error));
    }
    var state := new StateDict.Load(stateFile);
    var previousIds := state.Previous();
    var currentIds := IdsOf(items);
    var newIds := NewIds(currentIds, previousIds);
    state.Record(currentIds, isoNow);
    r := Ok(Report(rss.value, state.entries, newIds, |items|));
  }

  // ---------------------------------------------------------------------------
  // Properties of a cycle.

  /**
    After a successful cycle the state's `latest_ids` are the reported items'
    ids, every other key of the old state survives, and an id is reported new
    exactly when it is current and was not in the old `latest_ids`.
  */
  lemma CycleState<Id>(items: seq<Item<Id>>, stateFile: Option<Entries<Id>>, isoNow: string, x: Id)
    ensures var loaded := LoadState(stateFile);
      var after := Recorded(loaded, IdsOf(items), isoNow);
      && after[LATEST_IDS] == IdList(IdsOf(items))
      && (forall key :: key in loaded && key != LATEST_IDS && key != UPDATED_AT ==> key in after && after[key] == loaded[key])
      && (x in NewIds(IdsOf(items), PreviousIds(loaded)) <==>
            (exists k :: 0 <= k < |items| && items[k].id == x) && x !in PreviousIds(loaded))
  {
    var loaded := LoadState(stateFile);
    RecordedKeepsOthers(loaded, IdsOf(items), isoNow);
    NewIdsMembers(IdsOf(items), PreviousIds(loaded), x);
    if x in IdsOf(items) {
      var k :| 0 <= k < |items| && IdsOf(items)[k] == x;
      assert items[k].id == x;
    }
  }

  /** The next cycle's previous ids are this cycle's ids. */
  lemma NextCycleSeesThisOne<Id>(items: seq<Item<Id>>, stateFile: Option<Entries<Id>>, isoNow: string)
    ensures PreviousIds(LoadState(Some(Recorded(LoadState(stateFile), IdsOf(items), isoNow))))
      == set k | 0 <= k < |items| :: items[k].id
  {
    RecordedPrevious(LoadState(stateFile), IdsOf(items), isoNow);
  }
}
