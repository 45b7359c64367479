/**
  The persisted state and new-article detection (`load_state` and the state
  part of `refresh`).

  Reading and writing the JSON file is left to the caller: the file's decoded
  object is an optional map (None when the file does not exist). The loaded
  object is a StateDict whose entries `refresh` rewrites in place.
*/
module State {
  import opened Wrappers

  const LATEST_IDS := "latest_ids"
  const UPDATED_AT := "updated_at"

  /** A value of the state object: a list of ids, a text, or any other JSON value. */
  datatype Value<Id> = IdList(ids: seq<Id>) | Text(text: string) | Other

  type Entries<Id> = map<string, Value<Id>>

  /** `load_state`: the file's object, or `{}` when the file is missing. */
  function LoadState<Id>(file: Option<Entries<Id>>): Entries<Id> {
    if file.Some? then file.value else map[]
  }

  /** `set(state.get("latest_ids", []))`. */
  function PreviousIds<Id(==)>(entries: Entries<Id>): (r: set<Id>)
    ensures LATEST_IDS in entries && entries[LATEST_IDS].IdList? ==>
      forall k :: 0 <= k < |entries[LATEST_IDS].ids| ==> entries[LATEST_IDS].ids[k] in r
    ensures !(LATEST_IDS in entries && entries[LATEST_IDS].IdList?) ==> r == {}
  {
    if LATEST_IDS in entries && entries[LATEST_IDS].IdList? then
      set k | 0 <= k < |entries[LATEST_IDS].ids| :: entries[LATEST_IDS].ids[k]
    else {}
  }

  /** The current ids that were not seen before, in current order. */
  function NewIds<Id(==)>(current: seq<Id>, previous: set<Id>): (r: seq<Id>)
    ensures |r| <= |current|
    ensures forall i :: 0 <= i < |r| ==> r[i] in current && r[i] !in previous
  {
    if current == [] then []
    else
      var last := current[|current| - 1];
      NewIds(current[..|current| - 1], previous) + (if last !in previous then [last] else [])
  }

  /** The entries after `refresh`: only `latest_ids` and `updated_at` are written. */
  function Recorded<Id>(entries: Entries<Id>, current: seq<Id>, now: string): Entries<Id> {
    entries[LATEST_IDS := IdList(current)][UPDATED_AT := Text(now)]
  }

  class StateDict<Id(==)> {
    var entries: Entries<Id>

    constructor Load(file: Option<Entries<Id>>)
      ensures entries == LoadState(file)
    {
      entries := LoadState(file);
    }

    function Previous(): set<Id>
      reads this
    {
      PreviousIds(entries)
    }

    /** `state["latest_ids"] = current_ids` and `state["updated_at"] = now`. */
    method Record(current: seq<Id>, now: string)
      modifies this
      ensures entries == Recorded(old(entries), current, now)
    {
      entries := entries[LATEST_IDS := IdList(current)];
      entries := entries[UPDATED_AT := Text(now)];
    }
  }

  // ---------------------------------------------------------------------------
  // Properties.

  /** An id was seen before exactly when the stored `latest_ids` list holds it. */
  lemma PreviousIdsMembers<Id>(entries: Entries<Id>, x: Id)
    ensures x in PreviousIds(entries) <==>
      LATEST_IDS in entries && entries[LATEST_IDS].IdList? && x in entries[LATEST_IDS].ids
  {
    if LATEST_IDS in entries && entries[LATEST_IDS].IdList? && x in entries[LATEST_IDS].ids {
      var ids := entries[LATEST_IDS].ids;
      var k :| 0 <= k < |ids| && ids[k] == x;
    }
  }

  /** An id is new exactly when it is current and was not seen before. */
  lemma {:induction false} NewIdsMembers<Id>(current: seq<Id>, previous: set<Id>, x: Id)
    ensures x in NewIds(current, previous) <==> x in current && x !in previous
  {
    if current != [] {
      var init := current[..|current| - 1];
      NewIdsMembers(init, previous, x);
      assert current == init + [current[|current| - 1]];
    }
  }

  /** New ids keep the current order: detection distributes over concatenation. */
  lemma {:induction false} NewIdsAppend<Id>(a: seq<Id>, b: seq<Id>, previous: set<Id>)
    ensures NewIds(a + b, previous) == NewIds(a, previous) + NewIds(b, previous)
    decreases |b|
  {
    if b == [] {
      assert a + b == a;
    } else {
      var b' := b[..|b| - 1];
      assert (a + b)[..|a + b| - 1] == a + b';
      NewIdsAppend(a, b', previous);
    }
  }

  /** With nothing seen before (a missing state file), every current id is new. */
  lemma {:induction false} AllNewWhenNothingSeen<Id>(current: seq<Id>)
    ensures NewIds(current, {}) == current
  {
    if current != [] {
      AllNewWhenNothingSeen(current[..|current| - 1]);
    }
  }

  lemma MissingFileSeesNothing<Id>(current: seq<Id>)
    ensures NewIds(current, PreviousIds(LoadState<Id>(None))) == current
  {
    AllNewWhenNothingSeen(current);
  }

  /** Recording rewrites the two keys and keeps every other entry as it was. */
  lemma RecordedKeepsOthers<Id>(entries: Entries<Id>, current: seq<Id>, now: string)
    ensures var after := Recorded(entries, current, now);
      && after.Keys == entries.Keys + {LATEST_IDS, UPDATED_AT}
      && after[LATEST_IDS] == IdList(current)
      && after[UPDATED_AT] == Text(now)
      && forall key :: key in entries && key != LATEST_IDS && key != UPDATED_AT ==> after[key] == entries[key]
  {
  }

  /** After recording, the ids seen are exactly the current ones. */
  lemma RecordedPrevious<Id>(entries: Entries<Id>, current: seq<Id>, now: string)
    ensures PreviousIds(Recorded(entries, current, now)) == set k | 0 <= k < |current| :: current[k]
  {
    assert Recorded(entries, current, now)[LATEST_IDS] == IdList(current);
  }

  /** Two cycles: ids 1, 2, 3 and then 2, 3, 4 report 4 as the only new id. */
  lemma TwoCycles(entries: Entries<int>, now: string)
    ensures NewIds([2, 3, 4], PreviousIds(Recorded(entries, [1, 2, 3], now))) == [4]
  {
    var first: seq<int> := [1, 2, 3];
    RecordedPrevious(entries, first, now);
    var seen := PreviousIds(Recorded(entries, first, now));
    assert seen == {1, 2, 3} by {
      assert first[0] == 1 && first[1] == 2 && first[2] == 3;
    }
    var second: seq<int> := [2, 3, 4];
    assert second[..2] == [2, 3] && second[..2][..1] == [2] && second[..1][..0] == [];
    assert NewIds(second[..1], seen) == [];
    assert NewIds(second[..2], seen) == [];
  }
}
