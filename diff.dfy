/** The aggregation and diff steps of main: the current dogs are indexed by
    id, and compared with the previous snapshot read from the table. */
module Diff {
  import opened Wrappers
  import opened Dogs

  /** A stored item: attribute name to value. */
  type Item = map<string, string>

  /** `{dog.dogid: dog for dog in dogs}`: the ids in first-insertion order
      (the order a Python dict iterates in) and the dog kept for each. */
  datatype CurrentState = CurrentState(order: seq<string>, byId: map<string, Dog>)

  predicate NoDup(xs: seq<string>) {
    forall i, j :: 0 <= i < j < |xs| ==> xs[i] != xs[j]
  }

  /** order lists the elements of s, each once: one of the orders a Python
      set may iterate in. */
  predicate Enumerates(order: seq<string>, s: set<string>) {
    NoDup(order) && (forall x :: x in order ==> x in s) && (forall x :: x in s ==> x in order)
  }

  /** A state whose order lists exactly its keys, once each. */
  predicate WellFormed(c: CurrentState) {
    && NoDup(c.order)
    && (forall id :: id in c.byId ==> id in c.order)
    && (forall id :: id in c.order ==> id in c.byId)
  }

  /** The dict comprehension over dogs: a later dog with the same id
      replaces the earlier one but keeps its place in the order. */
  function Index(dogs: seq<Dog>): CurrentState {
    if dogs == [] then CurrentState([], map[])
    else
      var c := Index(dogs[..|dogs| - 1]);
      var d := dogs[|dogs| - 1];
      if d.dogid in c.byId then CurrentState(c.order, c.byId[d.dogid := d])
      else CurrentState(c.order + [d.dogid], c.byId[d.dogid := d])
  }

  /** The dog whose id is last in dogs at position i: none after it shares
      its id. */
  predicate LastWithId(dogs: seq<Dog>, i: int) {
    0 <= i < |dogs| && forall j :: i < j < |dogs| ==> dogs[j].dogid != dogs[i].dogid
  }

  /** The order of the index lists its keys, each once. */
  lemma {:induction false} IndexWellFormed(dogs: seq<Dog>)
    ensures WellFormed(Index(dogs))
  {
    if dogs != [] {
      IndexWellFormed(dogs[..|dogs| - 1]);
    }
  }

  /** The index has one entry per id occurring in dogs. */
  lemma {:induction false} IndexKeys(dogs: seq<Dog>)
    ensures forall id :: id in Index(dogs).byId <==> exists i :: 0 <= i < |dogs| && dogs[i].dogid == id
    ensures forall id :: id in Index(dogs).byId ==> Index(dogs).byId[id].dogid == id
  {
    if dogs != [] {
      var n := |dogs|;
      var init := dogs[..n - 1];
      IndexKeys(init);
      var c := Index(init);
      var d := dogs[n - 1];
      assert Index(dogs).byId == c.byId[d.dogid := d];
      forall id ensures id in Index(dogs).byId <==> exists i :: 0 <= i < n && dogs[i].dogid == id {
        if id in c.byId {
          var i :| 0 <= i < n - 1 && init[i].dogid == id;
          assert dogs[i].dogid == id;
        }
        if id != d.dogid && exists i :: 0 <= i < n && dogs[i].dogid == id {
          var i :| 0 <= i < n && dogs[i].dogid == id;
          assert init[i].dogid == id;
        }
      }
    }
  }

  /** Each entry of the index holds the last dog with its id. */
  lemma {:induction false} IndexLastWins(dogs: seq<Dog>, id: string)
    requires id in Index(dogs).byId
    ensures exists i :: LastWithId(dogs, i) && dogs[i] == Index(dogs).byId[id]
  {
    var n := |dogs|;
    var init := dogs[..n - 1];
    var c := Index(init);
    var d := dogs[n - 1];
    assert Index(dogs).byId == c.byId[d.dogid := d];
    if id == d.dogid {
      assert LastWithId(dogs, n - 1);
    } else {
      IndexKeys(init);
      IndexLastWins(init, id);
      var i :| LastWithId(init, i) && init[i] == c.byId[id];
      assert dogs[i] == init[i] && dogs[i].dogid == id;
      forall j | i < j < n ensures dogs[j].dogid != id {
        if j < n - 1 {
          assert dogs[j] == init[j];
        }
      }
      assert LastWithId(dogs, i);
    }
  }

  /** The order lists the ids in the order of their first occurrence: an
      earlier id occurs in dogs before any occurrence of a later one. */
  lemma {:induction false} IndexFirstOccurrence(dogs: seq<Dog>, p: nat, q: nat)
    requires p < q < |Index(dogs).order|
    ensures exists i :: 0 <= i < |dogs| && dogs[i].dogid == Index(dogs).order[p] &&
              forall j :: 0 <= j <= i ==> dogs[j].dogid != Index(dogs).order[q]
  {
    var n := |dogs|;
    var init := dogs[..n - 1];
    var c := Index(init);
    var order := Index(dogs).order;
    IndexKeys(init);
    IndexWellFormed(init);
    if q < |c.order| {
      IndexFirstOccurrence(init, p, q);
      var i :| 0 <= i < n - 1 && init[i].dogid == c.order[p] &&
                forall j :: 0 <= j <= i ==> init[j].dogid != c.order[q];
      assert order[p] == c.order[p] && order[q] == c.order[q];
      assert dogs[i] == init[i];
      forall j | 0 <= j <= i ensures dogs[j].dogid != order[q] {
        assert dogs[j] == init[j];
      }
    } else {
      assert order == c.order + [dogs[n - 1].dogid];
      assert order[p] == c.order[p] && order[p] in c.byId;
      var i :| 0 <= i < n - 1 && init[i].dogid == order[p];
      assert dogs[i] == init[i];
      forall j | 0 <= j <= i ensures dogs[j].dogid != order[q] {
        assert dogs[j] == init[j];
      }
    }
  }

  /** The difference between the current dogs and the previous snapshot. */
  datatype Delta = Delta(added: set<string>, removed: set<string>, common: set<string>,
                         statusChange: seq<string>, statusChangeAvailable: seq<string>)

  /** The current keys that are common with the previous snapshot and whose
      status changed; None when a previous item of a common
      id has no status (the KeyError of `dogs_prev[dogid]['status']`). */
  function StatusChanges(order: seq<string>, byId: map<string, Dog>, prev: map<string, Item>): (r: Option<seq<string>>)
    requires forall id :: id in order ==> id in byId
    ensures r.Some? ==> forall id :: id in r.value ==> id in order && id in prev && "status" in prev[id]
  {
    if order == [] then Some([])
    else
      var id := order[|order| - 1];
      match StatusChanges(order[..|order| - 1], byId, prev)
      case None => None
      case Some(before) =>
        if id !in prev then Some(before)
        else if "status" !in prev[id] then None
        else if byId[id].status != prev[id]["status"] then Some(before + [id])
        else Some(before)
  }

  /** `[dogid for dogid in statuschange if dogs_curr[dogid].status == 'Available']`. */
  function NowAvailable(ids: seq<string>, byId: map<string, Dog>): seq<string>
    requires forall id :: id in ids ==> id in byId
  {
    if ids == [] then []
    else
      var id := ids[|ids| - 1];
      NowAvailable(ids[..|ids| - 1], byId) + if byId[id].status == Available then [id] else []
  }

  /** Lines 260-264 of main; None where they raise. */
  function ComputeDiff(curr: CurrentState, prev: map<string, Item>): Option<Delta>
    requires WellFormed(curr)
  {
    var added := curr.byId.Keys - prev.Keys;
    var removed := prev.Keys - curr.byId.Keys;
    var common := curr.byId.Keys * prev.Keys;
    match StatusChanges(curr.order, curr.byId, prev)
    case None => None
    case Some(sc) => Some(Delta(added, removed, common, sc, NowAvailable(sc, curr.byId)))
  }

  /** Whether a common id's previous item lacks a status. */
  predicate StatusMissing(curr: CurrentState, prev: map<string, Item>) {
    exists id :: id in curr.byId && id in prev && "status" !in prev[id]
  }

  // ---------------------------------------------------------------------------
  // Properties of the diff

  lemma {:induction false} StatusChangesSpec(order: seq<string>, byId: map<string, Dog>, prev: map<string, Item>)
    requires forall id :: id in order ==> id in byId
    ensures StatusChanges(order, byId, prev).None? <==>
              exists k :: 0 <= k < |order| && order[k] in prev && "status" !in prev[order[k]]
    ensures StatusChanges(order, byId, prev).Some? ==>
              var sc := StatusChanges(order, byId, prev).value;
              forall id :: id in sc <==>
                id in order && id in prev && byId[id].status != prev[id]["status"]
    ensures StatusChanges(order, byId, prev).Some? && NoDup(order) ==>
              NoDup(StatusChanges(order, byId, prev).value)
  {
    if order != [] {
      var init := order[..|order| - 1];
      var id := order[|order| - 1];
      StatusChangesSpec(init, byId, prev);
      assert forall x :: x in order <==> x in init || x == id;
      if StatusChanges(init, byId, prev).None? {
        var k :| 0 <= k < |init| && init[k] in prev && "status" !in prev[init[k]];
        assert order[k] == init[k];
      } else if id in prev && "status" !in prev[id] {
      } else {
        forall k | 0 <= k < |order| && order[k] in prev
          ensures "status" in prev[order[k]]
        {
          if k < |init| {
            assert init[k] == order[k];
          }
        }
        if NoDup(order) {
          assert NoDup(init);
          assert id !in init;
        }
      }
    }
  }

  lemma {:induction false} NowAvailableSpec(ids: seq<string>, byId: map<string, Dog>)
    requires forall id :: id in ids ==> id in byId
    ensures forall id :: id in NowAvailable(ids, byId) <==> id in ids && byId[id].status == Available
    ensures NoDup(ids) ==> NoDup(NowAvailable(ids, byId))
  {
    if ids != [] {
      var init := ids[..|ids| - 1];
      var id := ids[|ids| - 1];
      NowAvailableSpec(init, byId);
      assert forall x :: x in ids <==> x in init || x == id;
      if NoDup(ids) {
        assert NoDup(init);
        assert id !in init;
      }
    }
  }

  /** The diff fails exactly when a common id's previous item has no
      status. */
  lemma DiffFailsIff(curr: CurrentState, prev: map<string, Item>)
    requires WellFormed(curr)
    ensures ComputeDiff(curr, prev).None? <==> StatusMissing(curr, prev)
  {
    StatusChangesSpec(curr.order, curr.byId, prev);
    if StatusMissing(curr, prev) {
      var id :| id in curr.byId && id in prev && "status" !in prev[id];
      var k :| 0 <= k < |curr.order| && curr.order[k] == id;
    }
  }

  /** added, removed and common partition the ids of both states: added
      and removed are disjoint, added and common make up the current ids,
      removed and common the previous ones. */
  lemma DiffPartition(curr: CurrentState, prev: map<string, Item>)
    requires WellFormed(curr) && ComputeDiff(curr, prev).Some?
    ensures var d := ComputeDiff(curr, prev).value;
            && d.added * d.removed == {}
            && d.added * d.common == {} && d.removed * d.common == {}
            && d.added + d.common == curr.byId.Keys
            && d.removed + d.common == prev.Keys
  {
  }

  /** statusChange lists, once each, exactly the common
      ids whose current status differs from the previous one;
      statusChangeAvailable those of them that are now Available. */
  lemma StatusChangeExact(curr: CurrentState, prev: map<string, Item>)
    requires WellFormed(curr) && ComputeDiff(curr, prev).Some?
    ensures forall id :: id in curr.byId && id in prev ==> "status" in prev[id]
    ensures var d := ComputeDiff(curr, prev).value;
            && NoDup(d.statusChange)
            && (forall id :: id in d.statusChange <==>
                  id in d.common && curr.byId[id].status != prev[id]["status"])
            && NoDup(d.statusChangeAvailable)
            && (forall id :: id in d.statusChangeAvailable <==>
                  id in d.statusChange && curr.byId[id].status == Available)
  {
    StatusChangesSpec(curr.order, curr.byId, prev);
    DiffFailsIff(curr, prev);
    var d := ComputeDiff(curr, prev).value;
    NowAvailableSpec(d.statusChange, curr.byId);
  }

  /** An id in neither state appears nowhere in the diff. */
  lemma DiffOnlyKnownIds(curr: CurrentState, prev: map<string, Item>, id: string)
    requires WellFormed(curr) && ComputeDiff(curr, prev).Some?
    requires id !in curr.byId && id !in prev
    ensures var d := ComputeDiff(curr, prev).value;
            id !in d.added && id !in d.removed && id !in d.common &&
            id !in d.statusChange && id !in d.statusChangeAvailable
  {
    StatusChangeExact(curr, prev);
  }
}
