/** One run of the tracker (main): collect the dogs of the three sites,
    compare them with the table's snapshot, reconcile the table and decide
    on the notification. */
module Tracker {
  import opened Wrappers
  import opened Dogs
  import opened DogsTrust
  import opened Pets4Homes
  import opened Diff
  import opened Store
  import opened Notify

  /** How a run ends: it raises (the diff's KeyError) before touching the
      table, or it completes, publishing the notification if there is one. */
  datatype Outcome = Crashed | Completed(published: Option<Notification>)

  /** `dogs_bdh + dogs_dt + dogs_p4h`, indexed by id. */
  function Current(lib: TextLib, bdhResponse: Option<seq<Option<BdhJson>>>,
                   dtFetchIndex: string -> Option<seq<string>>, dtFetchPage: string -> Option<seq<DogsTrust.Listing>>,
                   p4hFetch: Query -> Option<Page>, search: Search,
                   titleFilters: seq<string>, ownerFilters: seq<string>): CurrentState
  {
    Index(GetDogsBdh(bdhResponse, lib) + DtDogs(lib, dtFetchIndex, dtFetchPage)
          + P4hDogs(p4hFetch, search, titleFilters, ownerFilters))
  }

  /** `[dogs_curr[ii] for ii in ids]`. */
  function DogsOf(byId: map<string, Dog>, ids: seq<string>): (dogs: seq<Dog>)
    requires forall id :: id in ids ==> id in byId
    ensures |dogs| == |ids|
    ensures forall i :: 0 <= i < |ids| ==> dogs[i] == byId[ids[i]]
  {
    seq(|ids|, i requires 0 <= i < |ids| => byId[ids[i]])
  }

  /** The table after removedogs, adddogs and updatedogs (lines 266-268 of
      main), where addedOrder is the order the set of added ids iterates in. */
  function Reconcile(items: map<string, Item>, curr: CurrentState, prev: map<string, Item>, d: Delta,
                     addedOrder: seq<string>, failDelete: string -> bool, failPut: Dog -> bool,
                     failUpdate: Dog -> bool): map<string, Item>
    requires WellFormed(curr) && ComputeDiff(curr, prev) == Some(d)
    requires Enumerates(addedOrder, d.added)
  {
    StatusChangeExact(curr, prev);
    DiffPartition(curr, prev);
    var removed := RemoveAll(items, d.removed, failDelete);
    var added := PutAll(removed, DogsOf(curr.byId, addedOrder), failPut);
    UpdateAll(added, DogsOf(curr.byId, d.statusChange), failUpdate)
  }

  /** A Python set's iteration: its elements in some order, each once. */
  method Enumerate(s: set<string>) returns (order: seq<string>)
    ensures Enumerates(order, s)
  {
    order := [];
    var rest := s;
    while rest != {}
      invariant NoDup(order)
      invariant forall x :: x in order ==> x in s && x !in rest
      invariant forall x :: x in s ==> x in order || x in rest
      invariant rest <= s
      decreases rest
    {
      var x :| x in rest;
      order := order + [x];
      rest := rest - {x};
    }
  }

  /** `main` (the Lambda branch). The three adapters' inputs, the failures
      the table reports and the two clock readings are parameters. A run
      whose diff raises stops before the table is touched; otherwise the
      table is reconciled and the published notification, if any, is the
      one Notify describes. */
  method RunTracker(table: Table, lib: TextLib, bdhResponse: Option<seq<Option<BdhJson>>>,
                    dtFetchIndex: string -> Option<seq<string>>,
                    dtFetchPage: string -> Option<seq<DogsTrust.Listing>>,
                    p4hFetch: Query -> Option<Page>, search: Search,
                    titleFilters: seq<string>, ownerFilters: seq<string>,
                    failDelete: string -> bool, failPut: Dog -> bool, failUpdate: Dog -> bool,
                    nowSubject: string, nowMessage: string)
    returns (outcome: Outcome, addedOrder: seq<string>)
    requires table.Valid()
    modifies table
    ensures table.Valid()
    ensures WellFormed(Current(lib, bdhResponse, dtFetchIndex, dtFetchPage, p4hFetch, search,
                               titleFilters, ownerFilters))
    ensures var curr := Current(lib, bdhResponse, dtFetchIndex, dtFetchPage, p4hFetch, search,
                                titleFilters, ownerFilters);
            var prev := Snapshot(old(table.items));
            match ComputeDiff(curr, prev)
            case None => outcome == Crashed && table.items == old(table.items)
            case Some(d) =>
              && Enumerates(addedOrder, d.added)
              && table.items == Reconcile(old(table.items), curr, prev, d, addedOrder,
                                          failDelete, failPut, failUpdate)
              && outcome == Completed(Publish(curr, prev, d, addedOrder, nowSubject, nowMessage))
  {
    var dogsBdh := GetDogsBdh(bdhResponse, lib);
    var dogsDt := GetDogsDt(lib, dtFetchIndex, dtFetchPage);
    var dogsP4h := GetDogsP4h(p4hFetch, search, titleFilters, ownerFilters);
    var curr := Index(dogsBdh + dogsDt + dogsP4h);
    IndexWellFormed(dogsBdh + dogsDt + dogsP4h);
    var prev := table.Scan();
    var diff := ComputeDiff(curr, prev);
    if diff.None? {
      return Crashed, [];
    }
    var d := diff.value;
    StatusChangeExact(curr, prev);
    DiffPartition(curr, prev);
    RemoveDogs(table, d.removed, failDelete);
    addedOrder := Enumerate(d.added);
    AddDogs(table, DogsOf(curr.byId, addedOrder), failPut);
    UpdateDogs(table, DogsOf(curr.byId, d.statusChange), failUpdate);
    outcome := Completed(Publish(curr, prev, d, addedOrder, nowSubject, nowMessage));
  }

  // ---------------------------------------------------------------------------
  // Properties of a run

  /** The three sites' ids never collide: they start with "bdh", "dt" and
      "p4h". */
  lemma IdNamespacesDisjoint(lib: TextLib, bdhResponse: Option<seq<Option<BdhJson>>>,
                             dtFetchIndex: string -> Option<seq<string>>,
                             dtFetchPage: string -> Option<seq<DogsTrust.Listing>>,
                             p4hFetch: Query -> Option<Page>, search: Search,
                             titleFilters: seq<string>, ownerFilters: seq<string>, a: Dog, b: Dog)
    ensures a in GetDogsBdh(bdhResponse, lib) && b in DtDogs(lib, dtFetchIndex, dtFetchPage) ==>
              a.dogid != b.dogid
    ensures a in GetDogsBdh(bdhResponse, lib) && b in P4hDogs(p4hFetch, search, titleFilters, ownerFilters) ==>
              a.dogid != b.dogid
    ensures a in DtDogs(lib, dtFetchIndex, dtFetchPage) && b in P4hDogs(p4hFetch, search, titleFilters, ownerFilters) ==>
              a.dogid != b.dogid
  {
    if a in GetDogsBdh(bdhResponse, lib) {
      BdhDogsShape(bdhResponse, lib, a);
      assert a.dogid[0] == 'b';
    }
    if a in DtDogs(lib, dtFetchIndex, dtFetchPage) {
      DtDogsShape(lib, dtFetchIndex, dtFetchPage, a);
      assert a.dogid[0] == 'd';
    }
    if b in DtDogs(lib, dtFetchIndex, dtFetchPage) {
      DtDogsShape(lib, dtFetchIndex, dtFetchPage, b);
      assert b.dogid[0] == 'd';
    }
    if b in P4hDogs(p4hFetch, search, titleFilters, ownerFilters) {
      P4hDogsShape(p4hFetch, search, titleFilters, ownerFilters, b);
      assert b.dogid[0] == 'p';
    }
  }

  /** A table every item of which has a status (as the reconciler keeps
      it) never makes the diff raise. */
  lemma NoCrashOnStatusedTable(curr: CurrentState, items: map<string, Item>)
    requires WellFormed(curr) && AllHaveStatus(items)
    ensures ComputeDiff(curr, Snapshot(items)).Some?
  {
    DiffFailsIff(curr, Snapshot(items));
  }

  /** Whatever calls the table rejects, a run keeps every item under its
      own dogid and every item with a status, so the next run's diff does
      not raise either. */
  lemma RunKeepsTableValid(items: map<string, Item>, next: CurrentState, curr: CurrentState, d: Delta,
                           addedOrder: seq<string>, failDelete: string -> bool, failPut: Dog -> bool,
                           failUpdate: Dog -> bool)
    requires KeyedById(items) && AllHaveStatus(items)
    requires WellFormed(curr) && ComputeDiff(curr, Snapshot(items)) == Some(d)
    requires Enumerates(addedOrder, d.added)
    requires WellFormed(next)
    ensures var after := Reconcile(items, curr, Snapshot(items), d, addedOrder, failDelete, failPut, failUpdate);
            && KeyedById(after) && AllHaveStatus(after)
            && ComputeDiff(next, Snapshot(after)).Some?
  {
    StatusChangeExact(curr, Snapshot(items));
    DiffPartition(curr, Snapshot(items));
    ReconcileKeepsInvariant(items, d.removed, DogsOf(curr.byId, addedOrder), DogsOf(curr.byId, d.statusChange),
                            failDelete, failPut, failUpdate);
    NoCrashOnStatusedTable(next, Reconcile(items, curr, Snapshot(items), d, addedOrder, failDelete, failPut, failUpdate));
  }

  /** When no call is rejected, the reconciled table holds exactly the
      current ids, each with its current status, and every new dog's full
      record. */
  lemma ReconcileMirrors(items: map<string, Item>, dogs: seq<Dog>, d: Delta, addedOrder: seq<string>,
                         failDelete: string -> bool, failPut: Dog -> bool, failUpdate: Dog -> bool)
    requires AllHaveStatus(items)
    requires WellFormed(Index(dogs)) && ComputeDiff(Index(dogs), Snapshot(items)) == Some(d)
    requires Enumerates(addedOrder, d.added)
    requires forall k :: !failDelete(k)
    requires forall dog :: !failPut(dog)
    requires forall dog :: !failUpdate(dog)
    ensures var curr := Index(dogs);
            var after := Reconcile(items, curr, Snapshot(items), d, addedOrder, failDelete, failPut, failUpdate);
            && after.Keys == curr.byId.Keys
            && (forall k :: k in after ==> "status" in after[k] && after[k]["status"] == curr.byId[k].status)
            && (forall k :: k in d.added ==> after[k] == DogItem(curr.byId[k]))
  {
    var curr := Index(dogs);
    var prev := Snapshot(items);
    StatusChangeExact(curr, prev);
    DiffPartition(curr, prev);
    IndexKeys(dogs);
    assert d.removed == items.Keys - curr.byId.Keys;
    forall k | k in curr.byId && k in items && k !in d.statusChange
      ensures curr.byId[k].status == items[k]["status"]
    {
      assert prev[k]["status"] == items[k]["status"];
    }
    ReconcileAll(items, curr.byId, addedOrder, d.statusChange, failDelete, failPut, failUpdate);
  }

  /** After a run in which no call is rejected, a second run that finds
      the same dogs sees no change and publishes nothing. */
  lemma SecondRunQuiet(items: map<string, Item>, dogs: seq<Dog>, d: Delta, addedOrder: seq<string>,
                       failDelete: string -> bool, failPut: Dog -> bool, failUpdate: Dog -> bool,
                       nowSubject: string, nowMessage: string)
    requires AllHaveStatus(items)
    requires WellFormed(Index(dogs)) && ComputeDiff(Index(dogs), Snapshot(items)) == Some(d)
    requires Enumerates(addedOrder, d.added)
    requires forall k :: !failDelete(k)
    requires forall dog :: !failPut(dog)
    requires forall dog :: !failUpdate(dog)
    ensures var after := Reconcile(items, Index(dogs), Snapshot(items), d, addedOrder, failDelete, failPut, failUpdate);
            var next := ComputeDiff(Index(dogs), Snapshot(after));
            && next.Some?
            && next.value.added == {} && next.value.removed == {} && next.value.statusChange == []
            && Publish(Index(dogs), Snapshot(after), next.value, [], nowSubject, nowMessage).None?
  {
    ReconcileMirrors(items, dogs, d, addedOrder, failDelete, failPut, failUpdate);
    QuietWhenMirrored(Index(dogs), Reconcile(items, Index(dogs), Snapshot(items), d, addedOrder,
                                             failDelete, failPut, failUpdate), nowSubject, nowMessage);
  }

  /** A table holding exactly the current ids with their current statuses
      gives an empty diff and no notification. */
  lemma QuietWhenMirrored(curr: CurrentState, items: map<string, Item>, nowSubject: string, nowMessage: string)
    requires WellFormed(curr) && items.Keys == curr.byId.Keys
    requires forall k :: k in items ==> "status" in items[k] && items[k]["status"] == curr.byId[k].status
    ensures var next := ComputeDiff(curr, Snapshot(items));
            && next.Some?
            && next.value.added == {} && next.value.removed == {} && next.value.statusChange == []
            && Publish(curr, Snapshot(items), next.value, [], nowSubject, nowMessage).None?
  {
    var prev := Snapshot(items);
    forall k | k in prev ensures "status" in prev[k] && prev[k]["status"] == curr.byId[k].status {
      assert prev[k] == Project(items[k]);
    }
    MirroredDiffEmpty(curr, prev);
    EmptyDiffQuiet(curr, prev, ComputeDiff(curr, prev).value, nowSubject, nowMessage);
  }

  /** Against a previous state holding every current dog, and only those,
      with its current status, the diff finds nothing. */
  lemma MirroredDiffEmpty(curr: CurrentState, prev: map<string, Item>)
    requires WellFormed(curr) && prev.Keys == curr.byId.Keys
    requires forall k :: k in prev ==> "status" in prev[k] && prev[k]["status"] == curr.byId[k].status
    ensures var next := ComputeDiff(curr, prev);
            && next.Some?
            && next.value.added == {} && next.value.removed == {} && next.value.statusChange == []
  {
    DiffFailsIff(curr, prev);
    var d := ComputeDiff(curr, prev).value;
    StatusChangeExact(curr, prev);
    assert forall id :: id !in d.statusChange;
  }

  /** A diff with no new dog and no status change publishes nothing. */
  lemma EmptyDiffQuiet(curr: CurrentState, prev: map<string, Item>, d: Delta, nowSubject: string, nowMessage: string)
    requires WellFormed(curr) && ComputeDiff(curr, prev) == Some(d)
    requires d.added == {} && d.statusChange == []
    ensures Publish(curr, prev, d, [], nowSubject, nowMessage).None?
  {
    StatusChangeExact(curr, prev);
    assert forall id :: id !in d.statusChangeAvailable;
  }

  /** The three reconcile steps, none rejected, over the current dogs byId:
      the removed ids are those only in the table, addedOrder lists the ids
      only in byId, and statusChange lists common ids outside which the
      statuses already agree. */
  lemma ReconcileAll(items: map<string, Item>, byId: map<string, Dog>, addedOrder: seq<string>,
                     statusChange: seq<string>, failDelete: string -> bool, failPut: Dog -> bool,
                     failUpdate: Dog -> bool)
    requires AllHaveStatus(items)
    requires forall id :: id in byId ==> byId[id].dogid == id
    requires NoDup(addedOrder) && forall id :: id in addedOrder <==> id in byId && id !in items
    requires NoDup(statusChange) && forall id :: id in statusChange ==> id in byId && id in items
    requires forall k :: k in byId && k in items && k !in statusChange ==> byId[k].status == items[k]["status"]
    requires forall k :: !failDelete(k)
    requires forall dog :: !failPut(dog)
    requires forall dog :: !failUpdate(dog)
    ensures var r := RemoveAll(items, items.Keys - byId.Keys, failDelete);
            var after := UpdateAll(PutAll(r, DogsOf(byId, addedOrder), failPut), DogsOf(byId, statusChange), failUpdate);
            && after.Keys == byId.Keys
            && (forall k :: k in after ==> "status" in after[k] && after[k]["status"] == byId[k].status)
            && (forall k :: k in addedOrder ==> after[k] == DogItem(byId[k]))
  {
    var r := RemoveAll(items, items.Keys - byId.Keys, failDelete);
    assert r.Keys == items.Keys * byId.Keys;
    PutAllOfIds(r, byId, addedOrder, failPut);
    var p := PutAll(r, DogsOf(byId, addedOrder), failPut);
    assert p.Keys == byId.Keys;
    UpdateAllOfIds(p, byId, statusChange, failUpdate);
    var after := UpdateAll(p, DogsOf(byId, statusChange), failUpdate);
    forall k | k in after
      ensures "status" in after[k] && after[k]["status"] == byId[k].status
    {
      if k in statusChange {
        assert after[k] == WithStatus(p, k, byId[k].status);
      } else if k in addedOrder {
        assert after[k] == DogItem(byId[k]);
      } else {
        assert after[k] == items[k];
      }
    }
  }

  /** adddogs over the records of distinct current ids, none rejected:
      each is stored in full, every other key is untouched. */
  lemma PutAllOfIds(items: map<string, Item>, byId: map<string, Dog>, ids: seq<string>, fails: Dog -> bool)
    requires forall id :: id in byId ==> byId[id].dogid == id
    requires NoDup(ids) && forall id :: id in ids ==> id in byId
    requires forall dog :: !fails(dog)
    ensures var after := PutAll(items, DogsOf(byId, ids), fails);
            && after.Keys == items.Keys + (set id | id in ids)
            && (forall id :: id in ids ==> after[id] == DogItem(byId[id]))
            && (forall k :: k in items && k !in ids ==> after[k] == items[k])
  {
    var dogs := DogsOf(byId, ids);
    assert DistinctIds(dogs);
    PutAllSpec(items, dogs, fails);
    forall id | id in ids ensures Named(dogs, fails, id) {
      var i :| 0 <= i < |ids| && ids[i] == id;
      assert dogs[i].dogid == id;
    }
    forall k | k !in ids ensures !Named(dogs, fails, k) {
    }
  }

  /** updatedogs over distinct current ids already in the table, none
      rejected: each gets its current status, every other key is
      untouched, and no key is added. */
  lemma UpdateAllOfIds(items: map<string, Item>, byId: map<string, Dog>, ids: seq<string>, fails: Dog -> bool)
    requires forall id :: id in byId ==> byId[id].dogid == id
    requires NoDup(ids) && forall id :: id in ids ==> id in byId && id in items
    requires forall dog :: !fails(dog)
    ensures var after := UpdateAll(items, DogsOf(byId, ids), fails);
            && after.Keys == items.Keys
            && (forall id :: id in ids ==> after[id] == WithStatus(items, id, byId[id].status))
            && (forall k :: k in items && k !in ids ==> after[k] == items[k])
  {
    var dogs := DogsOf(byId, ids);
    assert DistinctIds(dogs);
    UpdateAllSpec(items, dogs, fails);
    forall id | id in ids ensures Named(dogs, fails, id) {
      var i :| 0 <= i < |ids| && ids[i] == id;
      assert dogs[i].dogid == id;
    }
    forall k | k !in ids ensures !Named(dogs, fails, k) {
    }
  }
}
