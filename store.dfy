/** The table of dogs seen on the previous run, and the reconciler that
    brings it up to date (removedogs, adddogs, updatedogs). The table is a
    map from dog id to item; a failure predicate says which calls the
    table rejects, and a rejected call changes nothing. */
module Store {
  import opened Wrappers
  import opened Dogs
  import opened Diff

  /** `dog.__dict__` as stored by put_item. */
  function DogItem(d: Dog): Item {
    map["dogid" := d.dogid, "owner" := d.owner, "location" := d.location, "name" := d.name,
        "breed" := d.breed, "status" := d.status, "url" := d.url]
  }

  /** Reads a stored dog back; None when an attribute is missing. */
  function ItemDog(item: Item): Option<Dog> {
    if "dogid" in item && "owner" in item && "location" in item && "name" in item &&
       "breed" in item && "status" in item && "url" in item
    then Some(Dog(item["dogid"], item["owner"], item["location"], item["name"],
                  item["breed"], item["status"], item["url"]))
    else None
  }

  /** put_item stores the whole record: it reads back unchanged. */
  lemma DogItemRoundTrip(d: Dog)
    ensures ItemDog(DogItem(d)) == Some(d)
  {
  }

  /** The attributes the scan of main asks for. */
  const Projected: set<string> := {"dogid", "name", "status"}

  function Project(item: Item): Item {
    map a | a in item && a in Projected :: item[a]
  }

  /** Every item is stored under its own dogid. */
  predicate KeyedById(items: map<string, Item>) {
    forall k :: k in items ==> "dogid" in items[k] && items[k]["dogid"] == k
  }

  /** Every item has a status. */
  predicate AllHaveStatus(items: map<string, Item>) {
    forall k :: k in items ==> "status" in items[k]
  }

  /** update_item setting the status of key: DynamoDB creates an item
      holding only the key when there is none. */
  function WithStatus(items: map<string, Item>, key: string, status: string): Item {
    (if key in items then items[key] else map["dogid" := key])["status" := status]
  }

  /** The scan of main over items: every item with only the projected
      attributes it has. */
  function Snapshot(items: map<string, Item>): map<string, Item> {
    map k | k in items :: Project(items[k])
  }

  class Table {
    var items: map<string, Item>

    /** The table's key schema: every item is stored under its own dogid
        attribute. */
    ghost predicate Valid()
      reads this
    {
      KeyedById(items)
    }

    constructor (items0: map<string, Item>)
      requires KeyedById(items0)
      ensures Valid()
      ensures items == items0
    {
      items := items0;
    }

    /** `scan(ProjectionExpression='dogid, #nm, #st')`, indexed by each
        item's dogid: every item with only the projected attributes it has. */
    function Scan(): (prev: map<string, Item>)
      reads this
      requires Valid()
      ensures prev.Keys == items.Keys
      ensures forall k :: k in items ==> items[k]["dogid"] in prev && prev[items[k]["dogid"]] == Project(items[k])
      ensures forall k :: k in prev ==> "dogid" in prev[k] && prev[k]["dogid"] == k
      ensures forall k, a :: k in prev && a in Projected ==>
                (a in prev[k] <==> a in items[k]) && (a in prev[k] ==> prev[k][a] == items[k][a])
      ensures forall k :: k in prev ==> prev[k].Keys <= Projected
    {
      Snapshot(items)
    }

    /** `delete_item(Key={'dogid': key})`; deleting a missing key is not
        an error. */
    method DeleteItem(key: string)
      requires Valid()
      modifies this
      ensures Valid()
      ensures items == old(items) - {key}
    {
      items := items - {key};
    }

    /** `put_item(Item=item)`: replaces any item with the same key. */
    method PutItem(item: Item)
      requires Valid() && "dogid" in item
      modifies this
      ensures Valid()
      ensures items == old(items)[item["dogid"] := item]
    {
      items := items[item["dogid"] := item];
    }

    /** `update_item(Key={'dogid': key}, UpdateExpression='SET #st = :s')`. */
    method UpdateStatus(key: string, status: string)
      requires Valid()
      modifies this
      ensures Valid()
      ensures items == old(items)[key := WithStatus(old(items), key, status)]
    {
      items := items[key := WithStatus(items, key, status)];
    }
  }

  // ---------------------------------------------------------------------------
  // removedogs

  /** The items left after deleting every id of dogids whose delete is not
      rejected. */
  function RemoveAll(items: map<string, Item>, dogids: set<string>, fails: string -> bool): map<string, Item> {
    items - (set k | k in dogids && !fails(k))
  }

  /** `removedogs`: delete every id, in the set's (unspecified) iteration
      order; a rejected delete is logged and the loop goes on. */
  method RemoveDogs(table: Table, dogids: set<string>, fails: string -> bool)
    requires table.Valid()
    modifies table
    ensures table.Valid()
    ensures table.items == RemoveAll(old(table.items), dogids, fails)
  {
    var rest := dogids;
    ghost var done: set<string> := {};
    while rest != {}
      invariant rest + done == dogids && rest * done == {}
      invariant table.Valid()
      invariant table.items == RemoveAll(old(table.items), done, fails)
      decreases rest
    {
      var dogid :| dogid in rest;
      if !fails(dogid) {
        table.DeleteItem(dogid);
      }
      rest := rest - {dogid};
      done := done + {dogid};
    }
  }

  /** After removedogs, an id whose delete was not rejected is gone; every
      other key keeps its item. */
  lemma RemoveAllSpec(items: map<string, Item>, dogids: set<string>, fails: string -> bool, k: string)
    ensures k in dogids && !fails(k) ==> k !in RemoveAll(items, dogids, fails)
    ensures !(k in dogids && !fails(k)) ==>
              (k in RemoveAll(items, dogids, fails) <==> k in items) &&
              (k in items ==> RemoveAll(items, dogids, fails)[k] == items[k])
  {
  }

  // ---------------------------------------------------------------------------
  // adddogs

  /** The items after putting every dog whose put is not rejected, in
      order. */
  function PutAll(items: map<string, Item>, dogs: seq<Dog>, fails: Dog -> bool): map<string, Item> {
    if dogs == [] then items
    else
      var before := PutAll(items, dogs[..|dogs| - 1], fails);
      var d := dogs[|dogs| - 1];
      if fails(d) then before else before[d.dogid := DogItem(d)]
  }

  /** `adddogs`: put every dog's record; a rejected put is logged and the
      loop goes on. */
  method AddDogs(table: Table, dogs: seq<Dog>, fails: Dog -> bool)
    requires table.Valid()
    modifies table
    ensures table.Valid()
    ensures table.items == PutAll(old(table.items), dogs, fails)
  {
    var i := 0;
    while i < |dogs|
      invariant 0 <= i <= |dogs|
      invariant table.Valid()
      invariant table.items == PutAll(old(table.items), dogs[..i], fails)
    {
      assert dogs[..i + 1][..i] == dogs[..i];
      var dog := dogs[i];
      if !fails(dog) {
        table.PutItem(DogItem(dog));
      }
      i := i + 1;
    }
    assert dogs[..i] == dogs;
  }

  /** No two dogs share an id. */
  predicate DistinctIds(dogs: seq<Dog>) {
    forall i, j :: 0 <= i < j < |dogs| ==> dogs[i].dogid != dogs[j].dogid
  }

  /** Whether some dog of dogs with id k is not rejected. */
  predicate Named(dogs: seq<Dog>, fails: Dog -> bool, k: string) {
    exists i :: 0 <= i < |dogs| && dogs[i].dogid == k && !fails(dogs[i])
  }

  /** adddogs stores the full record of every dog whose put is not rejected
      under its id, and leaves every other key as it was. */
  lemma {:induction false} PutAllSpec(items: map<string, Item>, dogs: seq<Dog>, fails: Dog -> bool)
    requires DistinctIds(dogs)
    ensures forall i :: 0 <= i < |dogs| && !fails(dogs[i]) ==>
              dogs[i].dogid in PutAll(items, dogs, fails) && PutAll(items, dogs, fails)[dogs[i].dogid] == DogItem(dogs[i])
    ensures forall k :: !Named(dogs, fails, k) ==>
              (k in PutAll(items, dogs, fails) <==> k in items) &&
              (k in items ==> PutAll(items, dogs, fails)[k] == items[k])
  {
    if dogs != [] {
      var n := |dogs|;
      var init := dogs[..n - 1];
      var d := dogs[n - 1];
      assert DistinctIds(init);
      PutAllSpec(items, init, fails);
      forall i | 0 <= i < n - 1 ensures init[i] == dogs[i] && init[i].dogid != d.dogid {
      }
      forall k | !Named(dogs, fails, k) ensures !Named(init, fails, k) {
      }
    }
  }

  // ---------------------------------------------------------------------------
  // updatedogs

  /** The items after setting the status of every dog whose update is not
      rejected, in order. */
  function UpdateAll(items: map<string, Item>, dogs: seq<Dog>, fails: Dog -> bool): map<string, Item> {
    if dogs == [] then items
    else
      var before := UpdateAll(items, dogs[..|dogs| - 1], fails);
      var d := dogs[|dogs| - 1];
      if fails(d) then before else before[d.dogid := WithStatus(before, d.dogid, d.status)]
  }

  /** `updatedogs`: set every dog's stored status; a rejected update is
      logged and the loop goes on. */
  method UpdateDogs(table: Table, dogs: seq<Dog>, fails: Dog -> bool)
    requires table.Valid()
    modifies table
    ensures table.Valid()
    ensures table.items == UpdateAll(old(table.items), dogs, fails)
  {
    var i := 0;
    while i < |dogs|
      invariant 0 <= i <= |dogs|
      invariant table.Valid()
      invariant table.items == UpdateAll(old(table.items), dogs[..i], fails)
    {
      assert dogs[..i + 1][..i] == dogs[..i];
      var dog := dogs[i];
      if !fails(dog) {
        table.UpdateStatus(dog.dogid, dog.status);
      }
      i := i + 1;
    }
    assert dogs[..i] == dogs;
  }

  /** updatedogs changes only the status attribute of every dog whose update
      is not rejected (creating an item holding just the key and the status
      when there was none), and leaves every other key as it was. */
  lemma {:induction false} UpdateAllSpec(items: map<string, Item>, dogs: seq<Dog>, fails: Dog -> bool)
    requires DistinctIds(dogs)
    ensures forall i :: 0 <= i < |dogs| && !fails(dogs[i]) ==>
              dogs[i].dogid in UpdateAll(items, dogs, fails) &&
              UpdateAll(items, dogs, fails)[dogs[i].dogid] == WithStatus(items, dogs[i].dogid, dogs[i].status)
    ensures forall k :: !Named(dogs, fails, k) ==>
              (k in UpdateAll(items, dogs, fails) <==> k in items) &&
              (k in items ==> UpdateAll(items, dogs, fails)[k] == items[k])
  {
    if dogs != [] {
      var n := |dogs|;
      var init := dogs[..n - 1];
      var d := dogs[n - 1];
      assert DistinctIds(init);
      UpdateAllSpec(items, init, fails);
      forall i | 0 <= i < n - 1 ensures init[i] == dogs[i] && init[i].dogid != d.dogid {
      }
      forall k | !Named(dogs, fails, k) ensures !Named(init, fails, k) {
      }
      if !fails(d) {
        assert !Named(init, fails, d.dogid);
      }
    }
  }

  /** Setting a status changes that attribute and no other. */
  lemma WithStatusOnlyStatus(items: map<string, Item>, key: string, status: string, a: string)
    requires key in items && a != "status"
    ensures WithStatus(items, key, status)["status"] == status
    ensures a in WithStatus(items, key, status) <==> a in items[key]
    ensures a in items[key] ==> WithStatus(items, key, status)[a] == items[key][a]
  {
  }

  // ---------------------------------------------------------------------------
  // The table invariant

  /** The three reconcile steps keep every item under its own dogid and
      every item with a status. */
  lemma {:induction false} ReconcileKeepsInvariant(items: map<string, Item>, removed: set<string>,
                                                   added: seq<Dog>, changed: seq<Dog>,
                                                   failDelete: string -> bool, failPut: Dog -> bool,
                                                   failUpdate: Dog -> bool)
    requires KeyedById(items) && AllHaveStatus(items)
    ensures var after := UpdateAll(PutAll(RemoveAll(items, removed, failDelete), added, failPut), changed, failUpdate);
            KeyedById(after) && AllHaveStatus(after)
  {
    PutAllKeeps(RemoveAll(items, removed, failDelete), added, failPut);
    UpdateAllKeeps(PutAll(RemoveAll(items, removed, failDelete), added, failPut), changed, failUpdate);
  }

  lemma {:induction false} PutAllKeeps(items: map<string, Item>, dogs: seq<Dog>, fails: Dog -> bool)
    requires KeyedById(items) && AllHaveStatus(items)
    ensures KeyedById(PutAll(items, dogs, fails)) && AllHaveStatus(PutAll(items, dogs, fails))
  {
    if dogs != [] {
      PutAllKeeps(items, dogs[..|dogs| - 1], fails);
    }
  }

  lemma {:induction false} UpdateAllKeeps(items: map<string, Item>, dogs: seq<Dog>, fails: Dog -> bool)
    requires KeyedById(items) && AllHaveStatus(items)
    ensures KeyedById(UpdateAll(items, dogs, fails)) && AllHaveStatus(UpdateAll(items, dogs, fails))
  {
    if dogs != [] {
      UpdateAllKeeps(items, dogs[..|dogs| - 1], fails);
    }
  }
}
