/** The canonical Dog record, its construction (Dog.__init__) and the
    Battersea Dogs Home adapter (Dog.from_bdhjson, getdogs_bdh). */
module Dogs {
  import opened Wrappers
  import opened Text

  const Available := "Available"
  const Reserved := "Reserved"
  const Rehomed := "Rehomed"
  const Unknown := "Unknown"

  /** The four statuses a listing can have. */
  predicate IsStatus(s: string) {
    s == Available || s == Reserved || s == Rehomed || s == Unknown
  }

  /** A listed dog. Built once per run and never changed afterwards. */
  datatype Dog = Dog(dogid: string, owner: string, location: string, name: string,
                     breed: string, status: string, url: string)

  /** Library text operations the model does not define: `str.title()`
      (Unicode title-casing) and `urljoin` (URL resolution). */
  datatype TextLib = TextLib(title: string -> string, urlJoin: (string, string) -> string)

  /** `Dog(dogid, owner, location, name, breed, status, url)`: every field is
      stored as given, except that an empty breed becomes "Unknown". */
  function NewDog(dogid: string, owner: string, location: string, name: string,
                  breed: string, status: string, url: string): (d: Dog)
    ensures d.breed != []
    ensures breed != [] ==> d.breed == breed
    ensures breed == [] ==> d.breed == Unknown
    ensures d.(breed := breed) == Dog(dogid, owner, location, name, breed, status, url)
  {
    Dog(dogid, owner, location, name, if breed != [] then breed else Unknown, status, url)
  }

  // ---------------------------------------------------------------------------
  // The per-listing loop shared by the two HTML adapters

  /** The dogs a page of listings yields, in listing order, where each
      listing yields the dogs dogOf gives it: one when it parses (and, for
      Pets4Homes, passes the filters), none when it is skipped. */
  function Collect<L>(dogOf: L -> seq<Dog>, ls: seq<L>): seq<Dog> {
    if ls == [] then [] else Collect(dogOf, ls[..|ls| - 1]) + dogOf(ls[|ls| - 1])
  }

  lemma CollectStep<L>(dogOf: L -> seq<Dog>, ls: seq<L>, l: L)
    ensures Collect(dogOf, ls + [l]) == Collect(dogOf, ls) + dogOf(l)
  {
    assert (ls + [l])[..|ls + [l]| - 1] == ls;
  }

  /** Every dog collected from ls is one that some listing of ls yields. */
  lemma {:induction false} CollectFrom<L>(dogOf: L -> seq<Dog>, ls: seq<L>, i: nat)
    requires i < |Collect(dogOf, ls)|
    ensures exists k :: 0 <= k < |ls| && Collect(dogOf, ls)[i] in dogOf(ls[k])
  {
    var before := Collect(dogOf, ls[..|ls| - 1]);
    if i < |before| {
      CollectFrom(dogOf, ls[..|ls| - 1], i);
      var k :| 0 <= k < |ls| - 1 && before[i] in dogOf(ls[..|ls| - 1][k]);
      assert ls[..|ls| - 1][k] == ls[k];
    } else {
      assert Collect(dogOf, ls)[i] == dogOf(ls[|ls| - 1])[i - |before|];
    }
  }

  /** The loop `for dog_html in listings: try parse … else dogs.append(…)`:
      append, listing after listing, the dogs each listing yields. */
  method AppendListings<L>(dogs: seq<Dog>, dogOf: L -> seq<Dog>, listings: seq<L>)
    returns (dogs': seq<Dog>)
    ensures dogs' == dogs + Collect(dogOf, listings)
  {
    dogs' := dogs;
    var li := 0;
    while li < |listings|
      invariant 0 <= li <= |listings|
      invariant dogs' == dogs + Collect(dogOf, listings[..li])
    {
      assert listings[..li + 1] == listings[..li] + [listings[li]];
      CollectStep(dogOf, listings[..li], listings[li]);
      dogs' := dogs' + dogOf(listings[li]);
      li := li + 1;
    }
    assert listings[..li] == listings;
  }

  // ---------------------------------------------------------------------------
  // Battersea Dogs Home

  const BdhPrefix := "bdh"
  const BdhOwner := "BDH"
  const BdhSiteUrl := "https://www.battersea.org.uk"

  /** The fields of one record of the Battersea API's `animals` object. */
  datatype BdhJson = BdhJson(nid: int, fieldAnimalCentre: string, title: string,
                             fieldAnimalBreed: string, fieldAnimalRehomed: string,
                             fieldAnimalReserved: string, path: string)

  /** Status from the two marker fields: rehomed wins over reserved; both
      empty means available; anything else is unknown. */
  function BdhStatus(rehomed: string, reserved: string): (r: string)
    ensures IsStatus(r)
    ensures r == Rehomed <==> Lower(rehomed) == "rehomed"
    ensures r == Reserved <==> Lower(rehomed) != "rehomed" && Lower(reserved) == "reserved"
    ensures r == Available <==> rehomed == [] && reserved == []
    ensures r == Unknown <==>
              Lower(rehomed) != "rehomed" && Lower(reserved) != "reserved" &&
              (rehomed != [] || reserved != [])
  {
    if Lower(rehomed) == "rehomed" then Rehomed
    else if Lower(reserved) == "reserved" then Reserved
    else if Lower(rehomed) == "" && Lower(reserved) == "" then Available
    else Unknown
  }

  /** `Dog.from_bdhjson`. */
  function FromBdhJson(j: BdhJson, lib: TextLib): (d: Dog)
    ensures d.dogid == BdhPrefix + IntToString(j.nid)
    ensures d.owner == BdhOwner && d.name == j.title
    ensures d.location == lib.title(j.fieldAnimalCentre)
    ensures d.status == BdhStatus(j.fieldAnimalRehomed, j.fieldAnimalReserved)
    ensures lib.title(j.fieldAnimalBreed) != [] ==> d.breed == lib.title(j.fieldAnimalBreed)
    ensures lib.title(j.fieldAnimalBreed) == [] ==> d.breed == Unknown
    ensures d.url == lib.urlJoin(BdhSiteUrl, j.path)
  {
    NewDog(BdhPrefix + IntToString(j.nid), BdhOwner, lib.title(j.fieldAnimalCentre), j.title,
           lib.title(j.fieldAnimalBreed),
           BdhStatus(j.fieldAnimalRehomed, j.fieldAnimalReserved),
           lib.urlJoin(BdhSiteUrl, j.path))
  }

  /** Two Battersea records get the same id only when they have the same nid. */
  lemma BdhIdInjective(a: BdhJson, b: BdhJson, lib: TextLib)
    requires FromBdhJson(a, lib).dogid == FromBdhJson(b, lib).dogid
    ensures a.nid == b.nid
  {
    var ia, ib := IntToString(a.nid), IntToString(b.nid);
    assert ia == (BdhPrefix + ia)[3..];
    assert ib == (BdhPrefix + ib)[3..];
    IntToStringInjective(a.nid, b.nid);
  }

  predicate AllSome<T>(xs: seq<Option<T>>) {
    forall i :: 0 <= i < |xs| ==> xs[i].Some?
  }

  /** `getdogs_bdh`: the response's records in order, each turned into a Dog.
      A failed request (None) or any malformed record (None) raises inside
      the comprehension, and the adapter then returns no dogs at all. */
  function GetDogsBdh(response: Option<seq<Option<BdhJson>>>, lib: TextLib): (dogs: seq<Dog>)
    ensures response.None? || !AllSome(response.value) ==> dogs == []
    ensures response.Some? && AllSome(response.value) ==>
              |dogs| == |response.value| &&
              forall i :: 0 <= i < |dogs| ==> dogs[i] == FromBdhJson(response.value[i].value, lib)
  {
    match response
    case None => []
    case Some(records) =>
      if AllSome(records) then
        seq(|records|, i requires 0 <= i < |records| && records[i].Some? =>
          FromBdhJson(records[i].value, lib))
      else []
  }

  /** Every Battersea dog has a "bdh" id, owner BDH, a non-empty breed and
      one of the four statuses. */
  lemma BdhDogsShape(response: Option<seq<Option<BdhJson>>>, lib: TextLib, d: Dog)
    requires d in GetDogsBdh(response, lib)
    ensures BdhPrefix <= d.dogid && d.owner == BdhOwner && d.breed != [] && IsStatus(d.status)
  {
    var dogs := GetDogsBdh(response, lib);
    var i :| 0 <= i < |dogs| && dogs[i] == d;
  }
}
