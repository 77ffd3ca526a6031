/** The Pets4Homes adapter (getdogs_p4h and its parse_p4h_dog_html): for
    each advert type, search result pages 1, 2, … are fetched, the numbers
    of the further pages being read off page 1; every listing that parses
    and passes the title and owner filters becomes an Available dog. */
module Pets4Homes {
  import opened Wrappers
  import opened Text
  import opened Dogs

  const P4hPrefix := "p4h"
  const OwnerPrefix := "P4H/"

  /** The advert types searched, in order: 1 for sale, 2 for adoption. */
  const AdvertTypes: seq<int> := [1, 2]

  /** The configured search: location, radius and maximum price, as the
      text they are formatted into the search URL with. */
  datatype Search = Search(location: string, distanceMiles: string, maxPrice: string)

  /** One search request: the configured search, the advert type and the
      page number. */
  datatype Query = Query(search: Search, advertType: int, page: int)

  /** What the page markup yields for one listing: the texts of the links in
      its categories block (None when the block is missing), the headline
      text and the headline link's href (None when missing), and the
      username link's text (None when missing). */
  datatype Listing = Listing(categories: Option<seq<string>>, headline: Option<string>,
                             href: Option<string>, username: Option<string>)

  /** A search result page: the texts of the links in its pagination block
      (None when the block is missing) and its listings. */
  datatype Page = Page(pagination: Option<seq<string>>, listings: seq<Listing>)

  /** The fields parse_p4h_dog_html returns. */
  datatype Fields = Fields(dogid: string, owner: string, location: string, name: string,
                           breed: string, url: string)

  /** The text before the first '-' in the last '/'-segment of a URL. */
  function AdvertNumber(url: string): string {
    var segments := Split(url, '/');
    Split(segments[|segments| - 1], '-')[0]
  }

  /** `parse_p4h_dog_html`; None where it raises (no categories block or
      fewer than four category links, no headline or headline href, no
      username). */
  function ParseDogHtml(l: Listing): (r: Option<Fields>)
    ensures r.Some? <==>
              && l.categories.Some? && |l.categories.value| >= 4
              && l.headline.Some? && l.href.Some? && l.username.Some?
    ensures r.Some? ==>
              && r.value.dogid == P4hPrefix + AdvertNumber(l.href.value)
              && r.value.owner == OwnerPrefix + l.username.value
              && r.value.location == l.categories.value[3]
              && r.value.breed == l.categories.value[2]
              && r.value.name == l.headline.value
              && r.value.url == l.href.value
  {
    if l.categories.None? || |l.categories.value| < 4 || l.headline.None? || l.href.None? || l.username.None?
    then None
    else
      var categories := l.categories.value;
      Some(Fields(P4hPrefix + AdvertNumber(l.href.value), OwnerPrefix + l.username.value,
                  categories[3], l.headline.value, categories[2], l.href.value))
  }

  /** The advert number is a text holding neither '/' nor '-' that starts
      the last '/'-segment of the URL and is followed there by '-' or ends
      it; that segment ends the URL and starts it or follows a '/'. */
  lemma AdvertNumberOfUrl(url: string)
    ensures var num := AdvertNumber(url);
            && '/' !in num && '-' !in num
            && exists last ::
                 && '/' !in last && num <= last && (num == last || last[|num|] == '-')
                 && IsSuffix(last, url)
                 && (|url| == |last| || url[|url| - |last| - 1] == '/')
  {
    var segments := Split(url, '/');
    var last := segments[|segments| - 1];
    var num := Split(last, '-')[0];
    SplitLast(url, '/');
    SplitPieces(url, '/');
    assert '/' !in last;
    SplitFirst(last, '-');
    SplitPieces(last, '-');
    assert '-' !in num;
  }

  /** Whether any filter is, ignoring ASCII case, a substring of text. */
  predicate Matches(filters: seq<string>, text: string) {
    exists i :: 0 <= i < |filters| && Contains(Lower(text), Lower(filters[i]))
  }

  /** The filter of getdogs_p4h: a dog is kept when no title filter matches
      its name and no owner filter matches its owner. */
  predicate Keep(titleFilters: seq<string>, ownerFilters: seq<string>, f: Fields) {
    !Matches(titleFilters, f.name) && !Matches(ownerFilters, f.owner)
  }

  function P4h(f: Fields): Dog {
    NewDog(f.dogid, f.owner, f.location, f.name, f.breed, Available, f.url)
  }

  /** The dog a listing contributes: none if it does not parse or is
      filtered out. */
  function ListingDogs(titleFilters: seq<string>, ownerFilters: seq<string>, l: Listing): (r: seq<Dog>)
    ensures |r| <= 1
  {
    match ParseDogHtml(l)
    case None => []
    case Some(f) => if Keep(titleFilters, ownerFilters, f) then [P4h(f)] else []
  }

  /** The per-listing function of getdogs_p4h. */
  function DogOf(titleFilters: seq<string>, ownerFilters: seq<string>): Listing -> seq<Dog> {
    l => ListingDogs(titleFilters, ownerFilters, l)
  }

  /** A listing yields a dog exactly when it parses and passes both filters;
      that dog is its parsed record, with status Available and (whatever
      the header said) a non-empty breed. */
  lemma FilterIff(titleFilters: seq<string>, ownerFilters: seq<string>, l: Listing)
    ensures ListingDogs(titleFilters, ownerFilters, l) != [] <==>
              ParseDogHtml(l).Some? && Keep(titleFilters, ownerFilters, ParseDogHtml(l).value)
    ensures ListingDogs(titleFilters, ownerFilters, l) != [] ==>
              var f := ParseDogHtml(l).value;
              var d := ListingDogs(titleFilters, ownerFilters, l)[0];
              && d.dogid == f.dogid && d.owner == f.owner && d.location == f.location
              && d.name == f.name && d.url == f.url && d.status == Available
              && d.breed != [] && (f.breed != [] ==> d.breed == f.breed)
  {
  }

  /** An owner filter naming a user, in any ASCII case, excludes every
      listing of that user. */
  lemma OwnerFilterExcludesUser(titleFilters: seq<string>, ownerFilters: seq<string>,
                                f: Fields, user: string, k: nat)
    requires f.owner == OwnerPrefix + user
    requires k < |ownerFilters| && Lower(ownerFilters[k]) == Lower(user)
    ensures !Keep(titleFilters, ownerFilters, f)
  {
    var owner := Lower(f.owner);
    LowerAppend(OwnerPrefix, user);
    assert owner[|OwnerPrefix|..] == Lower(user);
    assert OccursAt(owner, Lower(ownerFilters[k]), |OwnerPrefix|);
    ContainsIff(owner, Lower(ownerFilters[k]));
  }

  /** The filter "banneduser" excludes the listings of user BannedUser. */
  lemma OwnerFilterExample(f: Fields)
    requires f.owner == OwnerPrefix + "BannedUser"
    ensures !Keep([], ["banneduser"], f)
  {
    assert Lower("banneduser") == Lower("BannedUser");
    OwnerFilterExcludesUser([], ["banneduser"], f, "BannedUser", 0);
  }

  /** An empty filter matches everything, so it excludes every listing. */
  lemma EmptyFilterExcludesAll(titleFilters: seq<string>, ownerFilters: seq<string>, l: Listing)
    requires "" in titleFilters || "" in ownerFilters
    ensures ListingDogs(titleFilters, ownerFilters, l) == []
  {
    if ParseDogHtml(l).Some? {
      var f := ParseDogHtml(l).value;
      if "" in titleFilters {
        var i :| 0 <= i < |titleFilters| && titleFilters[i] == "";
        EmptyContained(Lower(f.name));
      } else {
        var i :| 0 <= i < |ownerFilters| && ownerFilters[i] == "";
        EmptyContained(Lower(f.owner));
      }
    }
  }

  // ---------------------------------------------------------------------------
  // Pagination

  /** `[int(ii.text) for ii in extrapages]`: None when a text is not an
      integer, which aborts the whole adapter. */
  function ExtraPages(texts: seq<string>): Option<seq<int>> {
    if texts == [] then Some([])
    else match ParseInt(texts[0])
      case None => None
      case Some(n) =>
        match ExtraPages(texts[1..])
        case None => None
        case Some(rest) => Some([n] + rest)
  }

  /** The extra page numbers are the texts read as integers, one for one;
      there are none when some text is not an integer. */
  lemma {:induction false} ExtraPagesParsed(texts: seq<string>)
    ensures ExtraPages(texts).Some? <==> forall i :: 0 <= i < |texts| ==> ParseInt(texts[i]).Some?
    ensures ExtraPages(texts).Some? ==>
              var pages := ExtraPages(texts).value;
              |pages| == |texts| && forall i :: 0 <= i < |texts| ==> ParseInt(texts[i]) == Some(pages[i])
  {
    if texts != [] {
      ExtraPagesParsed(texts[1..]);
      assert forall i :: 1 <= i < |texts| ==> texts[1..][i - 1] == texts[i];
    }
  }

  /** Python's max of a non-empty list. */
  function Max(xs: seq<int>): (m: int)
    requires xs != []
    ensures m in xs
    ensures forall i :: 0 <= i < |xs| ==> xs[i] <= m
  {
    if |xs| == 1 then xs[0]
    else var m := Max(xs[1..]); if xs[0] >= m then xs[0] else m
  }

  /** The last page getdogs_p4h requests for an advert type, given page 1. */
  function LastPage(page1: Page): Option<int> {
    match page1.pagination
    case None => None
    case Some(texts) =>
      match ExtraPages(texts)
      case None => None
      case Some(extras) => Some(Max([1] + extras))
  }

  /** The dogs of pages 1..n of an advert type's search; None once a page
      cannot be fetched. */
  function RangeDogs(fetch: Query -> Option<Page>, s: Search, advertType: int,
                     dogOf: Listing -> seq<Dog>, n: nat): Option<seq<Dog>>
  {
    if n == 0 then Some([])
    else match RangeDogs(fetch, s, advertType, dogOf, n - 1)
      case None => None
      case Some(before) =>
        match fetch(Query(s, advertType, n))
        case None => None
        case Some(p) => Some(before + Collect(dogOf, p.listings))
  }

  /** The dogs of one advert type: those of pages 1 to the last page page 1
      announces; None when a fetch fails or page 1's pagination is
      missing or unreadable. */
  function AdvertDogs(fetch: Query -> Option<Page>, s: Search, advertType: int,
                      dogOf: Listing -> seq<Dog>): Option<seq<Dog>>
  {
    match fetch(Query(s, advertType, 1))
    case None => None
    case Some(page1) =>
      match LastPage(page1)
      case None => None
      case Some(last) => RangeDogs(fetch, s, advertType, dogOf, last)
  }

  /** The pages 1, 2, …, n, in that order: each requested once, in
      strictly ascending order. */
  predicate FirstPages(pages: seq<int>, n: int) {
    |pages| == n && forall i :: 0 <= i < |pages| ==> pages[i] == i + 1
  }

  /** The last page is at least 1 and at least every page number page 1
      lists, and is one of them unless it is 1. */
  lemma LastPageBounds(page1: Page)
    requires LastPage(page1).Some?
    ensures var last := LastPage(page1).value;
            var extras := ExtraPages(page1.pagination.value).value;
            && last >= 1
            && (forall i :: 0 <= i < |extras| ==> extras[i] <= last)
            && (last == 1 || last in extras)
  {
    var extras := ExtraPages(page1.pagination.value).value;
    var m := Max([1] + extras);
    forall i | 0 <= i < |extras| ensures extras[i] <= m {
      assert extras[i] == ([1] + extras)[i + 1];
    }
    if m != 1 {
      var k :| 0 <= k < |[1] + extras| && ([1] + extras)[k] == m;
      assert extras[k - 1] == m;
    }
  }

  lemma {:induction false} RangeFailurePersists(fetch: Query -> Option<Page>, s: Search, advertType: int,
                                                dogOf: Listing -> seq<Dog>, k: nat, n: nat)
    requires k <= n && RangeDogs(fetch, s, advertType, dogOf, k).None?
    ensures RangeDogs(fetch, s, advertType, dogOf, n).None?
    decreases n
  {
    if k < n {
      RangeFailurePersists(fetch, s, advertType, dogOf, k, n - 1);
    }
  }

  /** A page that cannot be fetched, page 1 or one up to the last page
      page 1 announces, aborts the advert type. */
  lemma MissingPageAborts(fetch: Query -> Option<Page>, s: Search, advertType: int,
                          dogOf: Listing -> seq<Dog>, n: nat, last: int)
    requires 1 <= n && fetch(Query(s, advertType, n)).None?
    requires n > 1 ==> && fetch(Query(s, advertType, 1)).Some?
                       && LastPage(fetch(Query(s, advertType, 1)).value) == Some(last)
                       && n <= last
    ensures AdvertDogs(fetch, s, advertType, dogOf).None?
  {
    if n > 1 {
      assert RangeDogs(fetch, s, advertType, dogOf, n).None?;
      RangeFailurePersists(fetch, s, advertType, dogOf, n, last);
    }
  }

  /** `pagenums.extend(extrapages)` on page 1: found is false when the
      pagination block is missing or a page number is not an integer. */
  method ExtendPageNumbers(pagenums: seq<int>, page1: Page) returns (found: bool, pagenums': seq<int>)
    requires pagenums == [1]
    ensures found <==> LastPage(page1).Some?
    ensures found ==> pagenums' != [] && pagenums'[0] == 1 && LastPage(page1) == Some(Max(pagenums'))
  {
    pagenums' := pagenums;
    if page1.pagination.None? {
      return false, pagenums';
    }
    var extras := ExtraPages(page1.pagination.value);
    if extras.None? {
      return false, pagenums';
    }
    pagenums' := pagenums + extras.value;
    found := true;
  }

  /** The state of getdogs_p4h's page loop after `current` pages: acc
      holds the dogs of pages 1..current and, once page 1 is in, the page
      numbers it lists are read. */
  ghost predicate PagesRead(fetch: Query -> Option<Page>, s: Search, advertType: int,
                            dogOf: Listing -> seq<Dog>, pagenums: seq<int>, current: nat, acc: seq<Dog>)
  {
    && pagenums != [] && pagenums[0] == 1
    && current <= Max(pagenums)
    && (current == 0 ==> pagenums == [1])
    && (current > 0 ==> && fetch(Query(s, advertType, 1)).Some?
                        && LastPage(fetch(Query(s, advertType, 1)).value) == Some(Max(pagenums)))
    && RangeDogs(fetch, s, advertType, dogOf, current) == Some(acc)
  }

  /** Fetching the next page, and reading the page numbers off it when it
      is page 1, advances the loop state by that page's dogs. */
  lemma PagesReadStep(fetch: Query -> Option<Page>, s: Search, advertType: int, dogOf: Listing -> seq<Dog>,
                      pagenums: seq<int>, pagenums': seq<int>, n: nat, acc: seq<Dog>, page: Page, acc': seq<Dog>)
    requires 1 <= n && PagesRead(fetch, s, advertType, dogOf, pagenums, n - 1, acc)
    requires n - 1 < Max(pagenums)
    requires fetch(Query(s, advertType, n)) == Some(page)
    requires n == 1 ==> pagenums' != [] && pagenums'[0] == 1 && LastPage(page) == Some(Max(pagenums'))
    requires n > 1 ==> pagenums' == pagenums
    requires acc' == acc + Collect(dogOf, page.listings)
    ensures PagesRead(fetch, s, advertType, dogOf, pagenums', n, acc')
  {
    if n == 1 {
      LastPageBounds(page);
    }
  }

  /** One pass of getdogs_p4h's page loop: fetch page `current`, read the
      further page numbers off it when it is page 1, and append the dogs of
      its listings. ok is false when the adapter aborts. */
  method FetchPage(fetch: Query -> Option<Page>, s: Search, advertType: int, dogOf: Listing -> seq<Dog>,
                   pagenums: seq<int>, current: nat, dogs: seq<Dog>, ghost base: seq<Dog>, ghost acc: seq<Dog>)
    returns (ok: bool, pagenums': seq<int>, dogs': seq<Dog>, ghost acc': seq<Dog>)
    requires 1 <= current && PagesRead(fetch, s, advertType, dogOf, pagenums, current - 1, acc)
    requires current - 1 < Max(pagenums)
    requires dogs == base + acc
    ensures !ok ==> AdvertDogs(fetch, s, advertType, dogOf).None?
    ensures ok ==> && PagesRead(fetch, s, advertType, dogOf, pagenums', current, acc')
                   && dogs' == base + acc'
                   && (current > 1 ==> pagenums' == pagenums)
  {
    var page := fetch(Query(s, advertType, current));
    if page.None? {
      MissingPageAborts(fetch, s, advertType, dogOf, current, Max(pagenums));
      return false, pagenums, dogs, acc;
    }
    pagenums' := pagenums;
    if current == 1 {
      var found;
      found, pagenums' := ExtendPageNumbers(pagenums, page.value);
      if !found {
        UnreadablePaginationAborts(fetch, s, advertType, dogOf, page.value);
        return false, pagenums', dogs, acc;
      }
    }
    dogs', acc' := ReadPage(fetch, s, advertType, dogOf, pagenums, pagenums', current, page.value, dogs, base, acc);
    ok := true;
  }

  /** The listing loop over one fetched page, which extends the pages read
      by that page. */
  method ReadPage(fetch: Query -> Option<Page>, s: Search, advertType: int, dogOf: Listing -> seq<Dog>,
                  pagenums: seq<int>, pagenums': seq<int>, current: nat, page: Page,
                  dogs: seq<Dog>, ghost base: seq<Dog>, ghost acc: seq<Dog>)
    returns (dogs': seq<Dog>, ghost acc': seq<Dog>)
    requires 1 <= current && PagesRead(fetch, s, advertType, dogOf, pagenums, current - 1, acc)
    requires current - 1 < Max(pagenums)
    requires fetch(Query(s, advertType, current)) == Some(page)
    requires current == 1 ==> pagenums' != [] && pagenums'[0] == 1 && LastPage(page) == Some(Max(pagenums'))
    requires current > 1 ==> pagenums' == pagenums
    requires dogs == base + acc
    ensures dogs' == dogs + Collect(dogOf, page.listings)
    ensures PagesRead(fetch, s, advertType, dogOf, pagenums', current, acc')
    ensures dogs' == base + acc'
  {
    dogs' := AppendListings(dogs, dogOf, page.listings);
    acc' := acc + Collect(dogOf, page.listings);
    assert dogs' == base + acc' by {
      assert dogs' == (base + acc) + Collect(dogOf, page.listings);
    }
    PagesReadStep(fetch, s, advertType, dogOf, pagenums, pagenums', current, acc, page, acc');
  }

  /** Page 1 without readable pagination aborts the advert type. */
  lemma UnreadablePaginationAborts(fetch: Query -> Option<Page>, s: Search, advertType: int,
                                   dogOf: Listing -> seq<Dog>, page1: Page)
    requires fetch(Query(s, advertType, 1)) == Some(page1) && LastPage(page1).None?
    ensures AdvertDogs(fetch, s, advertType, dogOf).None?
  {
  }

  /** The `while current_page < max(pagenums)` loop of getdogs_p4h for one
      advert type: fetch page after page, reading the further page numbers
      off page 1 only, and append the dogs of every page's listings. ok is
      false when the adapter aborts; requested is the pages fetched. */
  method FetchAdvertType(dogs: seq<Dog>, fetch: Query -> Option<Page>, s: Search,
                         advertType: int, dogOf: Listing -> seq<Dog>)
    returns (ok: bool, dogs': seq<Dog>, ghost requested: seq<int>)
    ensures ok <==> AdvertDogs(fetch, s, advertType, dogOf).Some?
    ensures ok ==> dogs' == dogs + AdvertDogs(fetch, s, advertType, dogOf).value
    ensures requested != [] && FirstPages(requested, |requested|)
    ensures ok ==> FirstPages(requested, LastPage(fetch(Query(s, advertType, 1)).value).value)
  {
    var pagenums := [1];
    var current := 0;
    dogs' := dogs;
    requested := [];
    ghost var acc: seq<Dog> := [];
    while current < Max(pagenums)
      invariant PagesRead(fetch, s, advertType, dogOf, pagenums, current, acc)
      invariant FirstPages(requested, current)
      invariant dogs' == dogs + acc
      decreases if current == 0 then 1 else 0, Max(pagenums) - current
    {
      current := current + 1;
      requested := requested + [current];
      var fetched;
      fetched, pagenums, dogs', acc := FetchPage(fetch, s, advertType, dogOf, pagenums, current, dogs', dogs, acc);
      if !fetched {
        return false, dogs', requested;
      }
    }
    ok := true;
  }

  /** The dogs of the given advert types in order; None once one aborts. */
  function AdvertsDogs(fetch: Query -> Option<Page>, s: Search, dogOf: Listing -> seq<Dog>,
                       types: seq<int>): Option<seq<Dog>>
  {
    if types == [] then Some([])
    else match AdvertsDogs(fetch, s, dogOf, types[..|types| - 1])
      case None => None
      case Some(before) =>
        match AdvertDogs(fetch, s, types[|types| - 1], dogOf)
        case None => None
        case Some(ds) => Some(before + ds)
  }

  /** What getdogs_p4h returns: the kept dogs of both advert types, or none
      at all when the adapter aborts. */
  function P4hDogs(fetch: Query -> Option<Page>, s: Search,
                   titleFilters: seq<string>, ownerFilters: seq<string>): seq<Dog>
  {
    AdvertsDogs(fetch, s, DogOf(titleFilters, ownerFilters), AdvertTypes).GetOr([])
  }

  lemma {:induction false} AdvertsFailurePersists(fetch: Query -> Option<Page>, s: Search,
                                                  dogOf: Listing -> seq<Dog>, types: seq<int>, k: nat)
    requires k <= |types| && AdvertsDogs(fetch, s, dogOf, types[..k]).None?
    ensures AdvertsDogs(fetch, s, dogOf, types).None?
  {
    if k < |types| {
      assert types[..|types| - 1][..k] == types[..k];
      AdvertsFailurePersists(fetch, s, dogOf, types[..|types| - 1], k);
    } else {
      assert types[..k] == types;
    }
  }

  /** `getdogs_p4h`: for each advert type, run the pagination loop; any
      failure makes the whole adapter return []. */
  method GetDogsP4h(fetch: Query -> Option<Page>, s: Search,
                    titleFilters: seq<string>, ownerFilters: seq<string>) returns (dogs: seq<Dog>)
    ensures dogs == P4hDogs(fetch, s, titleFilters, ownerFilters)
  {
    var dogOf := DogOf(titleFilters, ownerFilters);
    dogs := [];
    var ti := 0;
    while ti < |AdvertTypes|
      invariant 0 <= ti <= |AdvertTypes|
      invariant AdvertsDogs(fetch, s, dogOf, AdvertTypes[..ti]) == Some(dogs)
    {
      assert AdvertTypes[..ti + 1][..ti] == AdvertTypes[..ti];
      var ok;
      ghost var requested;
      ok, dogs, requested := FetchAdvertType(dogs, fetch, s, AdvertTypes[ti], dogOf);
      if !ok {
        AdvertsFailurePersists(fetch, s, dogOf, AdvertTypes, ti + 1);
        return [];
      }
      ti := ti + 1;
    }
    assert AdvertTypes[..ti] == AdvertTypes;
  }

  // ---------------------------------------------------------------------------
  // What every Pets4Homes dog looks like

  predicate IsP4hDog(titleFilters: seq<string>, ownerFilters: seq<string>, d: Dog) {
    && P4hPrefix <= d.dogid
    && OwnerPrefix <= d.owner
    && d.status == Available
    && d.breed != []
    && !Matches(titleFilters, d.name)
    && !Matches(ownerFilters, d.owner)
  }

  lemma ListingShape(titleFilters: seq<string>, ownerFilters: seq<string>, ls: seq<Listing>, i: nat)
    requires i < |Collect(DogOf(titleFilters, ownerFilters), ls)|
    ensures IsP4hDog(titleFilters, ownerFilters, Collect(DogOf(titleFilters, ownerFilters), ls)[i])
  {
    var dogOf := DogOf(titleFilters, ownerFilters);
    CollectFrom(dogOf, ls, i);
    var k :| 0 <= k < |ls| && Collect(dogOf, ls)[i] in dogOf(ls[k]);
    FilterIff(titleFilters, ownerFilters, ls[k]);
  }

  lemma {:induction false} RangeShape(fetch: Query -> Option<Page>, s: Search, advertType: int,
                                      titleFilters: seq<string>, ownerFilters: seq<string>, n: nat, i: nat)
    requires RangeDogs(fetch, s, advertType, DogOf(titleFilters, ownerFilters), n).Some?
    requires i < |RangeDogs(fetch, s, advertType, DogOf(titleFilters, ownerFilters), n).value|
    ensures IsP4hDog(titleFilters, ownerFilters,
                     RangeDogs(fetch, s, advertType, DogOf(titleFilters, ownerFilters), n).value[i])
  {
    var dogOf := DogOf(titleFilters, ownerFilters);
    var before := RangeDogs(fetch, s, advertType, dogOf, n - 1).value;
    if i < |before| {
      RangeShape(fetch, s, advertType, titleFilters, ownerFilters, n - 1, i);
    } else {
      ListingShape(titleFilters, ownerFilters, fetch(Query(s, advertType, n)).value.listings, i - |before|);
    }
  }

  lemma {:induction false} AdvertsShape(fetch: Query -> Option<Page>, s: Search,
                                        titleFilters: seq<string>, ownerFilters: seq<string>,
                                        types: seq<int>, i: nat)
    requires AdvertsDogs(fetch, s, DogOf(titleFilters, ownerFilters), types).Some?
    requires i < |AdvertsDogs(fetch, s, DogOf(titleFilters, ownerFilters), types).value|
    ensures IsP4hDog(titleFilters, ownerFilters,
                     AdvertsDogs(fetch, s, DogOf(titleFilters, ownerFilters), types).value[i])
  {
    var dogOf := DogOf(titleFilters, ownerFilters);
    var before := AdvertsDogs(fetch, s, dogOf, types[..|types| - 1]).value;
    if i < |before| {
      AdvertsShape(fetch, s, titleFilters, ownerFilters, types[..|types| - 1], i);
    } else {
      var t := types[|types| - 1];
      var page1 := fetch(Query(s, t, 1)).value;
      RangeShape(fetch, s, t, titleFilters, ownerFilters, LastPage(page1).value, i - |before|);
    }
  }

  /** Every Pets4Homes dog has a "p4h" id, an owner starting "P4H/", status
      Available and a non-empty breed, and no filter matches it. */
  lemma P4hDogsShape(fetch: Query -> Option<Page>, s: Search,
                     titleFilters: seq<string>, ownerFilters: seq<string>, d: Dog)
    requires d in P4hDogs(fetch, s, titleFilters, ownerFilters)
    ensures IsP4hDog(titleFilters, ownerFilters, d)
  {
    var dogs := P4hDogs(fetch, s, titleFilters, ownerFilters);
    var i :| 0 <= i < |dogs| && dogs[i] == d;
    AdvertsShape(fetch, s, titleFilters, ownerFilters, AdvertTypes, i);
  }
}
