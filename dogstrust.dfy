/** The Dogs Trust adapter (getdogs_dt and its parse_dt_dog_html): every
    rehoming centre's index page lists the URLs of its result pages, and
    every result page lists dogs. */
module DogsTrust {
  import opened Wrappers
  import opened Text
  import opened Dogs

  const DtPrefix := "dt"
  const DtOwner := "DT"
  const BaseUrl := "https://www.dogstrust.org.uk/"

  /** The centres scraped, in order: name and index-page path. */
  const Centres: seq<(string, string)> :=
    [("Basildon", "/rehoming/dogs/filters/ess~~~~~n~"),
     ("Harefield", "/rehoming/dogs/filters/har~~~~~n~")]

  /** What the page markup yields for one listing: the heading text (None
      when there is no h3), the texts of its span elements, whether a
      reserved label is present, and its href (None when missing). */
  datatype Listing = Listing(heading: Option<string>, spans: seq<string>,
                             reservedLabel: bool, href: Option<string>)

  /** The fields parse_dt_dog_html returns. */
  datatype Fields = Fields(dogid: string, name: string, breed: string, status: string, url: string)

  /** The breed label as shown, with the site's crossbreed label normalised. */
  function DtBreed(shown: string): (b: string)
    ensures Lower(Strip(shown)) == "a crossbreed" ==> b == "Crossbreed"
    ensures Lower(Strip(shown)) != "a crossbreed" ==> b == Strip(shown)
  {
    var b := Strip(shown);
    if Lower(b) == "a crossbreed" then "Crossbreed" else b
  }

  /** The normalised label is never the site's crossbreed label, in any
      ASCII case, and normalising it again changes nothing. */
  lemma DtBreedNormal(shown: string)
    ensures Lower(DtBreed(shown)) != "a crossbreed"
    ensures DtBreed(DtBreed(shown)) == DtBreed(shown)
  {
    StripIdempotent(shown);
    StripUnchanged("Crossbreed");
    assert |Lower("Crossbreed")| != |"a crossbreed"|;
  }

  /** `parse_dt_dog_html`; None where it raises (no heading, no span, no
      href, or a URL with no '/' so that `split('/')[-2]` fails). */
  function ParseDogHtml(l: Listing, lib: TextLib): (r: Option<Fields>)
    ensures r.Some? <==>
              l.heading.Some? && l.spans != [] && l.href.Some? &&
              '/' in lib.urlJoin(BaseUrl, l.href.value)
    ensures r.Some? ==>
              var url := lib.urlJoin(BaseUrl, l.href.value);
              && r.value.url == url
              && r.value.name == Strip(l.heading.value)
              && r.value.breed == DtBreed(l.spans[0])
              && r.value.status == (if l.reservedLabel then Reserved else Available)
              && DtPrefix <= r.value.dogid
  {
    if l.heading.None? || l.spans == [] || l.href.None? then None
    else
      var url := lib.urlJoin(BaseUrl, l.href.value);
      var pieces := Split(url, '/');
      SplitCount(url, '/');
      if |pieces| < 2 then None
      else
        Some(Fields(DtPrefix + pieces[|pieces| - 2], Strip(l.heading.value), DtBreed(l.spans[0]),
                    if l.reservedLabel then Reserved else Available, url))
  }

  /** A Dogs Trust id is "dt" followed by the second-to-last '/'-segment of
      the listing URL: a segment seg holding no '/' such that the URL ends in
      seg + "/" + last, where last holds no '/' (empty for a URL ending in
      '/'), and seg starts the URL or follows a '/'. */
  lemma DtIdIsSecondLastSegment(l: Listing, lib: TextLib)
    requires ParseDogHtml(l, lib).Some?
    ensures var f := ParseDogHtml(l, lib).value;
            var seg := f.dogid[|DtPrefix|..];
            exists last ::
              && '/' !in seg && '/' !in last
              && IsSuffix(seg + "/" + last, f.url)
              && (|f.url| == |seg| + 1 + |last| || f.url[|f.url| - |seg| - |last| - 2] == '/')
  {
    var f := ParseDogHtml(l, lib).value;
    var url := f.url;
    SplitTail(url, '/');
    SplitPieces(url, '/');
    var p := Split(url, '/');
    var seg, last := p[|p| - 2], p[|p| - 1];
    assert f.dogid == DtPrefix + seg;
    assert f.dogid[|DtPrefix|..] == seg;
    assert '/' !in seg && '/' !in last;
    assert IsSuffix(seg + "/" + last, url);
    assert |url| == |seg| + 1 + |last| || url[|url| - |seg| - |last| - 2] == '/';
  }

  function Dt(lib: TextLib, centre: string, f: Fields): Dog {
    NewDog(f.dogid, DtOwner, centre, f.name, f.breed, f.status, f.url)
  }

  /** The dog a listing contributes: none if it does not parse. */
  function ListingDogs(lib: TextLib, centre: string, listing: Listing): (r: seq<Dog>)
    ensures |r| <= 1
  {
    match ParseDogHtml(listing, lib)
    case None => []
    case Some(f) => [Dt(lib, centre, f)]
  }

  /** The per-listing function of getdogs_dt for one centre. */
  function DogOf(lib: TextLib, centre: string): Listing -> seq<Dog> {
    l => ListingDogs(lib, centre, l)
  }

  /** The dogs of the given result pages in order, each listing yielding
      the dogs dogOf gives it; None once a page cannot be fetched. */
  function ScrapePages(dogOf: Listing -> seq<Dog>, fetchPage: string -> Option<seq<Listing>>,
                       urls: seq<string>): Option<seq<Dog>>
  {
    if urls == [] then Some([])
    else match ScrapePages(dogOf, fetchPage, urls[..|urls| - 1])
      case None => None
      case Some(before) =>
        match fetchPage(urls[|urls| - 1])
        case None => None
        case Some(ls) => Some(before + Collect(dogOf, ls))
  }

  /** The absolute URLs of the result pages an index page links to. */
  function PageUrls(lib: TextLib, hrefs: seq<string>): (urls: seq<string>)
    ensures |urls| == |hrefs|
    ensures forall i :: 0 <= i < |urls| ==> urls[i] == lib.urlJoin(BaseUrl, hrefs[i])
  {
    seq(|hrefs|, i requires 0 <= i < |hrefs| => lib.urlJoin(BaseUrl, hrefs[i]))
  }

  /** The dogs of one centre: those of every result page its index page
      links to; None when the index page or a result page cannot be fetched. */
  function CentreDogs(lib: TextLib, fetchIndex: string -> Option<seq<string>>,
                      fetchPage: string -> Option<seq<Listing>>, c: (string, string)): Option<seq<Dog>>
  {
    match fetchIndex(lib.urlJoin(BaseUrl, c.1))
    case None => None
    case Some(hrefs) => ScrapePages(DogOf(lib, c.0), fetchPage, PageUrls(lib, hrefs))
  }

  /** The dogs of the given centres in order; None once an index page or a
      result page cannot be fetched or read. */
  function ScrapeCentres(lib: TextLib, fetchIndex: string -> Option<seq<string>>,
                         fetchPage: string -> Option<seq<Listing>>,
                         cs: seq<(string, string)>): Option<seq<Dog>>
  {
    if cs == [] then Some([])
    else match ScrapeCentres(lib, fetchIndex, fetchPage, cs[..|cs| - 1])
      case None => None
      case Some(before) =>
        match CentreDogs(lib, fetchIndex, fetchPage, cs[|cs| - 1])
        case None => None
        case Some(ds) => Some(before + ds)
  }

  /** What getdogs_dt returns: every centre's dogs, or none at all when any
      fetch failed. */
  function DtDogs(lib: TextLib, fetchIndex: string -> Option<seq<string>>,
                  fetchPage: string -> Option<seq<Listing>>): seq<Dog>
  {
    ScrapeCentres(lib, fetchIndex, fetchPage, Centres).GetOr([])
  }

  lemma {:induction false} ScrapePagesFailurePersists(dogOf: Listing -> seq<Dog>,
                                                      fetchPage: string -> Option<seq<Listing>>,
                                                      urls: seq<string>, k: nat)
    requires k <= |urls| && ScrapePages(dogOf, fetchPage, urls[..k]).None?
    ensures ScrapePages(dogOf, fetchPage, urls).None?
  {
    if k < |urls| {
      assert urls[..|urls| - 1][..k] == urls[..k];
      ScrapePagesFailurePersists(dogOf, fetchPage, urls[..|urls| - 1], k);
    } else {
      assert urls[..k] == urls;
    }
  }

  lemma {:induction false} ScrapeCentresFailurePersists(lib: TextLib, fetchIndex: string -> Option<seq<string>>,
                                                        fetchPage: string -> Option<seq<Listing>>,
                                                        cs: seq<(string, string)>, k: nat)
    requires k <= |cs| && ScrapeCentres(lib, fetchIndex, fetchPage, cs[..k]).None?
    ensures ScrapeCentres(lib, fetchIndex, fetchPage, cs).None?
  {
    if k < |cs| {
      assert cs[..|cs| - 1][..k] == cs[..k];
      ScrapeCentresFailurePersists(lib, fetchIndex, fetchPage, cs[..|cs| - 1], k);
    } else {
      assert cs[..k] == cs;
    }
  }

  /** getdogs_dt's loop over one centre's result pages: fetch each page and
      append the dogs of its listings. ok is false when a fetch failed. */
  method ScrapePageList(dogs: seq<Dog>, dogOf: Listing -> seq<Dog>,
                        fetchPage: string -> Option<seq<Listing>>, urls: seq<string>)
    returns (ok: bool, dogs': seq<Dog>)
    ensures ok <==> ScrapePages(dogOf, fetchPage, urls).Some?
    ensures ok ==> dogs' == dogs + ScrapePages(dogOf, fetchPage, urls).value
  {
    dogs' := dogs;
    var pi := 0;
    ghost var acc := [];
    while pi < |urls|
      invariant 0 <= pi <= |urls|
      invariant ScrapePages(dogOf, fetchPage, urls[..pi]) == Some(acc)
      invariant dogs' == dogs + acc
    {
      assert urls[..pi + 1][..pi] == urls[..pi];
      var page := fetchPage(urls[pi]);
      if page.None? {
        ScrapePagesFailurePersists(dogOf, fetchPage, urls, pi + 1);
        return false, dogs';
      }
      dogs' := AppendListings(dogs', dogOf, page.value);
      acc := acc + Collect(dogOf, page.value);
      pi := pi + 1;
    }
    assert urls[..pi] == urls;
    ok := true;
  }

  /** The body of getdogs_dt's loop over centres: fetch the centre's index
      page, then every result page it links to, appending a Dog for every
      listing that parses. ok is false when a fetch failed. */
  method ScrapeCentre(dogs: seq<Dog>, lib: TextLib, fetchIndex: string -> Option<seq<string>>,
                      fetchPage: string -> Option<seq<Listing>>, centre: (string, string))
    returns (ok: bool, dogs': seq<Dog>)
    ensures ok <==> CentreDogs(lib, fetchIndex, fetchPage, centre).Some?
    ensures ok ==> dogs' == dogs + CentreDogs(lib, fetchIndex, fetchPage, centre).value
  {
    var index := fetchIndex(lib.urlJoin(BaseUrl, centre.1));
    if index.None? {
      return false, dogs;
    }
    ok, dogs' := ScrapePageList(dogs, DogOf(lib, centre.0), fetchPage, PageUrls(lib, index.value));
  }

  /** `getdogs_dt`: for every centre, fetch its index page, then every
      result page it links to, and append a Dog for every listing that
      parses; a listing that does not parse is skipped, and any failed fetch
      makes the whole adapter return []. */
  method GetDogsDt(lib: TextLib, fetchIndex: string -> Option<seq<string>>,
                   fetchPage: string -> Option<seq<Listing>>) returns (dogs: seq<Dog>)
    ensures dogs == DtDogs(lib, fetchIndex, fetchPage)
  {
    dogs := [];
    var ci := 0;
    while ci < |Centres|
      invariant 0 <= ci <= |Centres|
      invariant ScrapeCentres(lib, fetchIndex, fetchPage, Centres[..ci]) == Some(dogs)
    {
      assert Centres[..ci + 1][..ci] == Centres[..ci];
      var ok;
      ok, dogs := ScrapeCentre(dogs, lib, fetchIndex, fetchPage, Centres[ci]);
      if !ok {
        ScrapeCentresFailurePersists(lib, fetchIndex, fetchPage, Centres, ci + 1);
        return [];
      }
      ci := ci + 1;
    }
    assert Centres[..ci] == Centres;
  }

  // ---------------------------------------------------------------------------
  // What every Dogs Trust dog looks like

  predicate IsDtDog(d: Dog) {
    && DtPrefix <= d.dogid
    && d.owner == DtOwner
    && d.breed != []
    && (d.status == Reserved || d.status == Available)
    && exists i :: 0 <= i < |Centres| && d.location == Centres[i].0
  }

  lemma PageDogsShape(lib: TextLib, centre: string, ls: seq<Listing>, i: nat)
    requires exists k :: 0 <= k < |Centres| && centre == Centres[k].0
    requires i < |Collect(DogOf(lib, centre), ls)|
    ensures IsDtDog(Collect(DogOf(lib, centre), ls)[i])
  {
    CollectFrom(DogOf(lib, centre), ls, i);
    var k :| 0 <= k < |ls| && Collect(DogOf(lib, centre), ls)[i] in DogOf(lib, centre)(ls[k]);
  }

  lemma {:induction false} ScrapePagesShape(lib: TextLib, fetchPage: string -> Option<seq<Listing>>,
                                            centre: string, urls: seq<string>, i: nat)
    requires exists k :: 0 <= k < |Centres| && centre == Centres[k].0
    requires ScrapePages(DogOf(lib, centre), fetchPage, urls).Some?
    requires i < |ScrapePages(DogOf(lib, centre), fetchPage, urls).value|
    ensures IsDtDog(ScrapePages(DogOf(lib, centre), fetchPage, urls).value[i])
  {
    var before := ScrapePages(DogOf(lib, centre), fetchPage, urls[..|urls| - 1]).value;
    if i < |before| {
      ScrapePagesShape(lib, fetchPage, centre, urls[..|urls| - 1], i);
    } else {
      PageDogsShape(lib, centre, fetchPage(urls[|urls| - 1]).value, i - |before|);
    }
  }

  lemma {:induction false} ScrapeCentresShape(lib: TextLib, fetchIndex: string -> Option<seq<string>>,
                                              fetchPage: string -> Option<seq<Listing>>, n: nat, i: nat)
    requires n <= |Centres|
    requires ScrapeCentres(lib, fetchIndex, fetchPage, Centres[..n]).Some?
    requires i < |ScrapeCentres(lib, fetchIndex, fetchPage, Centres[..n]).value|
    ensures IsDtDog(ScrapeCentres(lib, fetchIndex, fetchPage, Centres[..n]).value[i])
  {
    var cs := Centres[..n];
    assert cs[..|cs| - 1] == Centres[..n - 1];
    var before := ScrapeCentres(lib, fetchIndex, fetchPage, Centres[..n - 1]).value;
    if i < |before| {
      ScrapeCentresShape(lib, fetchIndex, fetchPage, n - 1, i);
    } else {
      var c := cs[|cs| - 1];
      var hrefs := fetchIndex(lib.urlJoin(BaseUrl, c.1)).value;
      ScrapePagesShape(lib, fetchPage, c.0, PageUrls(lib, hrefs), i - |before|);
    }
  }

  /** Every Dogs Trust dog has a "dt" id, owner DT, a non-empty breed, status
      Reserved or Available, and the name of one of the centres as location. */
  lemma DtDogsShape(lib: TextLib, fetchIndex: string -> Option<seq<string>>,
                    fetchPage: string -> Option<seq<Listing>>, d: Dog)
    requires d in DtDogs(lib, fetchIndex, fetchPage)
    ensures IsDtDog(d)
  {
    var dogs := DtDogs(lib, fetchIndex, fetchPage);
    var i :| 0 <= i < |dogs| && dogs[i] == d;
    assert Centres[..|Centres|] == Centres;
    ScrapeCentresShape(lib, fetchIndex, fetchPage, |Centres|, i);
  }

  /** A listing that does not parse contributes nothing; one that parses
      contributes exactly its own Dog, after the dogs before it. */
  lemma PageDogsSkip(lib: TextLib, centre: string, ls: seq<Listing>, l: Listing)
    ensures Collect(DogOf(lib, centre), ls + [l]) ==
              Collect(DogOf(lib, centre), ls) +
              (if ParseDogHtml(l, lib).Some? then [Dt(lib, centre, ParseDogHtml(l, lib).value)] else [])
  {
    CollectStep(DogOf(lib, centre), ls, l);
  }
}
