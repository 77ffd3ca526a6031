# Rescue dog tracker — a Dafny model

The rescue dog tracker is a batch job. Each run does the following:

- It collects the dogs listed by three rescue sites:
  - the Battersea Dogs Home JSON API (BDH);
  - two Dogs Trust rehoming centres, scraped from HTML (DT);
  - a Pets4Homes search, scraped from paginated HTML and filtered by title and owner (P4H).
- It indexes the dogs by id and compares them with the snapshot the previous run left in a DynamoDB table.
- It applies the differences to the table: deleting removed dogs, adding new ones and updating changed statuses. A rejected call does not stop the others.
- It publishes an SNS notification when a dog is new or a dog has become Available.

This project models that core (the module `rescuedogtracker.py`) and proves its properties:

| file | module | what it models |
|---|---|---|
| `wrappers.dfy` | `Wrappers` | `Option`, for results that may be missing and for operations that raise |
| `text.dfy` | `Text` | the Python string operations the core uses, with their laws: ASCII `lower`/`strip`, `in` on strings, `split`, `join`, `str(int)` and `int(str)` |
| `dogs.dfy` | `Dogs` | the `Dog` record, its constructor, `Dog.from_bdhjson`, `getdogs_bdh`, and the per-listing loop the two HTML adapters share |
| `dogstrust.dfy` | `DogsTrust` | `parse_dt_dog_html` and the centre and page loops of `getdogs_dt` |
| `pets4homes.dfy` | `Pets4Homes` | `parse_p4h_dog_html`, the title/owner filter and the pagination loop of `getdogs_p4h` |
| `diff.dfy` | `Diff` | the aggregation and diff of `main`: the index by id (the last dog with an id wins), the added/removed/common sets and the status-change lists |
| `store.dfy` | `Store` | the table as a class over a map of items, its four calls, and `removedogs`, `adddogs` and `updatedogs` |
| `notify.dfy` | `Notify` | `generate_sns_message` and the decision to publish |
| `tracker.dfy` | `Tracker` | `main` end to end, with properties that span several runs |

Every place where the core's own logic raises is modelled as a `None`:

- a failed request;
- a missing page element;
- a page number that is not an integer;
- a previous item with no status.

In the adapters, `None` triggers the fallback to `[]` for the whole adapter. A Dogs Trust or Pets4Homes listing that fails to parse is skipped on its own; a malformed Battersea record empties the whole Battersea adapter. A `KeyError` in the diff makes the run end (`Tracker.Crashed`) before the table is touched.

The table is a `class` because `removedogs`, `adddogs` and `updatedogs` change it one item at a time. `Table.DeleteItem`, `Table.PutItem` and `Table.UpdateStatus` are `delete_item`, `put_item` and `update_item`. A failure predicate per call kind says which calls the table rejects, and a rejected call changes nothing. `Table.Valid` is DynamoDB's key schema: every item is stored under its own `dogid` attribute. Every table call and every reconcile step keeps it.

The loops of the source are methods with loop invariants. Each is proved equal to a function, and the properties are proved about that function:

- the listing loop (`Dogs.AppendListings`);
- the loops over centres and pages (`DogsTrust.GetDogsDt`, `DogsTrust.ScrapeCentre`, `DogsTrust.ScrapePageList`);
- the `while current_page < max(pagenums)` loop (`Pets4Homes.FetchAdvertType`, with its body in `Pets4Homes.FetchPage` and the page's listing loop in `Pets4Homes.ReadPage`);
- the loop over advert types (`Pets4Homes.GetDogsP4h`);
- the three reconcile loops (`Store.RemoveDogs`, `Store.AddDogs`, `Store.UpdateDogs`).

The rest of the core is written as functions: the construction of records, the diff and the message.

Python semantics modelled explicitly:

- A dict comprehension keeps first-insertion order for its keys and the last value for a repeated key (`Diff.Index`).
- A set iterates in an unspecified order: the model picks one with `:|` (`Store.RemoveDogs`, `Tracker.Enumerate`). The same order is used for `adddogs` and for the message, because `main` iterates the same set object both times.
- `str.split` always returns at least one piece.
- `int()` accepts surrounding space, `\t`, `\n`, `\v`, `\f` and `\r`, and a sign; it does not skip the separators `\x1c`-`\x1f` that `str.strip()` removes.
- `update_item` on a missing key creates an item (DynamoDB semantics).
- `main` calls `datetime.now()` twice, once for the subject and once for the message, so these are two parameters.

## Model

| member | source | states |
|---|---|---|
| `Text.Lower` | rescuedogtracker.py:44-48 | `str.lower` on ASCII keeps the length |
| `Text.LowerChars` | rescuedogtracker.py:175 | lower-casing maps each character on its own and leaves no ASCII capital |
| `Text.LowerAppend` | rescuedogtracker.py:175 | lower-casing a concatenation lower-cases each part |
| `Text.ContainsIff` | rescuedogtracker.py:175 | `Text.Contains` (`needle in hay`) holds exactly when needle occurs in hay at some position |
| `Text.EmptyContained` | rescuedogtracker.py:175 | the empty string is in every string |
| `Text.IndexOfFirst` | rescuedogtracker.py:97 | the position found is the first occurrence of the character |
| `Text.Split` | rescuedogtracker.py:97 | `s.split(c)` always yields at least one piece |
| `Text.SplitPieces` | rescuedogtracker.py:97 | no piece of a split contains the separator |
| `Text.SplitCount` | rescuedogtracker.py:97 | a split is s alone when the separator does not occur, and has at least two pieces when it does |
| `Text.JoinSplit` | rescuedogtracker.py:97 | `Text.Join` (`sep.join`) of the pieces of a split, with the separator, gives back s |
| `Text.SplitLast` | rescuedogtracker.py:138 | the last piece of a split is a suffix of s, preceded by the separator unless it is the whole of s |
| `Text.SplitTail` | rescuedogtracker.py:97 | when the separator occurs, the second-to-last piece, the separator and the last piece end s, preceded by another separator unless they are the whole of s |
| `Text.SplitFirst` | rescuedogtracker.py:138 | the first piece of a split is a prefix of s, followed by the separator unless it is the whole of s |
| `Text.SplitUnlines` | rescuedogtracker.py:221-240 | splitting newline-terminated lines that hold no newline gives the lines back, then one empty piece |
| `Text.StripEnds` | rescuedogtracker.py:92-93 | `Text.Strip` (`s.strip()`) gives a slice of s that neither starts nor ends with whitespace, with only whitespace cut off on both sides |
| `Text.StripUnchanged` | rescuedogtracker.py:165 | a string without whitespace at either end strips to itself |
| `Text.StripIdempotent` | rescuedogtracker.py:92-93 | stripping twice is stripping once |
| `Text.IntToString` | rescuedogtracker.py:38 | `str(n)` is non-empty and has no whitespace at its ends |
| `Text.DigitsValueOfNat` | rescuedogtracker.py:38 | the digits of a natural number read back as that number |
| `Text.ParseInt` | rescuedogtracker.py:165 | `int(s)` succeeds exactly when s, without the space, \t, \n, \v, \f and \r at its ends, is decimal digits, optionally after one sign, and then gives their value, negated after "-" |
| `Text.ParseIntPadded` | rescuedogtracker.py:165 | `int()` reads an optional sign and digits, leading zeros included, with any space, \t, \n, \v, \f or \r around them, as the signed value of the digits |
| `Text.IntTrimPadded` | rescuedogtracker.py:165 | `Text.IntTrim`, the whitespace `int()` skips, removes exactly the padding added around a text that has none at its ends |
| `Text.ParseIntRejectsSeparator` | rescuedogtracker.py:165 | a number preceded by \x1c, which `str.strip()` would remove, is not an integer for `int()` |
| `Text.ParseIntOfString` | rescuedogtracker.py:165 | `int(str(n)) == n` for every integer |
| `Text.IntToStringInjective` | rescuedogtracker.py:38 | distinct integers have distinct decimal forms |
| `Dogs.NewDog` | rescuedogtracker.py:24-31 | the breed of a constructed dog is never empty: an empty breed becomes "Unknown" and any other breed is kept; every other field is stored as given |
| `Dogs.BdhStatus` | rescuedogtracker.py:44-51 | Rehomed exactly when the rehomed marker lowercases to "rehomed", whatever the reserved marker says; Reserved exactly when it does not and the reserved marker lowercases to "reserved"; Available exactly when both markers are empty; Unknown in every other case; always one of the four statuses |
| `Dogs.FromBdhJson` | rescuedogtracker.py:36-55 | defines the dog of one Battersea record: `Dog.from_bdhjson` field by field; what a caller may rely on is stated by `Dogs.BdhStatus`, `Dogs.BdhIdInjective` and `Dogs.BdhDogsShape` |
| `Dogs.BdhIdInjective` | rescuedogtracker.py:38 | two Battersea records get the same id only when they have the same nid |
| `Dogs.GetDogsBdh` | rescuedogtracker.py:79-88 | defines `getdogs_bdh`: no dogs on a failed request or a malformed record, else one dog per record in response order; `Dogs.BdhDogsShape` states what every dog it returns satisfies |
| `Dogs.BdhDogsShape` | rescuedogtracker.py:82 | every Battersea dog has a "bdh" id, owner BDH, a non-empty breed and one of the four statuses |
| `Dogs.CollectFrom` | rescuedogtracker.py:115-123 | every dog a page yields comes from one of the page's listings |
| `Dogs.AppendListings` | rescuedogtracker.py:168-176 | the per-listing loop appends, in listing order, exactly `Dogs.Collect` of the listings: the dogs they yield |
| `DogsTrust.DtBreed` | rescuedogtracker.py:93-94 | defines the breed label: the stripped text, with "a crossbreed" in any ASCII case replaced by "Crossbreed"; `DogsTrust.DtBreedNormal` states what it guarantees |
| `DogsTrust.DtBreedNormal` | rescuedogtracker.py:93-94 | the normalised breed never lowercases to "a crossbreed", and normalising it again changes nothing |
| `DogsTrust.ParseDogHtml` | rescuedogtracker.py:91-99 | parses exactly when the listing has a heading, a span and an href and the joined URL holds a '/'; then name is the stripped heading, breed the normalised first span, status Reserved exactly when the reserved label is present (else Available), URL the joined href, id starting "dt" |
| `DogsTrust.DtIdIsSecondLastSegment` | rescuedogtracker.py:97 | the id is "dt" followed by the second-to-last '/'-segment of the URL: a '/'-free text followed by '/' and a '/'-free last segment at the end of the URL, starting the URL or following a '/' |
| `DogsTrust.ListingDogs` | rescuedogtracker.py:116-123 | a listing contributes at most one dog |
| `DogsTrust.PageDogsSkip` | rescuedogtracker.py:115-123 | a listing that does not parse contributes nothing; one that parses appends exactly its own dog after those before it |
| `DogsTrust.PageUrls` | rescuedogtracker.py:109 | defines the result-page URLs: each pagination href joined to the site's base URL, in order |
| `DogsTrust.ScrapePages` | rescuedogtracker.py:111-123 | defines the dogs of a centre's result pages, page after page, or None once a page cannot be fetched |
| `DogsTrust.CentreDogs` | rescuedogtracker.py:104-123 | defines one centre's dogs: those of every result page its index page links to |
| `DogsTrust.ScrapeCentres` | rescuedogtracker.py:103-127 | defines the dogs of the centres in order, or None once one fails |
| `DogsTrust.DtDogs` | rescuedogtracker.py:101-131 | defines what `getdogs_dt` returns: all the centres' dogs, or none at all on any failure |
| `DogsTrust.ScrapePageList` | rescuedogtracker.py:111-123 | the loop over one centre's result pages succeeds exactly when every page is fetched, and then appends exactly the dogs of those pages in order |
| `DogsTrust.ScrapeCentre` | rescuedogtracker.py:104-123 | one centre's iteration succeeds exactly when its index page and every result page are fetched, and then appends exactly that centre's dogs |
| `DogsTrust.GetDogsDt` | rescuedogtracker.py:101-131 | the adapter returns every centre's dogs in centre order, or none at all when any fetch failed |
| `DogsTrust.ScrapePagesFailurePersists` | rescuedogtracker.py:111-127 | once one result page cannot be fetched, the remaining pages cannot save the centre |
| `DogsTrust.ScrapeCentresFailurePersists` | rescuedogtracker.py:103-127 | once one centre fails, the whole adapter fails |
| `DogsTrust.PageDogsShape` | rescuedogtracker.py:117-123 | every dog of a page of a known centre is a Dogs Trust dog |
| `DogsTrust.ScrapePagesShape` | rescuedogtracker.py:111-123 | every dog of a centre's result pages is a Dogs Trust dog |
| `DogsTrust.ScrapeCentresShape` | rescuedogtracker.py:103-124 | every dog of the first n centres is a Dogs Trust dog |
| `DogsTrust.DtDogsShape` | rescuedogtracker.py:90-131 | every Dogs Trust dog has a "dt" id, owner DT, a non-empty breed, status Reserved or Available, and the name of one of the two centres as its location |
| `Pets4Homes.ParseDogHtml` | rescuedogtracker.py:134-144 | defines `parse_p4h_dog_html`: None unless the categories block has at least four links and the headline, its href and the username are present; `Pets4Homes.AdvertNumberOfUrl` and `Pets4Homes.P4hDogsShape` state what its fields guarantee |
| `Pets4Homes.AdvertNumberOfUrl` | rescuedogtracker.py:138 | `Pets4Homes.AdvertNumber` (`url.split('/')[-1].split('-')[0]`) holds neither '/' nor '-', starts the URL's last '/'-segment and is followed there by '-' or ends it |
| `Pets4Homes.Matches` | rescuedogtracker.py:175 | defines a filter match: some filter, lower-cased, is a substring of the lower-cased text |
| `Pets4Homes.Keep` | rescuedogtracker.py:175 | defines the filter: no title filter matches the name and no owner filter matches the owner |
| `Pets4Homes.ListingDogs` | rescuedogtracker.py:169-176 | a listing contributes at most one dog |
| `Pets4Homes.FilterIff` | rescuedogtracker.py:173-176 | a listing yields a dog exactly when it parses and no title filter is an ASCII-case-insensitive substring of its name and no owner filter one of its owner; that dog is the parsed record with status Available and a non-empty breed |
| `Pets4Homes.OwnerFilterExcludesUser` | rescuedogtracker.py:175 | an owner filter equal to a user name, up to ASCII case, excludes every listing of that user |
| `Pets4Homes.OwnerFilterExample` | rescuedogtracker.py:175 | the owner filter "banneduser" excludes listings of user BannedUser |
| `Pets4Homes.EmptyFilterExcludesAll` | rescuedogtracker.py:175 | an empty filter string is a substring of everything, so it excludes every listing |
| `Pets4Homes.ExtraPages` | rescuedogtracker.py:165 | defines the extra page numbers: every pagination text read as an integer, or None when one is not |
| `Pets4Homes.LastPage` | rescuedogtracker.py:162-166 | defines the last page: the largest of 1 and the extra page numbers, or None without readable pagination |
| `Pets4Homes.RangeDogs` | rescuedogtracker.py:153-176 | defines the dogs of pages 1..n, or None once a page cannot be fetched |
| `Pets4Homes.AdvertDogs` | rescuedogtracker.py:150-176 | defines one advert type's dogs: those of pages 1 to the last page page 1 announces |
| `Pets4Homes.AdvertsDogs` | rescuedogtracker.py:149-176 | defines the dogs of the advert types in order, or None once one aborts |
| `Pets4Homes.P4hDogs` | rescuedogtracker.py:146-184 | defines what `getdogs_p4h` returns: the kept dogs of advert types 1 and 2, or none at all on any failure |
| `Pets4Homes.ExtraPagesParsed` | rescuedogtracker.py:164-165 | the extra page numbers exist exactly when every pagination text is an integer, and are those integers one for one |
| `Pets4Homes.LastPageBounds` | rescuedogtracker.py:150-153 | the last page, `Pets4Homes.Max` (`max`) of 1 and the page numbers page 1 lists, is at least 1 and at least every one of them, and is one of them unless it is 1 |
| `Pets4Homes.ExtendPageNumbers` | rescuedogtracker.py:163-166 | reading page 1's pagination succeeds exactly when the block is present and all its texts are integers, and then max(pagenums) is the last page |
| `Pets4Homes.FetchAdvertType` | rescuedogtracker.py:150-176 | the loop for one advert type requests pages 1, 2, … in order, exactly up to the last page page 1 announces when it succeeds; it succeeds exactly when every page is fetched and page 1's pagination reads, and then appends exactly the kept dogs of those pages |
| `Pets4Homes.RangeFailurePersists` | rescuedogtracker.py:153-161 | once a page cannot be fetched, later pages cannot save the advert type |
| `Pets4Homes.MissingPageAborts` | rescuedogtracker.py:155-161 | a page up to the last one page 1 announces that cannot be fetched aborts the advert type |
| `Pets4Homes.PagesReadStep` | rescuedogtracker.py:153-176 | fetching the next page, and reading the page numbers off page 1, extends the dogs gathered so far by that page's dogs |
| `Pets4Homes.FetchPage` | rescuedogtracker.py:154-176 | one pass of the page loop aborts only when the advert type yields no dogs at all; otherwise it appends the page's dogs, and the page numbers stay fixed after page 1 |
| `Pets4Homes.ReadPage` | rescuedogtracker.py:168-176 | the listing loop over a fetched page extends the dogs gathered by exactly that page's dogs, and the pages read by that page |
| `Pets4Homes.UnreadablePaginationAborts` | rescuedogtracker.py:162-166 | page 1 without readable pagination aborts the advert type |
| `Pets4Homes.AdvertsFailurePersists` | rescuedogtracker.py:149-180 | once one advert type aborts, the whole adapter fails |
| `Pets4Homes.GetDogsP4h` | rescuedogtracker.py:146-184 | the adapter returns the kept dogs of advert types 1 then 2, or none at all when either aborts |
| `Pets4Homes.ListingShape` | rescuedogtracker.py:168-176 | every dog a page yields is a kept, Available Pets4Homes dog |
| `Pets4Homes.RangeShape` | rescuedogtracker.py:153-176 | every dog of pages 1..n is a kept, Available Pets4Homes dog |
| `Pets4Homes.AdvertsShape` | rescuedogtracker.py:149-176 | every dog of the advert types scraped is a kept, Available Pets4Homes dog |
| `Pets4Homes.P4hDogsShape` | rescuedogtracker.py:133-184 | every Pets4Homes dog has a "p4h" id, an owner starting "P4H/", status Available, a non-empty breed, and passes both filters |
| `Diff.Index` | rescuedogtracker.py:250 | defines the dict of current dogs: a later dog with an id replaces the earlier one and keeps its place |
| `Diff.IndexWellFormed` | rescuedogtracker.py:250 | the dict's iteration order lists each of its keys exactly once |
| `Diff.IndexKeys` | rescuedogtracker.py:250 | the dict has an entry exactly for every id occurring in the dogs, and each entry is a dog with that id |
| `Diff.IndexLastWins` | rescuedogtracker.py:250 | the entry for an id is the last dog with that id |
| `Diff.IndexFirstOccurrence` | rescuedogtracker.py:250 | ids iterate in the order of their first occurrence |
| `Diff.StatusChanges` | rescuedogtracker.py:263 | the status-change list holds only current ids that are in the previous snapshot with a status |
| `Diff.NowAvailable` | rescuedogtracker.py:264 | defines the changed ids whose current status is Available, in order |
| `Diff.ComputeDiff` | rescuedogtracker.py:260-264 | defines the diff: added, removed and common as set differences and intersection, the status changes and those now Available; None where the comprehension raises |
| `Diff.StatusChangesSpec` | rescuedogtracker.py:263 | the comprehension raises exactly when a common id's previous item has no status; otherwise it lists, once each, exactly the common ids whose status changed |
| `Diff.NowAvailableSpec` | rescuedogtracker.py:264 | the "now Available" list is exactly the status changes whose new status is Available, once each |
| `Diff.DiffFailsIff` | rescuedogtracker.py:260-264 | the diff raises exactly when a common id's previous item has no status |
| `Diff.DiffPartition` | rescuedogtracker.py:260-261 | added and removed are disjoint, added and common make up the current ids, removed and common make up the previous ids |
| `Diff.StatusChangeExact` | rescuedogtracker.py:263-264 | statusChange lists, once each, exactly the common ids whose current status differs from the previous one; statusChangeAvailable lists those of them now Available |
| `Diff.DiffOnlyKnownIds` | rescuedogtracker.py:260-264 | an id in neither state appears nowhere in the diff |
| `Store.DogItem` | rescuedogtracker.py:199 | defines the item put_item stores: the dog's seven attributes |
| `Store.WithStatus` | rescuedogtracker.py:209-213 | defines the item update_item leaves: the stored item, or one holding only the key, with the new status |
| `Store.Snapshot` | rescuedogtracker.py:255-258 | defines the scan's result: each item with only the projected attributes it has |
| `Store.RemoveAll` | rescuedogtracker.py:186-194 | defines the items left after deleting every id whose delete is not rejected |
| `Store.PutAll` | rescuedogtracker.py:196-204 | defines the items after putting, in order, every dog whose put is not rejected |
| `Store.UpdateAll` | rescuedogtracker.py:206-218 | defines the items after setting, in order, the status of every dog whose update is not rejected |
| `Store.DogItemRoundTrip` | rescuedogtracker.py:199 | the item put_item stores is the whole record: it reads back as the same dog |
| `Store.Table.constructor` | rescuedogtracker.py:253 | a table starts with the items given, each stored under its own dogid |
| `Store.Table.Scan` | rescuedogtracker.py:255-258 | the snapshot maps each item's dogid to that item with only the dogid, name and status it actually has; under the table's key schema every snapshot entry carries its own key as dogid |
| `Store.Table.DeleteItem` | rescuedogtracker.py:189 | the key is gone and nothing else changes; deleting a missing key is no error |
| `Store.Table.PutItem` | rescuedogtracker.py:199 | the item replaces whatever was stored under its dogid |
| `Store.Table.UpdateStatus` | rescuedogtracker.py:209-213 | the status of the key is set, creating an item holding just the key when there was none |
| `Store.RemoveDogs` | rescuedogtracker.py:186-194 | the loop deletes every id whose delete is not rejected, in any iteration order, and continues past rejections |
| `Store.RemoveAllSpec` | rescuedogtracker.py:186-194 | after removedogs every id whose delete was not rejected is absent, and every other key keeps its item |
| `Store.AddDogs` | rescuedogtracker.py:196-204 | the loop puts every dog whose put is not rejected, in order, and continues past rejections |
| `Store.PutAllSpec` | rescuedogtracker.py:196-204 | adddogs stores the full record of every dog whose put is not rejected under its id, and every key not named by such a dog is unchanged |
| `Store.UpdateDogs` | rescuedogtracker.py:206-218 | the loop sets the status of every dog whose update is not rejected, in order, and continues past rejections |
| `Store.UpdateAllSpec` | rescuedogtracker.py:206-218 | updatedogs gives every dog whose update is not rejected its new status and otherwise leaves that key's item as it was; every key not named by such a dog is unchanged |
| `Store.WithStatusOnlyStatus` | rescuedogtracker.py:211-213 | setting the status changes that attribute and no other |
| `Store.ReconcileKeepsInvariant` | rescuedogtracker.py:266-268 | whatever calls are rejected, the three reconcile steps keep every item under its own dogid and every item with a status |
| `Store.PutAllKeeps` | rescuedogtracker.py:196-204 | adddogs keeps every item under its own dogid and with a status |
| `Store.UpdateAllKeeps` | rescuedogtracker.py:206-218 | updatedogs keeps every item under its own dogid and with a status |
| `Notify.DogLine` | rescuedogtracker.py:221-222 | defines a new dog's line: "name (breed @ owner/location): url" |
| `Notify.StatusLine` | rescuedogtracker.py:228-229 | defines a status line: "name (old -> new): url" |
| `Notify.GenerateMessage` | rescuedogtracker.py:220-242 | defines the message: the header line, then each non-empty section in the order New Dogs, Status changes, Removed dogs |
| `Notify.NewDogLines` | rescuedogtracker.py:221-226 | defines the New Dogs lines, one per added id in order; `Notify.MessageIsLines` and `Notify.PublishedMessage` state where they appear in the message |
| `Notify.StatusLines` | rescuedogtracker.py:228-232 | defines the Status changes lines, one per changed id in order; `Notify.MessageIsLines` and `Notify.PublishedMessage` state where they appear in the message |
| `Notify.RemovedLines` | rescuedogtracker.py:234-235 | defines the Removed dogs lines, the previous name of each removed id; `Notify.MessageIsLines` and `Notify.NoRemovedTitle` state where they appear and that a published message has none |
| `Notify.SectionUnlines` | rescuedogtracker.py:221-235 | a section's text is its title line and its lines, each ended by a newline, and is empty when it has no lines |
| `Notify.MessageIsLines` | rescuedogtracker.py:237-240 | the message is the header, then the New Dogs, Status changes and Removed dogs sections in that order, each present exactly when its id list is non-empty, every line ended by a newline |
| `Notify.UnlinesFour` | rescuedogtracker.py:237-240 | joining the header and three sections line by line concatenates their texts |
| `Notify.MessageSplits` | rescuedogtracker.py:237-240 | when no line holds a newline, splitting the message at newlines gives back its lines and a final empty piece |
| `Notify.DogLineHasAt` | rescuedogtracker.py:221 | a new-dog line has '@' right after the name and breed |
| `Notify.StatusLineHasArrow` | rescuedogtracker.py:228 | a status line has "->" right after the name and old status |
| `Notify.PublishIff` | rescuedogtracker.py:277 | a notification is published exactly when a dog is new or a common dog's status changed to Available |
| `Notify.NoNotificationOtherwise` | rescuedogtracker.py:277 | removals, and status changes to anything but Available, never publish on their own |
| `Notify.Publish` | rescuedogtracker.py:277-282 | defines the decision: publish, with the new dogs and the dogs now Available and no removals, when either is non-empty |
| `Notify.NotInSection` | rescuedogtracker.py:221-235 | a text that is neither the title nor a line is not a line of the section |
| `Notify.DogLineNotRemovedTitle` | rescuedogtracker.py:221 | no new-dog line is the "Removed dogs:" title |
| `Notify.StatusLineNotRemovedTitle` | rescuedogtracker.py:228 | no status line is the "Removed dogs:" title |
| `Notify.NoRemovedTitle` | rescuedogtracker.py:282 | without removals no line of the message is the "Removed dogs:" title |
| `Notify.MessageWithoutRemovals` | rescuedogtracker.py:282 | with no removals the message is the header, the New Dogs section and the Status changes section, and holds no "Removed dogs:" line |
| `Notify.PublishedMessage` | rescuedogtracker.py:277-282 | the published subject is "Rescue Dog Update (" and the time and ")"; the message lists the new dogs and the dogs now Available, and never a "Removed dogs:" section |
| `Notify.DeltaIdsKnown` | rescuedogtracker.py:260-264 | the new ids are current dogs, and the ids now Available are common ids whose previous item has a status, so the message can be formatted |
| `Tracker.Current` | rescuedogtracker.py:246-250 | defines the current dogs: the three adapters' dogs concatenated and indexed by id |
| `Tracker.Reconcile` | rescuedogtracker.py:266-268 | defines the table after removedogs, adddogs and updatedogs |
| `Tracker.DogsOf` | rescuedogtracker.py:267 | defines the records of the given ids, one per id, in order; `Tracker.PutAllOfIds` and `Tracker.UpdateAllOfIds` state what the reconcile loops do with them |
| `Tracker.Enumerate` | rescuedogtracker.py:267 | a set's iteration lists its elements, each once |
| `Tracker.RunTracker` | rescuedogtracker.py:244-283 | a run whose diff raises leaves the table unchanged; otherwise the table becomes the reconciliation of the diff, and the run publishes exactly the notification Publish describes |
| `Tracker.IdNamespacesDisjoint` | rescuedogtracker.py:249 | dogs from different sites never share an id |
| `Tracker.NoCrashOnStatusedTable` | rescuedogtracker.py:263 | a table every item of which has a status never makes the diff raise |
| `Tracker.RunKeepsTableValid` | rescuedogtracker.py:255-268 | whatever calls are rejected, a run keeps the table keyed by dogid with a status on every item, so the next run's diff does not raise |
| `Tracker.ReconcileMirrors` | rescuedogtracker.py:260-268 | when no call is rejected, the table afterwards holds exactly the current ids, each with its current status, and every new dog's full record |
| `Tracker.ReconcileAll` | rescuedogtracker.py:266-268 | the three reconcile steps, none rejected, leave exactly the current ids with their current statuses |
| `Tracker.PutAllOfIds` | rescuedogtracker.py:267 | adddogs over distinct current ids, none rejected, stores each full record and leaves every other key alone |
| `Tracker.UpdateAllOfIds` | rescuedogtracker.py:268 | updatedogs over distinct stored ids, none rejected, sets each current status and adds no key |
| `Tracker.QuietWhenMirrored` | rescuedogtracker.py:260-277 | a table that mirrors the current dogs gives an empty diff and no notification |
| `Tracker.MirroredDiffEmpty` | rescuedogtracker.py:260-264 | a snapshot with exactly the current ids, each with its current status, gives no new, removed or changed id |
| `Tracker.EmptyDiffQuiet` | rescuedogtracker.py:277 | a diff without new dogs and without status changes publishes nothing |
| `Tracker.SecondRunQuiet` | rescuedogtracker.py:244-283 | after a run in which no call is rejected, a second run that finds the same dogs sees no change and publishes nothing |

## Left out

- Network I/O: `requests.get` and the page fetches are parameters.
  - The Battersea response is `Option<seq<Option<BdhJson>>>`: `None` means a failed request, and `None` for a record means one with a missing field.
  - The Dogs Trust fetches return an index page's pagination hrefs and a result page's listings.
  - A Pets4Homes fetch is keyed by its `Query` (the search, advert type and page number). The formatting of `P4H_BASEURL` into a URL is not modelled.
- HTML navigation (BeautifulSoup `find`/`find_all`, the class and id selectors): each listing is the record of texts the markup yields, with `None` for a missing element.
- AWS calls: the DynamoDB table is the `Store.Table` class over a map. The SNS publish is the `Option<Notification>` in the outcome. Error details from `ClientError` are not modelled.
- Logging and the messages it writes.
- Exceptions other than `ClientError` from `delete_item`, `put_item` and `update_item`: `removedogs`, `adddogs` and `updatedogs` catch only `ClientError` (lines 190, 200 and 214), so any other exception ends `main` partway through reconciling. The model treats every rejected call as a logged `ClientError` and goes on.
- A failing `table.scan` (line 255) or `sns.publish` (line 279) raises out of `main`. In the model the scan and the publish always succeed.
- The Battersea `nid` is modelled as an integer, which `str()` writes in decimal. A JSON record whose `nid` is a string (which `str()` keeps as it is, leading zeros included) is not modelled.
- `str.title()` (Unicode title-casing) and `urljoin` (URL resolution) are the uninterpreted functions of `Dogs.TextLib`.
- `str.lower`, `str.strip` and `int()` are modelled for ASCII only. Unicode case mappings, Unicode whitespace and digits, and the underscores `int()` accepts are not modelled.
- `datetime.datetime.now()` is two text parameters, one for the subject and one for the message.
- `table.scan` is modelled as returning the whole table in one response. A scan response is limited to 1 MB and the source reads only the first page; that truncation is not modelled.
- `lambda_handler` and its `os.environ` parsing. It splits the filter variables at ',', so an empty variable gives the filter list `['']`. `Pets4Homes.EmptyFilterExcludesAll` shows what such a filter does: it excludes every Pets4Homes listing.
- The `__main__` branch of `main` (print-only reporting, lines 270-274) and the manual entry point (lines 293-299).
- `_test_init_table` (file I/O against a live table) and `Dog.__str__` (debug formatting).
- `Dogs.NewDog`: `Dog.__init__` assigns fields, but a `Dog` is never changed after construction. It is modelled as a datatype built by a function.
- Battersea records are not isolated from one another. One malformed record makes the whole comprehension raise, so the adapter returns no dogs at all, even though one might expect each listing to be isolated. The model follows the code (`Dogs.GetDogsBdh`).
