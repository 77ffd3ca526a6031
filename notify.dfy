/** The notification step of main: whether to publish, and the message
    generate_sns_message assembles. */
module Notify {
  import opened Wrappers
  import opened Text
  import opened Dogs
  import opened Diff

  /** The line of a new dog. */
  function DogLine(d: Dog): string {
    d.name + " (" + d.breed + " @ " + d.owner + "/" + d.location + "): " + d.url
  }

  /** The line of a dog whose status changed from oldStatus. */
  function StatusLine(d: Dog, oldStatus: string): string {
    d.name + " (" + oldStatus + " -> " + d.status + "): " + d.url
  }

  function NewDogLines(curr: map<string, Dog>, ids: seq<string>): (lines: seq<string>)
    requires forall i :: 0 <= i < |ids| ==> ids[i] in curr
    ensures |lines| == |ids|
    ensures forall i :: 0 <= i < |ids| ==> lines[i] == DogLine(curr[ids[i]])
  {
    seq(|ids|, i requires 0 <= i < |ids| => DogLine(curr[ids[i]]))
  }

  /** The ids whose status lines can be written: current, and previous with
      a status. */
  predicate StatusKnown(curr: map<string, Dog>, prev: map<string, Item>, ids: seq<string>) {
    forall i :: 0 <= i < |ids| ==> ids[i] in curr && ids[i] in prev && "status" in prev[ids[i]]
  }

  function StatusLines(curr: map<string, Dog>, prev: map<string, Item>, ids: seq<string>): (lines: seq<string>)
    requires StatusKnown(curr, prev, ids)
    ensures |lines| == |ids|
    ensures forall i :: 0 <= i < |ids| ==> lines[i] == StatusLine(curr[ids[i]], prev[ids[i]]["status"])
  {
    seq(|ids|, i requires 0 <= i < |ids| && StatusKnown(curr, prev, ids) =>
          StatusLine(curr[ids[i]], prev[ids[i]]["status"]))
  }

  predicate NameKnown(prev: map<string, Item>, ids: seq<string>) {
    forall i :: 0 <= i < |ids| ==> ids[i] in prev && "name" in prev[ids[i]]
  }

  function RemovedLines(prev: map<string, Item>, ids: seq<string>): (lines: seq<string>)
    requires NameKnown(prev, ids)
    ensures |lines| == |ids|
    ensures forall i :: 0 <= i < |ids| ==> lines[i] == prev[ids[i]]["name"]
  {
    seq(|ids|, i requires 0 <= i < |ids| && NameKnown(prev, ids) => prev[ids[i]]["name"])
  }

  function Header(now: string): string {
    "Rescue Dog Update @ " + now
  }

  /** `generate_sns_message`: the header, then each of the three sections
      whose id list is non-empty, in a fixed order; now is the text of
      datetime.now(). */
  function GenerateMessage(curr: map<string, Dog>, prev: map<string, Item>, added: seq<string>,
                           removed: seq<string>, statusChange: seq<string>, now: string): string
    requires forall i :: 0 <= i < |added| ==> added[i] in curr
    requires StatusKnown(curr, prev, statusChange)
    requires NameKnown(prev, removed)
  {
    Header(now) + "\n"
    + (if added != [] then SectionText("New Dogs:", NewDogLines(curr, added)) else "")
    + (if statusChange != [] then SectionText("Status changes:", StatusLines(curr, prev, statusChange)) else "")
    + (if removed != [] then SectionText("Removed dogs:", RemovedLines(prev, removed)) else "")
  }

  /** The text of one section: its title line and its lines, each ended by
      a newline. */
  function SectionText(title: string, lines: seq<string>): string {
    title + "\n" + Join("\n", lines) + "\n"
  }

  /** A titled section: the title line then the lines, or nothing at all
      when there are no lines. */
  function Section(title: string, lines: seq<string>): seq<string> {
    if lines == [] then [] else [title] + lines
  }

  /** The lines of the message, as an independent description. */
  function MessageLines(curr: map<string, Dog>, prev: map<string, Item>, added: seq<string>,
                        removed: seq<string>, statusChange: seq<string>, now: string): seq<string>
    requires forall i :: 0 <= i < |added| ==> added[i] in curr
    requires StatusKnown(curr, prev, statusChange)
    requires NameKnown(prev, removed)
  {
    [Header(now)]
    + Section("New Dogs:", NewDogLines(curr, added))
    + Section("Status changes:", StatusLines(curr, prev, statusChange))
    + Section("Removed dogs:", RemovedLines(prev, removed))
  }

  lemma SectionUnlines(title: string, lines: seq<string>)
    ensures Unlines(Section(title, lines)) == if lines == [] then "" else SectionText(title, lines)
  {
    if lines != [] {
      JoinUnlines(lines);
      assert ([title] + lines)[1..] == lines;
    }
  }

  /** The message is its lines, each followed by a newline. */
  lemma MessageIsLines(curr: map<string, Dog>, prev: map<string, Item>, added: seq<string>,
                       removed: seq<string>, statusChange: seq<string>, now: string)
    requires forall i :: 0 <= i < |added| ==> added[i] in curr
    requires StatusKnown(curr, prev, statusChange)
    requires NameKnown(prev, removed)
    ensures GenerateMessage(curr, prev, added, removed, statusChange, now) ==
              Unlines(MessageLines(curr, prev, added, removed, statusChange, now))
  {
    var news := NewDogLines(curr, added);
    var changes := StatusLines(curr, prev, statusChange);
    var gone := RemovedLines(prev, removed);
    SectionUnlines("New Dogs:", news);
    SectionUnlines("Status changes:", changes);
    SectionUnlines("Removed dogs:", gone);
    UnlinesFour(Header(now), Section("New Dogs:", news), Section("Status changes:", changes),
                Section("Removed dogs:", gone));
  }

  lemma UnlinesFour(h: string, a: seq<string>, b: seq<string>, c: seq<string>)
    ensures Unlines([h] + a + b + c) == h + "\n" + Unlines(a) + Unlines(b) + Unlines(c)
  {
    UnlinesAppend([h] + a + b, c);
    UnlinesAppend([h] + a, b);
    UnlinesAppend([h], a);
    assert Unlines([h]) == h + "\n";
  }

  /** Split at newlines, a message none of whose lines holds a newline
      gives its lines back. */
  lemma MessageSplits(curr: map<string, Dog>, prev: map<string, Item>, added: seq<string>,
                      removed: seq<string>, statusChange: seq<string>, now: string)
    requires forall i :: 0 <= i < |added| ==> added[i] in curr
    requires StatusKnown(curr, prev, statusChange)
    requires NameKnown(prev, removed)
    requires var ls := MessageLines(curr, prev, added, removed, statusChange, now);
             forall i :: 0 <= i < |ls| ==> '\n' !in ls[i]
    ensures Split(GenerateMessage(curr, prev, added, removed, statusChange, now), '\n') ==
              MessageLines(curr, prev, added, removed, statusChange, now) + [""]
  {
    MessageIsLines(curr, prev, added, removed, statusChange, now);
    SplitUnlines(MessageLines(curr, prev, added, removed, statusChange, now));
  }

  // ---------------------------------------------------------------------------
  // Publishing

  datatype Notification = Notification(subject: string, message: string)

  function Subject(now: string): string {
    "Rescue Dog Update (" + now + ")"
  }

  /** Lines 277-282 of main: publish when there are new dogs or dogs that
      became Available; the message lists those, and no removals.
      nowSubject and nowMessage are the texts of the two calls to
      datetime.now(). */
  function Publish(curr: CurrentState, prev: map<string, Item>, d: Delta, addedOrder: seq<string>,
                  nowSubject: string, nowMessage: string): Option<Notification>
    requires WellFormed(curr) && ComputeDiff(curr, prev) == Some(d)
    requires Enumerates(addedOrder, d.added)
  {
    StatusChangeExact(curr, prev);
    DiffPartition(curr, prev);
    if |d.added| + |d.statusChangeAvailable| > 0 then
      Some(Notification(Subject(nowSubject),
                        GenerateMessage(curr.byId, prev, addedOrder, [], d.statusChangeAvailable, nowMessage)))
    else None
  }

  /** A notification is published exactly when a dog is new or a dog became
      Available. */
  lemma PublishIff(curr: CurrentState, prev: map<string, Item>, d: Delta, addedOrder: seq<string>,
                  nowSubject: string, nowMessage: string)
    requires WellFormed(curr) && ComputeDiff(curr, prev) == Some(d)
    requires Enumerates(addedOrder, d.added)
    ensures Publish(curr, prev, d, addedOrder, nowSubject, nowMessage).Some? <==>
              d.added != {} ||
              exists id :: id in d.common && "status" in prev[id] &&
                           curr.byId[id].status != prev[id]["status"] && curr.byId[id].status == Available
  {
    StatusChangeExact(curr, prev);
    if d.statusChangeAvailable != [] {
      assert d.statusChangeAvailable[0] in d.statusChangeAvailable;
    }
  }

  /** Removals, and status changes to anything but Available, never
      publish on their own. */
  lemma NoNotificationOtherwise(curr: CurrentState, prev: map<string, Item>, d: Delta, addedOrder: seq<string>,
                                nowSubject: string, nowMessage: string)
    requires WellFormed(curr) && ComputeDiff(curr, prev) == Some(d)
    requires Enumerates(addedOrder, d.added)
    requires d.added == {}
    requires forall id :: id in d.statusChange ==> curr.byId[id].status != Available
    ensures Publish(curr, prev, d, addedOrder, nowSubject, nowMessage).None?
  {
    NowAvailableSpec(d.statusChange, curr.byId);
  }

  lemma DogLineHasAt(dog: Dog)
    ensures DogLine(dog)[|dog.name| + 2 + |dog.breed| + 1] == '@'
  {
    var s := dog.name + " (" + dog.breed + " @ ";
    assert DogLine(dog)[..|s|] == s;
    assert s[|s| - 2] == '@';
  }

  lemma StatusLineHasArrow(dog: Dog, oldStatus: string)
    ensures StatusLine(dog, oldStatus)[|dog.name| + 2 + |oldStatus| + 2] == '>'
  {
    var s := dog.name + " (" + oldStatus + " -> ";
    assert StatusLine(dog, oldStatus)[..|s|] == s;
    assert s[|s| - 2] == '>';
  }

  /** Without removals, no line of the message is the "Removed dogs:"
      title. */
  lemma NoRemovedTitle(curr: map<string, Dog>, prev: map<string, Item>, added: seq<string>,
                       statusChange: seq<string>, now: string)
    requires forall i :: 0 <= i < |added| ==> added[i] in curr
    requires StatusKnown(curr, prev, statusChange)
    ensures "Removed dogs:" !in MessageLines(curr, prev, added, [], statusChange, now)
  {
    var news := NewDogLines(curr, added);
    var changes := StatusLines(curr, prev, statusChange);
    var r := "Removed dogs:";
    assert MessageLines(curr, prev, added, [], statusChange, now) ==
           [Header(now)] + Section("New Dogs:", news) + Section("Status changes:", changes) + [];
    assert Header(now)[2] == 's' && r[2] == 'm';
    forall i | 0 <= i < |news| ensures news[i] != r {
      DogLineNotRemovedTitle(curr[added[i]]);
    }
    forall i | 0 <= i < |changes| ensures changes[i] != r {
      StatusLineNotRemovedTitle(curr[statusChange[i]], prev[statusChange[i]]["status"]);
    }
    NotInSection("New Dogs:", news, r);
    NotInSection("Status changes:", changes, r);
  }

  /** A string that is neither a section's title nor one of its lines is
      not in the section. */
  lemma NotInSection(title: string, lines: seq<string>, r: string)
    requires title != r && forall i :: 0 <= i < |lines| ==> lines[i] != r
    ensures r !in Section(title, lines)
  {
  }

  /** A new-dog line holds an '@', which the "Removed dogs:" title does not. */
  lemma DogLineNotRemovedTitle(dog: Dog)
    ensures DogLine(dog) != "Removed dogs:"
  {
    var r := "Removed dogs:";
    var k := |dog.name| + 2 + |dog.breed| + 1;
    DogLineHasAt(dog);
    assert forall j :: 0 <= j < |r| ==> r[j] != '@';
    assert |DogLine(dog)| != |r| || DogLine(dog)[k] != r[k];
  }

  /** A status line holds a '>', which the "Removed dogs:" title does not. */
  lemma StatusLineNotRemovedTitle(dog: Dog, oldStatus: string)
    ensures StatusLine(dog, oldStatus) != "Removed dogs:"
  {
    var r := "Removed dogs:";
    var k := |dog.name| + 2 + |oldStatus| + 2;
    StatusLineHasArrow(dog, oldStatus);
    assert forall j :: 0 <= j < |r| ==> r[j] != '>';
    assert |StatusLine(dog, oldStatus)| != |r| || StatusLine(dog, oldStatus)[k] != r[k];
  }

  /** The published message is the header, the New Dogs section and the
      Status changes section of the dogs that became Available; it has no
      "Removed dogs:" line. */
  lemma PublishedMessage(curr: CurrentState, prev: map<string, Item>, d: Delta, addedOrder: seq<string>,
                         nowSubject: string, nowMessage: string)
    requires WellFormed(curr) && ComputeDiff(curr, prev) == Some(d)
    requires Enumerates(addedOrder, d.added)
    requires Publish(curr, prev, d, addedOrder, nowSubject, nowMessage).Some?
    ensures forall i :: 0 <= i < |addedOrder| ==> addedOrder[i] in curr.byId
    ensures StatusKnown(curr.byId, prev, d.statusChangeAvailable)
    ensures var n := Publish(curr, prev, d, addedOrder, nowSubject, nowMessage).value;
            var lines := MessageLines(curr.byId, prev, addedOrder, [], d.statusChangeAvailable, nowMessage);
            && n.subject == Subject(nowSubject)
            && n.message == Unlines(lines)
            && lines == [Header(nowMessage)]
                        + Section("New Dogs:", NewDogLines(curr.byId, addedOrder))
                        + Section("Status changes:", StatusLines(curr.byId, prev, d.statusChangeAvailable))
            && "Removed dogs:" !in lines
  {
    DeltaIdsKnown(curr, prev, d, addedOrder);
    MessageWithoutRemovals(curr.byId, prev, addedOrder, d.statusChangeAvailable, nowMessage);
  }

  /** The new ids are current dogs, and the ids that became Available are
      common ids whose previous item has a status. */
  lemma DeltaIdsKnown(curr: CurrentState, prev: map<string, Item>, d: Delta, addedOrder: seq<string>)
    requires WellFormed(curr) && ComputeDiff(curr, prev) == Some(d)
    requires Enumerates(addedOrder, d.added)
    ensures forall i :: 0 <= i < |addedOrder| ==> addedOrder[i] in curr.byId
    ensures StatusKnown(curr.byId, prev, d.statusChangeAvailable)
  {
    StatusChangeExact(curr, prev);
    DiffPartition(curr, prev);
    forall i | 0 <= i < |addedOrder| ensures addedOrder[i] in curr.byId {
      assert addedOrder[i] in d.added;
    }
    forall i | 0 <= i < |d.statusChangeAvailable|
      ensures var id := d.statusChangeAvailable[i]; id in curr.byId && id in prev && "status" in prev[id]
    {
      var id := d.statusChangeAvailable[i];
      assert id in d.statusChange && id in d.common;
    }
  }

  lemma MessageWithoutRemovals(curr: map<string, Dog>, prev: map<string, Item>, added: seq<string>,
                               statusChange: seq<string>, now: string)
    requires forall i :: 0 <= i < |added| ==> added[i] in curr
    requires StatusKnown(curr, prev, statusChange)
    ensures var lines := MessageLines(curr, prev, added, [], statusChange, now);
            && GenerateMessage(curr, prev, added, [], statusChange, now) == Unlines(lines)
            && lines == [Header(now)]
                        + Section("New Dogs:", NewDogLines(curr, added))
                        + Section("Status changes:", StatusLines(curr, prev, statusChange))
            && "Removed dogs:" !in lines
  {
    MessageIsLines(curr, prev, added, [], statusChange, now);
    NoRemovedTitle(curr, prev, added, statusChange, now);
  }
}
