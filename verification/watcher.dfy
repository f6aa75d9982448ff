/**
 One run of the watcher (`main` in check_videos.py): load the seen set, fetch
 the feed, walk its entries oldest first, notify for every new entry that
 matches the keyword, mark every new entry as seen, and save the seen set.

 The notifier is an oracle `send`: the delivery outcome of the j-th
 notification attempt of the run is `send(j)`. A failed delivery is only
 recorded; it changes nothing else.
 */
module Watcher {
  import opened Wrappers
  import opened Text
  import opened Feed
  import opened Matcher
  import opened SeenStore

  /** The outcome of one attempt to deliver a notification. */
  datatype Delivery = Delivered | Failed

  /** One notification attempt: the feed position of the entry it is for, the
      entry's id, the text sent, and how delivery went. */
  datatype Attempt = Attempt(position: nat, id: string, text: string, outcome: Delivery)

  /** The state the loop carries: the growing seen set and the attempts so far. */
  datatype Progress = Progress(newSeen: set<string>, attempts: seq<Attempt>)

  /** Why fetching the feed failed. */
  datatype FetchError = NetworkError | ParseError

  /** What the fetcher hands back: the parsed entries in feed order, or an error. */
  datatype Fetch = Fetched(entries: seq<Entry>) | FetchFailed(error: FetchError)

  /** How writing `seen.json` went: the file is opened for writing, which empties
      it, and then the list is written into it. Either step may raise. */
  datatype WriteOutcome = Written | OpenFailed | WriteFailed

  /** How a run ended: aborted by a fetch failure before any notification,
      completed, or failed while saving after its notifications were sent. */
  datatype RunReport =
    | Aborted(error: FetchError)
    | Completed(attempts: seq<Attempt>)
    | SaveFailed(attempts: seq<Attempt>)

  /** The fixed first line of every notification, then a blank line. */
  const Banner: string := "\U{1F514} New Ankit Agrawal video detected!\n\n"

  /** The text of the notification for an entry. */
  function Message(e: Entry): (text: string)
    ensures Banner <= text
    ensures IsSubstring(e.title, text)
    ensures IsSubstring(e.link, text)
    ensures IsSubstring(e.published, text)
  {
    var text := Banner + e.title + "\n" + e.link + "\n\nPublished: " + e.published;
    SubstringRefl(e.title);
    SubstringRefl(e.link);
    SubstringRefl(e.published);
    SubstringOfMiddle(e.title, Banner, e.title, "\n" + e.link + "\n\nPublished: " + e.published);
    SubstringOfMiddle(e.link, Banner + e.title + "\n", e.link, "\n\nPublished: " + e.published);
    SubstringOfMiddle(e.published, Banner + e.title + "\n" + e.link + "\n\nPublished: ", e.published, []);
    assert Banner + e.title + ("\n" + e.link + "\n\nPublished: " + e.published) == text;
    assert Banner + e.title + "\n" + e.link + ("\n\nPublished: " + e.published) == text;
    assert text + [] == text;
    text
  }

  /** The ids of a sequence of entries. */
  ghost function IdsOf(es: seq<Entry>): set<string> {
    set e | e in es :: e.id
  }

  /** Two distinct attempts were made for `id`. */
  ghost predicate AttemptedTwice(attempts: seq<Attempt>, id: string) {
    exists j1, j2 :: 0 <= j1 < j2 < |attempts| && attempts[j1].id == id && attempts[j2].id == id
  }

  /** An entry the run must notify for: new at load time, and matching. */
  ghost predicate ShouldNotify(seen: set<string>, keyword: string, e: Entry) {
    e.id !in seen && Matches(e, keyword)
  }

  /** Some attempt was made for the entry at feed position `i`. */
  ghost predicate AttemptedAt(attempts: seq<Attempt>, i: int) {
    exists j :: 0 <= j < |attempts| && attempts[j].position == i
  }

  /** Attempt `a`, the j-th of the run, is for an entry of the feed, carries its
      id and its notification text, and got the oracle's j-th outcome. */
  ghost predicate Records(a: Attempt, j: int, entries: seq<Entry>, send: nat -> Delivery) {
    && 0 <= j
    && a.position < |entries|
    && a.id == entries[a.position].id
    && a.text == Message(entries[a.position])
    && a.outcome == send(j)
  }

  /**
   The body of the loop for the entry at feed position `pos`. An entry whose
   id was seen at load time is skipped outright. Any other entry is matched,
   notified for on a match (whatever the delivery outcome), and marked seen.
   */
  function Step(seen: set<string>, keyword: string, send: nat -> Delivery,
                p: Progress, pos: nat, e: Entry): Progress
  {
    if e.id in seen then p
    else
      var attempts :=
        if Matches(e, keyword) then p.attempts + [Attempt(pos, e.id, Message(e), send(|p.attempts|))]
        else p.attempts;
      Progress(p.newSeen + {e.id}, attempts)
  }

  /**
   The whole loop, as a fold of `Step` over the entries from first to last.
   Afterwards every id of the feed is in the seen set and nothing was removed;
   an attempt was made for an entry exactly when it was new at load time and
   matched; each attempt carries the entry's notification text; and the
   attempts come in feed order, at most one per feed position.
   */
  function Process(seen: set<string>, entries: seq<Entry>, keyword: string,
                   send: nat -> Delivery): (r: Progress)
    ensures r.newSeen == seen + IdsOf(entries)
    ensures forall i :: 0 <= i < |entries| ==>
              (AttemptedAt(r.attempts, i) <==> ShouldNotify(seen, keyword, entries[i]))
    ensures forall j :: 0 <= j < |r.attempts| ==> Records(r.attempts[j], j, entries, send)
    ensures forall j, k :: 0 <= j < k < |r.attempts| ==>
              r.attempts[j].position < r.attempts[k].position
    decreases |entries|
  {
    if entries == [] then Progress(seen, [])
    else
      var n := |entries| - 1;
      var prev := Process(seen, entries[..n], keyword, send);
      ProcessStep(seen, entries, keyword, send, prev);
      Step(seen, keyword, send, prev, n, entries[n])
  }

  /** One more entry keeps every promise of `Process`. */
  lemma ProcessStep(seen: set<string>, entries: seq<Entry>, keyword: string,
                    send: nat -> Delivery, prev: Progress)
    requires |entries| > 0
    requires var n := |entries| - 1;
      && prev.newSeen == seen + IdsOf(entries[..n])
      && (forall i :: 0 <= i < n ==>
            (AttemptedAt(prev.attempts, i) <==> ShouldNotify(seen, keyword, entries[..n][i])))
      && (forall j :: 0 <= j < |prev.attempts| ==> Records(prev.attempts[j], j, entries[..n], send))
      && (forall j, k :: 0 <= j < k < |prev.attempts| ==>
            prev.attempts[j].position < prev.attempts[k].position)
    ensures var n := |entries| - 1;
      var r := Step(seen, keyword, send, prev, n, entries[n]);
      && r.newSeen == seen + IdsOf(entries)
      && (forall i :: 0 <= i < |entries| ==>
            (AttemptedAt(r.attempts, i) <==> ShouldNotify(seen, keyword, entries[i])))
      && (forall j :: 0 <= j < |r.attempts| ==> Records(r.attempts[j], j, entries, send))
      && (forall j, k :: 0 <= j < k < |r.attempts| ==>
            r.attempts[j].position < r.attempts[k].position)
  {
    var n := |entries| - 1;
    var e := entries[n];
    assert entries == entries[..n] + [e];
    assert IdsOf(entries) == IdsOf(entries[..n]) + {e.id};
    PrefixRecords(entries, send, prev.attempts);
    if ShouldNotify(seen, keyword, e) {
      var a := Attempt(n, e.id, Message(e), send(|prev.attempts|));
      assert Step(seen, keyword, send, prev, n, e).attempts == prev.attempts + [a];
      AppendAttempt(seen, keyword, entries, send, prev.attempts, a);
    } else {
      assert Step(seen, keyword, send, prev, n, e).attempts == prev.attempts;
      forall i | 0 <= i < |entries|
        ensures AttemptedAt(prev.attempts, i) <==> ShouldNotify(seen, keyword, entries[i])
      {
        if i < n {
          assert entries[..n][i] == entries[i];
        }
      }
    }
  }

  /** Attempts recorded against a prefix of the feed are recorded against the
      whole feed, at positions inside the prefix. */
  lemma PrefixRecords(entries: seq<Entry>, send: nat -> Delivery, attempts: seq<Attempt>)
    requires |entries| > 0
    requires forall j :: 0 <= j < |attempts| ==> Records(attempts[j], j, entries[..|entries| - 1], send)
    ensures forall j :: 0 <= j < |attempts| ==>
              attempts[j].position < |entries| - 1 && Records(attempts[j], j, entries, send)
  {
    var n := |entries| - 1;
    forall j | 0 <= j < |attempts|
      ensures attempts[j].position < n && Records(attempts[j], j, entries, send)
    {
      assert Records(attempts[j], j, entries[..n], send);
      assert entries[..n][attempts[j].position] == entries[attempts[j].position];
    }
  }

  /** Appending the attempt for the last entry of the feed, which should be
      notified for, keeps the attempts in step with the feed. */
  lemma AppendAttempt(seen: set<string>, keyword: string, entries: seq<Entry>,
                      send: nat -> Delivery, attempts: seq<Attempt>, a: Attempt)
    requires |entries| > 0
    requires var n := |entries| - 1;
      && a == Attempt(n, entries[n].id, Message(entries[n]), send(|attempts|))
      && ShouldNotify(seen, keyword, entries[n])
      && (forall i :: 0 <= i < n ==>
            (AttemptedAt(attempts, i) <==> ShouldNotify(seen, keyword, entries[..n][i])))
      && (forall j :: 0 <= j < |attempts| ==>
            attempts[j].position < n && Records(attempts[j], j, entries, send))
      && (forall j, k :: 0 <= j < k < |attempts| ==> attempts[j].position < attempts[k].position)
    ensures var r := attempts + [a];
      && (forall i :: 0 <= i < |entries| ==>
            (AttemptedAt(r, i) <==> ShouldNotify(seen, keyword, entries[i])))
      && (forall j :: 0 <= j < |r| ==> Records(r[j], j, entries, send))
      && (forall j, k :: 0 <= j < k < |r| ==> r[j].position < r[k].position)
  {
    var n := |entries| - 1;
    var r := attempts + [a];
    assert r[|attempts|] == a;
    forall i | 0 <= i < |entries|
      ensures AttemptedAt(r, i) <==> ShouldNotify(seen, keyword, entries[i])
    {
      if i < n {
        assert entries[..n][i] == entries[i];
        if AttemptedAt(r, i) {
          var j :| 0 <= j < |r| && r[j].position == i;
          assert j < |attempts| && attempts[j].position == i;
        }
        if AttemptedAt(attempts, i) {
          var j :| 0 <= j < |attempts| && attempts[j].position == i;
          assert r[j].position == i;
        }
      } else {
        assert r[|attempts|].position == n;
      }
    }
  }

  /**
   The main loop as the program runs it, over the entries in the order the
   fetcher returns them. It computes exactly the fold `Process`.
   */
  method ProcessEntries(seen: set<string>, entries: seq<Entry>, keyword: string,
                        send: nat -> Delivery) returns (newSeen: set<string>, attempts: seq<Attempt>)
    ensures Progress(newSeen, attempts) == Process(seen, entries, keyword, send)
  {
    newSeen := seen;
    attempts := [];
    for i := 0 to |entries|
      invariant Progress(newSeen, attempts) == Process(seen, entries[..i], keyword, send)
    {
      assert entries[..i + 1][..i] == entries[..i];
      var e := entries[i];
      if e.id in seen {
        continue;
      }
      if Matches(e, keyword) {
        var text := Message(e);
        var outcome := send(|attempts|);
        attempts := attempts + [Attempt(i, e.id, text, outcome)];
      }
      newSeen := newSeen + {e.id};
    }
    assert entries[..|entries|] == entries;
  }

  /**
   One invocation: load the seen set, fetch and sort the feed, run the loop
   with the configured keyword, save the seen set. A fetch failure ends the
   run before anything is saved, so the store is left as it was. The save is
   the oracle `write`: when opening the file fails, the store keeps its old
   contents; when writing into the emptied file fails, the store is left
   empty or cut short, which no longer reads back. Either way the run raises
   after its notifications were sent.
   */
  method RunOnce(store: Store, fetch: Fetch, parse: string -> int,
                 setting: Option<string>, send: nat -> Delivery, write: WriteOutcome)
    returns (store': Store, report: RunReport)
    ensures fetch.FetchFailed? ==> report == Aborted(fetch.error) && store' == store
    ensures fetch.Fetched? ==>
              && !report.Aborted?
              && report.attempts
                 == Process(LoadSeen(store), SortByPublished(parse, fetch.entries),
                            Keyword(setting), send).attempts
    ensures fetch.Fetched? && write.Written? ==>
              && report.Completed?
              && store'.Saved?
              && LoadSeen(store') == LoadSeen(store) + IdsOf(fetch.entries)
    ensures fetch.Fetched? && write.OpenFailed? ==> report.SaveFailed? && store' == store
    ensures fetch.Fetched? && write.WriteFailed? ==>
              report.SaveFailed? && store' == Malformed && LoadSeen(store') == {}
  {
    var seen := LoadSeen(store);
    match fetch
    case FetchFailed(error) =>
      store' := store;
      report := Aborted(error);
    case Fetched(raw) =>
      var entries := SortByPublished(parse, raw);
      SortKeepsIds(parse, raw);
      var newSeen, attempts := ProcessEntries(seen, entries, Keyword(setting), send);
      match write
      case Written =>
        store' := SaveSeen(newSeen);
        report := Completed(attempts);
      case OpenFailed =>
        store' := store;
        report := SaveFailed(attempts);
      case WriteFailed =>
        store' := Malformed;
        report := SaveFailed(attempts);
  }

  /**
   A write that fails after the file was emptied loses the whole history: the
   next run starts from the empty seen set and notifies again for every
   matching entry of its feed, including those already notified for.
   */
  lemma TruncatedStoreForgets(entries: seq<Entry>, keyword: string, send: nat -> Delivery)
    ensures var r := Process(LoadSeen(Malformed), entries, keyword, send);
            forall i :: 0 <= i < |entries| ==>
              (AttemptedAt(r.attempts, i) <==> Matches(entries[i], keyword))
  {
    assert LoadSeen(Malformed) == {};
  }

  /** Sorting the feed does not change which ids it holds. */
  lemma SortKeepsIds(parse: string -> int, es: seq<Entry>)
    ensures IdsOf(SortByPublished(parse, es)) == IdsOf(es)
  {
    var s := SortByPublished(parse, es);
    forall e | e in s ensures e in es {
      assert e in multiset(s);
    }
    forall e | e in es ensures e in s {
      assert e in multiset(es);
    }
  }

  /** No attempt is ever made for an id that was seen at load time. */
  lemma SeenNeverNotified(seen: set<string>, entries: seq<Entry>, keyword: string,
                          send: nat -> Delivery)
    ensures forall a :: a in Process(seen, entries, keyword, send).attempts ==> a.id !in seen
  {
    var r := Process(seen, entries, keyword, send);
    forall a | a in r.attempts ensures a.id !in seen {
      var j :| 0 <= j < |r.attempts| && r.attempts[j] == a;
      assert Records(a, j, entries, send);
      assert AttemptedAt(r.attempts, a.position);
    }
  }

  /**
   At most once across runs: after a run, no later run with the saved seen set
   notifies for any id the first run's feed held; in particular running again
   over the same feed notifies for nothing.
   */
  lemma NextRunSkipsProcessed(seen: set<string>, first: seq<Entry>, next: seq<Entry>,
                              keyword: string, send1: nat -> Delivery, send2: nat -> Delivery)
    ensures var saved := Process(seen, first, keyword, send1).newSeen;
            forall a :: a in Process(saved, next, keyword, send2).attempts ==>
              a.id !in seen && a.id !in IdsOf(first)
    ensures var saved := Process(seen, first, keyword, send1).newSeen;
            Process(saved, first, keyword, send2).attempts == []
  {
    var saved := Process(seen, first, keyword, send1).newSeen;
    SeenNeverNotified(saved, next, keyword, send2);
    var again := Process(saved, first, keyword, send2).attempts;
    forall i | 0 <= i < |first|
      ensures !AttemptedAt(again, i)
    {
      assert first[i] in first;
    }
    forall j | 0 <= j < |again|
      ensures again[j].position < |first|
    {
      assert Records(again[j], j, first, send2);
    }
    NoneDueNoneMade(again, |first|);
  }

  /** Attempts all made at positions below `m`, none of which was attempted,
      are no attempts at all. */
  lemma NoneDueNoneMade(attempts: seq<Attempt>, m: int)
    requires forall j :: 0 <= j < |attempts| ==> attempts[j].position < m
    requires forall i :: 0 <= i < m ==> !AttemptedAt(attempts, i)
    ensures attempts == []
  {
    assert |attempts| == 0 || AttemptedAt(attempts, attempts[0].position);
  }

  /** With strictly increasing positions, the attempt at the smaller position
      comes first. */
  lemma EarlierPositionFirst(attempts: seq<Attempt>, j1: int, j2: int)
    requires forall j, k :: 0 <= j < k < |attempts| ==> attempts[j].position < attempts[k].position
    requires 0 <= j1 < |attempts| && 0 <= j2 < |attempts|
    requires attempts[j1].position < attempts[j2].position
    ensures j1 < j2
  {
  }

  /**
   A failed delivery never stops the run: whatever the notifier does, the same
   ids end up seen and the same notifications are attempted, for the same
   entries and with the same texts; only the recorded outcomes differ.
   */
  lemma {:induction false} DeliveryDoesNotMatter(seen: set<string>, entries: seq<Entry>, keyword: string,
                              send1: nat -> Delivery, send2: nat -> Delivery)
    ensures var r1, r2 := Process(seen, entries, keyword, send1), Process(seen, entries, keyword, send2);
            && r1.newSeen == r2.newSeen
            && |r1.attempts| == |r2.attempts|
            && forall j :: 0 <= j < |r1.attempts| ==>
                 r1.attempts[j].(outcome := Delivered) == r2.attempts[j].(outcome := Delivered)
    decreases |entries|
  {
    if entries != [] {
      var n := |entries| - 1;
      var e := entries[n];
      DeliveryDoesNotMatter(seen, entries[..n], keyword, send1, send2);
      var p1, p2 := Process(seen, entries[..n], keyword, send1), Process(seen, entries[..n], keyword, send2);
      var r1, r2 := Step(seen, keyword, send1, p1, n, e), Step(seen, keyword, send2, p2, n, e);
      assert Process(seen, entries, keyword, send1) == r1;
      assert Process(seen, entries, keyword, send2) == r2;
      if e.id !in seen && Matches(e, keyword) {
        assert r1.attempts == p1.attempts + [Attempt(n, e.id, Message(e), send1(|p1.attempts|))];
        assert r2.attempts == p2.attempts + [Attempt(n, e.id, Message(e), send2(|p2.attempts|))];
      }
    }
  }

  /**
   The skip test looks at the seen set as loaded, not as it grows: an id new
   at load time that appears at two positions of the same feed, and matches,
   is notified for at both.
   */
  lemma RepeatedIdNotifiedTwice(seen: set<string>, entries: seq<Entry>, keyword: string,
                                send: nat -> Delivery, i: nat, k: nat)
    requires i < k < |entries| && entries[i].id == entries[k].id
    requires entries[i].id !in seen
    requires Matches(entries[i], keyword) && Matches(entries[k], keyword)
    ensures AttemptedTwice(Process(seen, entries, keyword, send).attempts, entries[i].id)
  {
    var r := Process(seen, entries, keyword, send);
    assert ShouldNotify(seen, keyword, entries[i]) && ShouldNotify(seen, keyword, entries[k]);
    TwoPositionsTwoAttempts(r.attempts, entries, send, i, k);
  }

  /** Attempts made at two feed positions holding the same id are two distinct
      attempts for that id, the earlier position first. */
  lemma TwoPositionsTwoAttempts(attempts: seq<Attempt>, entries: seq<Entry>,
                                send: nat -> Delivery, i: nat, k: nat)
    requires i < k < |entries| && entries[i].id == entries[k].id
    requires AttemptedAt(attempts, i) && AttemptedAt(attempts, k)
    requires forall j :: 0 <= j < |attempts| ==> Records(attempts[j], j, entries, send)
    requires forall j, k :: 0 <= j < k < |attempts| ==> attempts[j].position < attempts[k].position
    ensures AttemptedTwice(attempts, entries[i].id)
  {
    var j1 :| 0 <= j1 < |attempts| && attempts[j1].position == i;
    var j2 :| 0 <= j2 < |attempts| && attempts[j2].position == k;
    assert Records(attempts[j1], j1, entries, send);
    assert Records(attempts[j2], j2, entries, send);
    EarlierPositionFirst(attempts, j1, j2);
  }

  /** An empty feed: nothing attempted, the seen set unchanged. */
  lemma EmptyFeed(seen: set<string>, keyword: string, send: nat -> Delivery)
    ensures Process(seen, [], keyword, send) == Progress(seen, [])
  {
  }

  /** A fresh store and one entry titled with the keyword: one attempt, with
      the entry's notification text, and the entry's id is saved. Seen at
      load time, the same entry is skipped. */
  lemma SingleEntryExample(send: nat -> Delivery)
    ensures var e := Entry("v1", "Ankit Agrawal Live", "https://v/1", "2024-01-01T00:00:00Z", "", Some(""));
            var r := Process({}, [e], Keyword(None), send);
            && r.newSeen == {"v1"}
            && r.attempts == [Attempt(0, "v1", Message(e), send(0))]
    ensures var e := Entry("v1", "Ankit Agrawal Live", "https://v/1", "2024-01-01T00:00:00Z", "", Some(""));
            Process({"v1"}, [e], Keyword(None), send) == Progress({"v1"}, [])
  {
    var e := Entry("v1", "Ankit Agrawal Live", "https://v/1", "2024-01-01T00:00:00Z", "", Some(""));
    TitleExampleMatches();
    assert [e][..0] == [];
    assert IdsOf([e]) == {"v1"};
  }
}
