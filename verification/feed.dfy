/**
 The entries of the channel feed, as the fetcher hands them to the rest of
 the watcher, and the ordering step that puts them oldest first.

 The feed text itself (fetching and XML parsing) is not modelled: an entry
 arrives already parsed. The published time is kept as the text the feed
 carries; the date parser that turns it into a comparable instant is a
 parameter `parse`, a total function into the integers.
 */
module Feed {
  import opened Wrappers

  /** One video of the feed. `thumbnail` is `None` when the entry has no
      thumbnail element at all. */
  datatype Entry = Entry(
    id: string,
    title: string,
    link: string,
    published: string,
    description: string,
    thumbnail: Option<string>
  )

  /** The ordering key of an entry: its published time, as parsed by `parse`. */
  function Key(parse: string -> int, e: Entry): int {
    parse(e.published)
  }

  /** Entries in ascending order of published time: no entry is older than
      the one before it. */
  ghost predicate SortedByPublished(parse: string -> int, es: seq<Entry>) {
    forall i :: 0 < i < |es| ==> Key(parse, es[i - 1]) <= Key(parse, es[i])
  }

  /** The entries of `es` whose published time is `t`, in their order in `es`. */
  function PublishedAt(parse: string -> int, es: seq<Entry>, t: int): seq<Entry>
  {
    if es == [] then []
    else if Key(parse, es[0]) == t then [es[0]] + PublishedAt(parse, es[1..], t)
    else PublishedAt(parse, es[1..], t)
  }

  /** `PublishedAt` picks entries of `es`, each of time `t`, and every entry of
      time `t` as often as `es` holds it. */
  lemma {:induction false} PublishedAtSelects(parse: string -> int, es: seq<Entry>, t: int)
    ensures forall x :: x in PublishedAt(parse, es, t) ==> Key(parse, x) == t
    ensures forall x :: Key(parse, x) == t ==>
              multiset(PublishedAt(parse, es, t))[x] == multiset(es)[x]
    ensures multiset(PublishedAt(parse, es, t)) <= multiset(es)
  {
    if es != [] {
      PublishedAtSelects(parse, es[1..], t);
      assert es == [es[0]] + es[1..];
    }
  }

  /**
   Puts `e` into `es` in front of the first entry that is not older than it.
   Placing `e` ahead of entries with the same time keeps the sort stable,
   since `e` came first in the input.
   */
  function Insert(parse: string -> int, e: Entry, es: seq<Entry>): (r: seq<Entry>)
    requires SortedByPublished(parse, es)
    ensures SortedByPublished(parse, r)
    ensures multiset(r) == multiset(es) + multiset{e}
    ensures |r| == |es| + 1
    ensures r[0] == e || (|es| > 0 && r[0] == es[0])
  {
    if es == [] then [e]
    else if Key(parse, e) <= Key(parse, es[0]) then [e] + es
    else
      var rest := Insert(parse, e, es[1..]);
      assert es == [es[0]] + es[1..];
      [es[0]] + rest
  }

  /**
   The ordering step of the fetcher: a stable sort of the entries by
   ascending published time (an insertion sort; Python's `list.sort` is
   stable too).
   */
  function SortByPublished(parse: string -> int, es: seq<Entry>): (r: seq<Entry>)
    ensures SortedByPublished(parse, r)
    ensures multiset(r) == multiset(es)
    ensures |r| == |es|
  {
    if es == [] then []
    else
      assert es == [es[0]] + es[1..];
      Insert(parse, es[0], SortByPublished(parse, es[1..]))
  }

  /** Inserting `e` adds it to the entries of its own time and leaves the
      relative order of every group of equal times alone. */
  lemma {:induction false} InsertStable(parse: string -> int, e: Entry, es: seq<Entry>, t: int)
    requires SortedByPublished(parse, es)
    ensures PublishedAt(parse, Insert(parse, e, es), t)
         == (if Key(parse, e) == t then [e] else []) + PublishedAt(parse, es, t)
  {
    if es == [] {
    } else if Key(parse, e) <= Key(parse, es[0]) {
      var r := [e] + es;
      assert r[1..] == es;
    } else {
      var rest := Insert(parse, e, es[1..]);
      var r := [es[0]] + rest;
      assert r[1..] == rest;
      InsertStable(parse, e, es[1..], t);
    }
  }

  /** The sort is stable: entries with the same published time keep the order
      they had in the feed. */
  lemma {:induction false} SortStable(parse: string -> int, es: seq<Entry>, t: int)
    ensures PublishedAt(parse, SortByPublished(parse, es), t) == PublishedAt(parse, es, t)
  {
    if es != [] {
      SortStable(parse, es[1..], t);
      InsertStable(parse, es[0], SortByPublished(parse, es[1..]), t);
    }
  }

  /** A feed that is already in order comes out of the sort unchanged. */
  lemma {:induction false} SortKeepsSorted(parse: string -> int, es: seq<Entry>)
    requires SortedByPublished(parse, es)
    ensures SortByPublished(parse, es) == es
  {
    if es != [] {
      SortKeepsSorted(parse, es[1..]);
      assert SortByPublished(parse, es[1..]) == es[1..];
      if |es| > 1 {
        assert Key(parse, es[0]) <= Key(parse, es[1]);
      }
      assert [es[0]] + es[1..] == es;
    }
  }
}
