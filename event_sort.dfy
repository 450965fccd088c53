/**
 * `sorted(events, key=lambda x: x['start'])`: Python's sort is stable, so
 * events with equal start times keep their relative order. It is modelled by
 * an insertion sort, with lemmas that its result is ordered, a permutation of
 * its input, and stable.
 */
module EventSort {
  import opened CivilDate
  import opened Events

  /** Each event starts no later than every event after it. */
  predicate SortedByStart(s: seq<Event>)
  {
    forall i, j :: 0 <= i < j < |s| ==> NotAfter(s[i].start, s[j].start)
  }

  /** The events of `s` that start at `t`, in their order in `s`. */
  function StartingAt(s: seq<Event>, t: DateTime): seq<Event>
  {
    if s == [] then []
    else (if s[0].start == t then [s[0]] else []) + StartingAt(s[1..], t)
  }

  /** Puts `e` before the first event that does not start before it. */
  function Insert(e: Event, s: seq<Event>): (r: seq<Event>)
    ensures |r| == |s| + 1
  {
    if s == [] || NotAfter(e.start, s[0].start) then [e] + s
    else [s[0]] + Insert(e, s[1..])
  }

  /** The sorted copy of `s`. */
  function SortByStart(s: seq<Event>): (r: seq<Event>)
    ensures |r| == |s|
  {
    if s == [] then [] else Insert(s[0], SortByStart(s[1..]))
  }

  lemma {:induction false} InsertPermutes(e: Event, s: seq<Event>)
    ensures multiset(Insert(e, s)) == multiset{e} + multiset(s)
  {
    if s != [] && !NotAfter(e.start, s[0].start) {
      InsertPermutes(e, s[1..]);
      assert s == [s[0]] + s[1..];
    }
  }

  lemma {:induction false} InsertSorted(e: Event, s: seq<Event>)
    requires SortedByStart(s)
    ensures SortedByStart(Insert(e, s))
  {
    if s != [] && !NotAfter(e.start, s[0].start) {
      InsertSorted(e, s[1..]);
      InsertPermutes(e, s[1..]);
      var r := Insert(e, s[1..]);
      forall x | x in r ensures NotAfter(s[0].start, x.start) {
        assert x in multiset(r);
        if x != e {
          var k :| 0 <= k < |s[1..]| && s[1..][k] == x;
          assert s[k + 1] == x;
        } else {
          NotAfterTotalOrder(e.start, s[0].start, e.start);
        }
      }
      forall i, j | 0 <= i < j < |[s[0]] + r|
        ensures NotAfter(([s[0]] + r)[i].start, ([s[0]] + r)[j].start)
      {
        if i == 0 {
          assert ([s[0]] + r)[j] in r;
        }
      }
    }
  }

  /** Inserting `e` adds it to the events of its start time just ahead of the rest of them. */
  lemma {:induction false} InsertStable(e: Event, s: seq<Event>, t: DateTime)
    ensures StartingAt(Insert(e, s), t) == (if e.start == t then [e] else []) + StartingAt(s, t)
  {
    if s == [] || NotAfter(e.start, s[0].start) {
      assert ([e] + s)[1..] == s;
    } else {
      InsertStable(e, s[1..], t);
      assert ([s[0]] + Insert(e, s[1..]))[1..] == Insert(e, s[1..]);
      if e.start == t {
        NotAfterTotalOrder(e.start, s[0].start, e.start);
        assert s[0].start != t;
      }
    }
  }

  /** The sorted copy is in ascending order of start time. */
  lemma {:induction false} SortSorted(s: seq<Event>)
    ensures SortedByStart(SortByStart(s))
  {
    if s != [] {
      SortSorted(s[1..]);
      InsertSorted(s[0], SortByStart(s[1..]));
    }
  }

  /** The sorted copy holds the same events, each as many times. */
  lemma {:induction false} SortPermutes(s: seq<Event>)
    ensures multiset(SortByStart(s)) == multiset(s)
  {
    if s != [] {
      SortPermutes(s[1..]);
      InsertPermutes(s[0], SortByStart(s[1..]));
      assert s == [s[0]] + s[1..];
    }
  }

  /** Stability: the events with any one start time keep their input order. */
  lemma {:induction false} SortStable(s: seq<Event>, t: DateTime)
    ensures StartingAt(SortByStart(s), t) == StartingAt(s, t)
  {
    if s != [] {
      SortStable(s[1..], t);
      InsertStable(s[0], SortByStart(s[1..]), t);
    }
  }

  /** Already ordered input is left as it is. */
  lemma {:induction false} SortKeepsSorted(s: seq<Event>)
    requires SortedByStart(s)
    ensures SortByStart(s) == s
  {
    if s != [] {
      assert SortedByStart(s[1..]) by {
        forall i, j | 0 <= i < j < |s[1..]| ensures NotAfter(s[1..][i].start, s[1..][j].start) {
          assert s[1..][i] == s[i + 1] && s[1..][j] == s[j + 1];
        }
      }
      SortKeepsSorted(s[1..]);
      if |s| > 1 {
        assert NotAfter(s[0].start, s[1].start);
      }
    }
  }

  /** The length is kept. */
  lemma SortLength(s: seq<Event>)
    ensures |SortByStart(s)| == |s|
  {
    SortPermutes(s);
    assert |multiset(SortByStart(s))| == |multiset(s)|;
  }

  /** Two events with the same start time come out in the order they went in. */
  lemma EqualStartsKeepOrder(a: Event, b: Event)
    requires a.start == b.start
    ensures SortByStart([a, b]) == [a, b]
  {
    NotAfterTotalOrder(a.start, b.start, b.start);
    SortKeepsSorted([a, b]);
  }
}
