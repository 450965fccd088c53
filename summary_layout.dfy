/**
 * What the report looks like, stated apart from how it is built. A "line"
 * here is an entry of the list `header + details` before the join; several
 * entries hold a newline themselves (the titles, the name lines, the event
 * lines), so the counts below are of entries, not of lines of the joined
 * text. Every entry is classified by the mark it starts with, and the lemmas
 * say which entries of each kind the report holds, in which order and how
 * many.
 */
module SummaryLayout {
  import opened CivilDate
  import opened Events
  import opened EventSort
  import opened OrderedMaps
  import opened Summary

  /** The kinds of line the report is made of, told apart by their first characters. */
  datatype Kind = HeaderTitleKind | DetailsTitleKind | ChildNameKind | BulletKind | EventKind | DescriptionKind | OtherKind

  function KindOf(line: string): Kind
  {
    if |line| == 0 then OtherKind
    else if line[0] == '\U{1F4C5}' then HeaderTitleKind
    else if line[0] == '\U{2022}' then BulletKind
    else if line[0] == ' ' then DescriptionKind
    else if line[0] == '\n' && |line| >= 2 then
      if line[1] == '\U{1F4DD}' then DetailsTitleKind
      else if line[1] == '\U{1F464}' then ChildNameKind
      else if line[1] == '\U{1F4CC}' then EventKind
      else OtherKind
    else OtherKind
  }

  /** The lines of kind `k`, in their order. */
  function OfKind(lines: seq<string>, k: Kind): seq<string>
  {
    if lines == [] then []
    else OfKind(lines[..|lines| - 1], k) + (if KindOf(lines[|lines| - 1]) == k then [lines[|lines| - 1]] else [])
  }

  /** The sum of `c` over the elements of `s`. */
  function SumOver<T>(c: T -> nat, s: seq<T>): nat
  {
    if s == [] then 0 else SumOver(c, s[..|s| - 1]) + c(s[|s| - 1])
  }

  /** How many description lines an event gives: one when it has a description. */
  function DescriptionLines(e: Event): nat
  {
    if e.description != "" then 1 else 0
  }

  /** The number of events with a non-empty description. */
  function Described(s: seq<Event>): nat
  {
    SumOver(DescriptionLines, s)
  }

  /** The number of events of one child. */
  function EventCount(c: Entry): nat
  {
    |c.1|
  }

  /** The number of described events of one child. */
  function DescribedCount(c: Entry): nat
  {
    Described(c.1)
  }

  /** The number of events over all children. */
  function TotalEvents(cs: seq<Entry>): nat
  {
    SumOver(EventCount, cs)
  }

  /** The number of described events over all children. */
  function TotalDescribed(cs: seq<Entry>): nat
  {
    SumOver(DescribedCount, cs)
  }

  /** The name line of one child. */
  function NameLine(c: Entry): string
  {
    ChildLine(c.0)
  }

  /** The name lines of the children, in the order given. */
  function ChildLines(cs: seq<Entry>): seq<string>
  {
    MapLines(NameLine, cs)
  }

  // Lemmas about lists of lines in general.

  lemma {:induction false} OfKindAppend(a: seq<string>, b: seq<string>, k: Kind)
    ensures OfKind(a + b, k) == OfKind(a, k) + OfKind(b, k)
  {
    if b == [] {
      assert a + b == a;
    } else {
      var n := |b| - 1;
      assert (a + b)[..|a + b| - 1] == a + b[..n];
      OfKindAppend(a, b[..n], k);
    }
  }

  lemma OfKindSingle(line: string, k: Kind)
    ensures OfKind([line], k) == (if KindOf(line) == k then [line] else [])
  {
    assert [line][..0] == [];
  }

  /** Every line has exactly one kind, so the kinds' lines add up to all lines. */
  lemma {:induction false} KindsPartition(lines: seq<string>)
    ensures |lines| == |OfKind(lines, HeaderTitleKind)| + |OfKind(lines, DetailsTitleKind)|
      + |OfKind(lines, ChildNameKind)| + |OfKind(lines, BulletKind)| + |OfKind(lines, EventKind)|
      + |OfKind(lines, DescriptionKind)| + |OfKind(lines, OtherKind)|
  {
    if lines != [] {
      KindsPartition(lines[..|lines| - 1]);
    }
  }

  lemma {:induction false} SumOverAppend<T>(c: T -> nat, a: seq<T>, b: seq<T>)
    ensures SumOver(c, a + b) == SumOver(c, a) + SumOver(c, b)
  {
    if b == [] {
      assert a + b == a;
    } else {
      var n := |b| - 1;
      assert (a + b)[..|a + b| - 1] == a + b[..n];
      SumOverAppend(c, a, b[..n]);
    }
  }

  /** One line per element, the i-th for the i-th element. */
  lemma {:induction false} MapLinesIndex<T>(f: T -> string, s: seq<T>)
    ensures |MapLines(f, s)| == |s|
    ensures forall i :: 0 <= i < |s| ==> MapLines(f, s)[i] == f(s[i])
  {
    if s != [] {
      var n := |s| - 1;
      MapLinesIndex(f, s[..n]);
      assert forall i :: 0 <= i < n ==> s[..n][i] == s[i];
    }
  }

  /** Lines that all have one kind are all found under it and under no other. */
  lemma {:induction false} OfKindMapLines<T>(f: T -> string, s: seq<T>, kind: Kind)
    requires forall x :: KindOf(f(x)) == kind
    ensures OfKind(MapLines(f, s), kind) == MapLines(f, s)
    ensures forall k :: k != kind ==> OfKind(MapLines(f, s), k) == []
  {
    if s != [] {
      var n := |s| - 1;
      OfKindMapLines(f, s[..n], kind);
      assert [f(s[n])][..0] == [];
      forall k { OfKindAppend(MapLines(f, s[..n]), [f(s[n])], k); }
    }
  }

  /** Parts that each hold one line of kind `k` give those lines, in order. */
  lemma {:induction false} OfKindFlatSingletons<T>(f: T -> seq<string>, h: T -> string, s: seq<T>, k: Kind)
    requires forall x :: OfKind(f(x), k) == [h(x)]
    ensures OfKind(FlatLines(f, s), k) == MapLines(h, s)
  {
    if s != [] {
      var n := |s| - 1;
      OfKindFlatSingletons(f, h, s[..n], k);
      OfKindAppend(FlatLines(f, s[..n]), f(s[n]), k);
    }
  }

  /** Parts without lines of kind `k` give none. */
  lemma {:induction false} OfKindFlatEmpty<T>(f: T -> seq<string>, s: seq<T>, k: Kind)
    requires forall x :: OfKind(f(x), k) == []
    ensures OfKind(FlatLines(f, s), k) == []
  {
    if s != [] {
      var n := |s| - 1;
      OfKindFlatEmpty(f, s[..n], k);
      OfKindAppend(FlatLines(f, s[..n]), f(s[n]), k);
    }
  }

  /** The lines of kind `k` of a concatenation number the sum of the parts' numbers. */
  lemma {:induction false} OfKindFlatLength<T>(f: T -> seq<string>, c: T -> nat, s: seq<T>, k: Kind)
    requires forall x :: |OfKind(f(x), k)| == c(x)
    ensures |OfKind(FlatLines(f, s), k)| == SumOver(c, s)
  {
    if s != [] {
      var n := |s| - 1;
      OfKindFlatLength(f, c, s[..n], k);
      OfKindAppend(FlatLines(f, s[..n]), f(s[n]), k);
    }
  }

  /** The length of a concatenation is the sum of the parts' lengths. */
  lemma {:induction false} FlatLength<T>(g: T -> seq<string>, c: T -> nat, s: seq<T>)
    requires forall x :: |g(x)| == c(x)
    ensures |FlatLines(g, s)| == SumOver(c, s)
  {
    if s != [] {
      FlatLength(g, c, s[..|s| - 1]);
    }
  }

  // Lemmas about the report's own lines.

  /** Each line the report is built from has the kind of its mark, whatever the text after it. */
  lemma TitleKinds()
    ensures KindOf(HeaderTitle) == HeaderTitleKind && KindOf(DetailsTitle) == DetailsTitleKind
  {
  }

  lemma ChildLineKind(name: string)
    ensures KindOf(ChildLine(name)) == ChildNameKind
  {
    assert ChildLine(name)[..2] == ChildMark[..2];
  }

  lemma EventLineKinds(e: Event)
    ensures KindOf(BulletLine(e)) == BulletKind
    ensures KindOf(EventLine(e)) == EventKind
    ensures KindOf(DescriptionLine(e)) == DescriptionKind
  {
    assert BulletLine(e)[0] == BulletMark[0];
    assert EventLine(e)[..2] == EventMark[..2];
    assert DescriptionLine(e)[0] == DescriptionMark[0];
  }

  /** Inserting an event adds one to the count exactly when it is described. */
  lemma {:induction false} DescribedInsert(e: Event, s: seq<Event>)
    ensures Described(Insert(e, s)) == Described(s) + DescriptionLines(e)
  {
    if s == [] || NotAfter(e.start, s[0].start) {
      SumOverAppend(DescriptionLines, [e], s);
      assert [e][..0] == [];
    } else {
      DescribedInsert(e, s[1..]);
      SumOverAppend(DescriptionLines, [s[0]], Insert(e, s[1..]));
      SumOverAppend(DescriptionLines, [s[0]], s[1..]);
      assert [s[0]] + s[1..] == s;
      assert [s[0]][..0] == [];
    }
  }

  /** Sorting keeps the number of described events. */
  lemma {:induction false} DescribedSort(s: seq<Event>)
    ensures Described(SortByStart(s)) == Described(s)
  {
    if s != [] {
      DescribedSort(s[1..]);
      DescribedInsert(s[0], SortByStart(s[1..]));
      SumOverAppend(DescriptionLines, [s[0]], s[1..]);
      assert [s[0]] + s[1..] == s;
      assert [s[0]][..0] == [];
    }
  }

  /** One bullet per event, the i-th for the i-th event, and nothing but bullets. */
  lemma BulletsInOrder(s: seq<Event>)
    ensures |Bullets(s)| == |s|
    ensures forall i :: 0 <= i < |s| ==> Bullets(s)[i] == BulletLine(s[i])
    ensures OfKind(Bullets(s), BulletKind) == Bullets(s)
    ensures forall k :: k != BulletKind ==> OfKind(Bullets(s), k) == []
  {
    MapLinesIndex(BulletLine, s);
    forall e ensures KindOf(BulletLine(e)) == BulletKind { EventLineKinds(e); }
    OfKindMapLines(BulletLine, s, BulletKind);
  }

  /** A detail block: its event line always, its description line exactly when there is a description. */
  lemma BlockShape(e: Event)
    ensures Block(e)[0] == EventLine(e)
    ensures |Block(e)| == 1 + DescriptionLines(e)
    ensures OfKind(Block(e), EventKind) == [EventLine(e)]
    ensures OfKind(Block(e), DescriptionKind) == (if e.description != "" then [DescriptionLine(e)] else [])
    ensures forall k :: k != EventKind && k != DescriptionKind ==> OfKind(Block(e), k) == []
  {
    EventLineKinds(e);
    forall k { OfKindSingle(EventLine(e), k); }
    if e.description != "" {
      forall k { OfKindSingle(DescriptionLine(e), k); }
      forall k { OfKindAppend([EventLine(e)], [DescriptionLine(e)], k); }
    } else {
      assert Block(e) == [EventLine(e)];
    }
  }

  /** The event lines of the blocks, one per event in order; the description lines, one per described event. */
  lemma BlocksInOrder(s: seq<Event>)
    ensures OfKind(Blocks(s), EventKind) == MapLines(EventLine, s)
    ensures |OfKind(Blocks(s), DescriptionKind)| == Described(s)
    ensures |Blocks(s)| == |s| + Described(s)
    ensures forall k :: k != EventKind && k != DescriptionKind ==> OfKind(Blocks(s), k) == []
  {
    forall e ensures OfKind(Block(e), EventKind) == [EventLine(e)] { BlockShape(e); }
    OfKindFlatSingletons(Block, EventLine, s, EventKind);
    forall e ensures |OfKind(Block(e), DescriptionKind)| == DescriptionLines(e) { BlockShape(e); }
    OfKindFlatLength(Block, DescriptionLines, s, DescriptionKind);
    forall k | k != EventKind && k != DescriptionKind ensures OfKind(Blocks(s), k) == [] {
      forall e ensures OfKind(Block(e), k) == [] { BlockShape(e); }
      OfKindFlatEmpty(Block, s, k);
    }
    forall e ensures |Block(e)| == BlockLength(e) { BlockShape(e); }
    FlatLength(Block, BlockLength, s);
    SumBlockLengths(s);
  }

  /** The number of lines of one detail block. */
  function BlockLength(e: Event): nat
  {
    1 + DescriptionLines(e)
  }

  lemma {:induction false} SumBlockLengths(s: seq<Event>)
    ensures SumOver(BlockLength, s) == |s| + Described(s)
  {
    if s != [] {
      SumBlockLengths(s[..|s| - 1]);
    }
  }

  /** A child's header part: its name line, then one bullet per event in start order. */
  lemma ChildHeaderShape(c: Entry)
    ensures ChildHeader(c)[0] == ChildLine(c.0)
    ensures OfKind(ChildHeader(c), ChildNameKind) == [ChildLine(c.0)]
    ensures |OfKind(ChildHeader(c), BulletKind)| == |c.1|
    ensures forall k :: k != ChildNameKind && k != BulletKind ==> OfKind(ChildHeader(c), k) == []
  {
    var sorted := SortByStart(c.1);
    SortLength(c.1);
    BulletsInOrder(sorted);
    ChildLineKind(c.0);
    forall k { OfKindSingle(ChildLine(c.0), k); }
    forall k { OfKindAppend([ChildLine(c.0)], Bullets(sorted), k); }
  }

  /** A child's details part: its name line, then one block per event in start order. */
  lemma ChildDetailsShape(c: Entry)
    ensures ChildDetails(c)[0] == ChildLine(c.0)
    ensures OfKind(ChildDetails(c), ChildNameKind) == [ChildLine(c.0)]
    ensures |OfKind(ChildDetails(c), EventKind)| == |c.1|
    ensures |OfKind(ChildDetails(c), DescriptionKind)| == Described(c.1)
    ensures forall k :: k != ChildNameKind && k != EventKind && k != DescriptionKind ==> OfKind(ChildDetails(c), k) == []
  {
    var sorted := SortByStart(c.1);
    SortLength(c.1);
    DescribedSort(c.1);
    BlocksInOrder(sorted);
    MapLinesIndex(EventLine, sorted);
    ChildLineKind(c.0);
    forall k { OfKindSingle(ChildLine(c.0), k); }
    forall k { OfKindAppend([ChildLine(c.0)], Blocks(sorted), k); }
  }

  /**
   * A child's events appear in both sections in the order of a stable sort by
   * start time: the order is by start, the events are the child's own, and
   * events with the same start keep their fetched order.
   */
  lemma ChildEventsInStartOrder(c: Entry)
    ensures var sorted := SortByStart(c.1);
      && SortedByStart(sorted)
      && multiset(sorted) == multiset(c.1)
      && (forall t :: StartingAt(sorted, t) == StartingAt(c.1, t))
      && |ChildHeader(c)| == 1 + |sorted|
      && (forall i :: 0 <= i < |sorted| ==> ChildHeader(c)[i + 1] == BulletLine(sorted[i]))
      && OfKind(ChildDetails(c), EventKind) == MapLines(EventLine, sorted)
  {
    var sorted := SortByStart(c.1);
    SortSorted(c.1);
    SortPermutes(c.1);
    forall t { SortStable(c.1, t); }
    SortLength(c.1);
    BulletsInOrder(sorted);
    BlocksInOrder(sorted);
    ChildLineKind(c.0);
    OfKindSingle(ChildLine(c.0), EventKind);
    OfKindAppend([ChildLine(c.0)], Blocks(sorted), EventKind);
  }

  /** The header section: the children's name lines in order, one bullet per event, no other line. */
  lemma HeaderSectionShape(cs: seq<Entry>)
    ensures OfKind(HeaderSection(cs), ChildNameKind) == ChildLines(cs)
    ensures |OfKind(HeaderSection(cs), BulletKind)| == TotalEvents(cs)
    ensures forall k :: k != ChildNameKind && k != BulletKind ==> OfKind(HeaderSection(cs), k) == []
  {
    forall c ensures OfKind(ChildHeader(c), ChildNameKind) == [NameLine(c)] { ChildHeaderShape(c); }
    OfKindFlatSingletons(ChildHeader, NameLine, cs, ChildNameKind);
    forall c ensures |OfKind(ChildHeader(c), BulletKind)| == EventCount(c) { ChildHeaderShape(c); }
    OfKindFlatLength(ChildHeader, EventCount, cs, BulletKind);
    forall k | k != ChildNameKind && k != BulletKind ensures OfKind(HeaderSection(cs), k) == [] {
      forall c ensures OfKind(ChildHeader(c), k) == [] { ChildHeaderShape(c); }
      OfKindFlatEmpty(ChildHeader, cs, k);
    }
  }

  /** The details section: the children's name lines in order, one event line per event, one description line per described event. */
  lemma DetailSectionShape(cs: seq<Entry>)
    ensures OfKind(DetailSection(cs), ChildNameKind) == ChildLines(cs)
    ensures |OfKind(DetailSection(cs), EventKind)| == TotalEvents(cs)
    ensures |OfKind(DetailSection(cs), DescriptionKind)| == TotalDescribed(cs)
    ensures forall k :: k != ChildNameKind && k != EventKind && k != DescriptionKind ==> OfKind(DetailSection(cs), k) == []
  {
    forall c ensures OfKind(ChildDetails(c), ChildNameKind) == [NameLine(c)] { ChildDetailsShape(c); }
    OfKindFlatSingletons(ChildDetails, NameLine, cs, ChildNameKind);
    forall c ensures |OfKind(ChildDetails(c), EventKind)| == EventCount(c) { ChildDetailsShape(c); }
    OfKindFlatLength(ChildDetails, EventCount, cs, EventKind);
    forall c ensures |OfKind(ChildDetails(c), DescriptionKind)| == DescribedCount(c) { ChildDetailsShape(c); }
    OfKindFlatLength(ChildDetails, DescribedCount, cs, DescriptionKind);
    forall k | k != ChildNameKind && k != EventKind && k != DescriptionKind ensures OfKind(DetailSection(cs), k) == [] {
      forall c ensures OfKind(ChildDetails(c), k) == [] { ChildDetailsShape(c); }
      OfKindFlatEmpty(ChildDetails, cs, k);
    }
  }

  /** The list of two titled sections, whatever the sections hold, split at the second title. */
  lemma TitledSections(hs: seq<string>, ds: seq<string>)
    ensures var lines, p := [HeaderTitle] + hs + [DetailsTitle] + ds, 1 + |hs|;
      && p < |lines|
      && lines[0] == HeaderTitle
      && lines[p] == DetailsTitle
      && (forall k :: OfKind(lines[..p], k) == (if k == HeaderTitleKind then [HeaderTitle] else []) + OfKind(hs, k))
      && (forall k :: OfKind(lines[p..], k) == (if k == DetailsTitleKind then [DetailsTitle] else []) + OfKind(ds, k))
      && (forall k :: OfKind(lines, k) == OfKind(lines[..p], k) + OfKind(lines[p..], k))
  {
    var lines, p := [HeaderTitle] + hs + [DetailsTitle] + ds, 1 + |hs|;
    var head, tail := [HeaderTitle] + hs, [DetailsTitle] + ds;
    assert lines == head + tail;
    assert lines[..p] == head && lines[p..] == tail;
    TitleKinds();
    forall k { OfKindSingle(HeaderTitle, k); }
    forall k { OfKindSingle(DetailsTitle, k); }
    forall k { OfKindAppend([HeaderTitle], hs, k); }
    forall k { OfKindAppend([DetailsTitle], ds, k); }
    forall k { OfKindAppend(head, tail, k); }
  }

  /**
   * The whole list: the header title first; the details title at position
   * `p`; no event or description line before it and no bullet after it; the
   * children's name lines in the same order on both sides.
   */
  lemma HeaderBeforeDetails(cs: seq<Entry>)
    ensures var lines, p := Lines(cs), 1 + |HeaderSection(cs)|;
      && p < |lines|
      && lines[0] == HeaderTitle
      && lines[p] == DetailsTitle
      && OfKind(lines[..p], EventKind) == [] && OfKind(lines[..p], DescriptionKind) == []
      && OfKind(lines[p..], BulletKind) == []
      && OfKind(lines[..p], ChildNameKind) == ChildLines(cs)
      && OfKind(lines[p..], ChildNameKind) == ChildLines(cs)
  {
    HeaderSectionShape(cs);
    DetailSectionShape(cs);
    TitledSections(HeaderSection(cs), DetailSection(cs));
    assert [] + ChildLines(cs) == ChildLines(cs);
  }

  /** How many lines of each kind the list holds, and so how long it is. */
  lemma LineCounts(cs: seq<Entry>)
    ensures var lines := Lines(cs);
      && OfKind(lines, HeaderTitleKind) == [HeaderTitle]
      && OfKind(lines, DetailsTitleKind) == [DetailsTitle]
      && |OfKind(lines, ChildNameKind)| == 2 * |cs|
      && |OfKind(lines, BulletKind)| == TotalEvents(cs)
      && |OfKind(lines, EventKind)| == TotalEvents(cs)
      && |OfKind(lines, DescriptionKind)| == TotalDescribed(cs)
      && OfKind(lines, OtherKind) == []
      && |lines| == 2 + 2 * |cs| + 2 * TotalEvents(cs) + TotalDescribed(cs)
  {
    HeaderSectionShape(cs);
    DetailSectionShape(cs);
    MapLinesIndex(NameLine, cs);
    TitledSections(HeaderSection(cs), DetailSection(cs));
    KindsPartition(Lines(cs));
  }

  /** With no children the report is the two titles joined by a newline. */
  lemma NoChildren()
    ensures Report([]) == HeaderTitle + "\n" + DetailsTitle
  {
    assert Lines([]) == [HeaderTitle, DetailsTitle];
    assert Lines([])[1..] == [DetailsTitle];
  }

  /** A child without events contributes only its name line to each section. */
  lemma ChildWithoutEvents(name: string)
    ensures ChildHeader((name, [])) == [ChildLine(name)]
    ensures ChildDetails((name, [])) == [ChildLine(name)]
  {
  }

  /** The report of a dictionary names its children in insertion order, in both sections. */
  lemma ChildrenInInsertionOrder(m: OrderedMap<seq<Event>>)
    requires OrderedMaps.Valid(m)
    ensures ChildLines(Items(m)) == MapLines(ChildLine, m.keys)
  {
    MapLinesIndex(NameLine, Items(m));
    MapLinesIndex(ChildLine, m.keys);
  }
}
