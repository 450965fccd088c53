/**
 * `format_multi_child_summary`: a header section (a title, then per child its
 * name and one bullet per event) followed by a details section (a title, then
 * per child its name and one block per event), joined by newlines. Children
 * appear in the dictionary's order; each child's events in order of start
 * time, by a stable sort.
 */
module Summary {
  import opened CivilDate
  import opened Events
  import opened EventSort
  import opened OrderedMaps

  /** One child's entry of the dictionary: its name and its events. */
  type Entry = (string, seq<Event>)

  const HeaderTitle: string := "\U{1F4C5} **Weekly Schoology Summary**\n"
  const DetailsTitle: string := "\n\U{1F4DD} **Full Assignment Details**\n"

  /** The fixed text each kind of line starts with. */
  const ChildMark: string := "\n\U{1F464} **"
  const BulletMark: string := "\U{2022} "
  const EventMark: string := "\n\U{1F4CC} "
  const DescriptionMark: string := "  \U{21AA} "

  /** The line naming a child, in both sections. */
  function ChildLine(name: string): string
  {
    ChildMark + (name + "**")
  }

  /** A header bullet: short date and title. */
  function BulletLine(e: Event): string
  {
    BulletMark + (ShortDate(e.start) + " \U{2014} " + e.title)
  }

  /** The first entry of a detail block: full date and time, then course and title. */
  function EventLine(e: Event): string
  {
    EventMark + (LongDate(e.start) + "\n*" + e.course + "*: **" + e.title + "**")
  }

  /** The indented description entry of a detail block. */
  function DescriptionLine(e: Event): string
  {
    DescriptionMark + e.description
  }

  /** A detail block: the event line, and the description line only when there is a description. */
  function Block(e: Event): seq<string>
  {
    [EventLine(e)] + (if e.description != "" then [DescriptionLine(e)] else [])
  }

  /** `f` applied to each element of `s`, one line each, in order. */
  function MapLines<T>(f: T -> string, s: seq<T>): seq<string>
  {
    if s == [] then [] else MapLines(f, s[..|s| - 1]) + [f(s[|s| - 1])]
  }

  /** The lines `f` gives for each element of `s`, one after the other, in order. */
  function FlatLines<T>(f: T -> seq<string>, s: seq<T>): seq<string>
  {
    if s == [] then [] else FlatLines(f, s[..|s| - 1]) + f(s[|s| - 1])
  }

  /** The bullets of `s`, one per event, in order. */
  function Bullets(s: seq<Event>): seq<string>
  {
    MapLines(BulletLine, s)
  }

  /** The detail blocks of `s`, in order. */
  function Blocks(s: seq<Event>): seq<string>
  {
    FlatLines(Block, s)
  }

  /** A child's part of the header section. */
  function ChildHeader(c: Entry): seq<string>
  {
    [ChildLine(c.0)] + Bullets(SortByStart(c.1))
  }

  /** A child's part of the details section. */
  function ChildDetails(c: Entry): seq<string>
  {
    [ChildLine(c.0)] + Blocks(SortByStart(c.1))
  }

  /** The header list after its title. */
  function HeaderSection(cs: seq<Entry>): seq<string>
  {
    FlatLines(ChildHeader, cs)
  }

  /** The details list after its title. */
  function DetailSection(cs: seq<Entry>): seq<string>
  {
    FlatLines(ChildDetails, cs)
  }

  /** `header + details` */
  function Lines(cs: seq<Entry>): seq<string>
  {
    [HeaderTitle] + HeaderSection(cs) + [DetailsTitle] + DetailSection(cs)
  }

  /** `sep.join(lines)` */
  function Join(lines: seq<string>, sep: string): (r: string)
    ensures lines == [] ==> r == ""
    ensures |lines| == 1 ==> r == lines[0]
    ensures lines != [] ==> |lines[0]| <= |r| && r[..|lines[0]|] == lines[0]
  {
    if lines == [] then ""
    else if |lines| == 1 then lines[0]
    else lines[0] + sep + Join(lines[1..], sep)
  }

  /** Joining two non-empty lists is joining each and putting one separator between them. */
  lemma {:induction false} JoinAppend(a: seq<string>, b: seq<string>, sep: string)
    requires a != [] && b != []
    ensures Join(a + b, sep) == Join(a, sep) + sep + Join(b, sep)
  {
    assert (a + b)[0] == a[0];
    if |a| == 1 {
      assert (a + b)[1..] == b;
    } else {
      assert (a + b)[1..] == a[1..] + b;
      JoinAppend(a[1..], b, sep);
    }
  }

  /** The report for the dictionary's items. */
  function Report(cs: seq<Entry>): (r: string)
    ensures |HeaderTitle| <= |r| && r[..|HeaderTitle|] == HeaderTitle
  {
    Join(Lines(cs), "\n")
  }

  /** The report is the joined header list, a newline, and the joined details list. */
  lemma ReportSections(cs: seq<Entry>)
    ensures Report(cs) == Join([HeaderTitle] + HeaderSection(cs), "\n") + "\n" + Join([DetailsTitle] + DetailSection(cs), "\n")
  {
    Associative([HeaderTitle] + HeaderSection(cs), [DetailsTitle], DetailSection(cs));
    JoinAppend([HeaderTitle] + HeaderSection(cs), [DetailsTitle] + DetailSection(cs), "\n");
  }

  lemma Associative<T>(a: seq<T>, b: seq<T>, c: seq<T>)
    ensures (a + b) + c == a + (b + c)
  {
  }

  /** Taking one more element appends its line. */
  lemma MapLinesSnoc<T>(f: T -> string, s: seq<T>, j: nat)
    requires j < |s|
    ensures MapLines(f, s[..j + 1]) == MapLines(f, s[..j]) + [f(s[j])]
  {
    assert s[..j + 1][..j] == s[..j];
  }

  /** Taking one more element appends its lines. */
  lemma FlatLinesSnoc<T>(f: T -> seq<string>, s: seq<T>, j: nat)
    requires j < |s|
    ensures FlatLines(f, s[..j + 1]) == FlatLines(f, s[..j]) + f(s[j])
  {
    assert s[..j + 1][..j] == s[..j];
  }

  /** The inner loop of the header section: one bullet appended per event. */
  method AppendBullets(lines: seq<string>, sorted: seq<Event>) returns (r: seq<string>)
    ensures r == lines + Bullets(sorted)
  {
    r := lines;
    for j := 0 to |sorted|
      invariant r == lines + Bullets(sorted[..j])
    {
      MapLinesSnoc(BulletLine, sorted, j);
      r := r + [BulletLine(sorted[j])];
    }
    assert sorted[..|sorted|] == sorted;
  }

  /** The inner loop of the details section: one block appended per event. */
  method AppendBlocks(lines: seq<string>, sorted: seq<Event>) returns (r: seq<string>)
    ensures r == lines + Blocks(sorted)
  {
    r := lines;
    for j := 0 to |sorted|
      invariant r == lines + Blocks(sorted[..j])
    {
      FlatLinesSnoc(Block, sorted, j);
      var e := sorted[j];
      var block := [EventLine(e)];
      if e.description != "" {
        block := block + [DescriptionLine(e)];
      }
      Associative(lines, Blocks(sorted[..j]), block);
      r := r + block;
    }
    assert sorted[..|sorted|] == sorted;
  }

  /** `format_multi_child_summary(child_summaries)` */
  method FormatSummary(m: OrderedMap<seq<Event>>) returns (text: string)
    requires OrderedMaps.Valid(m)
    ensures text == Report(Items(m))
  {
    var entries := Items(m);
    var header := [HeaderTitle];
    var details := [DetailsTitle];
    for i := 0 to |m.keys|
      invariant header == [HeaderTitle] + HeaderSection(entries[..i])
      invariant details == [DetailsTitle] + DetailSection(entries[..i])
    {
      var name := m.keys[i];
      var events := m.values[name];
      assert entries[i] == (name, events);
      FlatLinesSnoc(ChildHeader, entries, i);
      FlatLinesSnoc(ChildDetails, entries, i);
      Associative([HeaderTitle] + HeaderSection(entries[..i]), [ChildLine(name)], Bullets(SortByStart(events)));
      Associative([HeaderTitle], HeaderSection(entries[..i]), ChildHeader(entries[i]));
      header := header + [ChildLine(name)];
      header := AppendBullets(header, SortByStart(events));
      Associative([DetailsTitle] + DetailSection(entries[..i]), [ChildLine(name)], Blocks(SortByStart(events)));
      Associative([DetailsTitle], DetailSection(entries[..i]), ChildDetails(entries[i]));
      details := details + [ChildLine(name)];
      details := AppendBlocks(details, SortByStart(events));
    }
    assert entries[..|m.keys|] == entries;
    Associative([HeaderTitle] + HeaderSection(entries), [DetailsTitle], DetailSection(entries));
    text := Join(header + details, "\n");
  }
}
