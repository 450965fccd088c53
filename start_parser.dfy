/**
 * `datetime.strptime(start, '%Y-%m-%d %H:%M:%S')` as CPython's `_strptime`
 * performs it: the format becomes a regular expression whose fields accept
 * one or two digits (`%Y` exactly four), whose space matches a run of
 * whitespace (`\s+`), and which must consume the whole string; the fields are
 * then checked by the `datetime` constructor. Any mismatch raises ValueError,
 * modelled as `None`.
 */
module StartParser {
  import opened Wrappers
  import opened CivilDate

  predicate IsDigit(c: char)
  {
    '0' <= c <= '9'
  }

  function DigitValue(c: char): (n: int)
    requires IsDigit(c)
    ensures 0 <= n < 10
  {
    c as int - '0' as int
  }

  /**
   * The ASCII characters `\s` matches in a str pattern, those `str.isspace`
   * accepts: the blank, tab to carriage return, and the four separators
   * U+001C to U+001F.
   */
  predicate IsSpace(c: char)
  {
    || c == ' ' || c == '\t' || c == '\n' || c == '\U{0B}' || c == '\U{0C}' || c == '\r'
    || c == '\U{1C}' || c == '\U{1D}' || c == '\U{1E}' || c == '\U{1F}'
  }

  /**
   * A one- or two-digit field at `i`: two digits are taken when their value is
   * in lo..hi (the regex tries its two-digit alternatives first), otherwise one
   * digit of at least lo. Returns the value and the index after the field.
   */
  function Number(s: string, i: nat, lo: int, hi: int): (r: Option<(int, nat)>)
    requires 0 <= lo <= 1 && 9 <= hi
    ensures r.Some? ==> lo <= r.value.0 <= hi && i < r.value.1 <= i + 2 && r.value.1 <= |s|
  {
    if i + 1 < |s| && IsDigit(s[i]) && IsDigit(s[i + 1])
       && lo <= DigitValue(s[i]) * 10 + DigitValue(s[i + 1]) <= hi
    then Some((DigitValue(s[i]) * 10 + DigitValue(s[i + 1]), i + 2))
    else if i < |s| && IsDigit(s[i]) && lo <= DigitValue(s[i])
    then Some((DigitValue(s[i]), i + 1))
    else None
  }

  /** `%d`: as Number with 1..31, or a space followed by a digit 1..9. */
  function DayField(s: string, i: nat): (r: Option<(int, nat)>)
    ensures r.Some? ==> 1 <= r.value.0 <= 31 && i < r.value.1 <= i + 2 && r.value.1 <= |s|
  {
    if i + 1 < |s| && s[i] == ' ' && IsDigit(s[i + 1]) && DigitValue(s[i + 1]) >= 1
    then Some((DigitValue(s[i + 1]), i + 2))
    else Number(s, i, 1, 31)
  }

  /** The index where a run of whitespace starting at `i` ends. */
  function SpaceRunEnd(s: string, i: nat): (j: nat)
    requires i <= |s|
    ensures i <= j <= |s|
    ensures forall k :: i <= k < j ==> IsSpace(s[k])
    ensures j < |s| ==> !IsSpace(s[j])
    decreases |s| - i
  {
    if i < |s| && IsSpace(s[i]) then SpaceRunEnd(s, i + 1) else i
  }

  /** The literal character `c` at index `i`; the index after it. */
  function Literal(s: string, i: nat, c: char): (r: Option<nat>)
    ensures r.Some? ==> i < |s| && s[i] == c && r.value == i + 1
  {
    if i < |s| && s[i] == c then Some(i + 1) else None
  }

  /** Exactly four digits at the start (`%Y`). */
  function Year(s: string): (r: Option<int>)
    ensures r.Some? ==> 4 <= |s| && 0 <= r.value < 10000
  {
    if 4 <= |s| && IsDigit(s[0]) && IsDigit(s[1]) && IsDigit(s[2]) && IsDigit(s[3])
    then Some(DigitValue(s[0]) * 1000 + DigitValue(s[1]) * 100 + DigitValue(s[2]) * 10 + DigitValue(s[3]))
    else None
  }

  /** `%Y-%m-%d`: year, month, day and the index after the day. */
  function DatePart(s: string): (r: Option<(int, int, int, nat)>)
    ensures r.Some? ==> 0 <= r.value.0 < 10000 && 1 <= r.value.1 <= 12 && 1 <= r.value.2 <= 31
    ensures r.Some? ==> 8 <= r.value.3 <= 10 && r.value.3 <= |s| && s[4] == '-'
  {
    var year :- Year(s);
    var afterYear :- Literal(s, 4, '-');
    var month :- Number(s, afterYear, 1, 12);
    var afterMonth :- Literal(s, month.1, '-');
    var day :- DayField(s, afterMonth);
    Some((year, month.0, day.0, day.1))
  }

  /** ` %H:%M:%S` from index `i` to the end: the space is a whitespace run. */
  function TimePart(s: string, i: nat): (r: Option<(int, int, int)>)
    requires i <= |s|
    ensures r.Some? ==> 0 <= r.value.0 <= 23 && 0 <= r.value.1 <= 59 && 0 <= r.value.2 <= 61
    ensures r.Some? ==> i + 6 <= |s|
  {
    var spaces := SpaceRunEnd(s, i);
    if spaces == i then None
    else
      var hour :- Number(s, spaces, 0, 23);
      var afterHour :- Literal(s, hour.1, ':');
      var minute :- Number(s, afterHour, 0, 59);
      var afterMinute :- Literal(s, minute.1, ':');
      var second :- Number(s, afterMinute, 0, 61);
      if second.1 != |s| then None  // unconverted data remains
      else Some((hour.0, minute.0, second.0))
  }

  /** The start string parsed, or `None` where `strptime` raises ValueError. */
  function Parse(s: string): (r: Option<DateTime>)
    ensures r.Some? ==> Valid(r.value)
    ensures r.Some? ==> 14 <= |s| && s[4] == '-'
  {
    var date :- DatePart(s);
    var time :- TimePart(s, date.3);
    var (year, month, day) := (date.0, date.1, date.2);
    if year < 1 || time.2 > 59 then None            // datetime(): year or second out of range
    else if day > DaysInMonth(year, month) then None // day is out of range for month
    else Some(DateTime(year, month, day, time.0, time.1, time.2))
  }

  /** Field values the format's regular expression accepts (before the datetime range checks). */
  predicate InPattern(t: DateTime)
  {
    && 0 <= t.year < 10000 && 1 <= t.month <= 12 && 1 <= t.day <= 31
    && 0 <= t.hour <= 23 && 0 <= t.minute <= 59 && 0 <= t.second <= 61
  }

  // ---- The strings the format accepts ----

  /** How a one- or two-digit field in lo..hi writes n: two digits, or one digit when n < 10. */
  predicate SpellsNumber(f: string, n: int, lo: int, hi: int)
  {
    lo <= n <= hi && 0 <= n < 100 && (f == Pad2(n) || (n < 10 && f == [DigitChar(n)]))
  }

  /** How `%d` writes a day: as a field in 1..31, or a space and one digit. */
  predicate SpellsDay(f: string, n: int)
  {
    SpellsNumber(f, n, 1, 31) || (1 <= n < 10 && f == [' ', DigitChar(n)])
  }

  /** What the format's space matches: a non-empty run of whitespace. */
  predicate IsGap(w: string)
  {
    w != [] && forall k :: 0 <= k < |w| ==> IsSpace(w[k])
  }

  /** The text of each field but the year (which is always four digits), and the gap. */
  datatype Spelling = Spelling(month: string, day: string, gap: string, hour: string, minute: string, second: string)

  /** `sp` writes the fields of `t` in ways the format's regular expression accepts. */
  predicate Fits(sp: Spelling, t: DateTime)
  {
    && 0 <= t.year < 10000
    && SpellsNumber(sp.month, t.month, 1, 12) && SpellsDay(sp.day, t.day) && IsGap(sp.gap)
    && SpellsNumber(sp.hour, t.hour, 0, 23) && SpellsNumber(sp.minute, t.minute, 0, 59)
    && SpellsNumber(sp.second, t.second, 0, 61)
  }

  /** `%Y-%m-%d %H:%M:%S` written out with the spelling `sp` (grouped from the right). */
  function Spell(t: DateTime, sp: Spelling): (s: string)
    requires 0 <= t.year < 10000
  {
    Pad4(t.year) + ("-" + (sp.month + ("-" + (sp.day + TimeText(sp)))))
  }

  /** The gap and the time fields, the part of a spelling after the day. */
  function TimeText(sp: Spelling): string
  {
    sp.gap + (sp.hour + (":" + (sp.minute + (":" + sp.second))))
  }

  /**
   * Every spelling of a datetime's fields parses to that datetime when it is
   * valid, and is rejected when it is not (year 0000, second 60 or 61, a day
   * past the end of its month); padding and the kind of gap never matter.
   */
  lemma ParseSpelled(t: DateTime, sp: Spelling)
    requires Fits(sp, t)
    ensures Parse(Spell(t, sp)) == if Valid(t) then Some(t) else None
  {
    var s := Spell(t, sp);
    assert s[4..] == "-" + (sp.month + ("-" + (sp.day + TimeText(sp))));
    var j := SpelledDate(s, t, sp);
    SpelledTime(s, j, t, sp);
  }

  /**
   * Only spellings parse: a string that `strptime` accepts writes the returned
   * datetime's fields in the format, with nothing before or after, so any
   * other text (trailing characters, a missing field, a wrong separator) fails.
   */
  lemma ParseOnlySpelled(s: string)
    requires Parse(s).Some?
    ensures exists sp :: Fits(sp, Parse(s).value) && s == Spell(Parse(s).value, sp)
  {
    var t := Parse(s).value;
    var date := DatePart(s).value;
    var time := TimePart(s, date.3).value;
    assert (date.0, date.1, date.2) == (t.year, t.month, t.day);
    assert time == (t.hour, t.minute, t.second);
    var month, day := DateSpells(s);
    var gap, hour, minute, second := TimeSpells(s, date.3);
    var sp := Spelling(month, day, gap, hour, minute, second);
    assert Fits(sp, t);
    assert s == Spell(t, sp);
  }

  /** The date part of a string DatePart reads is a spelling of the date it returns. */
  lemma DateSpells(s: string) returns (month: string, day: string)
    requires DatePart(s).Some?
    ensures var (y, m, d, j) := DatePart(s).value;
      && SpellsNumber(month, m, 1, 12) && SpellsDay(day, d)
      && s == Pad4(y) + ("-" + (month + ("-" + (day + s[j..]))))
  {
    var (y, m, d, j) := DatePart(s).value;
    YearSpells(s);
    var afterMonth := Number(s, 5, 1, 12).value.1;
    NumberSpells(s, 5, 1, 12);
    DaySpells(s, afterMonth + 1);
    month, day := s[5..afterMonth], s[afterMonth + 1..j];
    SplitAt(s, 0, 4);
    SplitAt(s, 4, 5);
    SplitAt(s, 5, afterMonth);
    SplitAt(s, afterMonth, afterMonth + 1);
    SplitAt(s, afterMonth + 1, j);
    assert s[4..5] == "-" && s[afterMonth..afterMonth + 1] == "-";
    assert s[0..] == s;
  }

  /** The rest of a string TimePart reads is a spelling of the time it returns. */
  lemma TimeSpells(s: string, i: nat) returns (gap: string, hour: string, minute: string, second: string)
    requires i <= |s| && TimePart(s, i).Some?
    ensures var (h, mi, se) := TimePart(s, i).value;
      && IsGap(gap) && SpellsNumber(hour, h, 0, 23) && SpellsNumber(minute, mi, 0, 59)
      && SpellsNumber(second, se, 0, 61)
      && s[i..] == gap + (hour + (":" + (minute + (":" + second))))
  {
    var spaces, afterHour, afterMinute := TimeFields(s, i);
    gap, hour, minute, second := s[i..spaces], s[spaces..afterHour - 1], s[afterHour..afterMinute - 1], s[afterMinute..];
    TimeSlices(s, i, spaces, afterHour, afterMinute);
  }

  /** Where TimePart finds the gap's end and the two colons, and what it reads between them. */
  lemma TimeFields(s: string, i: nat) returns (spaces: nat, afterHour: nat, afterMinute: nat)
    requires i <= |s| && TimePart(s, i).Some?
    ensures i < spaces < afterHour <= afterMinute - 2 && afterMinute < |s|
    ensures IsGap(s[i..spaces]) && s[afterHour - 1] == ':' && s[afterMinute - 1] == ':'
    ensures var (h, mi, se) := TimePart(s, i).value;
      && SpellsNumber(s[spaces..afterHour - 1], h, 0, 23) && SpellsNumber(s[afterHour..afterMinute - 1], mi, 0, 59)
      && SpellsNumber(s[afterMinute..], se, 0, 61)
  {
    spaces := SpaceRunEnd(s, i);
    assert spaces != i;
    var h := Number(s, spaces, 0, 23);
    assert h.Some?;
    assert Literal(s, h.value.1, ':').Some?;
    afterHour := h.value.1 + 1;
    var mi := Number(s, afterHour, 0, 59);
    assert mi.Some?;
    assert Literal(s, mi.value.1, ':').Some?;
    afterMinute := mi.value.1 + 1;
    var se := Number(s, afterMinute, 0, 61);
    assert se.Some? && se.value.1 == |s|;
    assert TimePart(s, i).value == (h.value.0, mi.value.0, se.value.0);
    NumberSpells(s, spaces, 0, 23);
    NumberSpells(s, afterHour, 0, 59);
    NumberSpells(s, afterMinute, 0, 61);
  }

  /** The text from i on, cut at the gap's end and at the two colons. */
  lemma TimeSlices(s: string, i: nat, spaces: nat, afterHour: nat, afterMinute: nat)
    requires i <= spaces < afterHour <= afterMinute - 1 && afterMinute <= |s|
    requires s[afterHour - 1] == ':' && s[afterMinute - 1] == ':'
    ensures s[i..] == s[i..spaces] + (s[spaces..afterHour - 1] + (":" + (s[afterHour..afterMinute - 1] + (":" + s[afterMinute..]))))
  {
    SplitAt(s, afterMinute - 1, afterMinute);
    assert s[afterMinute - 1..afterMinute] == ":";
    var rest := ":" + s[afterMinute..];
    assert s[afterMinute - 1..] == rest;
    SplitAt(s, afterHour, afterMinute - 1);
    rest := s[afterHour..afterMinute - 1] + rest;
    assert s[afterHour..] == rest;
    SplitAt(s, afterHour - 1, afterHour);
    assert s[afterHour - 1..afterHour] == ":";
    rest := ":" + rest;
    assert s[afterHour - 1..] == rest;
    SplitAt(s, spaces, afterHour - 1);
    rest := s[spaces..afterHour - 1] + rest;
    assert s[spaces..] == rest;
    SplitAt(s, i, spaces);
  }

  /** The date fields of a spelling are read back, ending where the gap starts. */
  lemma SpelledDate(s: string, t: DateTime, sp: Spelling) returns (j: nat)
    requires Fits(sp, t)
    requires 5 <= |s| && s[..4] == Pad4(t.year) && s[4..] == "-" + (sp.month + ("-" + (sp.day + TimeText(sp))))
    ensures j <= |s| && s[j..] == TimeText(sp)
    ensures DatePart(s) == Some((t.year, t.month, t.day, j))
  {
    var rest := TimeText(sp);
    assert s[0] == Pad4(t.year)[0] && s[1] == Pad4(t.year)[1] && s[2] == Pad4(t.year)[2] && s[3] == Pad4(t.year)[3];
    assert Year(s) == Some(t.year);
    ReadLiteral(s, 4, '-', sp.month + ("-" + (sp.day + rest)));
    ReadNumber(s, 5, sp.month, "-" + (sp.day + rest), t.month, 1, 12);
    var afterMonth := 5 + |sp.month|;
    ReadLiteral(s, afterMonth, '-', sp.day + rest);
    assert rest[0] == sp.gap[0];
    ReadDay(s, afterMonth + 1, sp.day, rest, t.day);
    j := afterMonth + 1 + |sp.day|;
  }

  /** The time fields after the date part of a spelling are read back to the end. */
  lemma SpelledTime(s: string, j: nat, t: DateTime, sp: Spelling)
    requires Fits(sp, t)
    requires j <= |s| && s[j..] == TimeText(sp)
    ensures TimePart(s, j) == Some((t.hour, t.minute, t.second))
  {
    var clock := sp.hour + (":" + (sp.minute + (":" + sp.second)));
    assert IsDigit(clock[0]) by { assert clock[0] == sp.hour[0]; }
    ReadGap(s, j, sp.gap, clock);
    var spaces := j + |sp.gap|;
    var afterHour, afterMinute := ReadClock(s, spaces, sp.hour, sp.minute, sp.second, t.hour, t.minute, t.second);
    TimePartReads(s, j, spaces, afterHour, afterMinute, t.hour, t.minute, t.second);
  }

  /** `%H:%M:%S` spelled from index i to the end is read back field by field. */
  lemma ReadClock(s: string, i: nat, hour: string, minute: string, second: string, h: int, mi: int, se: int)
    returns (afterHour: nat, afterMinute: nat)
    requires SpellsNumber(hour, h, 0, 23) && SpellsNumber(minute, mi, 0, 59) && SpellsNumber(second, se, 0, 61)
    requires i <= |s| && s[i..] == hour + (":" + (minute + (":" + second)))
    ensures Number(s, i, 0, 23) == Some((h, afterHour - 1)) && Literal(s, afterHour - 1, ':') == Some(afterHour)
    ensures Number(s, afterHour, 0, 59) == Some((mi, afterMinute - 1)) && Literal(s, afterMinute - 1, ':') == Some(afterMinute)
    ensures Number(s, afterMinute, 0, 61) == Some((se, |s|))
  {
    ReadNumber(s, i, hour, ":" + (minute + (":" + second)), h, 0, 23);
    ReadLiteral(s, i + |hour|, ':', minute + (":" + second));
    afterHour := i + |hour| + 1;
    ReadNumber(s, afterHour, minute, ":" + second, mi, 0, 59);
    ReadLiteral(s, afterHour + |minute|, ':', second);
    afterMinute := afterHour + |minute| + 1;
    ReadNumber(s, afterMinute, second, [], se, 0, 61);
  }

  /** TimePart succeeds once each of its steps does. */
  lemma TimePartReads(s: string, j: nat, spaces: nat, afterHour: nat, afterMinute: nat, h: int, mi: int, se: int)
    requires j < spaces <= |s| && SpaceRunEnd(s, j) == spaces
    requires Number(s, spaces, 0, 23) == Some((h, afterHour - 1)) && Literal(s, afterHour - 1, ':') == Some(afterHour)
    requires Number(s, afterHour, 0, 59) == Some((mi, afterMinute - 1)) && Literal(s, afterMinute - 1, ':') == Some(afterMinute)
    requires Number(s, afterMinute, 0, 61) == Some((se, |s|))
    ensures TimePart(s, j) == Some((h, mi, se))
  {
  }

  /** A field written as `f` in front of a non-digit is read back as its value. */
  lemma ReadNumber(s: string, i: nat, f: string, rest: string, n: int, lo: int, hi: int)
    requires 0 <= lo <= 1 && 9 <= hi
    requires SpellsNumber(f, n, lo, hi)
    requires i <= |s| && s[i..] == f + rest
    requires rest == [] || !IsDigit(rest[0])
    ensures Number(s, i, lo, hi) == Some((n, i + |f|)) && s[i + |f|..] == rest
  {
    assert s[i] == f[0];
    if |f| == 1 {
      assert i + 1 < |s| ==> s[i + 1] == rest[0];
    } else {
      assert s[i + 1] == f[1];
    }
    assert s[i + |f|..] == s[i..][|f|..];
  }

  /** A day written as `f` in front of a non-digit is read back as its value. */
  lemma ReadDay(s: string, i: nat, f: string, rest: string, n: int)
    requires SpellsDay(f, n)
    requires i <= |s| && s[i..] == f + rest
    requires rest == [] || !IsDigit(rest[0])
    ensures DayField(s, i) == Some((n, i + |f|)) && s[i + |f|..] == rest
  {
    if SpellsNumber(f, n, 1, 31) {
      assert s[i] == f[0];
      assert s[i] != ' ';
      ReadNumber(s, i, f, rest, n, 1, 31);
    } else {
      assert s[i] == ' ' && s[i + 1] == f[1];
      assert s[i + 2..] == s[i..][2..];
    }
  }

  /** The character `c` is read back. */
  lemma ReadLiteral(s: string, i: nat, c: char, rest: string)
    requires i <= |s| && s[i..] == [c] + rest
    ensures Literal(s, i, c) == Some(i + 1) && s[i + 1..] == rest
  {
    assert s[i] == c;
    assert s[i + 1..] == s[i..][1..];
  }

  /** A gap in front of a non-space is read as one run. */
  lemma {:induction false} ReadGap(s: string, i: nat, w: string, rest: string)
    requires i <= |s| && s[i..] == w + rest
    requires forall k :: 0 <= k < |w| ==> IsSpace(w[k])
    requires rest == [] || !IsSpace(rest[0])
    ensures SpaceRunEnd(s, i) == i + |w| && s[i + |w|..] == rest
    decreases |w|
  {
    if w == [] {
      assert s[i..] == rest;
      assert i < |s| ==> s[i] == rest[0];
    } else {
      assert s[i] == w[0];
      assert s[i + 1..] == w[1..] + rest by { assert s[i + 1..] == s[i..][1..]; }
      ReadGap(s, i + 1, w[1..], rest);
    }
  }

  /** Four digits at the start are the year written with leading zeros. */
  lemma YearSpells(s: string)
    requires Year(s).Some?
    ensures s[..4] == Pad4(Year(s).value)
  {
    DigitsArePad2(s[0], s[1]);
    DigitsArePad2(s[2], s[3]);
    var hi := DigitValue(s[0]) * 10 + DigitValue(s[1]);
    var lo := DigitValue(s[2]) * 10 + DigitValue(s[3]);
    assert Year(s).value == hi * 100 + lo;
    assert s[..4] == Pad2(hi) + Pad2(lo);
  }

  /** What Number reads is a spelling of its value. */
  lemma NumberSpells(s: string, i: nat, lo: int, hi: int)
    requires 0 <= lo <= 1 && 9 <= hi && hi < 100
    requires Number(s, i, lo, hi).Some?
    ensures var (n, j) := Number(s, i, lo, hi).value; SpellsNumber(s[i..j], n, lo, hi)
  {
    var (n, j) := Number(s, i, lo, hi).value;
    if j == i + 2 {
      DigitsArePad2(s[i], s[i + 1]);
      assert s[i..j] == [s[i], s[i + 1]];
    } else {
      DigitRoundTrip(s[i]);
      assert s[i..j] == [s[i]];
    }
  }

  /** What DayField reads is a spelling of its value. */
  lemma DaySpells(s: string, i: nat)
    requires DayField(s, i).Some?
    ensures var (n, j) := DayField(s, i).value; SpellsDay(s[i..j], n)
  {
    if i + 1 < |s| && s[i] == ' ' && IsDigit(s[i + 1]) && DigitValue(s[i + 1]) >= 1 {
      DigitRoundTrip(s[i + 1]);
      assert s[i..i + 2] == [' ', s[i + 1]];
    } else {
      NumberSpells(s, i, 1, 31);
    }
  }

  lemma DigitRoundTrip(c: char)
    requires IsDigit(c)
    ensures DigitChar(DigitValue(c)) == c
  {
  }

  lemma DigitsArePad2(a: char, b: char)
    requires IsDigit(a) && IsDigit(b)
    ensures [a, b] == Pad2(DigitValue(a) * 10 + DigitValue(b))
  {
    var n := DigitValue(a) * 10 + DigitValue(b);
    assert n / 10 == DigitValue(a) && n % 10 == DigitValue(b);
    DigitRoundTrip(a);
    DigitRoundTrip(b);
  }

  /** A string splits at any index. */
  lemma SplitAt(s: string, i: nat, j: nat)
    requires i <= j <= |s|
    ensures s[i..] == s[i..j] + s[j..]
  {
  }

  /** The fields written zero-padded, as the portal sends start times. */
  function Canonical(t: DateTime): (s: string)
    requires InPattern(t)
    ensures |s| == 19
  {
    Pad4(t.year) + "-" + Pad2(t.month) + "-" + Pad2(t.day) + " "
      + Pad2(t.hour) + ":" + Pad2(t.minute) + ":" + Pad2(t.second)
  }

  /**
   * A zero-padded start string parses to its fields exactly when they form a
   * valid datetime; otherwise parsing fails; nothing is clamped or defaulted.
   */
  lemma ParseCanonical(t: DateTime)
    requires InPattern(t)
    ensures Parse(Canonical(t)) == if Valid(t) then Some(t) else None
  {
    var sp := Spelling(Pad2(t.month), Pad2(t.day), " ", Pad2(t.hour), Pad2(t.minute), Pad2(t.second));
    assert Canonical(t) == Spell(t, sp);
    ParseSpelled(t, sp);
  }

  /** A start string as the portal sends it: 2025-10-06 09:00:00. */
  lemma ParseExampleStart()
    ensures Parse("2025-10-06 09:00:00") == Some(DateTime(2025, 10, 6, 9, 0, 0))
  {
    ExampleDatePart();
    ExampleTimePart();
  }

  lemma ExampleDatePart()
    ensures DatePart("2025-10-06 09:00:00") == Some((2025, 10, 6, 10))
  {
  }

  lemma ExampleTimePart()
    ensures TimePart("2025-10-06 09:00:00", 10) == Some((9, 0, 0))
  {
    var s := "2025-10-06 09:00:00";
    assert SpaceRunEnd(s, 11) == 11;
    assert SpaceRunEnd(s, 10) == 11;
    assert Number(s, 11, 0, 23) == Some((9, 13));
    assert Number(s, 14, 0, 59) == Some((0, 16));
    assert Number(s, 17, 0, 61) == Some((0, 19));
  }

  /** strptime is lenient about padding: one-digit fields and a run of spaces are accepted. */
  lemma ParseAcceptsShortFields()
    ensures Parse("2025-1-6  9:0:5") == Some(DateTime(2025, 1, 6, 9, 0, 5))
  {
    ShortDatePart();
    ShortTimePart();
  }

  lemma ShortDatePart()
    ensures DatePart("2025-1-6  9:0:5") == Some((2025, 1, 6, 8))
  {
  }

  lemma ShortTimePart()
    ensures TimePart("2025-1-6  9:0:5", 8) == Some((9, 0, 5))
  {
    assert SpaceRunEnd("2025-1-6  9:0:5", 8) == 10;
  }

  /** The information separators U+001C to U+001F are whitespace to `\s`, so one may stand for the space. */
  lemma ParseAcceptsFileSeparator()
    ensures Parse("2025-10-06\U{1C}09:00:00") == Some(DateTime(2025, 10, 6, 9, 0, 0))
  {
    SeparatorDatePart();
    SeparatorTimePart();
  }

  lemma SeparatorDatePart()
    ensures DatePart("2025-10-06\U{1C}09:00:00") == Some((2025, 10, 6, 10))
  {
  }

  lemma SeparatorTimePart()
    ensures TimePart("2025-10-06\U{1C}09:00:00", 10) == Some((9, 0, 0))
  {
    var s := "2025-10-06\U{1C}09:00:00";
    assert SpaceRunEnd(s, 11) == 11;
    assert SpaceRunEnd(s, 10) == 11;
    assert Number(s, 11, 0, 23) == Some((9, 13));
    assert Number(s, 14, 0, 59) == Some((0, 16));
    assert Number(s, 17, 0, 61) == Some((0, 19));
  }

  /** The ISO 8601 `T` separator does not match the format's space. */
  lemma ParseRejectsIsoSeparator()
    ensures Parse("2025-10-06T09:00:00") == None
  {
    IsoDatePart();
    assert SpaceRunEnd("2025-10-06T09:00:00", 10) == 10;
  }

  lemma IsoDatePart()
    ensures DatePart("2025-10-06T09:00:00") == Some((2025, 10, 6, 10))
  {
  }
}
