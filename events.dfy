/**
 * The record mapping of `get_calendar`: each raw calendar item from the
 * portal becomes one event record, in order. `html.unescape` and
 * BeautifulSoup's `get_text(separator='\n').strip()` are library code, so they
 * are parameters of the model.
 */
module Events {
  import opened Wrappers
  import opened CivilDate
  import StartParser

  /** A key of a JSON object: missing, JSON `null`, or a string. */
  datatype Field = Absent | Null | Text(text: string)

  /** One object of the portal's calendar response. */
  datatype RawItem = RawItem(titleText: Field, start: Field, contentTitle: Field, body: Field, eType: Field)

  /** The dictionary `get_calendar` appends for each item. */
  datatype Event = Event(title: string, start: ValidDateTime, course: string, eventType: Option<string>, description: string)

  /**
   * What normalising an item can raise: a TypeError when `None` reaches
   * `html.unescape` or BeautifulSoup (the field's key is named), or the
   * ValueError of `strptime` on a start string that does not match.
   */
  datatype Error = NotAString(key: string) | BadStart(text: string)

  /** The library functions the mapping calls. */
  datatype Library = Library(unescape: string -> string, bodyText: string -> string)

  /** A library whose functions map the empty string to itself, as the real ones do. */
  predicate KeepsEmpty(lib: Library)
  {
    lib.unescape("") == "" && lib.bodyText("") == ""
  }

  /** `html.unescape(item.get(key, default))`: a missing key takes the default, if there is one. */
  function UnescapeField(f: Field, key: string, default: Option<string>, lib: Library): (r: Result<string, Error>)
    ensures f.Text? ==> r == Success(lib.unescape(f.text))
    ensures f.Null? ==> r == Failure(NotAString(key))
    ensures f.Absent? ==> r == (if default.Some? then Success(lib.unescape(default.value)) else Failure(NotAString(key)))
  {
    match f
    case Text(s) => Success(lib.unescape(s))
    case Null => Failure(NotAString(key))
    case Absent => if default.Some? then Success(lib.unescape(default.value)) else Failure(NotAString(key))
  }

  /** `html.unescape(BeautifulSoup(item.get('body', ''), ...).get_text(...).strip())`. */
  function BodyField(f: Field, lib: Library): (r: Result<string, Error>)
    ensures f.Text? ==> r == Success(lib.unescape(lib.bodyText(f.text)))
    ensures f.Null? ==> r == Failure(NotAString("body"))
    ensures f.Absent? ==> r == Success(lib.unescape(lib.bodyText("")))
  {
    match f
    case Text(s) => Success(lib.unescape(lib.bodyText(s)))
    case Null => Failure(NotAString("body"))
    case Absent => Success(lib.unescape(lib.bodyText("")))
  }

  /** `item.get('e_type')`: passed through untouched, `None` when missing or null. */
  function TypeField(f: Field): (r: Option<string>)
    ensures f.Text? <==> r.Some?
    ensures f.Text? ==> r.value == f.text
  {
    if f.Text? then Some(f.text) else None
  }

  /**
   * The loop body of `get_calendar` for one item. Python evaluates the title,
   * start, course and body in that order, so the first failing one decides the
   * error; `strptime` runs last, while the dictionary is built.
   */
  function Normalize(item: RawItem, lib: Library): (r: Result<Event, Error>)
    ensures r.Success? ==> r.value.eventType == TypeField(item.eType)
    ensures r.Success? ==> item.start.Text? && item.contentTitle.Text? && !item.titleText.Null? && !item.body.Null?
    ensures r.Success? ==> StartParser.Parse(lib.unescape(item.start.text)) == Some(r.value.start)
    ensures item.start.Text? && StartParser.Parse(lib.unescape(item.start.text)).None? ==> r.Failure?
  {
    match UnescapeField(item.titleText, "titleText", Some(""), lib)
    case Failure(e) => Failure(e)
    case Success(title) =>
      match UnescapeField(item.start, "start", None, lib)
      case Failure(e) => Failure(e)
      case Success(start) =>
        match UnescapeField(item.contentTitle, "content_title", None, lib)
        case Failure(e) => Failure(e)
        case Success(course) =>
          match BodyField(item.body, lib)
          case Failure(e) => Failure(e)
          case Success(description) =>
            match StartParser.Parse(start)
            case None => Failure(BadStart(start))
            case Some(when) => Success(Event(title, when, course, TypeField(item.eType), description))
  }

  /** `f` applied to each item in order; the first failure aborts the whole call. */
  function MapAll<A, B, E>(f: A -> Result<B, E>, items: seq<A>): (r: Result<seq<B>, E>)
    ensures r.Success? <==> forall i :: 0 <= i < |items| ==> f(items[i]).Success?
    ensures r.Success? ==> |r.value| == |items|
    ensures r.Success? ==> forall i :: 0 <= i < |items| ==> f(items[i]) == Success(r.value[i])
    ensures r.Failure? ==> exists k :: 0 <= k < |items| && f(items[k]) == Failure(r.error)
                                       && forall i :: 0 <= i < k ==> f(items[i]).Success?
    decreases |items|
  {
    if items == [] then Success([])
    else
      match f(items[0])
      case Failure(e) => Failure(e)
      case Success(first) =>
        match MapAll(f, items[1..])
        case Failure(e) =>
          assert forall i :: 1 <= i < |items| ==> items[i] == items[1..][i - 1];
          Failure(e)
        case Success(rest) =>
          assert forall i :: 1 <= i < |items| ==> items[i] == items[1..][i - 1];
          Success([first] + rest)
  }

  /**
   * The list `get_calendar` returns, or the exception that ends it: the first
   * item that fails to normalise aborts the whole call.
   */
  function NormalizeAll(items: seq<RawItem>, lib: Library): (r: Result<seq<Event>, Error>)
    ensures r.Success? <==> forall i :: 0 <= i < |items| ==> Normalize(items[i], lib).Success?
    ensures r.Success? ==> |r.value| == |items|
    ensures r.Success? ==> forall i :: 0 <= i < |items| ==> Normalize(items[i], lib) == Success(r.value[i])
    ensures r.Failure? ==> exists k :: 0 <= k < |items| && Normalize(items[k], lib) == Failure(r.error)
                                       && forall i :: 0 <= i < k ==> Normalize(items[i], lib).Success?
  {
    var normalize := (item: RawItem) => Normalize(item, lib);
    assert forall i :: 0 <= i < |items| ==> normalize(items[i]) == Normalize(items[i], lib);
    MapAll(normalize, items)
  }

  /** The loop of `get_calendar`: append one event per item, in order. */
  method ParseCalendar(items: seq<RawItem>, lib: Library) returns (r: Result<seq<Event>, Error>)
    ensures r == NormalizeAll(items, lib)
  {
    var parsed: seq<Event> := [];
    var i := 0;
    while i < |items|
      invariant 0 <= i <= |items|
      invariant |parsed| == i
      invariant forall k :: 0 <= k < i ==> Normalize(items[k], lib) == Success(parsed[k])
    {
      var e := Normalize(items[i], lib);
      if e.Failure? {
        FirstFailure(items, lib, i);
        return Failure(e.error);
      }
      assert forall k :: 0 <= k < i ==> (parsed + [e.value])[k] == parsed[k];
      parsed := parsed + [e.value];
      i := i + 1;
    }
    AllSucceed(items, lib, parsed);
    r := Success(parsed);
  }

  /** NormalizeAll reports the first item that fails. */
  lemma {:induction false} FirstFailure(items: seq<RawItem>, lib: Library, k: nat)
    requires k < |items| && Normalize(items[k], lib).Failure?
    requires forall i :: 0 <= i < k ==> Normalize(items[i], lib).Success?
    ensures NormalizeAll(items, lib) == Failure(Normalize(items[k], lib).error)
  {
  }

  /** When every item normalises, NormalizeAll is the list of their events. */
  lemma {:induction false} AllSucceed(items: seq<RawItem>, lib: Library, events: seq<Event>)
    requires |events| == |items|
    requires forall k :: 0 <= k < |items| ==> Normalize(items[k], lib) == Success(events[k])
    ensures NormalizeAll(items, lib) == Success(events)
  {
    var r := NormalizeAll(items, lib);
    assert r.Success?;
    assert forall k :: 0 <= k < |items| ==> r.value[k] == events[k];
    assert r.value == events;
  }

  /**
   * A normalised item's text fields are the library's readings of its keys:
   * the unescaped title (`''` when missing), the unescaped course, and the
   * unescaped `get_text` of the body; unescaping comes after `get_text`.
   */
  lemma NormalizeFields(item: RawItem, lib: Library)
    requires Normalize(item, lib).Success?
    ensures var e := Normalize(item, lib).value;
      && UnescapeField(item.titleText, "titleText", Some(""), lib) == Success(e.title)
      && UnescapeField(item.contentTitle, "content_title", None, lib) == Success(e.course)
      && BodyField(item.body, lib) == Success(e.description)
  {
  }

  /** A missing body gives an empty description, not an error. */
  lemma MissingBodyIsEmpty(item: RawItem, lib: Library)
    requires KeepsEmpty(lib) && item.body.Absent?
    requires Normalize(item, lib).Success?
    ensures Normalize(item, lib).value.description == ""
  {
  }

  /** A missing title gives an empty title; a missing or null start or course is a TypeError. */
  lemma MissingKeys(item: RawItem, lib: Library)
    ensures KeepsEmpty(lib) && item.titleText.Absent? && Normalize(item, lib).Success?
            ==> Normalize(item, lib).value.title == ""
    ensures !item.titleText.Null? && !item.start.Text? ==> Normalize(item, lib) == Failure(NotAString("start"))
    ensures !item.titleText.Null? && item.start.Text? && !item.contentTitle.Text?
            ==> Normalize(item, lib) == Failure(NotAString("content_title"))
  {
  }

  /**
   * A sample item, an algebra assignment starting 2025-10-06 09:00:00 with an
   * HTML body. BeautifulSoup's `html.parser` decodes the body's entity while
   * parsing, so `get_text` already gives `&`; `html.unescape` then leaves that
   * text alone, since `& ` is no reference, and decodes the title's `&amp;`.
   */
  lemma ExampleItem(lib: Library)
    requires lib.unescape("Math &amp; Science") == "Math & Science"
    requires lib.unescape("2025-10-06 09:00:00") == "2025-10-06 09:00:00"
    requires lib.unescape("Algebra") == "Algebra"
    requires lib.bodyText("<p>Bring calculator &amp; ruler</p>") == "Bring calculator & ruler"
    requires lib.unescape("Bring calculator & ruler") == "Bring calculator & ruler"
    ensures Normalize(RawItem(Text("Math &amp; Science"), Text("2025-10-06 09:00:00"), Text("Algebra"),
                              Text("<p>Bring calculator &amp; ruler</p>"), Text("assignment")), lib)
         == Success(Event("Math & Science", DateTime(2025, 10, 6, 9, 0, 0), "Algebra",
                          Some("assignment"), "Bring calculator & ruler"))
  {
    StartParser.ParseExampleStart();
  }
}
