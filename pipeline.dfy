/**
 * The loop of `main`: for each configured child, make it the active child,
 * pick the query window by mode, fetch and normalise its calendar, and store
 * the events under the child's name; then format the report.
 *
 * The portal is a parameter: for the active child's id and a window it gives
 * the raw calendar items. The clock is a parameter too, read once per child
 * (each range call reads `datetime.now()` afresh).
 */
module Pipeline {
  import opened Wrappers
  import opened TimeRanges
  import opened Events
  import opened OrderedMaps
  import opened Summary
  import SummaryLayout

  /** One entry of the configured list of children. */
  datatype Child = Child(name: string, id: string)

  /** What the portal's calendar answers for the active child and a window. */
  type Portal = (string, TimeRange) -> seq<RawItem>

  /** The names of the children, in configured order. */
  function Names(children: seq<Child>): (r: seq<string>)
    ensures |r| == |children|
    ensures forall i :: 0 <= i < |children| ==> r[i] == children[i].name
  {
    seq(|children|, i requires 0 <= i < |children| => children[i].name)
  }

  /**
   * Storing `results[i]` under `names[i]`, for i in order, starting from `{}`;
   * the first failure ends it and is its outcome.
   */
  function Collect<V, E>(names: seq<string>, results: seq<Result<V, E>>): (r: Result<OrderedMap<V>, E>)
    requires |names| == |results|
    ensures r.Success? ==> OrderedMaps.Valid(r.value)
  {
    if names == [] then Success(Empty())
    else
      var n := |names| - 1;
      match Collect(names[..n], results[..n])
      case Failure(e) => Failure(e)
      case Success(prior) =>
        match results[n]
        case Failure(e) => Failure(e)
        case Success(v) => Success(Put(prior, names[n], v))
  }

  /** The values of results that all succeed. */
  function Values<V, E>(results: seq<Result<V, E>>): (vs: seq<V>)
    requires forall i :: 0 <= i < |results| ==> results[i].Success?
    ensures |vs| == |results|
    ensures forall i :: 0 <= i < |results| ==> results[i] == Success(vs[i])
  {
    seq(|results|, i requires 0 <= i < |results| && results[i].Success? => results[i].value)
  }

  /** Collecting succeeds exactly when every result does. */
  lemma CollectSucceeds<V, E>(names: seq<string>, results: seq<Result<V, E>>)
    requires |names| == |results|
    ensures Collect(names, results).Success? <==> forall i :: 0 <= i < |results| ==> results[i].Success?
  {
    if Collect(names, results).Success? {
      SuccessMeansAllSucceed(names, results);
    } else {
      FailureMeansOneFails(names, results);
    }
  }

  /** A successful collection had no failing result. */
  lemma {:induction false} SuccessMeansAllSucceed<V, E>(names: seq<string>, results: seq<Result<V, E>>)
    requires |names| == |results|
    requires Collect(names, results).Success?
    ensures forall i :: 0 <= i < |results| ==> results[i].Success?
  {
    if names != [] {
      var n := |names| - 1;
      var init := results[..n];
      SuccessMeansAllSucceed(names[..n], init);
      forall i | 0 <= i < n ensures results[i].Success? {
        assert init[i] == results[i];
      }
    }
  }

  /** A failed collection had a failing result. */
  lemma {:induction false} FailureMeansOneFails<V, E>(names: seq<string>, results: seq<Result<V, E>>)
    requires |names| == |results|
    requires Collect(names, results).Failure?
    ensures exists k :: 0 <= k < |results| && results[k].Failure?
  {
    var n := |names| - 1;
    var init := results[..n];
    if Collect(names[..n], init).Failure? {
      FailureMeansOneFails(names[..n], init);
      var k :| 0 <= k < n && init[k].Failure?;
      assert results[k] == init[k];
    } else {
      assert results[n].Failure?;
    }
  }

  /**
   * A successful collection is the dictionary of the assignments in order: a
   * repeated name keeps its first position and holds its last value.
   */
  lemma {:induction false} CollectAccumulates<V, E>(names: seq<string>, results: seq<Result<V, E>>)
    requires |names| == |results|
    requires forall i :: 0 <= i < |results| ==> results[i].Success?
    ensures Collect(names, results).Success?
    ensures Accumulates(Collect(names, results).value, names, Values(results))
  {
    CollectSucceeds(names, results);
    if names == [] {
      AccumulatesEmpty<V>();
    } else {
      var n := |names| - 1;
      var init, last := results[..n], results[n];
      assert names[..n] + [names[n]] == names;
      assert forall i :: 0 <= i < n ==> init[i] == results[i];
      var vs := Values(init);
      assert vs + [last.value] == Values(results);
      CollectAccumulates(names[..n], init);
      var prior := Collect(names[..n], init).value;
      assert Collect(names, results) == Success(Put(prior, names[n], last.value));
      AccumulatesPut(prior, names[..n], vs, names[n], last.value);
    }
  }

  /** A failed collection fails with the first failing result. */
  lemma {:induction false} CollectFirstError<V, E>(names: seq<string>, results: seq<Result<V, E>>)
    requires |names| == |results|
    requires Collect(names, results).Failure?
    ensures exists k :: && 0 <= k < |results|
                        && results[k] == Failure(Collect(names, results).error)
                        && forall i :: 0 <= i < k ==> results[i].Success?
  {
    var n := |names| - 1;
    assert forall i :: 0 <= i < n ==> results[..n][i] == results[i];
    if Collect(names[..n], results[..n]).Failure? {
      CollectFirstError(names[..n], results[..n]);
    } else {
      CollectSucceeds(names[..n], results[..n]);
    }
  }

  /** The calendars of the children: each child's window by mode at the clock of its turn, fetched and normalised. */
  function Fetches(mode: string, children: seq<Child>, clockAt: nat -> Clock, portal: Portal, lib: Library): (r: seq<Result<seq<Event>, Error>>)
    ensures |r| == |children|
  {
    seq(|children|, i requires 0 <= i < |children| => NormalizeAll(portal(children[i].id, RangeForMode(mode, clockAt(i))), lib))
  }

  /** `child_summaries` after the loop over `children`, or the first error raised. */
  function Summaries(mode: string, children: seq<Child>, clockAt: nat -> Clock, portal: Portal, lib: Library): (r: Result<OrderedMap<seq<Event>>, Error>)
    ensures r.Success? ==> OrderedMaps.Valid(r.value)
  {
    Collect(Names(children), Fetches(mode, children, clockAt, portal, lib))
  }

  /** The loop of `main` over the children, up to the call of the formatter. */
  method CollectSummaries(mode: string, children: seq<Child>, clockAt: nat -> Clock, portal: Portal, lib: Library)
    returns (r: Result<OrderedMap<seq<Event>>, Error>)
    ensures r == Summaries(mode, children, clockAt, portal, lib)
  {
    ghost var names, fetched := Names(children), Fetches(mode, children, clockAt, portal, lib);
    var summaries := Empty<seq<Event>>();
    for i := 0 to |children|
      invariant Collect(names[..i], fetched[..i]) == Success(summaries)
    {
      var child := children[i];
      var active := child.id;
      var range;
      if mode == "weekly" {
        range := NextWeekRange(clockAt(i));
      } else {
        range := TomorrowRange(clockAt(i));
      }
      var events := ParseCalendar(portal(active, range), lib);
      assert events == fetched[i];
      CollectNext(names, fetched, i, summaries);
      if events.Failure? {
        return Failure(events.error);
      }
      summaries := Put(summaries, child.name, events.value);
    }
    assert names[..|children|] == names && fetched[..|children|] == fetched;
    r := Success(summaries);
  }

  /** One more step of the collection: the next result is stored, or its failure is the outcome. */
  lemma CollectNext<V, E>(names: seq<string>, results: seq<Result<V, E>>, i: nat, m: OrderedMap<V>)
    requires |names| == |results| && i < |names|
    requires Collect(names[..i], results[..i]) == Success(m)
    ensures results[i].Failure? ==> Collect(names, results) == Failure(results[i].error)
    ensures results[i].Success? ==> Collect(names[..i + 1], results[..i + 1]) == Success(Put(m, names[i], results[i].value))
  {
    assert names[..i + 1][..i] == names[..i] && results[..i + 1][..i] == results[..i];
    if results[i].Failure? {
      CollectStops(names, results, i + 1);
    }
  }

  /** Once a prefix fails, collecting the whole lists fails with the same error. */
  lemma {:induction false} CollectStops<V, E>(names: seq<string>, results: seq<Result<V, E>>, n: nat)
    requires |names| == |results| && n <= |names|
    requires Collect(names[..n], results[..n]).Failure?
    ensures Collect(names, results) == Collect(names[..n], results[..n])
    decreases |names| - n
  {
    if n == |names| {
      assert names[..n] == names && results[..n] == results;
    } else {
      assert names[..n + 1][..n] == names[..n] && results[..n + 1][..n] == results[..n];
      CollectStops(names, results, n + 1);
    }
  }

  /** The report `main` sends, or the error that stops it before anything is sent. */
  function MainReport(mode: string, children: seq<Child>, clockAt: nat -> Clock, portal: Portal, lib: Library): (r: Result<string, Error>)
    ensures var fetched := Fetches(mode, children, clockAt, portal, lib);
      r.Success? <==> forall i :: 0 <= i < |children| ==> fetched[i].Success?
    ensures r.Success? ==> var m := Summaries(mode, children, clockAt, portal, lib);
      m.Success? && r.value == Report(Items(m.value))
    ensures var fetched := Fetches(mode, children, clockAt, portal, lib);
      r.Failure? ==> exists k :: && 0 <= k < |children|
                                 && fetched[k] == Failure(r.error)
                                 && forall i :: 0 <= i < k ==> fetched[i].Success?
  {
    var names, fetched := Names(children), Fetches(mode, children, clockAt, portal, lib);
    CollectSucceeds(names, fetched);
    match Collect(names, fetched)
    case Failure(e) => CollectFirstError(names, fetched); Failure(e)
    case Success(m) => Success(Report(Items(m)))
  }

  /** `main` up to the delivery of the report: the loop, then the formatter. */
  method Run(mode: string, children: seq<Child>, clockAt: nat -> Clock, portal: Portal, lib: Library) returns (r: Result<string, Error>)
    ensures r == MainReport(mode, children, clockAt, portal, lib)
  {
    var collected := CollectSummaries(mode, children, clockAt, portal, lib);
    if collected.Failure? {
      return Failure(collected.error);
    }
    var text := FormatSummary(collected.value);
    r := Success(text);
  }

  /**
   * When the loop succeeds, the report names each distinct child once per
   * section, in the order the names are first configured.
   */
  lemma ReportNamesChildrenInOrder(mode: string, children: seq<Child>, clockAt: nat -> Clock, portal: Portal, lib: Library)
    requires Summaries(mode, children, clockAt, portal, lib).Success?
    ensures var m := Summaries(mode, children, clockAt, portal, lib).value;
      SummaryLayout.ChildLines(Items(m)) == MapLines(ChildLine, FirstOccurrences(Names(children)))
  {
    CollectSucceeds(Names(children), Fetches(mode, children, clockAt, portal, lib));
    CollectAccumulates(Names(children), Fetches(mode, children, clockAt, portal, lib));
    SummaryLayout.ChildrenInInsertionOrder(Summaries(mode, children, clockAt, portal, lib).value);
  }
}
