/**
 * A Python `dict` keyed by strings: insertion-ordered, and assigning to a key
 * that is already present replaces its value but keeps its position.
 */
module OrderedMaps {

  /** The keys in insertion order and the contents. */
  datatype OrderedMap<V> = OrderedMap(keys: seq<string>, values: map<string, V>)

  /** The keys are distinct and are exactly the keys of the contents. */
  predicate Valid<V>(m: OrderedMap<V>)
  {
    && (forall i, j :: 0 <= i < j < |m.keys| ==> m.keys[i] != m.keys[j])
    && (forall k :: k in m.values ==> k in m.keys)
    && (forall k :: k in m.keys ==> k in m.values)
  }

  /** `{}` */
  function Empty<V>(): (m: OrderedMap<V>)
    ensures Valid(m) && m.keys == [] && m.values == map[]
  {
    OrderedMap([], map[])
  }

  /** `m[k] = v` */
  function Put<V>(m: OrderedMap<V>, k: string, v: V): (r: OrderedMap<V>)
    requires Valid(m)
    ensures Valid(r)
    ensures r.values == m.values[k := v]
    ensures k in m.values ==> r.keys == m.keys
    ensures k !in m.values ==> r.keys == m.keys + [k]
  {
    if k in m.values then OrderedMap(m.keys, m.values[k := v])
    else OrderedMap(m.keys + [k], m.values[k := v])
  }

  /** `list(m.items())` */
  function Items<V>(m: OrderedMap<V>): (r: seq<(string, V)>)
    requires Valid(m)
    ensures |r| == |m.keys|
    ensures forall i :: 0 <= i < |r| ==> r[i] == (m.keys[i], m.values[m.keys[i]])
  {
    seq(|m.keys|, i requires 0 <= i < |m.keys| => (m.keys[i], m.values[m.keys[i]]))
  }

  // ---- reference definitions for a sequence of assignments ----

  /** The distinct elements of `s`, each where it first occurs. */
  function FirstOccurrences(s: seq<string>): seq<string>
  {
    if s == [] then []
    else
      var init := FirstOccurrences(s[..|s| - 1]);
      if s[|s| - 1] in s[..|s| - 1] then init else init + [s[|s| - 1]]
  }

  /** The position of the first occurrence of `k` in `s`. */
  function FirstIndex(s: seq<string>, k: string): (i: nat)
    requires k in s
    ensures i < |s| && s[i] == k && k !in s[..i]
  {
    if s[0] == k then 0 else 1 + FirstIndex(s[1..], k)
  }

  /** The position of the last occurrence of `k` in `s`. */
  function LastIndex(s: seq<string>, k: string): (i: nat)
    requires k in s
    ensures i < |s| && s[i] == k && k !in s[i + 1..]
  {
    if s[|s| - 1] == k then |s| - 1 else LastIndex(s[..|s| - 1], k)
  }

  /** The first occurrence of a key in a longer sequence is where it was. */
  lemma FirstIndexExtend(s: seq<string>, x: string, k: string)
    requires k in s
    ensures k in s + [x] && FirstIndex(s + [x], k) == FirstIndex(s, k)
  {
    assert (s + [x])[FirstIndex(s, k)] == k;
  }

  /** `r` lists each element of `s` once, in the order of their first occurrences in `s`. */
  ghost predicate ListsFirstOccurrences(r: seq<string>, s: seq<string>)
  {
    && (forall k :: k in r <==> k in s)
    && (forall i, j :: 0 <= i < j < |r| ==> r[i] != r[j])
    && (forall i, j :: 0 <= i < j < |r| ==> r[i] in s && r[j] in s && FirstIndex(s, r[i]) < FirstIndex(s, r[j]))
  }

  /** FirstOccurrences is the distinct elements of its input in order of first occurrence. */
  lemma {:induction false} FirstOccurrencesSpec(s: seq<string>)
    ensures ListsFirstOccurrences(FirstOccurrences(s), s)
  {
    if s != [] {
      var init, x := s[..|s| - 1], s[|s| - 1];
      assert s == init + [x];
      FirstOccurrencesSpec(init);
      if x in init {
        FirstOccurrencesKeep(FirstOccurrences(init), init, x);
      } else {
        FirstOccurrencesAdd(FirstOccurrences(init), init, x);
      }
    }
  }

  lemma FirstOccurrencesKeep(r: seq<string>, init: seq<string>, x: string)
    requires ListsFirstOccurrences(r, init) && x in init
    ensures ListsFirstOccurrences(r, init + [x])
  {
    forall k | k in r ensures FirstIndex(init + [x], k) == FirstIndex(init, k) {
      FirstIndexExtend(init, x, k);
    }
  }

  lemma FirstOccurrencesAdd(r: seq<string>, init: seq<string>, x: string)
    requires ListsFirstOccurrences(r, init) && x !in init
    ensures ListsFirstOccurrences(r + [x], init + [x])
  {
    var s := init + [x];
    assert s[|init|] == x && s[..|init|] == init;
    assert FirstIndex(s, x) == |init|;
    forall k | k in r ensures FirstIndex(s, k) == FirstIndex(init, k) {
      FirstIndexExtend(init, x, k);
    }
    var r' := r + [x];
    forall i, j | 0 <= i < j < |r'|
      ensures r'[i] != r'[j] && r'[i] in s && r'[j] in s && FirstIndex(s, r'[i]) < FirstIndex(s, r'[j])
    {
      assert r'[i] == r[i] && r[i] in r;
      if j < |r| {
        assert r'[j] == r[j] && r[j] in r;
      }
    }
  }

  /**
   * `m` is what assigning `vs[i]` to `ks[i]`, for i in order, builds from `{}`:
   * its keys are the distinct keys in order of first assignment and each holds
   * the value of its last assignment.
   */
  ghost predicate Accumulates<V>(m: OrderedMap<V>, ks: seq<string>, vs: seq<V>)
    requires |ks| == |vs|
  {
    && Valid(m)
    && m.keys == FirstOccurrences(ks)
    && (forall k :: k in m.values ==> k in ks)
    && (forall k :: k in ks ==> k in m.values)
    && (forall k :: k in m.values ==> m.values[k] == vs[LastIndex(ks, k)])
  }

  lemma AccumulatesEmpty<V>()
    ensures Accumulates(Empty<V>(), [], [])
  {
  }

  /** One more assignment keeps Accumulates. */
  lemma {:induction false} AccumulatesPut<V>(m: OrderedMap<V>, ks: seq<string>, vs: seq<V>, k: string, v: V)
    requires |ks| == |vs| && Accumulates(m, ks, vs)
    ensures Accumulates(Put(m, k, v), ks + [k], vs + [v])
  {
    var ks', vs' := ks + [k], vs + [v];
    assert ks'[..|ks'| - 1] == ks;
    var r := Put(m, k, v);
    forall k' | k' in r.values ensures r.values[k'] == vs'[LastIndex(ks', k')] {
      if k' != k {
        assert LastIndex(ks', k') == LastIndex(ks, k');
      }
    }
  }
}
