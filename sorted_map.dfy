/**
 * The TreeMap<Double, String> that getBestLabels fills, as an association list
 * kept in strictly ascending key order. Keys are rescaled scores; a rescaling
 * that divides zero by zero yields NaN, which Double.compareTo places above
 * every number and equal to itself.
 */
module SortedMap {

  datatype Key = Scaled(value: real) | NaN

  /** The order of Double.compareTo on the keys that can occur. */
  predicate KeyLess(a: Key, b: Key) {
    match (a, b)
    case (Scaled(x), Scaled(y)) => x < y
    case (Scaled(_), NaN) => true
    case (NaN, _) => false
  }

  type Entry = (Key, string)

  /** Keys strictly ascending: every key at most once, in iteration order. */
  ghost predicate Sorted(m: seq<Entry>) {
    forall i, j :: 0 <= i < j < |m| ==> KeyLess(m[i].0, m[j].0)
  }

  /** The keys an association list holds. */
  ghost function KeySet(m: seq<Entry>): set<Key> {
    set i | 0 <= i < |m| :: m[i].0
  }

  /** The dictionary an association list stands for. */
  ghost function AsMap(m: seq<Entry>): map<Key, string> {
    if m == [] then map[] else AsMap(m[1..])[m[0].0 := m[0].1]
  }

  lemma KeyLessTransitive(a: Key, b: Key, c: Key)
    requires KeyLess(a, b) && KeyLess(b, c)
    ensures KeyLess(a, c)
  {
  }

  lemma KeyOrderTotal(a: Key, b: Key)
    requires a != b && !KeyLess(a, b)
    ensures KeyLess(b, a)
  {
  }

  /** A non-empty list splits into its head key and the keys of its tail, which stay sorted. */
  lemma Uncons(m: seq<Entry>)
    requires m != []
    ensures KeySet(m) == {m[0].0} + KeySet(m[1..])
    ensures Sorted(m) ==> Sorted(m[1..]) && forall x :: x in KeySet(m[1..]) ==> KeyLess(m[0].0, x)
  {
    forall x | x in KeySet(m) ensures x in {m[0].0} + KeySet(m[1..]) {
      var i :| 0 <= i < |m| && m[i].0 == x;
      if i > 0 { assert m[1..][i - 1].0 == x; }
    }
    forall x | x in KeySet(m[1..]) ensures x in KeySet(m) {
      var i :| 0 <= i < |m[1..]| && m[1..][i].0 == x;
      assert m[i + 1].0 == x;
    }
    if Sorted(m) {
      forall a, b | 0 <= a < b < |m[1..]| ensures KeyLess(m[1..][a].0, m[1..][b].0) {
        assert m[1..][a] == m[a + 1] && m[1..][b] == m[b + 1];
      }
      forall x | x in KeySet(m[1..]) ensures KeyLess(m[0].0, x) {
        var i :| 0 <= i < |m[1..]| && m[1..][i].0 == x;
        assert m[i + 1].0 == x;
      }
    }
  }

  /** A pair whose key is below every key of a sorted list may head it. */
  lemma Cons(e: Entry, t: seq<Entry>)
    requires Sorted(t) && forall x :: x in KeySet(t) ==> KeyLess(e.0, x)
    ensures Sorted([e] + t)
    ensures KeySet([e] + t) == {e.0} + KeySet(t)
    ensures AsMap([e] + t) == AsMap(t)[e.0 := e.1]
  {
    var r := [e] + t;
    assert r[1..] == t;
    forall i, j | 0 <= i < j < |r| ensures KeyLess(r[i].0, r[j].0) {
      if i == 0 {
        assert r[j] == t[j - 1];
        assert r[j].0 in KeySet(t);
      } else {
        assert r[i] == t[i - 1] && r[j] == t[j - 1];
      }
    }
    Uncons(r);
  }

  /** The keys of the first j + 1 pairs are those of the first j and the key of pair j. */
  lemma KeySetStep(m: seq<Entry>, j: nat)
    requires j < |m|
    ensures KeySet(m[..j + 1]) == KeySet(m[..j]) + {m[j].0}
  {
    var a, b := m[..j], m[..j + 1];
    forall x | x in KeySet(b) ensures x in KeySet(a) + {m[j].0} {
      var i :| 0 <= i < |b| && b[i].0 == x;
      if i < j { assert a[i].0 == x; }
    }
    forall x | x in KeySet(a) ensures x in KeySet(b) {
      var i :| 0 <= i < |a| && a[i].0 == x;
      assert b[i].0 == x;
    }
    assert b[j].0 == m[j].0;
  }

  lemma {:induction false} AsMapKeys(m: seq<Entry>)
    ensures AsMap(m).Keys == KeySet(m)
  {
    if m != [] {
      AsMapKeys(m[1..]);
      Uncons(m);
    }
  }

  /** In a sorted list the dictionary maps each key to the value stored beside it. */
  lemma {:induction false} AsMapAt(m: seq<Entry>, i: nat)
    requires Sorted(m) && i < |m|
    ensures m[i].0 in AsMap(m) && AsMap(m)[m[i].0] == m[i].1
  {
    if i > 0 {
      Uncons(m);
      AsMapAt(m[1..], i - 1);
      assert m[1..][i - 1] == m[i];
    }
  }

  /**
   * TreeMap.put: the new pair takes its place in key order, and a key already
   * present keeps its place while its value is overwritten.
   */
  function Put(m: seq<Entry>, k: Key, v: string): (r: seq<Entry>)
    requires Sorted(m)
    ensures Sorted(r)
    ensures KeySet(r) == KeySet(m) + {k}
    ensures AsMap(r) == AsMap(m)[k := v]
  {
    if m == [] then
      Cons((k, v), []);
      [(k, v)]
    else if m[0].0 == k then
      Uncons(m);
      Cons((k, v), m[1..]);
      [(k, v)] + m[1..]
    else if KeyLess(k, m[0].0) then
      Uncons(m);
      forall x | x in KeySet(m) ensures KeyLess(k, x) {
        if x != m[0].0 { KeyLessTransitive(k, m[0].0, x); }
      }
      Cons((k, v), m);
      [(k, v)] + m
    else
      Uncons(m);
      KeyOrderTotal(k, m[0].0);
      var tail := Put(m[1..], k, v);
      Cons(m[0], tail);
      [m[0]] + tail
  }
}
