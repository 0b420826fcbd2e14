/** Python dicts as the converters use them: a finite map that remembers the
    order in which keys were first inserted. Assigning to a key that is
    already present changes its value and keeps its position; that is what
    decides the order of components, runnables and extracted rows. */
module OrderedMaps {

  datatype OMap<K(==), V> = OMap(keys: seq<K>, values: map<K, V>)

  predicate NoDuplicates<T(==)>(s: seq<T>) {
    forall i, j :: 0 <= i < j < |s| ==> s[i] != s[j]
  }

  /** The keys are listed once each and are exactly the keys of the map. */
  ghost predicate Valid<K, V>(m: OMap<K, V>) {
    && NoDuplicates(m.keys)
    && (forall k :: k in m.values ==> k in m.keys)
    && (forall i :: 0 <= i < |m.keys| ==> m.keys[i] in m.values)
  }

  function Empty<K, V>(): (r: OMap<K, V>)
    ensures Valid(r)
  {
    OMap([], map[])
  }

  /** d[k] = v */
  function Put<K, V>(m: OMap<K, V>, k: K, v: V): (r: OMap<K, V>)
    requires Valid(m)
    ensures Valid(r)
    ensures r.values == m.values[k := v]
    ensures r.keys == if k in m.keys then m.keys else m.keys + [k]
  {
    if k in m.values then OMap(m.keys, m.values[k := v])
    else OMap(m.keys + [k], m.values[k := v])
  }

  // ---------------------------------------------------------------------------
  // Sequences of keys

  lemma ConcatAssoc<T>(a: seq<T>, b: seq<T>, c: seq<T>)
    ensures (a + b) + c == a + (b + c)
  {
  }

  lemma EmptyConcat<T>(a: seq<T>, b: seq<T>)
    ensures ([] + a) + b == a + b
  {
  }

  /** f applied to every element, in order. */
  function MapSeq<T, U>(xs: seq<T>, f: T -> U): (r: seq<U>)
    ensures |r| == |xs|
    ensures forall i :: 0 <= i < |xs| ==> r[i] == f(xs[i])
  {
    if |xs| == 0 then [] else MapSeq(xs[..|xs| - 1], f) + [f(xs[|xs| - 1])]
  }

  /** The position of the first occurrence of x in s. */
  function FirstIndex<T(==)>(s: seq<T>, x: T): (i: nat)
    requires x in s
    ensures i < |s| && s[i] == x && x !in s[..i]
  {
    if s[0] == x then 0
    else
      var i := FirstIndex(s[1..], x) + 1;
      assert s[..i] == [s[0]] + s[1..][..i - 1];
      i
  }

  /** The elements of s without repetitions, in order of first occurrence. */
  function Distinct<T(==, !new)>(s: seq<T>): (r: seq<T>)
    ensures NoDuplicates(r)
    ensures forall x :: x in r <==> x in s
  {
    if |s| == 0 then []
    else
      var p := s[..|s| - 1];
      var d := Distinct(p);
      var x := s[|s| - 1];
      assert s == p + [x];
      if x in d then d else d + [x]
  }

  /** Appending x to s appends it to Distinct(s) exactly when it is new. */
  lemma DistinctSnoc<T(!new)>(s: seq<T>, x: T)
    ensures Distinct(s + [x]) == if x in s then Distinct(s) else Distinct(s) + [x]
  {
    assert (s + [x])[..|s|] == s;
  }

  /** Distinct keeps the order of first occurrence. */
  lemma {:induction false} DistinctOrder<T(!new)>(s: seq<T>)
    ensures forall i, j :: 0 <= i < j < |Distinct(s)| ==> FirstIndex(s, Distinct(s)[i]) < FirstIndex(s, Distinct(s)[j])
  {
    if |s| > 0 {
      var p := s[..|s| - 1];
      var x := s[|s| - 1];
      assert s == p + [x];
      DistinctOrder(p);
      FirstIndexOfPrefix(p, x, Distinct(p));
    }
  }

  /** The first occurrence is the only position holding x with no x before it. */
  lemma FirstIndexUnique<T>(s: seq<T>, x: T, i: nat)
    requires i < |s| && s[i] == x && x !in s[..i]
    ensures FirstIndex(s, x) == i
  {
  }

  lemma FirstIndexOfPrefix<T>(p: seq<T>, x: T, d: seq<T>)
    requires forall y :: y in d ==> y in p
    ensures forall y :: y in d ==> FirstIndex(p + [x], y) == FirstIndex(p, y)
    ensures x !in p ==> FirstIndex(p + [x], x) == |p|
  {
    forall y | y in d
      ensures FirstIndex(p + [x], y) == FirstIndex(p, y)
    {
      var i := FirstIndex(p, y);
      assert (p + [x])[..i] == p[..i];
      FirstIndexUnique(p + [x], y, i);
    }
    if x !in p {
      assert (p + [x])[..|p|] == p;
      FirstIndexUnique(p + [x], x, |p|);
    }
  }

  lemma {:induction false} DistinctOfDistinct<T(!new)>(s: seq<T>)
    requires NoDuplicates(s)
    ensures Distinct(s) == s
  {
    if |s| > 0 {
      var p := s[..|s| - 1];
      var x := s[|s| - 1];
      assert NoDuplicates(p) by {
        forall i, j | 0 <= i < j < |p| ensures p[i] != p[j] {
          assert p[i] == s[i] && p[j] == s[j];
        }
      }
      DistinctOfDistinct(p);
      assert x !in p by {
        forall i | 0 <= i < |p| ensures p[i] != x {
          assert p[i] == s[i];
        }
      }
      assert Distinct(s) == Distinct(p) + [x];
      assert s == p + [x];
    }
  }

  // ---------------------------------------------------------------------------
  // Assignments and reading back

  /** When the keys are the distinct elements of s in order, assigning to x
      keeps them the distinct elements of s + [x]. */
  lemma PutDistinct<K(!new), V>(m: OMap<K, V>, s: seq<K>, i: nat, v: V)
    requires i < |s| && Valid(m) && m.keys == Distinct(s[..i])
    ensures Put(m, s[i], v).keys == Distinct(s[..i + 1])
  {
    assert s[..i + 1] == s[..i] + [s[i]];
    DistinctSnoc(s[..i], s[i]);
  }

  lemma MapSeqSnoc<T, U>(xs: seq<T>, x: T, f: T -> U)
    ensures MapSeq(xs + [x], f) == MapSeq(xs, f) + [f(x)]
  {
  }

  /** Assigning a key twice leaves the second value, in the same place. */
  lemma PutTwice<K, V>(m: OMap<K, V>, k: K, a: V, b: V)
    requires Valid(m)
    ensures Put(Put(m, k, a), k, b) == Put(m, k, b)
  {
    assert m.values[k := a][k := b] == m.values[k := b];
  }

  /** The values of a dictionary listed in key order. */
  function ValuesInOrder<K, V>(keys: seq<K>, values: map<K, V>): (r: seq<V>)
    requires forall i :: 0 <= i < |keys| ==> keys[i] in values
    ensures |r| == |keys|
    ensures forall i :: 0 <= i < |keys| ==> r[i] == values[keys[i]]
  {
    if |keys| == 0 then []
    else ValuesInOrder(keys[..|keys| - 1], values) + [values[keys[|keys| - 1]]]
  }

  // ---------------------------------------------------------------------------
  // Grouping into per-key lists, keys in order of first appearance

  /** The values of the elements whose key is k, in order. */
  function Select<T, K(==), V>(xs: seq<T>, key: T -> K, val: T -> V, k: K): seq<V> {
    if |xs| == 0 then []
    else
      var x := xs[|xs| - 1];
      Select(xs[..|xs| - 1], key, val, k) + (if key(x) == k then [val(x)] else [])
  }

  lemma {:induction false} SelectAbsent<T, K, V>(xs: seq<T>, key: T -> K, val: T -> V, k: K)
    requires k !in MapSeq(xs, key)
    ensures Select(xs, key, val, k) == []
  {
    if |xs| > 0 {
      var p := xs[..|xs| - 1];
      assert MapSeq(xs, key) == MapSeq(p, key) + [key(xs[|xs| - 1])];
      SelectAbsent(p, key, val, k);
    }
  }

  /** Grouping into lists keyed by key(x), keys in order of first appearance. */
  function GroupBy<T, K, V>(xs: seq<T>, key: T -> K, val: T -> V): (r: OMap<K, seq<V>>)
    ensures Valid(r)
  {
    if |xs| == 0 then Empty()
    else
      var n := |xs| - 1;
      var g := GroupBy(xs[..n], key, val);
      var k := key(xs[n]);
      if k in g.values then Put(g, k, g.values[k] + [val(xs[n])])
      else Put(g, k, [val(xs[n])])
  }

  /** Grouping keeps the keys in order of first occurrence and, under each
      key, every element with that key in input order. */
  lemma {:induction false} GroupByContents<T, K(!new), V>(xs: seq<T>, key: T -> K, val: T -> V)
    ensures GroupBy(xs, key, val).keys == Distinct(MapSeq(xs, key))
    ensures forall k :: k in GroupBy(xs, key, val).values ==> GroupBy(xs, key, val).values[k] == Select(xs, key, val, k)
  {
    if |xs| > 0 {
      var n := |xs| - 1;
      GroupByContents(xs[..n], key, val);
      var k := key(xs[n]);
      assert MapSeq(xs, key) == MapSeq(xs[..n], key) + [k];
      if k !in GroupBy(xs[..n], key, val).values {
        SelectAbsent(xs[..n], key, val, k);
      }
    }
  }

  /** One more element: its value is appended under its key, which is
      added at the end if new. */
  lemma GroupByStep<T, K, V>(xs: seq<T>, key: T -> K, val: T -> V, i: nat)
    requires i < |xs|
    ensures var g := GroupBy(xs[..i], key, val);
      var k := key(xs[i]);
      Valid(g) &&
      GroupBy(xs[..i + 1], key, val) ==
        if k in g.values then Put(g, k, g.values[k] + [val(xs[i])]) else Put(g, k, [val(xs[i])])
  {
    assert xs[..i + 1][..i] == xs[..i];
  }

  /** The setdefault-and-append loop itself. */
  method Group<T, K, V>(xs: seq<T>, key: T -> K, val: T -> V) returns (g: OMap<K, seq<V>>)
    ensures g == GroupBy(xs, key, val)
  {
    g := Empty();
    var i := 0;
    while i < |xs|
      invariant 0 <= i <= |xs|
      invariant g == GroupBy(xs[..i], key, val)
    {
      var k := key(xs[i]);
      GroupByStep(xs, key, val, i);
      if k in g.values {
        g := Put(g, k, g.values[k] + [val(xs[i])]);
      } else {
        g := Put(g, k, [val(xs[i])]);
      }
      i := i + 1;
    }
    assert xs[..|xs|] == xs;
  }
}
