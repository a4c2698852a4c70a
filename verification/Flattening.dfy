/** Flattening maps into lists in sorted key order. */
module Flattening {

  // ----- the order of Go strings -----

  predicate Leq(a: string, b: string) {
    a == [] || (b != [] && (a[0] < b[0] || (a[0] == b[0] && Leq(a[1..], b[1..]))))
  }

  lemma {:induction false} LeqTotal(a: string, b: string)
    ensures Leq(a, b) || Leq(b, a)
  {
    if a != [] && b != [] { LeqTotal(a[1..], b[1..]); }
  }

  lemma {:induction false} LeqAntisymmetric(a: string, b: string)
    requires Leq(a, b) && Leq(b, a)
    ensures a == b
  {
    if a != [] && b != [] {
      LeqAntisymmetric(a[1..], b[1..]);
      assert a == [a[0]] + a[1..] && b == [b[0]] + b[1..];
    }
  }

  lemma {:induction false} LeqTransitive(a: string, b: string, c: string)
    requires Leq(a, b) && Leq(b, c)
    ensures Leq(a, c)
  {
    if a != [] && a[0] == b[0] && b[0] == c[0] { LeqTransitive(a[1..], b[1..], c[1..]); }
  }

  /** The order compares the first characters in which two strings differ, and puts a string before its
      extensions. */
  lemma {:induction false} LeqMeans(a: string, b: string)
    ensures Leq(a, b) <==>
      || a <= b
      || exists i :: 0 <= i < |a| && i < |b| && (a[i] as int) < (b[i] as int) && forall j :: 0 <= j < i ==> a[j] == b[j]
  {
    if a != [] && b != [] && a[0] == b[0] {
      var x, y := a[1..], b[1..];
      LeqMeans(x, y);
      if i :| 0 <= i < |x| && i < |y| && (x[i] as int) < (y[i] as int) && forall j :: 0 <= j < i ==> x[j] == y[j] {
        assert a[i + 1] == x[i] && b[i + 1] == y[i];
        assert forall j :: 0 < j < i + 1 ==> a[j] == x[j - 1] && b[j] == y[j - 1];
      }
      if i :| 0 <= i < |a| && i < |b| && (a[i] as int) < (b[i] as int) && forall j :: 0 <= j < i ==> a[j] == b[j] {
        assert i > 0 && x[i - 1] == a[i] && y[i - 1] == b[i];
        assert forall j :: 0 <= j < i - 1 ==> x[j] == a[j + 1] && y[j] == b[j + 1];
      }
      assert a == [a[0]] + x && b == [b[0]] + y;
      assert x <= y <==> a <= b;
    } else if a != [] && b != [] && a[0] < b[0] {
      assert (a[0] as int) < (b[0] as int);
    }
  }

  ghost predicate Sorted(xs: seq<string>) {
    forall i, j :: 0 <= i < j < |xs| ==> Leq(xs[i], xs[j])
  }

  lemma SameHead(xs: seq<string>, ys: seq<string>)
    requires Sorted(xs) && Sorted(ys) && multiset(xs) == multiset(ys) && xs != [] && ys != []
    ensures xs[0] == ys[0]
  {
    assert xs[0] in multiset(ys) && ys[0] in multiset(xs);
    var i :| 0 <= i < |ys| && ys[i] == xs[0];
    var j :| 0 <= j < |xs| && xs[j] == ys[0];
    if i > 0 && j > 0 { LeqAntisymmetric(xs[0], ys[0]); }
  }

  lemma TailOf(xs: seq<string>)
    requires xs != [] && Sorted(xs)
    ensures multiset(xs[1..]) == multiset(xs) - multiset{xs[0]} && Sorted(xs[1..]) && xs == [xs[0]] + xs[1..]
  {
    assert xs == [xs[0]] + xs[1..];
  }

  /** There is only one way to list the same strings in sorted order. */
  lemma {:induction false} SortedUnique(xs: seq<string>, ys: seq<string>)
    requires Sorted(xs) && Sorted(ys) && multiset(xs) == multiset(ys)
    ensures xs == ys
  {
    assert |multiset(xs)| == |xs| && |multiset(ys)| == |ys|;
    if xs != [] {
      SameHead(xs, ys);
      TailOf(xs);
      TailOf(ys);
      SortedUnique(xs[1..], ys[1..]);
    }
  }

  function Insert(xs: seq<string>, x: string): seq<string> {
    if xs == [] || Leq(x, xs[0]) then [x] + xs else [xs[0]] + Insert(xs[1..], x)
  }

  lemma {:induction false} InsertHolds(xs: seq<string>, x: string)
    ensures multiset(Insert(xs, x)) == multiset(xs) + multiset{x}
  {
    if xs != [] {
      assert xs == [xs[0]] + xs[1..];
      InsertHolds(xs[1..], x);
    }
  }

  lemma SortedCons(x: string, xs: seq<string>)
    requires Sorted(xs) && forall y <- xs :: Leq(x, y)
    ensures Sorted([x] + xs)
  {
    var r := [x] + xs;
    forall i, j | 0 <= i < j < |r| ensures Leq(r[i], r[j]) {
      assert r[j] == xs[j - 1] && r[j] in xs;
      if i > 0 { assert r[i] == xs[i - 1]; }
    }
  }

  lemma {:induction false} InsertSorts(xs: seq<string>, x: string)
    requires Sorted(xs)
    ensures Sorted(Insert(xs, x)) && multiset(Insert(xs, x)) == multiset(xs) + multiset{x}
  {
    InsertHolds(xs, x);
    if xs != [] {
      LeqTotal(x, xs[0]);
      if Leq(x, xs[0]) {
        forall y <- xs ensures Leq(x, y) {
          var j :| 0 <= j < |xs| && xs[j] == y;
          if j > 0 { LeqTransitive(x, xs[0], y); }
        }
        SortedCons(x, xs);
      } else {
        InsertSorts(xs[1..], x);
        forall y <- Insert(xs[1..], x) ensures Leq(xs[0], y) {
          assert y in multiset(Insert(xs[1..], x));
          assert y in xs[1..] || y == x;
        }
        SortedCons(xs[0], Insert(xs[1..], x));
      }
    }
  }

  // The keys in s in sorted order.
  ghost function SortedKeys(s: set<string>): (keys: seq<string>)
    ensures Sorted(keys) && multiset(keys) == multiset(s)
  {
    if s == {} then []
    else
      var x :| x in s;
      var rest := SortedKeys(s - {x});
      InsertSorts(rest, x);
      Insert(rest, x)
  }

  method SortStrings(keys: seq<string>) returns (sorted: seq<string>)
    ensures Sorted(sorted) && multiset(sorted) == multiset(keys)
  {
    sorted := [];
    for i := 0 to |keys|
      invariant Sorted(sorted) && multiset(sorted) == multiset(keys[..i])
    {
      InsertSorts(sorted, keys[i]);
      sorted := Insert(sorted, keys[i]);
      assert keys[..i + 1] == keys[..i] + [keys[i]];
    }
    assert keys[..|keys|] == keys;
  }

  /** The keys of a map come out in sorted order, whatever order the map is iterated in. */
  method SortedMapKeys<E>(m: map<string, E>) returns (keys: seq<string>)
    ensures keys == SortedKeys(m.Keys)
  {
    var rest := m.Keys;
    keys := [];
    while rest != {}
      invariant rest <= m.Keys && multiset(keys) + multiset(rest) == multiset(m.Keys)
      decreases |rest|
    {
      var k :| k in rest;
      keys := keys + [k];
      rest := rest - {k};
    }
    keys := SortStrings(keys);
    SortedUnique(keys, SortedKeys(m.Keys));
  }

  // ----- flattening -----

  // The keys of the reference that the map has, in the order of the reference.
  ghost function KeysIn<E>(data: map<string, E>, reference: seq<string>): (r: seq<string>)
    ensures forall i :: 0 <= i < |r| ==> r[i] in data
  {
    if reference == [] then []
    else
      var front, last := KeysIn(data, reference[..|reference| - 1]), reference[|reference| - 1];
      if last in data then front + [last] else front
  }

  ghost function ValuesOf<E>(data: map<string, E>, keys: seq<string>): (r: seq<E>)
    requires forall i :: 0 <= i < |keys| ==> keys[i] in data
    ensures |r| == |keys| && forall i :: 0 <= i < |r| ==> r[i] == data[keys[i]]
  {
    seq(|keys|, i requires 0 <= i < |keys| => data[keys[i]])
  }

  method FlattenByReference<E>(data: map<string, E>, sortReference: seq<string>) returns (arr: seq<E>)
    ensures arr == ValuesOf(data, KeysIn(data, sortReference))
  {
    arr := [];
    for i := 0 to |sortReference|
      invariant arr == ValuesOf(data, KeysIn(data, sortReference[..i]))
    {
      assert sortReference[..i + 1][..i] == sortReference[..i];
      var k := sortReference[i];
      if k in data {
        arr := arr + [data[k]];
      }
    }
    assert sortReference[..|sortReference|] == sortReference;
  }

  lemma {:induction false} KeysInHolds<E>(data: map<string, E>, reference: seq<string>)
    ensures forall k :: multiset(KeysIn(data, reference))[k] == if k in data then multiset(reference)[k] else 0
    ensures forall k <- KeysIn(data, reference) :: k in reference
  {
    if reference != [] {
      var front := reference[..|reference| - 1];
      KeysInHolds(data, front);
      assert reference == front + [reference[|reference| - 1]];
    }
  }

  lemma SortedSnoc(xs: seq<string>, x: string)
    requires Sorted(xs) && forall y <- xs :: Leq(y, x)
    ensures Sorted(xs + [x])
  {
    var r := xs + [x];
    forall i, j | 0 <= i < j < |r| ensures Leq(r[i], r[j]) {
      assert r[i] == xs[i] && xs[i] in xs;
    }
  }

  lemma SortedFront(xs: seq<string>)
    requires Sorted(xs) && xs != []
    ensures var front, last := xs[..|xs| - 1], xs[|xs| - 1];
      Sorted(front) && forall y <- front :: Leq(y, last)
  {
    var front, last := xs[..|xs| - 1], xs[|xs| - 1];
    forall y <- front ensures Leq(y, last) {
      var j :| 0 <= j < |front| && front[j] == y;
      assert xs[j] == y;
    }
  }

  lemma {:induction false} KeysInSorted<E>(data: map<string, E>, reference: seq<string>)
    requires Sorted(reference)
    ensures Sorted(KeysIn(data, reference))
  {
    if reference != [] {
      var front, last := reference[..|reference| - 1], reference[|reference| - 1];
      SortedFront(reference);
      KeysInSorted(data, front);
      KeysInHolds(data, front);
      SortedSnoc(KeysIn(data, front), last);
    }
  }

  /** A flattened map holds exactly the values whose key is in the reference, in sorted key order. */
  lemma FlattenedInKeyOrder<E>(data: map<string, E>, reference: set<string>)
    ensures KeysIn(data, SortedKeys(reference)) == SortedKeys(data.Keys * reference)
  {
    var keys, both := KeysIn(data, SortedKeys(reference)), data.Keys * reference;
    KeysInSorted(data, SortedKeys(reference));
    KeysInHolds(data, SortedKeys(reference));
    forall k ensures multiset(keys)[k] == multiset(both)[k] {
      assert multiset(keys)[k] == if k in data then multiset(reference)[k] else 0;
    }
    SortedUnique(keys, SortedKeys(both));
  }

  /** When all keys of a map are in the reference, flattening it loses nothing. */
  lemma FlattenedLosesNothing<E>(data: map<string, E>, reference: set<string>)
    requires data.Keys <= reference
    ensures KeysIn(data, SortedKeys(reference)) == SortedKeys(data.Keys)
    ensures |ValuesOf(data, KeysIn(data, SortedKeys(reference)))| == |data|
  {
    FlattenedInKeyOrder(data, reference);
    assert data.Keys * reference == data.Keys;
    assert |SortedKeys(data.Keys)| == |multiset(SortedKeys(data.Keys))| == |multiset(data.Keys)| == |data.Keys|;
  }

  // One list after the other.
  ghost function Concat<E>(xss: seq<seq<E>>): seq<E> {
    if xss == [] then [] else Concat(xss[..|xss| - 1]) + xss[|xss| - 1]
  }

  ghost function Graph<E>(data: map<string, seq<E>>, reference: seq<string>): seq<E> {
    if reference == [] then []
    else
      var front, last := Graph(data, reference[..|reference| - 1]), reference[|reference| - 1];
      if last in data then front + data[last] else front
  }

  method FlattenRaceGraph<E>(data: map<string, seq<E>>, sortReference: seq<string>) returns (arr: seq<E>)
    ensures arr == Graph(data, sortReference)
  {
    arr := [];
    for i := 0 to |sortReference|
      invariant arr == Graph(data, sortReference[..i])
    {
      assert sortReference[..i + 1][..i] == sortReference[..i];
      var k := sortReference[i];
      if k in data {
        arr := arr + data[k];
      }
    }
    assert sortReference[..|sortReference|] == sortReference;
  }

  /** The race graph is made of one block per class, in sorted order of the classes, each with its elements
      in their own order: block i lies between the flattenings of the first i and the first i+1 classes. */
  lemma {:induction false} GraphBlocks<E>(data: map<string, seq<E>>, reference: seq<string>, i: nat)
    requires i < |reference| && reference[i] in data
    ensures var from, to := |Graph(data, reference[..i])|, |Graph(data, reference[..i + 1])|;
      from <= to <= |Graph(data, reference)| && Graph(data, reference)[from..to] == data[reference[i]]
  {
    var n := |reference| - 1;
    var front := reference[..n];
    if i < n {
      GraphBlocks(data, front, i);
      assert reference[..i] == front[..i] && reference[..i + 1] == front[..i + 1];
      var from, to := |Graph(data, reference[..i])|, |Graph(data, reference[..i + 1])|;
      assert Graph(data, reference)[from..to] == Graph(data, front)[from..to];
    } else {
      assert reference[..i + 1] == reference && reference[..i] == front;
    }
  }

  /** With a reference of keys that the map has, the race graph is their lists, one after the other. */
  lemma {:induction false} GraphIsConcat<E>(data: map<string, seq<E>>, reference: seq<string>)
    requires forall i :: 0 <= i < |reference| ==> reference[i] in data
    ensures Graph(data, reference) == Concat(ValuesOf(data, reference))
  {
    if reference != [] {
      var front := reference[..|reference| - 1];
      GraphIsConcat(data, front);
      assert ValuesOf(data, reference)[..|front|] == ValuesOf(data, front);
    }
  }
}
