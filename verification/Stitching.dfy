/** What stitching related rows together means, on plain sequences: parents and children that share a
    key, the nested loops the batch loaders replace, and when the two agree. */
module Stitching {
  import opened CeilDivision
  import opened Options

  // ----- rows with a key -----

  // The elements of xs with key k, in order.
  ghost function WithKey<T>(xs: seq<T>, key: T -> int, k: int): seq<T> {
    if xs == [] then []
    else
      var front := WithKey(xs[..|xs| - 1], key, k);
      if key(xs[|xs| - 1]) == k then front + [xs[|xs| - 1]] else front
  }

  // The first element of xs with key k.
  ghost function First<T>(xs: seq<T>, key: T -> int, k: int): Option<T> {
    if xs == [] then None
    else
      var front := First(xs[..|xs| - 1], key, k);
      if front.Some? then front else if key(xs[|xs| - 1]) == k then Some(xs[|xs| - 1]) else None
  }

  ghost function Mult<T>(xs: seq<T>, x: T): nat { multiset(xs)[x] }

  lemma Snoc<T>(xs: seq<T>, i: nat)
    requires i < |xs|
    ensures xs[..i + 1] == xs[..i] + [xs[i]] && xs[..i + 1][..i] == xs[..i]
    ensures multiset(xs[..i + 1]) == multiset(xs[..i]) + multiset{xs[i]}
  {
  }

  lemma WithKeySnoc<T>(xs: seq<T>, x: T, key: T -> int, k: int)
    ensures WithKey(xs + [x], key, k) == if key(x) == k then WithKey(xs, key, k) + [x] else WithKey(xs, key, k)
  {
    assert (xs + [x])[..|xs|] == xs;
  }

  lemma {:induction false} WithKeyMult<T>(xs: seq<T>, key: T -> int, k: int, x: T)
    ensures Mult(WithKey(xs, key, k), x) == if key(x) == k then Mult(xs, x) else 0
  {
    if xs != [] {
      WithKeyMult(xs[..|xs| - 1], key, k, x);
      assert xs == xs[..|xs| - 1] + [xs[|xs| - 1]];
    }
  }

  lemma {:induction false} WithKeyIn<T>(xs: seq<T>, key: T -> int, k: int)
    ensures forall x :: x in WithKey(xs, key, k) <==> x in xs && key(x) == k
    ensures (forall x :: x in xs ==> key(x) != k) <==> WithKey(xs, key, k) == []
  {
    if xs != [] {
      WithKeyIn(xs[..|xs| - 1], key, k);
      assert xs == xs[..|xs| - 1] + [xs[|xs| - 1]];
    }
  }

  lemma {:induction false} FirstIsFirst<T>(xs: seq<T>, key: T -> int, k: int)
    ensures First(xs, key, k).None? <==> forall x :: x in xs ==> key(x) != k
    ensures First(xs, key, k).Some? ==> var x := First(xs, key, k).value;
      exists i :: 0 <= i < |xs| && xs[i] == x && key(x) == k && forall j :: 0 <= j < i ==> key(xs[j]) != k
  {
    if xs != [] {
      var front := xs[..|xs| - 1];
      FirstIsFirst(front, key, k);
      assert xs == front + [xs[|xs| - 1]];
      if First(front, key, k).Some? {
        var i :| 0 <= i < |front| && front[i] == First(front, key, k).value && key(front[i]) == k
                 && forall j :: 0 <= j < i ==> key(front[j]) != k;
        assert xs[i] == front[i];
      } else if key(xs[|xs| - 1]) == k {
        assert xs[|xs| - 1] == First(xs, key, k).value;
        forall j | 0 <= j < |xs| - 1 ensures key(xs[j]) != k { assert xs[j] == front[j]; }
      }
    }
  }

  // A key that selects x's own element from a list without repeated keys.
  ghost predicate UniqueKeys<T>(xs: seq<T>, key: T -> int) {
    forall i, j :: 0 <= i < j < |xs| ==> key(xs[i]) != key(xs[j])
  }

  lemma {:induction false} UniqueKeysSelect<T>(xs: seq<T>, key: T -> int, x: T)
    requires UniqueKeys(xs, key) && x in xs
    ensures WithKey(xs, key, key(x)) == [x]
  {
    var last, front := xs[|xs| - 1], xs[..|xs| - 1];
    assert xs == front + [last];
    assert forall i :: 0 <= i < |front| ==> key(front[i]) == key(xs[i]) != key(last);
    WithKeyIn(front, key, key(x));
    if x in front {
      UniqueKeysSelect(front, key, x);
    }
  }

  lemma UniqueKeysMult<T>(xs: seq<T>, key: T -> int, x: T)
    requires UniqueKeys(xs, key) && x in xs
    ensures Mult(xs, x) == 1
  {
    UniqueKeysSelect(xs, key, x);
    WithKeyMult(xs, key, key(x), x);
  }

  // ----- to-many: the lists of the parents -----

  ghost function Copies<T>(x: T, n: nat): (r: seq<T>)
    ensures |r| == n && forall i :: 0 <= i < n ==> r[i] == x
  {
    seq(n, _ => x)
  }

  // Each element n times in place.
  ghost function Stretch<T>(xs: seq<T>, n: nat): (r: seq<T>)
    ensures |r| == |xs| * n
  {
    if xs == [] then [] else Stretch(xs[..|xs| - 1], n) + Copies(xs[|xs| - 1], n)
  }

  lemma StretchStep<T>(xs: seq<T>, i: nat, key: T -> int, k: int, n: nat)
    requires i < |xs|
    ensures Stretch(WithKey(xs[..i + 1], key, k), n)
         == var before := Stretch(WithKey(xs[..i], key, k), n);
            if key(xs[i]) == k then before + Copies(xs[i], n) else before
  {
    Snoc(xs, i);
    WithKeySnoc(xs[..i], xs[i], key, k);
    var before := WithKey(xs[..i], key, k);
    if key(xs[i]) == k {
      assert (before + [xs[i]])[..|before|] == before;
      assert Stretch(before + [xs[i]], n) == Stretch(before, n) + Copies(xs[i], n);
    }
  }

  // The whole list n times over.
  ghost function Repeat<T>(xs: seq<T>, n: nat): (r: seq<T>)
    ensures |r| == n * |xs|
  {
    if n == 0 then [] else Repeat(xs, n - 1) + xs
  }

  lemma {:induction false} StretchOnce<T>(xs: seq<T>)
    ensures Stretch(xs, 1) == xs
  {
    if xs != [] { StretchOnce(xs[..|xs| - 1]); }
  }

  lemma {:induction false} StretchAt<T>(xs: seq<T>, n: nat, q: nat, r: nat)
    requires r < n && q < |xs|
    ensures q * n + r < |xs| * n && Stretch(xs, n)[q * n + r] == xs[q]
  {
    var front := xs[..|xs| - 1];
    MulStep(|front|, n);
    MulMonotone(q + 1, |xs|, n);
    MulStep(q, n);
    if q < |front| {
      StretchAt(front, n, q, r);
    } else {
      assert Stretch(xs, n) == Stretch(front, n) + Copies(xs[q], n) && |Stretch(front, n)| == q * n;
    }
  }

  // Every index splits into a whole number of n and a remainder.
  lemma {:induction false} Split(i: nat, n: nat) returns (q: nat, r: nat)
    requires n > 0
    ensures i == q * n + r && r < n && (n > 1 && i > 0 ==> q < i) && q <= i
  {
    if i < n {
      q, r := 0, i;
    } else {
      q, r := Split(i - n, n);
      MulStep(q, n);
      q := q + 1;
    }
  }

  lemma {:induction false} RepeatAt<T>(xs: seq<T>, n: nat, i: nat)
    requires i < |xs| && n > 0
    ensures n * |xs| >= |xs| && Repeat(xs, n)[i] == xs[i]
  {
    if n > 1 {
      RepeatAt(xs, n - 1, i);
      assert n * |xs| == (n - 1) * |xs| + |xs|;
    } else {
      assert Repeat(xs, 0) == [];
    }
  }

  ghost predicate AllSame<T>(xs: seq<T>) {
    forall i :: 0 <= i < |xs| ==> xs[i] == xs[0]
  }

  // A parent listed once, or whose children are one and the same row, cannot tell the two apart.
  lemma StretchIsRepeat<T>(xs: seq<T>, n: nat)
    ensures Stretch(xs, n) == Repeat(xs, n) <==> n <= 1 || AllSame(xs)
  {
    if n == 0 {
      assert |xs| * 0 == 0;
      assert Stretch(xs, n) == [] == Repeat(xs, n);
    } else if n == 1 {
      StretchOnce(xs);
      assert Repeat(xs, 1) == Repeat(xs, 0) + xs == [] + xs == xs;
    } else if AllSame(xs) {
      SameWhenAllSame(xs, n);
    } else if Stretch(xs, n) == Repeat(xs, n) {
      AllSameWhenEqual(xs, n, |xs|);
      assert false;
    }
  }

  lemma {:induction false} RepeatHolds<T>(xs: seq<T>, n: nat)
    ensures forall x :: x in Repeat(xs, n) ==> x in xs
  {
    if n > 0 { RepeatHolds(xs, n - 1); }
  }

  lemma {:induction false} StretchHolds<T>(xs: seq<T>, n: nat)
    ensures forall x :: x in Stretch(xs, n) ==> x in xs
  {
    if xs != [] { StretchHolds(xs[..|xs| - 1], n); }
  }

  lemma SameWhenAllSame<T>(xs: seq<T>, n: nat)
    requires AllSame(xs) && n > 0
    ensures Stretch(xs, n) == Repeat(xs, n)
  {
    RepeatHolds(xs, n);
    StretchHolds(xs, n);
    var a, b := Stretch(xs, n), Repeat(xs, n);
    assert |a| == |b|;
    forall i | 0 <= i < |a| ensures a[i] == b[i] {
      assert a[i] in xs && b[i] in xs;
    }
  }

  lemma {:induction false} AllSameWhenEqual<T>(xs: seq<T>, n: nat, i: nat)
    requires n > 1 && Stretch(xs, n) == Repeat(xs, n) && i <= |xs|
    ensures forall j :: 0 <= j < i ==> xs[j] == xs[0]
  {
    if i > 0 {
      AllSameWhenEqual(xs, n, i - 1);
      var q, r := Split(i - 1, n);
      StretchAt(xs, n, q, r);
      RepeatAt(xs, n, i - 1);
    }
  }

  // ----- to-many: the nested loop -----

  // Pointers on both sides: the parents' lists and the children's owners.
  datatype Links<P, C> = Links(lists: map<P, seq<C>>, owner: map<C, P>)

  ghost function ListOf<P, C>(st: Links<P, C>, o: P): seq<C> {
    if o in st.lists then st.lists[o] else []
  }

  // The inner loop over all children.
  ghost function LinkChildren<P, C>(st: Links<P, C>, o: P, k: int, rels: seq<C>, key: C -> int): Links<P, C> {
    if rels == [] then st
    else
      var before := LinkChildren(st, o, k, rels[..|rels| - 1], key);
      var rel := rels[|rels| - 1];
      if key(rel) != k then before
      else Links(before.lists[o := ListOf(before, o) + [rel]], before.owner[rel := o])
  }

  /** The loop the batch loader replaces: every parent against every child. */
  ghost function NestedLoop<P, C>(os: seq<P>, pkey: P -> int, rels: seq<C>, key: C -> int): Links<P, C> {
    if os == [] then Links(map[], map[])
    else
      var o := os[|os| - 1];
      LinkChildren(NestedLoop(os[..|os| - 1], pkey, rels, key), o, pkey(o), rels, key)
  }

  lemma {:induction false} LinkChildrenResult<P, C>(st: Links<P, C>, o: P, k: int, rels: seq<C>, key: C -> int)
    ensures var after := LinkChildren(st, o, k, rels, key);
      && ListOf(after, o) == ListOf(st, o) + WithKey(rels, key, k)
      && (forall q :: q != o ==> ListOf(after, q) == ListOf(st, q))
      && (forall c :: c in after.owner <==> c in st.owner || (c in rels && key(c) == k))
      && (forall c :: c in after.owner ==> after.owner[c] == if c in rels && key(c) == k then o else st.owner[c])
  {
    if rels != [] {
      var front, rel := rels[..|rels| - 1], rels[|rels| - 1];
      LinkChildrenResult(st, o, k, front, key);
      assert rels == front + [rel];
    }
  }

  /** The nested loop in closed form: a parent listed n times gets its children n times over. */
  lemma {:induction false} NestedLists<P, C>(os: seq<P>, pkey: P -> int, rels: seq<C>, key: C -> int, o: P)
    ensures ListOf(NestedLoop(os, pkey, rels, key), o) == Repeat(WithKey(rels, key, pkey(o)), Mult(os, o))
  {
    if os != [] {
      var front, last := os[..|os| - 1], os[|os| - 1];
      NestedLists(front, pkey, rels, key, o);
      assert os == front + [last];
      LinkChildrenResult(NestedLoop(front, pkey, rels, key), last, pkey(last), rels, key);
      assert Mult(os, o) == Mult(front, o) + if o == last then 1 else 0;
    }
  }

  /** ... and a child ends up with the last parent that has its key. */
  lemma {:induction false} NestedOwners<P, C>(os: seq<P>, pkey: P -> int, rels: seq<C>, key: C -> int, c: C)
    ensures var st, owners := NestedLoop(os, pkey, rels, key), WithKey(os, pkey, key(c));
      && (c in st.owner <==> c in rels && owners != [])
      && (c in st.owner ==> st.owner[c] == owners[|owners| - 1])
  {
    if os != [] {
      var front, last := os[..|os| - 1], os[|os| - 1];
      NestedOwners(front, pkey, rels, key, c);
      LinkChildrenResult(NestedLoop(front, pkey, rels, key), last, pkey(last), rels, key);
    }
  }

  // ----- to-one -----

  // First occurrences only.
  ghost function Dedup<T>(xs: seq<T>): seq<T> {
    if xs == [] then []
    else
      var front := xs[..|xs| - 1];
      if xs[|xs| - 1] in front then Dedup(front) else Dedup(front) + [xs[|xs| - 1]]
  }

  lemma {:induction false} DedupHolds<T>(xs: seq<T>)
    ensures forall x :: Mult(Dedup(xs), x) == if x in xs then 1 else 0
    ensures forall x :: x in Dedup(xs) <==> x in xs
    ensures |Dedup(xs)| <= |xs|
  {
    if xs != [] {
      DedupHolds(xs[..|xs| - 1]);
      assert xs == xs[..|xs| - 1] + [xs[|xs| - 1]];
    }
    assert forall x :: x in Dedup(xs) <==> Mult(Dedup(xs), x) > 0;
  }

  ghost predicate NoDuplicates<T>(xs: seq<T>) {
    forall i, j :: 0 <= i < j < |xs| ==> xs[i] != xs[j]
  }

  lemma {:induction false} DedupSame<T>(xs: seq<T>)
    ensures Dedup(xs) == xs <==> NoDuplicates(xs)
  {
    if xs != [] {
      var front, last := xs[..|xs| - 1], xs[|xs| - 1];
      assert xs == front + [last];
      DedupSame(front);
      DedupHolds(front);
      if NoDuplicates(xs) {
        assert NoDuplicates(front) by {
          forall i, j | 0 <= i < j < |front| ensures front[i] != front[j] {
            assert front[i] == xs[i] && front[j] == xs[j];
          }
        }
      }
      if Dedup(xs) == xs {
        assert last !in front;
        assert Dedup(front) == Dedup(xs)[..|front|] == front;
        forall i, j | 0 <= i < j < |xs| ensures xs[i] != xs[j] {
          if j < |front| { assert xs[i] == front[i] && xs[j] == front[j]; } else { assert xs[i] == front[i]; }
        }
      }
    }
  }

  lemma {:induction false} WithKeyNoDuplicates<T>(xs: seq<T>, key: T -> int, k: int)
    requires NoDuplicates(xs)
    ensures NoDuplicates(WithKey(xs, key, k))
  {
    if xs != [] {
      var front := xs[..|xs| - 1];
      assert forall i :: 0 <= i < |front| ==> front[i] == xs[i];
      WithKeyNoDuplicates(front, key, k);
      WithKeyIn(front, key, k);
    }
  }

  lemma FirstStep<T>(xs: seq<T>, i: nat, key: T -> int, k: int)
    requires i < |xs|
    ensures First(xs[..i + 1], key, k) ==
      if First(xs[..i], key, k).Some? then First(xs[..i], key, k)
      else if key(xs[i]) == k then Some(xs[i]) else None
  {
    Snoc(xs, i);
  }

  lemma DedupStep<T>(xs: seq<T>, i: nat)
    requires i < |xs|
    ensures Dedup(xs[..i + 1]) == if xs[i] in xs[..i] then Dedup(xs[..i]) else Dedup(xs[..i]) + [xs[i]]
  {
    Snoc(xs, i);
  }

  /** The parents a child ends up with in the batch loaders: those with its key, each once, if it is the
      first child with that key. */
  ghost function Matched<P, C>(os: seq<P>, pkey: P -> int, rels: seq<C>, key: C -> int, c: C): seq<P> {
    if First(rels, key, key(c)) == Some(c) then Dedup(WithKey(os, pkey, key(c))) else []
  }

  // Chosen child per parent and matched parents per child.
  datatype Choices<P, C> = Choices(child: map<P, C>, parents: map<C, seq<P>>)

  ghost function ParentsOf<P, C>(st: Choices<P, C>, c: C): seq<P> {
    if c in st.parents then st.parents[c] else []
  }

  /** The loop the to-one batch loader replaces: every parent takes the first child with its key. */
  ghost function NestedLoopWithBreak<P, C>(os: seq<P>, pkey: P -> int, rels: seq<C>, key: C -> int): Choices<P, C> {
    if os == [] then Choices(map[], map[])
    else
      var before, o := NestedLoopWithBreak(os[..|os| - 1], pkey, rels, key), os[|os| - 1];
      match First(rels, key, pkey(o))
      case None => before
      case Some(c) => Choices(before.child[o := c], before.parents[c := ParentsOf(before, c) + [o]])
  }

  lemma {:induction false} NestedChild<P, C>(os: seq<P>, pkey: P -> int, rels: seq<C>, key: C -> int, o: P)
    ensures var child := NestedLoopWithBreak(os, pkey, rels, key).child;
      && (o in child <==> o in os && First(rels, key, pkey(o)).Some?)
      && (o in child ==> Some(child[o]) == First(rels, key, pkey(o)))
  {
    if os != [] {
      NestedChild(os[..|os| - 1], pkey, rels, key, o);
      assert os == os[..|os| - 1] + [os[|os| - 1]];
    }
  }

  lemma {:induction false} NestedParents<P, C>(os: seq<P>, pkey: P -> int, rels: seq<C>, key: C -> int, c: C)
    ensures ParentsOf(NestedLoopWithBreak(os, pkey, rels, key), c)
         == if First(rels, key, key(c)) == Some(c) then WithKey(os, pkey, key(c)) else []
  {
    if os != [] {
      NestedParents(os[..|os| - 1], pkey, rels, key, c);
      FirstIsFirst(rels, key, pkey(os[|os| - 1]));
    }
  }

  /** A child's matched parents are those of the nested loop, exactly when no parent with its key is
      listed twice (or another child came first). */
  lemma MatchedIsNested<P, C>(os: seq<P>, pkey: P -> int, rels: seq<C>, key: C -> int, c: C)
    ensures Matched(os, pkey, rels, key, c) == ParentsOf(NestedLoopWithBreak(os, pkey, rels, key), c)
       <==> First(rels, key, key(c)) != Some(c) || NoDuplicates(WithKey(os, pkey, key(c)))
  {
    NestedParents(os, pkey, rels, key, c);
    DedupSame(WithKey(os, pkey, key(c)));
  }

  /** The children's matched parents partition the parents that have a child: each such parent is matched
      once, with the child it chose, and no parent is matched elsewhere. */
  lemma MatchedPartition<P, C>(os: seq<P>, pkey: P -> int, rels: seq<C>, key: C -> int, o: P, c: C)
    requires c in rels
    ensures Mult(Matched(os, pkey, rels, key, c), o)
         == if o in os && First(rels, key, pkey(o)) == Some(c) then 1 else 0
  {
    FirstIsFirst(rels, key, key(c));
    FirstIsFirst(rels, key, pkey(o));
    var owners := WithKey(os, pkey, key(c));
    DedupHolds(owners);
    WithKeyIn(os, pkey, key(c));
    assert o in owners <==> o in os && pkey(o) == key(c);
  }

  // ----- order -----

  // a is listed before b is listed for the first time, if ever.
  ghost predicate ListedBefore<T>(xs: seq<T>, a: T, b: T) {
    exists p :: 0 <= p < |xs| && xs[p] == a && b !in xs[..p + 1]
  }

  lemma ListedBeforeSnoc<T>(xs: seq<T>, x: T, a: T, b: T)
    ensures ListedBefore(xs + [x], a, b) <==> ListedBefore(xs, a, b) || (x == a && b !in xs + [x])
  {
    var ys := xs + [x];
    if p :| 0 <= p < |xs| && xs[p] == a && b !in xs[..p + 1] {
      assert ys[p] == a && ys[..p + 1] == xs[..p + 1];
    }
    if p :| 0 <= p < |ys| && ys[p] == a && b !in ys[..p + 1] {
      if p < |xs| { assert xs[p] == a && ys[..p + 1] == xs[..p + 1]; } else { assert ys[..p + 1] == ys; }
    }
    if x == a && b !in ys {
      assert ys[|xs|] == a && ys[..|xs| + 1] == ys;
    }
  }

  lemma {:induction false} WithKeyKeepsOrder<T>(xs: seq<T>, key: T -> int, k: int, a: T, b: T)
    requires ListedBefore(xs, a, b) && key(a) == k
    ensures ListedBefore(WithKey(xs, key, k), a, b)
  {
    var front, last := xs[..|xs| - 1], xs[|xs| - 1];
    assert xs == front + [last];
    ListedBeforeSnoc(front, last, a, b);
    ListedBeforeSnoc(WithKey(front, key, k), last, a, b);
    WithKeyIn(xs, key, k);
    if ListedBefore(front, a, b) { WithKeyKeepsOrder(front, key, k, a, b); }
  }

  lemma {:induction false} DedupKeepsOrder<T>(xs: seq<T>, a: T, b: T)
    requires ListedBefore(xs, a, b)
    ensures ListedBefore(Dedup(xs), a, b)
  {
    var front, last := xs[..|xs| - 1], xs[|xs| - 1];
    assert xs == front + [last];
    ListedBeforeSnoc(front, last, a, b);
    ListedBeforeSnoc(Dedup(front), last, a, b);
    DedupHolds(xs);
    if ListedBefore(front, a, b) {
      DedupKeepsOrder(front, a, b);
    } else if last in front {
      AnyListedBefore(front, a, b);
      assert false;
    }
  }

  lemma AnyListedBefore<T>(xs: seq<T>, a: T, b: T)
    requires a in xs && b !in xs
    ensures ListedBefore(xs, a, b)
  {
    var p :| 0 <= p < |xs| && xs[p] == a;
    assert b !in xs[..p + 1];
  }

  lemma {:induction false} DedupDistinct<T>(xs: seq<T>)
    ensures NoDuplicates(Dedup(xs))
  {
    if xs != [] {
      DedupDistinct(xs[..|xs| - 1]);
      DedupHolds(xs[..|xs| - 1]);
    }
  }

  // An element listed before another one that is listed too is not the last one new to the list.
  lemma NotLastNew<T>(xs: seq<T>, a: T, b: T)
    requires ListedBefore(xs, a, b) && b in xs
    ensures Dedup(xs) != [] && Dedup(xs)[|Dedup(xs)| - 1] != a
  {
    var d := Dedup(xs);
    DedupKeepsOrder(xs, a, b);
    DedupHolds(xs);
    DedupDistinct(xs);
    var p :| 0 <= p < |d| && d[p] == a && b !in d[..p + 1];
    var q :| 0 <= q < |d| && d[q] == b;
    assert forall j :: 0 <= j < p + 1 ==> d[..p + 1][j] == d[j];
    assert p < q;
  }

  lemma {:induction false} StretchHoldsAll<T>(xs: seq<T>, n: nat)
    requires n > 0
    ensures forall x :: x in Stretch(xs, n) <==> x in xs
  {
    if xs != [] {
      var front, last := xs[..|xs| - 1], xs[|xs| - 1];
      assert xs == front + [last];
      StretchHoldsAll(front, n);
      assert Copies(last, n)[0] == last;
    }
  }

  lemma StretchKeepsOrder<T>(xs: seq<T>, n: nat, a: T, b: T)
    requires n > 0 && ListedBefore(xs, a, b)
    ensures ListedBefore(Stretch(xs, n), a, b)
  {
    var p :| 0 <= p < |xs| && xs[p] == a && b !in xs[..p + 1];
    StretchHoldsAll(xs[..p + 1], n);
    AnyListedBefore(Stretch(xs[..p + 1], n), a, b);
    StretchPrefix(xs, p + 1, n);
    ListedBeforePrefix(Stretch(xs[..p + 1], n), Stretch(xs, n), a, b);
  }

  lemma {:induction false} StretchPrefix<T>(xs: seq<T>, i: nat, n: nat)
    requires i <= |xs|
    ensures Stretch(xs[..i], n) <= Stretch(xs, n)
  {
    if i < |xs| {
      var front := xs[..|xs| - 1];
      StretchPrefix(front, i, n);
      assert front[..i] == xs[..i];
    } else {
      assert xs[..i] == xs;
    }
  }

  lemma ListedBeforePrefix<T>(xs: seq<T>, ys: seq<T>, a: T, b: T)
    requires xs <= ys && ListedBefore(xs, a, b)
    ensures ListedBefore(ys, a, b)
  {
    var p :| 0 <= p < |xs| && xs[p] == a && b !in xs[..p + 1];
    assert ys[p] == a && ys[..p + 1] == xs[..p + 1];
  }

  // ----- one-to-one -----

  // Pointers on both sides.
  datatype Pairs<P, C> = Pairs(child: map<P, C>, owner: map<C, P>)

  /** The loop the mutual one-to-one batch loader replaces: every parent takes the first child with its key
      and becomes that child's owner. */
  ghost function NestedPairs<P, C>(os: seq<P>, pkey: P -> int, rels: seq<C>, key: C -> int): Pairs<P, C> {
    if os == [] then Pairs(map[], map[])
    else
      var before, o := NestedPairs(os[..|os| - 1], pkey, rels, key), os[|os| - 1];
      match First(rels, key, pkey(o))
      case None => before
      case Some(c) => Pairs(before.child[o := c], before.owner[c := o])
  }

  lemma {:induction false} NestedPairsChild<P, C>(os: seq<P>, pkey: P -> int, rels: seq<C>, key: C -> int, o: P)
    ensures var child := NestedPairs(os, pkey, rels, key).child;
      && (o in child <==> o in os && First(rels, key, pkey(o)).Some?)
      && (o in child ==> Some(child[o]) == First(rels, key, pkey(o)))
  {
    if os != [] {
      NestedPairsChild(os[..|os| - 1], pkey, rels, key, o);
      assert os == os[..|os| - 1] + [os[|os| - 1]];
    }
  }

  /** In that loop a child ends up with the last parent that has its key. */
  lemma {:induction false} NestedPairsOwner<P, C>(os: seq<P>, pkey: P -> int, rels: seq<C>, key: C -> int, c: C)
    ensures var owner, owners := NestedPairs(os, pkey, rels, key).owner, WithKey(os, pkey, key(c));
      && (c in owner <==> First(rels, key, key(c)) == Some(c) && owners != [])
      && (c in owner ==> owner[c] == owners[|owners| - 1])
  {
    if os != [] {
      NestedPairsOwner(os[..|os| - 1], pkey, rels, key, c);
      FirstIsFirst(rels, key, pkey(os[|os| - 1]));
    }
  }

  // Once x has been listed, everything that follows has been listed before.
  ghost predicate NothingNewAfter<T>(xs: seq<T>, x: T) {
    forall i, j :: 0 <= i < j < |xs| && xs[i] == x ==> xs[j] in xs[..j]
  }

  lemma NothingNewAfterSnoc<T>(xs: seq<T>, y: T, x: T)
    ensures NothingNewAfter(xs + [y], x) <==> NothingNewAfter(xs, x) && (x in xs ==> y in xs)
  {
    var ys := xs + [y];
    assert ys[|xs|] == y && ys[..|xs|] == xs;
    forall j | 0 <= j < |xs| ensures ys[..j] == xs[..j] && ys[j] == xs[j] {}
    if NothingNewAfter(ys, x) {
      forall i, j | 0 <= i < j < |xs| && xs[i] == x ensures xs[j] in xs[..j] {
        assert ys[i] == x && ys[j] in ys[..j];
      }
      if i :| 0 <= i < |xs| && xs[i] == x { assert ys[i] == x; }
    }
  }

  lemma {:induction false} DedupLast<T>(xs: seq<T>, x: T)
    requires x in xs
    ensures Dedup(xs) != [] && (Dedup(xs)[|Dedup(xs)| - 1] == x <==> NothingNewAfter(xs, x))
  {
    var front, last := xs[..|xs| - 1], xs[|xs| - 1];
    assert xs == front + [last];
    NothingNewAfterSnoc(front, last, x);
    if last in front {
      DedupLast(front, x);
    } else if x == last {
      assert NothingNewAfter(front, x);
    }
  }
}
