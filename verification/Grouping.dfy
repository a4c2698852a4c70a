/** The key -> parents map that every batch loader builds first. */
module Grouping {
  import opened Models
  import opened Stitching

  // byKey holds the elements of xs under their keys, in slice order, and no empty groups.
  ghost predicate Groups<T>(byKey: map<int, seq<T>>, xs: seq<T>, key: T -> int) {
    && (forall k :: k in byKey ==> byKey[k] == WithKey(xs, key, k) != [])
    && (forall k :: k !in byKey ==> WithKey(xs, key, k) == [])
  }

  function AddToGroup<T>(byKey: map<int, seq<T>>, k: int, x: T): map<int, seq<T>> {
    byKey[k := (if k in byKey then byKey[k] else []) + [x]]
  }

  lemma GroupOneMore<T>(byKey: map<int, seq<T>>, xs: seq<T>, key: T -> int, x: T)
    requires Groups(byKey, xs, key)
    ensures Groups(AddToGroup(byKey, key(x), x), xs + [x], key)
  {
    forall k { WithKeySnoc(xs, x, key, k); }
  }

  // Leaving out nil keeps the order.
  lemma {:induction false} CarsKeepOrder(os: seq<CCar?>, a: CCar, b: CCar)
    requires ListedBefore<CCar?>(os, a, b)
    ensures ListedBefore<CCar>(Cars(os), a, b)
  {
    var front, last := os[..|os| - 1], os[|os| - 1];
    assert os == front + [last];
    ListedBeforeSnoc<CCar?>(front, last, a, b);
    if last != null { ListedBeforeSnoc<CCar>(Cars(front), last, a, b); }
    if ListedBefore<CCar?>(front, a, b) { CarsKeepOrder(front, a, b); }
  }

  lemma {:induction false} EventsKeepOrder(os: seq<Event?>, a: Event, b: Event)
    requires ListedBefore<Event?>(os, a, b)
    ensures ListedBefore<Event>(Events(os), a, b)
  {
    var front, last := os[..|os| - 1], os[|os| - 1];
    assert os == front + [last];
    ListedBeforeSnoc<Event?>(front, last, a, b);
    if last != null { ListedBeforeSnoc<Event>(Events(front), last, a, b); }
    if ListedBefore<Event?>(front, a, b) { EventsKeepOrder(front, a, b); }
  }

  // Car o at i is the last one in the slice with its key.
  ghost predicate LastWithKey(os: seq<CCar?>, key: CCar -> int, i: nat) {
    i < |os| && os[i] != null && forall j :: i < j < |os| && os[j] != null ==> key(os[j]) != key(os[i])
  }

  lemma {:induction false} LastOfCars(os: seq<CCar?>, key: CCar -> int, i: nat)
    requires LastWithKey(os, key, i)
    ensures var owners := WithKey(Cars(os), key, key(os[i])); owners != [] && owners[|owners| - 1] == os[i]
  {
    var front, last := os[..|os| - 1], os[|os| - 1];
    if i < |front| {
      LastOfCars(front, key, i);
    }
    if last != null { WithKeySnoc<CCar>(Cars(front), last, key, key(os[i])); }
  }

  method GroupCars(os: seq<CCar?>, key: CCar -> int) returns (byKey: map<int, seq<CCar>>)
    ensures Groups<CCar>(byKey, Cars(os), key)
    ensures null !in os ==> Groups<CCar>(byKey, os, key)
    ensures forall a: CCar, b: CCar ::
      key(a) == key(b) && ListedBefore<CCar?>(os, a, b) ==> key(a) in byKey && ListedBefore(byKey[key(a)], a, b)
  {
    byKey := map[];
    for i := 0 to |os|
      invariant Groups<CCar>(byKey, Cars(os[..i]), key)
    {
      Snoc(os, i);
      if os[i] != null {
        var o: CCar := os[i];
        GroupOneMore<CCar>(byKey, Cars(os[..i]), key, o);
        byKey := AddToGroup<CCar>(byKey, key(o), o);
      }
    }
    assert os[..|os|] == os;
    CarsOf(os);
    forall a: CCar, b: CCar | key(a) == key(b) && ListedBefore<CCar?>(os, a, b)
      ensures key(a) in byKey && ListedBefore(byKey[key(a)], a, b)
    {
      CarsKeepOrder(os, a, b);
      WithKeyKeepsOrder<CCar>(Cars(os), key, key(a), a, b);
    }
  }

  method GroupEvents(os: seq<Event?>) returns (byKey: map<int, seq<Event>>)
    ensures Groups<Event>(byKey, Events(os), EventId)
    ensures null !in os ==> Groups<Event>(byKey, os, EventId)
    ensures forall a: Event, b: Event ::
      a.id == b.id && ListedBefore<Event?>(os, a, b) ==> a.id in byKey && ListedBefore(byKey[a.id], a, b)
  {
    byKey := map[];
    for i := 0 to |os|
      invariant Groups<Event>(byKey, Events(os[..i]), EventId)
    {
      Snoc(os, i);
      if os[i] != null {
        var o: Event := os[i];
        GroupOneMore<Event>(byKey, Events(os[..i]), EventId, o);
        byKey := AddToGroup<Event>(byKey, EventId(o), o);
      }
    }
    assert os[..|os|] == os;
    EventsOf(os);
    forall a: Event, b: Event | a.id == b.id && ListedBefore<Event?>(os, a, b)
      ensures a.id in byKey && ListedBefore(byKey[a.id], a, b)
    {
      EventsKeepOrder(os, a, b);
      WithKeyKeepsOrder<Event>(Events(os), EventId, a.id, a, b);
    }
  }
}
