/** The to-many relationship from a car to its entries: the batch loader, the single-object loader,
    and the batch count loader. */
module CarEntriesLoader {
  import opened Options
  import opened Grouping
  import opened Models
  import opened Stitching

  // The owner a child is left with.
  ghost function OwnerR(cars: seq<CCar>, rel: CCarEntry, before: CCarEntryR): CCarEntryR {
    var owners := WithKey(cars, CarId, rel.cCarId);
    if owners == [] then before else CCarEntryR(owners[|owners| - 1], true)
  }

  // The list a parent is left with.
  ghost function ListR(cars: seq<CCar>, rels: seq<CCarEntry>, o: CCar, before: CCarR): CCarR {
    before.(cCarEntries := Stretch(WithKey(rels, EntryCarId, o.cols.id), Mult(cars, o)),
            loaded := before.loaded.(cCarEntries := true))
  }

  method LoadCCarEntries(os: seq<CCar?>, fetched: Fetched<CCarEntry>) returns (err: Option<string>)
    modifies Cars(os)`r, fetched.All()`r
    ensures err == if |os| == 0 || fetched.Rows? then None else Some(fetched.error)
    ensures |os| == 0 || fetched.Failed? ==>
      (forall o :: o in Cars(os) ==> unchanged(o)) && (forall e :: e in fetched.All() ==> unchanged(e))
    ensures |os| > 0 && fetched.Rows? ==>
      && (forall o :: o in Cars(os) ==> o.r == ListR(Cars(os), fetched.rows, o, old(o.r)))
      && (forall e :: e in fetched.rows ==> e.r == OwnerR(Cars(os), e, old(e.r)))
  {
    if |os| == 0 { return None; }
    if fetched.Failed? { return Some(fetched.error); }
    var rels := fetched.rows;
    ghost var cars := Cars(os);
    ResetEntries(os);
    var byKey := GroupCars(os, CarId);
    StitchEntries(cars, byKey, rels);
    return None;
  }

  // The loop over the children.
  method StitchEntries(ghost cars: seq<CCar>, byKey: map<int, seq<CCar>>, rels: seq<CCarEntry>)
    requires Groups<CCar>(byKey, cars, CarId)
    requires forall o :: o in cars ==> o.r.cCarEntries == [] && o.r.loaded.cCarEntries
    modifies cars`r, rels`r
    ensures forall o :: o in cars ==> o.r == ListR(cars, rels, o, old(o.r))
    ensures forall e :: e in rels ==> e.r == OwnerR(cars, e, old(e.r))
  {
    for i := 0 to |rels|
      invariant forall o :: o in cars ==> o.r == ListR(cars, rels[..i], o, old(o.r))
      invariant forall e :: e in rels ==> e.r == if e in rels[..i] then OwnerR(cars, e, old(e.r)) else old(e.r)
    {
      Snoc(rels, i);
      forall o | o in cars { StretchStep(rels, i, EntryCarId, o.cols.id, Mult(cars, o)); }
      LinkToOwners(cars, byKey, rels[i]);
    }
    assert rels[..|rels|] == rels;
  }

  // One round of that loop.
  method LinkToOwners(ghost cars: seq<CCar>, byKey: map<int, seq<CCar>>, rel: CCarEntry)
    requires Groups<CCar>(byKey, cars, CarId)
    modifies cars`r, rel`r
    ensures forall o :: o in cars ==>
      o.r == if o.cols.id != rel.cCarId then old(o.r)
             else old(o.r).(cCarEntries := old(o.r).cCarEntries + Copies(rel, Mult(cars, o)))
    ensures rel.r == OwnerR(cars, rel, old(rel.r))
  {
    WithKeyIn<CCar>(cars, CarId, rel.cCarId);
    if rel.cCarId in byKey {
      var owners := byKey[rel.cCarId];
      forall o | o in cars { WithKeyMult(cars, CarId, rel.cCarId, o); }
      assert forall o :: o in owners <==> o in cars && o.cols.id == rel.cCarId;
      AppendToOwners(owners, rel);
    } else {
      assert WithKey(cars, CarId, rel.cCarId) == [];
    }
  }

  // The first loop over the parents.
  method ResetEntries(os: seq<CCar?>)
    modifies Cars(os)`r
    ensures forall o :: o in Cars(os) ==>
      o.r == old(o.r).(cCarEntries := [], loaded := old(o.r).loaded.(cCarEntries := true))
  {
    for i := 0 to |os|
      invariant forall o :: o in Cars(os) ==>
        o.r == if o in os[..i] then old(o.r).(cCarEntries := [], loaded := old(o.r).loaded.(cCarEntries := true))
               else old(o.r)
    {
      assert os[i] in os;
      var o := os[i];
      if o != null {
        o.r := o.r.(cCarEntries := [], loaded := o.r.loaded.(cCarEntries := true));
      }
    }
  }

  // The inner loop over the owners of one child.
  method AppendToOwners(owners: seq<CCar>, rel: CCarEntry)
    requires owners != []
    modifies owners`r, rel`r
    ensures forall o :: o in owners ==>
      o.r == old(o.r).(cCarEntries := old(o.r).cCarEntries + Copies(rel, Mult(owners, o)))
    ensures rel.r == CCarEntryR(owners[|owners| - 1], true)
  {
    for j := 0 to |owners|
      invariant forall o :: o in owners ==>
        o.r == old(o.r).(cCarEntries := old(o.r).cCarEntries + Copies(rel, Mult(owners[..j], o)))
      invariant j > 0 ==> rel.r == CCarEntryR(owners[j - 1], true)
    {
      Snoc(owners, j);
      var o := owners[j];
      rel.r := CCarEntryR(o, true);
      o.r := o.r.(cCarEntries := o.r.cCarEntries + [rel]);
    }
    assert owners[..|owners|] == owners;
  }

  // The single-object loader. Its reset happens before the query, so it stays when the query fails.
  method LoadCCarEntriesOf(o: CCar?, fetched: Fetched<CCarEntry>) returns (err: Option<string>)
    modifies Cars([o])`r, fetched.All()`r
    ensures err == if o == null || fetched.Rows? then None else Some(fetched.error)
    ensures o != null ==>
      o.r == old(o.r).(cCarEntries := fetched.All(), loaded := old(o.r).loaded.(cCarEntries := fetched.Rows?))
    ensures forall e :: e in fetched.All() ==> e.r == if o == null then old(e.r) else CCarEntryR(o, true)
  {
    if o == null { return None; }
    assert o in [o];
    o.r := o.r.(cCarEntries := [], loaded := o.r.loaded.(cCarEntries := false));
    if fetched.Failed? { return Some(fetched.error); }
    var related := fetched.rows;
    for i := 0 to |related|
      invariant o.r == old(o.r).(cCarEntries := [], loaded := old(o.r).loaded.(cCarEntries := false))
      invariant forall e :: e in related[..i] ==> e.r == CCarEntryR(o, true)
    {
      related[i].r := CCarEntryR(o, true);
    }
    assert related[..|related|] == related;
    o.r := o.r.(cCarEntries := related, loaded := o.r.loaded.(cCarEntries := true));
    return None;
  }

  // One row of the grouped count query.
  datatype CountResult = CountResult(id: int, count: int)

  function LastCount(results: seq<CountResult>, k: int): int {
    if results == [] then 0
    else if results[|results| - 1].id == k then results[|results| - 1].count
    else LastCount(results[..|results| - 1], k)
  }

  /** A later count for the same car replaces an earlier one ... */
  lemma {:induction false} LastCountOf(results: seq<CountResult>, k: int, i: nat)
    requires i < |results| && results[i].id == k && forall j :: i < j < |results| ==> results[j].id != k
    ensures LastCount(results, k) == results[i].count
  {
    if i < |results| - 1 { LastCountOf(results[..|results| - 1], k, i); }
  }

  /** ... and a car without a count has none. */
  lemma {:induction false} NoCountOf(results: seq<CountResult>, k: int)
    requires forall i :: 0 <= i < |results| ==> results[i].id != k
    ensures LastCount(results, k) == 0
  {
    if results != [] { NoCountOf(results[..|results| - 1], k); }
  }

  method LoadCountCCarEntries(os: seq<CCar?>, fetched: Fetched<CountResult>) returns (err: Option<string>)
    modifies Cars(os)`c
    ensures err == if |os| == 0 || fetched.Rows? then None else Some(fetched.error)
    ensures forall o :: o in Cars(os) ==>
      o.c == if fetched.Rows? then CCarC(Some(LastCount(fetched.rows, o.cols.id))) else old(o.c)
  {
    if |os| == 0 { return None; }
    if fetched.Failed? { return Some(fetched.error); }
    var results := fetched.rows;
    var countMap: map<int, int> := map[];
    for i := 0 to |results|
      invariant forall k :: LastCount(results[..i], k) == if k in countMap then countMap[k] else 0
    {
      Snoc(results, i);
      countMap := countMap[results[i].id := results[i].count];
    }
    assert results[..|results|] == results;
    for i := 0 to |os|
      invariant forall o :: o in os[..i] && o != null ==> o.c == CCarC(Some(LastCount(results, o.cols.id)))
    {
      assert os[i] in os;
      var o := os[i];
      if o != null {
        o.c := CCarC(Some(if o.cols.id in countMap then countMap[o.cols.id] else 0));
      }
    }
    assert os[..|os|] == os;
    return None;
  }

  // ----- what the loaders leave, over the slice -----

  /** An entry points to the last car in the slice that has its car id ... */
  lemma OwnerIsLastListed(os: seq<CCar?>, e: CCarEntry, before: CCarEntryR, i: nat)
    requires i < |os| && os[i] != null && os[i].cols.id == e.cCarId
    requires forall j :: i < j < |os| && os[j] != null ==> os[j].cols.id != e.cCarId
    ensures OwnerR(Cars(os), e, before) == CCarEntryR(os[i], true)
  {
    LastOfCars(os, CarId, i);
  }

  /** ... and to the car it pointed to before, if there is none. */
  lemma OwnerStays(os: seq<CCar?>, e: CCarEntry, before: CCarEntryR)
    requires forall o: CCar :: o in os ==> o.cols.id != e.cCarId
    ensures OwnerR(Cars(os), e, before) == before
  {
    WithKeyIn<CCar>(Cars(os), CarId, e.cCarId);
  }

  /** A car's list holds the entries with its id, each as often as the car is in the slice, in the order of
      the rows; it counts as loaded, and its other relationships stay. */
  lemma ListHoldsOwnEntries(os: seq<CCar?>, rels: seq<CCarEntry>, o: CCar, before: CCarR)
    requires o in os
    ensures var r := ListR(Cars(os), rels, o, before);
      && (forall e :: e in r.cCarEntries <==> e in rels && e.cCarId == o.cols.id)
      && (forall a: CCarEntry, b: CCarEntry ::
            a.cCarId == o.cols.id && ListedBefore(rels, a, b) ==> ListedBefore(r.cCarEntries, a, b))
      && r.loaded.cCarEntries && r.loaded.cCarClass == before.loaded.cCarClass && r.loaded.event == before.loaded.event
      && r.cCarClass == before.cCarClass && r.event == before.event
  {
    var own, n := WithKey(rels, EntryCarId, o.cols.id), Mult(Cars(os), o);
    WithKeyIn<CCarEntry>(rels, EntryCarId, o.cols.id);
    assert n > 0;
    StretchHoldsAll<CCarEntry>(own, n);
    forall a: CCarEntry, b: CCarEntry | a.cCarId == o.cols.id && ListedBefore(rels, a, b)
      ensures ListedBefore(Stretch(own, n), a, b)
    {
      WithKeyKeepsOrder<CCarEntry>(rels, EntryCarId, o.cols.id, a, b);
      StretchKeepsOrder<CCarEntry>(own, n, a, b);
    }
  }

  // ----- what the loaders agree on -----

  /** Batch stitching agrees with the nested loop it replaces on every back pointer, and on a parent's
      list exactly when the parent is listed at most once or its children are all the same row. */
  lemma BatchMatchesNestedLoop(cars: seq<CCar>, rels: seq<CCarEntry>, o: CCar, before: CCarR)
    ensures ListR(cars, rels, o, before).cCarEntries == ListOf(NestedLoop(cars, CarId, rels, EntryCarId), o)
       <==> Mult(cars, o) <= 1 || AllSame(WithKey(rels, EntryCarId, o.cols.id))
    ensures forall e :: e in rels ==>
      var owner := NestedLoop(cars, CarId, rels, EntryCarId).owner;
      OwnerR(cars, e, CCarEntryR(null, false))
      == if e in owner then CCarEntryR(owner[e], true) else CCarEntryR(null, false)
  {
    NestedLists(cars, CarId, rels, EntryCarId, o);
    StretchIsRepeat(WithKey(rels, EntryCarId, o.cols.id), Mult(cars, o));
    forall e | e in rels { NestedOwners(cars, CarId, rels, EntryCarId, e); }
  }

  // The batch query: the rows of the table that belong to any of the cars.
  ghost function EntriesQuery(table: seq<CCarEntry>, cars: seq<CCar>): seq<CCarEntry> {
    if table == [] then []
    else
      var front, e := EntriesQuery(table[..|table| - 1], cars), table[|table| - 1];
      if WithKey(cars, CarId, e.cCarId) != [] then front + [e] else front
  }

  lemma {:induction false} QueryKeepsChildren(table: seq<CCarEntry>, cars: seq<CCar>, o: CCar)
    requires o in cars
    ensures WithKey(EntriesQuery(table, cars), EntryCarId, o.cols.id) == WithKey(table, EntryCarId, o.cols.id)
  {
    if table != [] {
      var front, e := table[..|table| - 1], table[|table| - 1];
      QueryKeepsChildren(front, cars, o);
      WithKeyIn<CCar>(cars, CarId, e.cCarId);
      WithKeySnoc(EntriesQuery(front, cars), e, EntryCarId, o.cols.id);
    }
  }

  /** For cars without repeated ids the batch loader leaves each car and its entries as the single-object
      loader would, run on that car alone over the same table. */
  lemma BatchMatchesSingle(cars: seq<CCar>, table: seq<CCarEntry>, o: CCar, before: CCarR)
    requires UniqueKeys(cars, CarId) && o in cars
    ensures var single := WithKey(table, EntryCarId, o.cols.id);
      && ListR(cars, EntriesQuery(table, cars), o, before).cCarEntries == single
      && forall e, r :: e in single ==> OwnerR(cars, e, r) == CCarEntryR(o, true)
  {
    var single := WithKey(table, EntryCarId, o.cols.id);
    UniqueKeysMult<CCar>(cars, CarId, o);
    QueryKeepsChildren(table, cars, o);
    StretchOnce(single);
    forall e, r | e in single ensures OwnerR(cars, e, r) == CCarEntryR(o, true) {
      WithKeyIn<CCarEntry>(table, EntryCarId, o.cols.id);
      UniqueKeysSelect<CCar>(cars, CarId, o);
    }
  }

  // The grouped count query, in any order of its groups.
  ghost predicate CountsQuery(results: seq<CountResult>, table: seq<CCarEntry>, cars: seq<CCar>) {
    && (forall i, j :: 0 <= i < j < |results| ==> results[i].id != results[j].id)
    && (forall i :: 0 <= i < |results| ==>
          results[i].count == |WithKey(EntriesQuery(table, cars), EntryCarId, results[i].id)|)
    && (forall k :: WithKey(EntriesQuery(table, cars), EntryCarId, k) != [] ==>
          exists i :: 0 <= i < |results| && results[i].id == k)
  }

  lemma {:induction false} LastCountIs(results: seq<CountResult>, k: int, count: int)
    requires forall i :: 0 <= i < |results| && results[i].id == k ==> results[i].count == count
    ensures LastCount(results, k) == if exists i :: 0 <= i < |results| && results[i].id == k then count else 0
  {
    if results != [] {
      var front, last := results[..|results| - 1], results[|results| - 1];
      LastCountIs(front, k, count);
      assert results == front + [last];
      if i :| 0 <= i < |front| && front[i].id == k { assert results[i].id == k; }
    }
  }

  /** Counting and loading agree: a car listed n times has n times its count in its list, so for a car
      listed once the stored count is the length of the list. */
  lemma CountsMatchLists(cars: seq<CCar>, table: seq<CCarEntry>, results: seq<CountResult>, o: CCar, before: CCarR)
    requires o in cars && CountsQuery(results, table, cars)
    ensures |ListR(cars, EntriesQuery(table, cars), o, before).cCarEntries|
         == LastCount(results, o.cols.id) * Mult(cars, o)
  {
    var k := o.cols.id;
    LastCountIs(results, k, |WithKey(EntriesQuery(table, cars), EntryCarId, k)|);
  }
}
