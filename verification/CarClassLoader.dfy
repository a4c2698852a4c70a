/** The to-one relationship from a car to its class. */
module CarClassLoader {
  import opened Grouping
  import opened Models
  import opened Options
  import opened Stitching

  // What a car is left with: the first class with the car's key, or none.
  ghost function ClassR(rels: seq<CCarClass>, o: CCar, before: CCarR): CCarR {
    var chosen := match First(rels, ClassId, o.cols.cCarClassId) case Some(c) => c case None => null;
    before.(cCarClass := chosen, loaded := before.loaded.(cCarClass := true))
  }

  // What a class is left with: the cars that chose it, appended to what was there.
  ghost function CarsR(cars: seq<CCar>, rels: seq<CCarClass>, rel: CCarClass, before: CCarClassR): CCarClassR {
    before.(cCars := before.cCars + Matched(cars, CarClassId, rels, ClassId, rel))
  }

  method LoadCCarClass(os: seq<CCar?>, fetched: Fetched<CCarClass>) returns (err: Option<string>)
    modifies Cars(os)`r, fetched.All()`r
    ensures err == if |os| == 0 || fetched.Rows? then None else Some(fetched.error)
    ensures |os| == 0 || fetched.Failed? ==>
      (forall o :: o in Cars(os) ==> unchanged(o)) && (forall e :: e in fetched.All() ==> unchanged(e))
    ensures |os| > 0 && fetched.Rows? ==>
      && (forall o :: o in Cars(os) ==> o.r == ClassR(fetched.rows, o, old(o.r)))
      && (forall e :: e in fetched.rows ==> e.r == CarsR(Cars(os), fetched.rows, e, old(e.r)))
    ensures |os| > 0 && fetched.Rows? ==>
      forall e: CCarClass, a: CCar, b: CCar ::
        e in fetched.rows && a in os && b in os && a.r.cCarClass == e == b.r.cCarClass && ListedBefore<CCar?>(os, a, b)
        ==> ListedBefore<CCar>(e.r.cCars[|old(e.r.cCars)|..], a, b)
  {
    if |os| == 0 { return None; }
    if fetched.Failed? { return Some(fetched.error); }
    ResetClass(os);
    var byKey := GroupCars(os, CarClassId);
    StitchClasses(Cars(os), byKey, fetched.rows);
    forall e: CCarClass, a: CCar, b: CCar | e in fetched.rows && a in os && b in os
      && a.r.cCarClass == e == b.r.cCarClass && ListedBefore<CCar?>(os, a, b)
      ensures ListedBefore<CCar>(e.r.cCars[|old(e.r.cCars)|..], a, b)
    {
      BackListInOrder(os, fetched.rows, e, a, b);
      assert e.r.cCars[|old(e.r.cCars)|..] == Matched(Cars(os), CarClassId, fetched.rows, ClassId, e);
    }
    return None;
  }

  // Of two cars that chose the same class, the one listed first in the slice comes first in its list.
  lemma BackListInOrder(os: seq<CCar?>, rels: seq<CCarClass>, e: CCarClass, a: CCar, b: CCar)
    requires First(rels, ClassId, a.cols.cCarClassId) == Some(e) == First(rels, ClassId, b.cols.cCarClassId)
    requires ListedBefore<CCar?>(os, a, b)
    ensures ListedBefore<CCar>(Matched(Cars(os), CarClassId, rels, ClassId, e), a, b)
  {
    FirstIsFirst<CCarClass>(rels, ClassId, a.cols.cCarClassId);
    CarsKeepOrder(os, a, b);
    WithKeyKeepsOrder<CCar>(Cars(os), CarClassId, e.id, a, b);
    DedupKeepsOrder<CCar>(WithKey(Cars(os), CarClassId, e.id), a, b);
  }

  /** A car's class is the first row with its class id, or none if no row has it; it counts as loaded, and the
      car's other relationships stay. */
  lemma ClassIsFirstRow(rels: seq<CCarClass>, o: CCar, before: CCarR)
    ensures var r := ClassR(rels, o, before);
      && (r.cCarClass == null <==> forall c :: c in rels ==> c.id != o.cols.cCarClassId)
      && (r.cCarClass != null ==> exists i ::
            && 0 <= i < |rels| && rels[i] == r.cCarClass && rels[i].id == o.cols.cCarClassId
            && forall j :: 0 <= j < i ==> rels[j].id != o.cols.cCarClassId)
      && r.loaded.cCarClass && r.loaded.event == before.loaded.event
      && r.loaded.cCarEntries == before.loaded.cCarEntries
      && r.event == before.event && r.cCarEntries == before.cCarEntries
  {
    FirstIsFirst<CCarClass>(rels, ClassId, o.cols.cCarClassId);
  }

  /** A class keeps the cars it had and gains, at the end of its list, the cars of the slice that chose it. */
  lemma ListGainsItsCars(os: seq<CCar?>, rels: seq<CCarClass>, e: CCarClass, before: CCarClassR, carR: CCarR)
    requires e in rels
    ensures var r := CarsR(Cars(os), rels, e, before);
      && before.cCars <= r.cCars && r.loadedCCars == before.loadedCCars
      && forall o: CCar ::
           o in r.cCars[|before.cCars|..] <==> o in os && ClassR(rels, o, carR).cCarClass == e
  {
    var gained := Matched(Cars(os), CarClassId, rels, ClassId, e);
    assert CarsR(Cars(os), rels, e, before).cCars[|before.cCars|..] == gained;
    forall o: CCar ensures o in gained <==> o in os && ClassR(rels, o, carR).cCarClass == e {
      MatchedPartition<CCar, CCarClass>(Cars(os), CarClassId, rels, ClassId, o, e);
      assert o in gained <==> Mult(gained, o) > 0;
    }
  }

  method ResetClass(os: seq<CCar?>)
    modifies Cars(os)`r
    ensures forall o :: o in Cars(os) ==> o.r == ClassR([], o, old(o.r))
  {
    for i := 0 to |os|
      invariant forall o :: o in Cars(os) ==> o.r == if o in os[..i] then ClassR([], o, old(o.r)) else old(o.r)
    {
      assert os[i] in os;
      var o := os[i];
      if o != null {
        o.r := o.r.(cCarClass := null, loaded := o.r.loaded.(cCarClass := true));
      }
    }
  }

  // The loop over the children.
  method StitchClasses(ghost cars: seq<CCar>, byKey: map<int, seq<CCar>>, rels: seq<CCarClass>)
    requires Groups<CCar>(byKey, cars, CarClassId)
    requires forall o :: o in cars ==> o.r.cCarClass == null && o.r.loaded.cCarClass
    modifies cars`r, rels`r
    ensures forall o :: o in cars ==> o.r == ClassR(rels, o, old(o.r))
    ensures forall e :: e in rels ==> e.r == CarsR(cars, rels, e, old(e.r))
  {
    for i := 0 to |rels|
      invariant forall o :: o in cars ==> o.r == ClassR(rels[..i], o, old(o.r))
      invariant forall e :: e in rels ==> e.r == CarsR(cars, rels[..i], e, old(e.r))
    {
      forall k { FirstStep<CCarClass>(rels, i, ClassId, k); }
      FirstIsFirst<CCarClass>(rels[..i], ClassId, rels[i].id);
      LinkToOwners(cars, byKey, rels[i], First(rels[..i], ClassId, rels[i].id).Some?);
    }
    assert rels[..|rels|] == rels;
  }

  // One round of that loop; the owners of one child either all have a class already or all have none.
  method LinkToOwners(ghost cars: seq<CCar>, byKey: map<int, seq<CCar>>, rel: CCarClass, ghost taken: bool)
    requires Groups<CCar>(byKey, cars, CarClassId)
    requires forall o :: o in cars && o.cols.cCarClassId == rel.id ==> (o.r.cCarClass != null <==> taken)
    modifies cars`r, rel`r
    ensures forall o :: o in cars ==>
      o.r == if taken || o.cols.cCarClassId != rel.id then old(o.r) else old(o.r).(cCarClass := rel)
    ensures rel.r == if taken then old(rel.r)
      else old(rel.r).(cCars := old(rel.r).cCars + Dedup(WithKey(cars, CarClassId, rel.id)))
  {
    WithKeyIn<CCar>(cars, CarClassId, rel.id);
    if rel.id in byKey {
      var owners := byKey[rel.id];
      assert forall o :: o in owners <==> o in cars && o.cols.cCarClassId == rel.id;
      assert forall i :: 0 <= i < |owners| ==> owners[i] in cars;
      OfferToOwners(owners, rel, taken);
    } else {
      assert WithKey(cars, CarClassId, rel.id) == [];
    }
  }

  // The inner loop over the owners of one child.
  method OfferToOwners(owners: seq<CCar>, rel: CCarClass, ghost taken: bool)
    requires forall o :: o in owners ==> (o.r.cCarClass != null <==> taken)
    modifies owners`r, rel`r
    ensures forall o :: o in owners ==> o.r == if taken then old(o.r) else old(o.r).(cCarClass := rel)
    ensures rel.r == if taken then old(rel.r) else old(rel.r).(cCars := old(rel.r).cCars + Dedup(owners))
  {
    for j := 0 to |owners|
      invariant forall o :: o in owners ==>
        o.r == if taken || o !in owners[..j] then old(o.r) else old(o.r).(cCarClass := rel)
      invariant rel.r == if taken then old(rel.r)
        else old(rel.r).(cCars := old(rel.r).cCars + Dedup(owners[..j]))
    {
      DedupStep(owners, j);
      var o := owners[j];
      if o.r.cCarClass == null {
        rel.r := rel.r.(cCars := rel.r.cCars + [o]);
        o.r := o.r.(cCarClass := rel);
      }
    }
    assert owners[..|owners|] == owners;
  }

  /** Each car points to the class the nested loop with break would choose for it; a class gets the list of
      cars that loop would give it exactly when no car with its key is listed twice, or another class with
      the same id came first. */
  lemma BatchMatchesNestedLoop(cars: seq<CCar>, rels: seq<CCarClass>, o: CCar, e: CCarClass, before: CCarR)
    requires o in cars
    ensures var nested := NestedLoopWithBreak(cars, CarClassId, rels, ClassId);
      && ClassR(rels, o, before).cCarClass == (if o in nested.child then nested.child[o] else null)
      && (CarsR(cars, rels, e, CCarClassR([], false)).cCars == ParentsOf(nested, e)
          <==> First(rels, ClassId, e.id) != Some(e) || NoDuplicates(WithKey(cars, CarClassId, e.id)))
  {
    NestedChild<CCar, CCarClass>(cars, CarClassId, rels, ClassId, o);
    MatchedIsNested<CCar, CCarClass>(cars, CarClassId, rels, ClassId, e);
  }

  /** Starting empty, the back lists of the classes partition the cars that have a class: a car is once in
      the list of the class it points to, and in no other list. */
  lemma BackListsPartition(cars: seq<CCar>, rels: seq<CCarClass>, o: CCar, e: CCarClass, before: CCarR)
    requires o in cars && e in rels
    ensures Mult(CarsR(cars, rels, e, CCarClassR([], false)).cCars, o)
         == if ClassR(rels, o, before).cCarClass == e then 1 else 0
  {
    MatchedPartition<CCar, CCarClass>(cars, CarClassId, rels, ClassId, o, e);
    assert [] + Matched(cars, CarClassId, rels, ClassId, e) == Matched(cars, CarClassId, rels, ClassId, e);
  }
}
