/** Slices for which the batch loaders part from the nested loops they replace, or leave pointers that are
    not inverse to each other. */
module StitchingExamples {
  import opened Models
  import opened Options
  import opened Stitching
  import CarEntriesLoader
  import CarClassLoader
  import AnalysisProtoLoader

  lemma WithKeyOfTwo<T>(x: T, y: T, key: T -> int)
    requires key(x) == key(y)
    ensures WithKey([x, y], key, key(x)) == [x, y] && First([x, y], key, key(x)) == Some(x)
  {
    WithKeySnoc<T>([], x, key, key(x));
    WithKeySnoc([x], y, key, key(x));
    assert [] + [x] == [x] && [x] + [y] == [x, y];
    FirstStep([x, y], 0, key, key(x));
    FirstStep([x, y], 1, key, key(x));
    assert [x, y][..1] == [x] && [x, y][..2] == [x, y];
  }

  lemma StretchOfTwo<T>(a: T, b: T)
    ensures Stretch([a, b], 2) == [a, a, b, b]
  {
    assert [a, b][..1] == [a] && [a][..0] == [];
    assert Copies(a, 2) == [a, a] && Copies(b, 2) == [b, b];
    assert Stretch([a], 2) == Stretch([], 2) + [a, a] == [a, a];
    assert Stretch([a, b], 2) == Stretch([a], 2) + [b, b];
  }

  lemma RepeatOfTwo<T>(a: T, b: T)
    ensures Repeat([a, b], 2) == [a, b, a, b]
  {
    assert Repeat([a, b], 1) == Repeat([a, b], 0) + [a, b] == [a, b];
    assert Repeat([a, b], 2) == Repeat([a, b], 1) + [a, b];
  }

  // A car listed twice, with two entries.
  lemma CarListedTwice(o: CCar, a: CCarEntry, b: CCarEntry, before: CCarR)
    requires a != b && a.cCarId == b.cCarId == o.cols.id
    ensures CarEntriesLoader.ListR([o, o], [a, b], o, before).cCarEntries == [a, a, b, b]
    ensures ListOf(NestedLoop([o, o], CarId, [a, b], EntryCarId), o) == [a, b, a, b]
    ensures [a, a, b, b] != [a, b, a, b]
  {
    WithKeyOfTwo<CCarEntry>(a, b, EntryCarId);
    NestedLists<CCar, CCarEntry>([o, o], CarId, [a, b], EntryCarId, o);
    assert Mult([o, o], o) == 2;
    StretchOfTwo<CCarEntry>(a, b);
    RepeatOfTwo<CCarEntry>(a, b);
    assert [a, a, b, b][1] == a && [a, b, a, b][1] == b;
  }

  // A car listed twice is once in the list of its class, where the nested loop lists it twice.
  lemma CarOfClassListedTwice(o: CCar, e: CCarClass)
    requires o.cols.cCarClassId == e.id
    ensures CarClassLoader.CarsR([o, o], [e], e, CCarClassR([], false)).cCars == [o]
    ensures ParentsOf(NestedLoopWithBreak([o, o], CarClassId, [e], ClassId), e) == [o, o]
  {
    WithKeyOfTwo<CCar>(o, o, CarClassId);
    FirstStep<CCarClass>([e], 0, ClassId, e.id);
    assert [e][..1] == [e] && [o, o][..1] == [o] && [o][..0] == [];
    assert Dedup([o]) == [] + [o] == [o];
    NestedParents<CCar, CCarClass>([o, o], CarClassId, [e], ClassId, e);
  }

  // Two events with the same id share a row: both point to it, and it points back to the second.
  lemma EventsShareRow(a: Event, b: Event, p: AnalysisProto)
    requires a != b && a.id == b.id == p.eventId
    ensures AnalysisProtoLoader.PointsTo([p], a, p) && AnalysisProtoLoader.PointsTo([p], b, p)
    ensures !AnalysisProtoLoader.PointsBack([a, b], [p], a, p) && AnalysisProtoLoader.PointsBack([a, b], [p], b, p)
  {
    WithKeyOfTwo<Event>(a, b, EventId);
    FirstStep<AnalysisProto>([p], 0, ProtoEventId, p.eventId);
    assert [p][..1] == [p] && [a, b][..1] == [a] && [a][..0] == [];
    assert Dedup([a]) == [] + [a] == [a];
    assert Dedup([a, b]) == [a] + [b] == [a, b];
  }

  // The first event listed again at the end: the row ends up with the second, in the nested loop with the first.
  lemma EventListedAgain(a: Event, b: Event, p: AnalysisProto)
    requires a != b && a.id == b.id == p.eventId
    ensures AnalysisProtoLoader.BackR([a, b, a], [p], p, AnalysisProtoR(null, false)).event == b
    ensures var owner := NestedPairs([a, b, a], EventId, [p], ProtoEventId).owner; p in owner && owner[p] == a
  {
    WithKeyOfTwo<Event>(a, b, EventId);
    WithKeySnoc<Event>([a, b], a, EventId, a.id);
    FirstStep<AnalysisProto>([p], 0, ProtoEventId, p.eventId);
    assert [p][..1] == [p] && [a, b] + [a] == [a, b, a];
    assert [a, b][..1] == [a] && [a][..0] == [] && [a, b, a][..2] == [a, b];
    assert Dedup([a]) == [] + [a] == [a];
    assert Dedup([a, b]) == [a] + [b] == [a, b];
    assert Dedup([a, b, a]) == Dedup([a, b]);
    NestedPairsOwner<Event, AnalysisProto>([a, b, a], EventId, [p], ProtoEventId, p);
  }
}
