/** The mutual one-to-one relationship between an event and its analysis row. */
module AnalysisProtoLoader {
  import opened Grouping
  import opened Models
  import opened Options
  import opened Stitching

  // Pointing to the last of some events, if there are any.
  ghost function PointToLast(events: seq<Event>, before: AnalysisProtoR): AnalysisProtoR {
    if events == [] then before else AnalysisProtoR(events[|events| - 1], true)
  }

  // What an event is left with: the first analysis row with its id, or none.
  ghost function ProtoR(rels: seq<AnalysisProto>, o: Event): EventR {
    EventR(match First(rels, ProtoEventId, o.id) case Some(c) => c case None => null, true)
  }

  // What an analysis row is left with: the last of the events that chose it.
  ghost function BackR(events: seq<Event>, rels: seq<AnalysisProto>, rel: AnalysisProto, before: AnalysisProtoR)
    : AnalysisProtoR
  {
    PointToLast(Matched(events, EventId, rels, ProtoEventId, rel), before)
  }

  method LoadAnalysisProto(os: seq<Event?>, fetched: Fetched<AnalysisProto>) returns (err: Option<string>)
    modifies Events(os)`r, fetched.All()`r
    ensures err == if |os| == 0 || fetched.Rows? then None else Some(fetched.error)
    ensures |os| == 0 || fetched.Failed? ==>
      (forall o :: o in Events(os) ==> unchanged(o)) && (forall e :: e in fetched.All() ==> unchanged(e))
    ensures |os| > 0 && fetched.Rows? ==>
      && (forall o :: o in Events(os) ==> o.r == ProtoR(fetched.rows, o))
      && (forall e :: e in fetched.rows ==> e.r == BackR(Events(os), fetched.rows, e, old(e.r)))
  {
    if |os| == 0 { return None; }
    if fetched.Failed? { return Some(fetched.error); }
    ResetProto(os);
    var byKey := GroupEvents(os);
    StitchProtos(Events(os), byKey, fetched.rows);
    return None;
  }

  /** An event points to the first row with its id, or to none if no row has it. */
  lemma ProtoIsFirstRow(rels: seq<AnalysisProto>, o: Event)
    ensures var r := ProtoR(rels, o);
      && r.loadedAnalysisProto
      && (r.analysisProto == null <==> forall c :: c in rels ==> c.eventId != o.id)
      && (r.analysisProto != null ==> exists i ::
            && 0 <= i < |rels| && rels[i] == r.analysisProto && rels[i].eventId == o.id
            && forall j :: 0 <= j < i ==> rels[j].eventId != o.id)
  {
    FirstIsFirst<AnalysisProto>(rels, ProtoEventId, o.id);
  }

  lemma MatchedPointTo(os: seq<Event?>, rels: seq<AnalysisProto>, e: AnalysisProto, o: Event)
    requires e in rels
    ensures o in Matched(Events(os), EventId, rels, ProtoEventId, e)
       <==> o in os && ProtoR(rels, o).analysisProto == e
  {
    MatchedPartition<Event, AnalysisProto>(Events(os), EventId, rels, ProtoEventId, o, e);
    var gained := Matched(Events(os), EventId, rels, ProtoEventId, e);
    assert o in gained <==> Mult(gained, o) > 0;
  }

  lemma NoneNewAfterLast(os: seq<Event?>, rels: seq<AnalysisProto>, e: AnalysisProto, a: Event, b: Event)
    requires var gained := Matched(Events(os), EventId, rels, ProtoEventId, e);
      gained != [] && a == gained[|gained| - 1] && b in gained
    ensures !ListedBefore<Event?>(os, a, b)
  {
    var owners := WithKey(Events(os), EventId, e.eventId);
    DedupHolds<Event>(owners);
    WithKeyIn<Event>(Events(os), EventId, e.eventId);
    if ListedBefore<Event?>(os, a, b) {
      EventsKeepOrder(os, a, b);
      assert a in Dedup(owners);
      WithKeyKeepsOrder<Event>(Events(os), EventId, e.eventId, a, b);
      NotLastNew<Event>(owners, a, b);
    }
  }

  /** If an event o points to a row, the row points back to such an event, and to one that is listed for the
      first time no earlier than o. */
  lemma BackIsLastNew(os: seq<Event?>, rels: seq<AnalysisProto>, e: AnalysisProto, o: Event, before: AnalysisProtoR)
    returns (a: Event)
    requires e in rels && o in os && ProtoR(rels, o).analysisProto == e
    ensures BackR(Events(os), rels, e, before) == AnalysisProtoR(a, true)
    ensures a in os && ProtoR(rels, a).analysisProto == e && !ListedBefore<Event?>(os, a, o)
  {
    var gained := Matched(Events(os), EventId, rels, ProtoEventId, e);
    MatchedPointTo(os, rels, e, o);
    a := gained[|gained| - 1];
    MatchedPointTo(os, rels, e, a);
    NoneNewAfterLast(os, rels, e, a, o);
  }

  /** A row that no event points to is left as it was. */
  lemma UnclaimedRowStays(os: seq<Event?>, rels: seq<AnalysisProto>, e: AnalysisProto, before: AnalysisProtoR)
    requires e in rels && forall o: Event :: o in os ==> ProtoR(rels, o).analysisProto != e
    ensures BackR(Events(os), rels, e, before) == before
  {
    var gained := Matched(Events(os), EventId, rels, ProtoEventId, e);
    if gained != [] { MatchedPointTo(os, rels, e, gained[0]); }
  }

  method ResetProto(os: seq<Event?>)
    modifies Events(os)`r
    ensures forall o :: o in Events(os) ==> o.r == EventR(null, true)
  {
    for i := 0 to |os|
      invariant forall o :: o in os[..i] && o != null ==> o.r == EventR(null, true)
    {
      assert os[i] in os;
      var o := os[i];
      if o != null {
        o.r := EventR(null, true);
      }
    }
    assert os[..|os|] == os;
  }

  method StitchProtos(ghost events: seq<Event>, byKey: map<int, seq<Event>>, rels: seq<AnalysisProto>)
    requires Groups<Event>(byKey, events, EventId)
    requires forall o :: o in events ==> o.r == EventR(null, true)
    modifies events`r, rels`r
    ensures forall o :: o in events ==> o.r == ProtoR(rels, o)
    ensures forall e :: e in rels ==> e.r == BackR(events, rels, e, old(e.r))
  {
    for i := 0 to |rels|
      invariant forall o :: o in events ==> o.r == ProtoR(rels[..i], o)
      invariant forall e :: e in rels ==> e.r == BackR(events, rels[..i], e, old(e.r))
    {
      forall k { FirstStep<AnalysisProto>(rels, i, ProtoEventId, k); }
      FirstIsFirst<AnalysisProto>(rels[..i], ProtoEventId, rels[i].eventId);
      LinkToOwners(events, byKey, rels[i], First(rels[..i], ProtoEventId, rels[i].eventId).Some?);
    }
    assert rels[..|rels|] == rels;
  }

  method LinkToOwners(ghost events: seq<Event>, byKey: map<int, seq<Event>>, rel: AnalysisProto, ghost taken: bool)
    requires Groups<Event>(byKey, events, EventId)
    requires forall o :: o in events && o.id == rel.eventId ==> (o.r.analysisProto != null <==> taken)
    modifies events`r, rel`r
    ensures forall o :: o in events ==>
      o.r == if taken || o.id != rel.eventId then old(o.r) else old(o.r).(analysisProto := rel)
    ensures rel.r == if taken then old(rel.r)
      else PointToLast(Dedup(WithKey(events, EventId, rel.eventId)), old(rel.r))
  {
    WithKeyIn<Event>(events, EventId, rel.eventId);
    if rel.eventId in byKey {
      var owners := byKey[rel.eventId];
      assert forall o :: o in owners <==> o in events && o.id == rel.eventId;
      assert forall i :: 0 <= i < |owners| ==> owners[i] in events;
      OfferToOwners(owners, rel, taken);
    } else {
      assert WithKey(events, EventId, rel.eventId) == [];
    }
  }

  // The inner loop over the owners of one child.
  method OfferToOwners(owners: seq<Event>, rel: AnalysisProto, ghost taken: bool)
    requires forall o :: o in owners ==> (o.r.analysisProto != null <==> taken)
    modifies owners`r, rel`r
    ensures forall o :: o in owners ==> o.r == if taken then old(o.r) else old(o.r).(analysisProto := rel)
    ensures rel.r == if taken then old(rel.r) else PointToLast(Dedup(owners), old(rel.r))
  {
    for j := 0 to |owners|
      invariant forall o :: o in owners ==>
        o.r == if taken || o !in owners[..j] then old(o.r) else old(o.r).(analysisProto := rel)
      invariant rel.r == if taken then old(rel.r) else PointToLast(Dedup(owners[..j]), old(rel.r))
    {
      DedupStep(owners, j);
      var o := owners[j];
      if o.r.analysisProto == null {
        rel.r := AnalysisProtoR(o, true);
        o.r := o.r.(analysisProto := rel);
      }
    }
    assert owners[..|owners|] == owners;
  }

  // After loading, o points to e.
  ghost predicate PointsTo(rels: seq<AnalysisProto>, o: Event, e: AnalysisProto) {
    ProtoR(rels, o).analysisProto == e
  }

  // After loading freshly fetched rows, e points back to o.
  ghost predicate PointsBack(events: seq<Event>, rels: seq<AnalysisProto>, o: Event, e: AnalysisProto) {
    BackR(events, rels, e, AnalysisProtoR(null, false)).event == o
  }

  /** The pointers the loader sets are inverse to each other, exactly when no two events with the same id
      share an analysis row; in particular whenever the events have distinct ids. */
  lemma MutuallyInverse(events: seq<Event>, rels: seq<AnalysisProto>)
    ensures (forall o, e :: o in events && e in rels ==> (PointsTo(rels, o, e) <==> PointsBack(events, rels, o, e)))
       <==> (forall o, p :: o in events && p in events && o.id == p.id && o != p ==>
               First(rels, ProtoEventId, o.id).None?)
  {
    forall o, e | o in events && e in rels
      ensures PointsBack(events, rels, o, e) ==> PointsTo(rels, o, e)
      ensures PointsTo(rels, o, e) ==> exists q :: q in events && q.id == o.id && PointsBack(events, rels, q, e)
    {
      OwnerIsMatched(events, rels, o, e);
    }
    forall o | o in events && First(rels, ProtoEventId, o.id).Some?
      ensures First(rels, ProtoEventId, o.id).value in rels
    {
      FirstIsFirst<AnalysisProto>(rels, ProtoEventId, o.id);
    }
  }

  lemma OwnerIsMatched(events: seq<Event>, rels: seq<AnalysisProto>, o: Event, e: AnalysisProto)
    requires o in events && e in rels
    ensures PointsBack(events, rels, o, e) ==> PointsTo(rels, o, e)
    ensures PointsTo(rels, o, e) ==> exists q :: q in events && q.id == o.id && PointsBack(events, rels, q, e)
  {
    var owners := Matched(events, EventId, rels, ProtoEventId, e);
    MatchedPartition<Event, AnalysisProto>(events, EventId, rels, ProtoEventId, o, e);
    FirstIsFirst<AnalysisProto>(rels, ProtoEventId, o.id);
    assert Mult(owners, o) > 0 ==> o in owners;
    if owners != [] {
      var q := owners[|owners| - 1];
      assert q in owners;
      MatchedPartition<Event, AnalysisProto>(events, EventId, rels, ProtoEventId, q, e);
      FirstIsFirst<AnalysisProto>(rels, ProtoEventId, q.id);
      assert PointsBack(events, rels, q, e);
    }
  }

  /** Each event points to the row the nested loop would choose for it. A row points back to the event that
      loop would leave it with, exactly when another row with its key came first, or no event has its key, or,
      once the last of these events has been listed, all events with that key have. */
  lemma BatchMatchesNestedLoop(events: seq<Event>, rels: seq<AnalysisProto>, o: Event, e: AnalysisProto)
    requires o in events
    ensures var nested, owners := NestedPairs(events, EventId, rels, ProtoEventId), WithKey(events, EventId, e.eventId);
      && ProtoR(rels, o).analysisProto == (if o in nested.child then nested.child[o] else null)
      && (BackR(events, rels, e, AnalysisProtoR(null, false)).event
            == (if e in nested.owner then nested.owner[e] else null)
          <==> || First(rels, ProtoEventId, e.eventId) != Some(e)
               || owners == [] || NothingNewAfter(owners, owners[|owners| - 1]))
  {
    NestedPairsChild<Event, AnalysisProto>(events, EventId, rels, ProtoEventId, o);
    NestedPairsOwner<Event, AnalysisProto>(events, EventId, rels, ProtoEventId, e);
    var owners := WithKey(events, EventId, e.eventId);
    if owners != [] { DedupLast(owners, owners[|owners| - 1]); }
  }

  /** In particular all pointers are those of the nested loop when no event is listed twice. */
  lemma BatchMatchesNestedLoopOnce(events: seq<Event>, rels: seq<AnalysisProto>, e: AnalysisProto)
    requires NoDuplicates(events)
    ensures var nested := NestedPairs(events, EventId, rels, ProtoEventId);
      BackR(events, rels, e, AnalysisProtoR(null, false)).event == if e in nested.owner then nested.owner[e] else null
  {
    var owners := WithKey(events, EventId, e.eventId);
    NestedPairsOwner<Event, AnalysisProto>(events, EventId, rels, ProtoEventId, e);
    WithKeyNoDuplicates(events, EventId, e.eventId);
    DedupSame(owners);
  }
}
