/** The registry of running events in pkg/utils/event_lookup.go. Each operation, and each sweep of the
    watchdog, is one atomic step. Times are in nanoseconds. */
module EventRegistry {
  import opened Stitching

  class EventProcessingData {
    const key: string
    const id: int
    var lastDataEvent: int
    var closes: nat         // how often the six broadcast servers have been closed

    constructor (key: string, id: int, now: int)
      ensures this.key == key && this.id == id && lastDataEvent == now && closes == 0
    {
      this.key, this.id, lastDataEvent, closes := key, id, now, 0;
    }

    method MarkDataEvent(now: int)
      modifies this`lastDataEvent
      ensures lastDataEvent == now
    {
      lastDataEvent := now;
    }

    method Close()
      modifies this`closes
      ensures closes == old(closes) + 1
    {
      closes := closes + 1;
    }
  }

  datatype Selector = ById(id: int) | ByKey(key: string) | NoArg

  // ----- the registry as a state machine -----

  // lastData and closes cover every entry ever created.
  datatype Registry = Registry(
    lookup: map<string, EventProcessingData>, lastData: map<EventProcessingData, int>,
    closes: map<EventProcessingData, nat>, hasCallback: bool, deleted: seq<string>)

  datatype Op =
    | Add(e: EventProcessingData, now: int)                  // e is created unless its key is taken
    | Remove(selector: Selector, found: EventProcessingData?)
    | Clear
    | Mark(e: EventProcessingData, now: int)
    | Sweep(now: int, stale: seq<EventProcessingData>)       // the stale entries in the order they are met
    | SetCallback

  // The source converts the selector's signed id to 32 bits without sign.
  function ToUint32(id: int): int { id % 0x1_0000_0000 }

  // e is a possible answer of getEvent; null stands for ErrEventNotFound.
  ghost predicate Answers(lookup: map<string, EventProcessingData>, selector: Selector, e: EventProcessingData?) {
    match selector
    case ById(id) =>
      if e == null then forall k <- lookup :: lookup[k].id != ToUint32(id)
      else e in lookup.Values && e.id == ToUint32(id)
    case ByKey(key) => if e == null then key !in lookup else key in lookup && lookup[key] == e
    case NoArg => e == null
  }

  /** An id from 0 to 2^32 - 1 selects the entries with that id, a negative one those whose id is its two's
      complement in 32 bits. */
  lemma AnswersById(lookup: map<string, EventProcessingData>, id: int, e: EventProcessingData?)
    requires -0x8000_0000 <= id < 0x1_0000_0000
    ensures var stored := if id < 0 then id + 0x1_0000_0000 else id;
      Answers(lookup, ById(id), e) <==>
        if e == null then forall k <- lookup :: lookup[k].id != stored
        else (exists k <- lookup :: lookup[k] == e) && e.id == stored
  {
    assert ToUint32(id) == if id < 0 then id + 0x1_0000_0000 else id;
  }

  ghost predicate Idle(s: Registry, staleDuration: int, now: int, e: EventProcessingData) {
    e in s.lookup.Values && e in s.lastData && now - s.lastData[e] > staleDuration
  }

  ghost predicate Enabled(s: Registry, staleDuration: int, op: Op) {
    match op
    case Add(e, _) => e !in s.closes
    case Remove(selector, found) => Answers(s.lookup, selector, found)
    case Mark(e, _) => e in s.lastData
    case Sweep(now, stale) =>
      && (forall i, j :: 0 <= i < j < |stale| ==> stale[i] != stale[j])
      && (forall e <- stale :: Idle(s, staleDuration, now, e))
      && (forall e <- s.lookup.Values :: Idle(s, staleDuration, now, e) ==> e in stale)
    case _ => true
  }

  // The entries in `gone` are closed and no longer stored.
  ghost function Without(s: Registry, gone: set<EventProcessingData>): Registry {
    s.(lookup := map k <- s.lookup | s.lookup[k] !in gone :: s.lookup[k],
       closes := map e <- s.closes :: if e in gone then s.closes[e] + 1 else s.closes[e])
  }

  // One stored entry is closed and deleted.
  ghost function Closed(s: Registry, e: EventProcessingData): Registry {
    s.(lookup := s.lookup - {e.key}, closes := s.closes[e := (if e in s.closes then s.closes[e] else 0) + 1])
  }

  // ... by the watchdog, which reports it if a callback is set.
  ghost function ClosedAndReported(s: Registry, e: EventProcessingData): Registry {
    Closed(s, e).(deleted := if s.hasCallback then s.deleted + [e.key] else s.deleted)
  }

  // A sweep that meets the stale entries in this order.
  ghost function Swept(s: Registry, stale: seq<EventProcessingData>): Registry {
    Without(s, SetOf(stale)).(deleted := if s.hasCallback then s.deleted + KeysOf(stale) else s.deleted)
  }

  ghost function SetOf(es: seq<EventProcessingData>): set<EventProcessingData> {
    set e <- es
  }

  function KeysOf(es: seq<EventProcessingData>): seq<string> {
    seq(|es|, i requires 0 <= i < |es| => es[i].key)
  }

  ghost function Apply(s: Registry, op: Op): Registry {
    match op
    case Add(e, now) =>
      if e.key in s.lookup then s
      else s.(lookup := s.lookup[e.key := e], lastData := s.lastData[e := now], closes := s.closes[e := 0])
    case Remove(_, found) => if found == null then s else Without(s, {found})
    case Clear => s.(lookup := map[])
    case Mark(e, now) => s.(lastData := s.lastData[e := now])
    case Sweep(_, stale) => Swept(s, stale)
    case SetCallback => s.(hasCallback := true)
  }

  /** Each entry is stored under its own key, stored entries are not closed, and none is closed twice. */
  ghost predicate Inv(s: Registry) {
    && s.lastData.Keys == s.closes.Keys
    && (forall k <- s.lookup :: s.lookup[k].key == k && s.lookup[k] in s.closes && s.closes[s.lookup[k]] == 0)
    && (forall e <- s.closes :: s.closes[e] <= 1)
  }

  // Entries that are neither stored nor closed.
  ghost function Leaked(s: Registry): set<EventProcessingData> {
    set e <- s.closes | s.closes[e] == 0 && e !in s.lookup.Values
  }

  // ----- sweeps -----

  // Taking one more entry out.
  lemma WithoutOneMore(s: Registry, gone: set<EventProcessingData>, e: EventProcessingData)
    requires Inv(s) && e in s.lookup.Values && e !in gone
    ensures Without(s, gone + {e}) == Closed(Without(s, gone), e)
  {
    assert e.key in s.lookup && s.lookup[e.key] == e;
    var a, b := Without(s, gone + {e}), Without(s, gone);
    assert a.lookup == b.lookup - {e.key};
    assert a.closes == b.closes[e := b.closes[e] + 1];
  }

  lemma SweptOneMore(s: Registry, stale: seq<EventProcessingData>, i: nat)
    requires Inv(s) && i < |stale| && stale[i] in s.lookup.Values
    requires forall j :: 0 <= j < i ==> stale[j] != stale[i]
    ensures Swept(s, stale[..i + 1]) == ClosedAndReported(Swept(s, stale[..i]), stale[i])
  {
    WithoutOneMore(s, SetOf(stale[..i]), stale[i]);
    OneMoreEntry(stale, i);
    assert s.deleted + KeysOf(stale[..i + 1]) == s.deleted + KeysOf(stale[..i]) + [stale[i].key];
  }

  lemma OneMoreEntry(es: seq<EventProcessingData>, i: nat)
    requires i < |es|
    ensures SetOf(es[..i + 1]) == SetOf(es[..i]) + {es[i]}
    ensures KeysOf(es[..i + 1]) == KeysOf(es[..i]) + [es[i].key]
  {
    assert es[..i + 1] == es[..i] + [es[i]];
  }

  /** A sweep removes exactly the entries idle for longer than the stale duration and closes each of them. */
  lemma SweepRemovesExactlyIdle(s: Registry, staleDuration: int, now: int, stale: seq<EventProcessingData>)
    requires Inv(s) && Enabled(s, staleDuration, Sweep(now, stale))
    ensures var r := Apply(s, Sweep(now, stale));
      && r.lookup == (map k <- s.lookup | now - s.lastData[s.lookup[k]] <= staleDuration :: s.lookup[k])
      && r.closes == (map e <- s.closes :: if Idle(s, staleDuration, now, e) then 1 else s.closes[e])
  {
    assert forall e <- stale :: Idle(s, staleDuration, now, e);
    forall k <- s.lookup ensures now - s.lastData[s.lookup[k]] > staleDuration <==> s.lookup[k] in stale {
      assert s.lookup[k] in s.lookup.Values;
    }
  }

  /** If a callback is set, a sweep reports the key of each entry it removes exactly once, and no other key. */
  lemma SweepReportsEachOnce(s: Registry, staleDuration: int, now: int, stale: seq<EventProcessingData>, k: string)
    requires Inv(s) && Enabled(s, staleDuration, Sweep(now, stale))
    ensures var r := Apply(s, Sweep(now, stale));
      var removed := if s.hasCallback && k in s.lookup && k !in r.lookup then 1 else 0;
      Mult(r.deleted, k) == Mult(s.deleted, k) + removed
  {
    assert forall e <- stale :: Idle(s, staleDuration, now, e);
    KeyCount(s, stale, k);
  }

  lemma {:induction false} KeyCount(s: Registry, stale: seq<EventProcessingData>, k: string)
    requires Inv(s)
    requires forall i, j :: 0 <= i < j < |stale| ==> stale[i] != stale[j]
    requires forall e <- stale :: e in s.lookup.Values
    ensures Mult(KeysOf(stale), k) == if k in s.lookup && s.lookup[k] in stale then 1 else 0
  {
    if stale != [] {
      var front, last := stale[..|stale| - 1], stale[|stale| - 1];
      KeyCount(s, front, k);
      assert stale == front + [last] && KeysOf(stale) == KeysOf(front) + [last.key];
      assert last in s.lookup.Values;
    }
  }

  // ----- runs -----

  lemma InvKept(s: Registry, staleDuration: int, op: Op)
    requires Inv(s) && Enabled(s, staleDuration, op)
    ensures Inv(Apply(s, op))
    ensures op != Clear ==> Leaked(Apply(s, op)) == Leaked(s)
    ensures op == Clear ==> Leaked(Apply(s, op)) == Leaked(s) + s.lookup.Values
  {
    match op
    case Add(e, now) =>
      if e.key !in s.lookup { ValuesAfterAdd(s.lookup, e); }
    case Remove(selector, found) =>
      if found != null { WithoutKeepsInv(s, {found}); }
    case Sweep(now, stale) =>
      WithoutKeepsInv(s, SetOf(stale));
    case _ =>
  }

  lemma WithoutKeepsInv(s: Registry, gone: set<EventProcessingData>)
    requires Inv(s) && gone <= s.lookup.Values
    ensures Inv(Without(s, gone)) && Leaked(Without(s, gone)) == Leaked(s)
  {
    var r := Without(s, gone);
    forall x <- s.lookup.Values - gone ensures x in r.lookup.Values {
      var k :| k in s.lookup && s.lookup[k] == x;
      assert k in r.lookup;
    }
    forall x <- r.lookup.Values ensures x in s.lookup.Values - gone {
      var k :| k in r.lookup && r.lookup[k] == x;
      assert k in s.lookup;
    }
    assert r.lookup.Values == s.lookup.Values - gone;
  }

  lemma ValuesAfterAdd(lookup: map<string, EventProcessingData>, e: EventProcessingData)
    requires e.key !in lookup
    ensures lookup[e.key := e].Values == lookup.Values + {e}
  {
    var r := lookup[e.key := e];
    assert e.key in r && forall k <- lookup :: k in r && r[k] == lookup[k];
  }

  // A run: every operation is enabled where it is applied.
  ghost predicate IsRun(s: Registry, staleDuration: int, ops: seq<Op>)
    decreases |ops|
  {
    ops == [] || (Enabled(s, staleDuration, ops[0]) && IsRun(Apply(s, ops[0]), staleDuration, ops[1..]))
  }

  ghost function After(s: Registry, ops: seq<Op>): Registry
    decreases |ops|
  {
    if ops == [] then s else After(Apply(s, ops[0]), ops[1..])
  }

  const EmptyRegistry := Registry(map[], map[], map[], false, [])

  /** Over every run of the registry the invariant holds, and every entry ever created is either stored and
      open, or closed exactly once, unless a Clear dropped it: then it is never closed. */
  lemma {:induction false} EveryRun(s: Registry, staleDuration: int, ops: seq<Op>)
    requires Inv(s) && IsRun(s, staleDuration, ops)
    ensures Inv(After(s, ops))
    ensures Leaked(s) <= Leaked(After(s, ops))
    ensures Clear !in ops ==> Leaked(After(s, ops)) == Leaked(s)
    decreases |ops|
  {
    if ops != [] {
      assert ops[0] in ops;
      InvKept(s, staleDuration, ops[0]);
      EveryRun(Apply(s, ops[0]), staleDuration, ops[1..]);
    }
  }

  lemma RunsFromEmpty(staleDuration: int, ops: seq<Op>)
    requires IsRun(EmptyRegistry, staleDuration, ops)
    ensures Inv(After(EmptyRegistry, ops))
    ensures Clear !in ops ==>
      forall e <- After(EmptyRegistry, ops).closes ::
        After(EmptyRegistry, ops).closes[e] == if e in After(EmptyRegistry, ops).lookup.Values then 0 else 1
  {
    EveryRun(EmptyRegistry, staleDuration, ops);
    var r := After(EmptyRegistry, ops);
    if Clear !in ops {
      forall e <- r.closes ensures r.closes[e] == if e in r.lookup.Values then 0 else 1 {
        assert e !in Leaked(r);
      }
    }
  }

  /** Removing by key makes the key unknown; removing by id makes the id unknown exactly when no other stored
      event has it. */
  lemma RemovedIsGone(s: Registry, selector: Selector, e: EventProcessingData)
    requires Inv(s) && Answers(s.lookup, selector, e)
    ensures var r := Apply(s, Remove(selector, e)).lookup;
      Answers(r, selector, null) <==>
        selector.ByKey? || forall k <- s.lookup :: s.lookup[k].id == e.id ==> s.lookup[k] == e
  {
    assert e in s.lookup.Values;
    var r := Apply(s, Remove(selector, e)).lookup;
    if k :| k in s.lookup && s.lookup[k].id == e.id && s.lookup[k] != e {
      assert k in r && r[k] == s.lookup[k];
    }
  }

  // Clearing right after an entry has been added leaves it open for good.
  lemma ClearLeaks(staleDuration: int, e: EventProcessingData, now: int)
    ensures IsRun(EmptyRegistry, staleDuration, [Add(e, now), Clear])
    ensures Leaked(After(EmptyRegistry, [Add(e, now), Clear])) == {e}
  {
    var s := Apply(EmptyRegistry, Add(e, now));
    assert [Add(e, now), Clear][1..] == [Clear] && [Clear][1..] == [];
    assert IsRun(s, staleDuration, [Clear]) && After(s, [Clear]) == Apply(s, Clear);
    assert s.closes == map[e := 0];
  }

  // Two events with the same id under different keys: removing one by id leaves the other one known.
  lemma SameIdStays(d: EventProcessingData, e: EventProcessingData, id: int, now: int)
    requires d.key != e.key && d.id == e.id == ToUint32(id)
    ensures var s := Apply(Apply(EmptyRegistry, Add(d, now)), Add(e, now));
      && Inv(s) && Answers(s.lookup, ById(id), d)
      && Answers(Apply(s, Remove(ById(id), d)).lookup, ById(id), e)
  {
    var s := Apply(Apply(EmptyRegistry, Add(d, now)), Add(e, now));
    assert s.lookup[d.key] == d && s.lookup[e.key] == e;
    var r := Apply(s, Remove(ById(id), d)).lookup;
    assert e.key in r && r[e.key] == e;
  }

  // ----- the registry itself -----

  class EventLookup {
    var lookup: map<string, EventProcessingData>
    const staleDuration: int
    var hasCallback: bool
    var deleted: seq<string>      // the keys passed to the delete callback
    ghost var created: set<EventProcessingData>

    constructor (staleDuration: int)
      ensures this.staleDuration == staleDuration && Abs() == EmptyRegistry && Valid()
    {
      this.staleDuration := staleDuration;
      lookup, hasCallback, deleted, created := map[], false, [], {};
    }

    ghost function Abs(): Registry
      reads this, created
    {
      Registry(lookup, map e <- created :: e.lastDataEvent, map e <- created :: e.closes, hasCallback, deleted)
    }

    ghost predicate Valid()
      reads this, created
    {
      Inv(Abs())
    }

    method AddEvent(key: string, id: int, now: int) returns (epd: EventProcessingData?)
      requires Valid()
      modifies this
      ensures Valid() && (epd == null <==> key in old(lookup))
      ensures epd == null ==> Abs() == old(Abs())
      ensures epd != null ==>
        && epd.key == key && epd.id == id && fresh(epd)
        && Enabled(old(Abs()), staleDuration, Add(epd, now)) && Abs() == Apply(old(Abs()), Add(epd, now))
        && lookup == old(lookup)[key := epd] && epd.lastDataEvent == now && epd.closes == 0
    {
      if key in lookup {
        return null;
      }
      var e := new EventProcessingData(key, id, now);
      ghost var s := Abs();
      lookup := lookup[key := e];
      created := created + {e};
      assert Abs().closes == s.closes[e := 0] && Abs().lastData == s.lastData[e := now];
      InvKept(s, staleDuration, Add(e, now));
      return e;
    }

    method GetEvent(selector: Selector) returns (e: EventProcessingData?)
      ensures Answers(lookup, selector, e)
      ensures selector.ById? && 0 <= selector.id < 0x1_0000_0000 ==>
        if e == null then forall k <- lookup :: lookup[k].id != selector.id
        else e in lookup.Values && e.id == selector.id
      ensures selector.ById? && -0x8000_0000 <= selector.id < 0 ==>
        if e == null then forall k <- lookup :: lookup[k].id != selector.id + 0x1_0000_0000
        else e in lookup.Values && e.id == selector.id + 0x1_0000_0000
      ensures selector.ByKey? ==> e == if selector.key in lookup then lookup[selector.key] else null
      ensures selector.NoArg? ==> e == null
    {
      match selector
      case ById(id) =>
        var rest := lookup.Keys;
        while rest != {}
          invariant rest <= lookup.Keys
          invariant forall k <- lookup :: k !in rest ==> lookup[k].id != ToUint32(id)
          decreases |rest|
        {
          var k :| k in rest;
          if lookup[k].id == ToUint32(id) {
            return lookup[k];
          }
          rest := rest - {k};
        }
        return null;
      case ByKey(key) =>
        if key in lookup {
          return lookup[key];
        }
        return null;
      case NoArg =>
        return null;
    }

    method RemoveEvent(selector: Selector) returns (ghost found: EventProcessingData?)
      requires Valid()
      modifies this, created
      ensures Valid() && created == old(created)
      ensures Enabled(old(Abs()), staleDuration, Remove(selector, found))
      ensures Abs() == Apply(old(Abs()), Remove(selector, found))
      ensures found == null ==> lookup == old(lookup)
      ensures found != null ==> lookup == old(lookup) - {found.key} && found.closes == old(found.closes) + 1
      ensures forall e <- created - {found} :: e.closes == old(e.closes)
    {
      ghost var s := Abs();
      var e := GetEvent(selector);
      found := e;
      InvKept(s, staleDuration, Remove(selector, e));
      if e != null {
        assert e in s.lookup.Values;
        WithoutOneMore(s, {}, e);
        assert Without(s, {}) == s && {} + {e} == {e};
        CloseAndDelete(e);
      }
    }

    // Closes an entry and deletes it from the lookup.
    method CloseAndDelete(epd: EventProcessingData)
      requires epd in created
      modifies this`lookup, epd`closes
      ensures Abs() == Closed(old(Abs()), epd)
      ensures lookup == old(lookup) - {epd.key} && epd.closes == old(epd.closes) + 1
    {
      epd.Close();
      lookup := lookup - {epd.key};
      assert Abs().closes == old(Abs()).closes[epd := old(epd.closes) + 1];
      assert Abs().lastData == old(Abs()).lastData;
    }

    method Clear()
      requires Valid()
      modifies this`lookup
      ensures Valid() && Abs() == Apply(old(Abs()), Op.Clear) && lookup == map[]
    {
      InvKept(Abs(), staleDuration, Op.Clear);
      lookup := map[];
    }

    // One pass of the watchdog.
    method SweepStale(now: int) returns (ghost stale: seq<EventProcessingData>)
      requires Valid()
      modifies this, created
      ensures Valid() && created == old(created)
      ensures Enabled(old(Abs()), staleDuration, Sweep(now, stale))
      ensures Abs() == Apply(old(Abs()), Sweep(now, stale))
    {
      ghost var s := Abs();
      var toRemove := CollectStale(now);
      InvKept(s, staleDuration, Sweep(now, toRemove));
      assert forall i :: 0 <= i < |toRemove| ==> Idle(s, staleDuration, now, toRemove[i]);
      RemoveAll(toRemove, s);
      stale := toRemove;
    }

    method RemoveAll(toRemove: seq<EventProcessingData>, ghost s: Registry)
      requires Inv(s) && Abs() == s
      requires forall i, j :: 0 <= i < j < |toRemove| ==> toRemove[i] != toRemove[j]
      requires forall i :: 0 <= i < |toRemove| ==> toRemove[i] in s.lookup.Values
      modifies this`lookup, this`deleted, created`closes
      ensures Abs() == Swept(s, toRemove)
    {
      assert Swept(s, toRemove[..0]) == s && created == s.closes.Keys;
      for i := 0 to |toRemove|
        invariant Abs() == Swept(s, toRemove[..i]) && created == s.closes.Keys
      {
        SweptOneMore(s, toRemove, i);
        RemoveStale(toRemove[i]);
      }
      assert toRemove[..|toRemove|] == toRemove;
    }

    method RemoveStale(epd: EventProcessingData)
      requires epd in created
      modifies this`lookup, this`deleted, epd`closes
      ensures Abs() == ClosedAndReported(old(Abs()), epd)
    {
      CloseAndDelete(epd);
      ghost var r := Abs();
      if hasCallback {
        deleted := deleted + [epd.key];
      }
      assert Abs() == r.(deleted := deleted);
    }

    method CollectStale(now: int) returns (toRemove: seq<EventProcessingData>)
      requires Valid()
      ensures Enabled(Abs(), staleDuration, Sweep(now, toRemove))
    {
      toRemove := [];
      var rest := lookup.Keys;
      while rest != {}
        invariant rest <= lookup.Keys
        invariant forall i, j :: 0 <= i < j < |toRemove| ==> toRemove[i] != toRemove[j]
        invariant forall e <- toRemove :: Idle(Abs(), staleDuration, now, e) && e.key !in rest
        invariant forall k <- lookup ::
          k !in rest && Idle(Abs(), staleDuration, now, lookup[k]) ==> lookup[k] in toRemove
        decreases |rest|
      {
        var k :| k in rest;
        var epd := lookup[k];
        assert epd in lookup.Values;
        if now - epd.lastDataEvent > staleDuration {
          toRemove := toRemove + [epd];
        }
        rest := rest - {k};
      }
    }

    method SetDeleteEventCB()
      requires Valid()
      modifies this`hasCallback
      ensures Valid() && Abs() == Apply(old(Abs()), SetCallback) && hasCallback
    {
      InvKept(Abs(), staleDuration, SetCallback);
      hasCallback := true;
    }
  }

  // Marking a data event on an entry is a step of the registry that created it.
  twostate lemma MarkIsStep(r: EventLookup, e: EventProcessingData, now: int)
    requires e in r.created && e.lastDataEvent == now
    requires unchanged(r) && unchanged(r.created`closes) && unchanged((r.created - {e})`lastDataEvent)
    ensures r.Abs() == Apply(old(r.Abs()), Mark(e, now))
  {
    assert r.Abs().lastData == old(r.Abs()).lastData[e := now];
    assert r.Abs().closes == old(r.Abs()).closes;
  }
}
