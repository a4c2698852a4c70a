/** The generated models: one class per table row. Columns are constants, since no modelled operation
    writes them; the relationships `r` and the counts `c` are values stored in the row, as in the
    source, and hold pointers to other rows. */
module Models {
  import opened Options

  datatype CCarColumns = CCarColumns(
    id: int, eventId: int, name: string, nameShort: string, carId: int, cCarClassId: int,
    fuelPct: real, powerAdjust: real, weightPenalty: real, dryTireSets: int)

  datatype CCarRLoaded = CCarRLoaded(cCarClass: bool, event: bool, cCarEntries: bool)

  datatype CCarR = CCarR(cCarClass: CCarClass?, event: Event?, cCarEntries: seq<CCarEntry>, loaded: CCarRLoaded)

  // None is the source's nil count pointer.
  datatype CCarC = CCarC(cCarEntries: Option<int>)

  class CCar {
    const cols: CCarColumns
    var r: CCarR
    var c: CCarC

    constructor (cols: CCarColumns)
      ensures this.cols == cols
      ensures r == CCarR(null, null, [], CCarRLoaded(false, false, false)) && c == CCarC(None)
    {
      this.cols := cols;
      r := CCarR(null, null, [], CCarRLoaded(false, false, false));
      c := CCarC(None);
    }
  }

  datatype CCarEntryR = CCarEntryR(cCar: CCar?, loadedCCar: bool)

  class CCarEntry {
    const id: int
    const cCarId: int
    var r: CCarEntryR

    constructor (id: int, cCarId: int)
      ensures this.id == id && this.cCarId == cCarId && r == CCarEntryR(null, false)
    {
      this.id, this.cCarId, r := id, cCarId, CCarEntryR(null, false);
    }
  }

  datatype CCarClassR = CCarClassR(cCars: seq<CCar>, loadedCCars: bool)

  class CCarClass {
    const id: int
    var r: CCarClassR

    constructor (id: int)
      ensures this.id == id && r == CCarClassR([], false)
    {
      this.id, r := id, CCarClassR([], false);
    }
  }

  datatype EventR = EventR(analysisProto: AnalysisProto?, loadedAnalysisProto: bool)

  class Event {
    const id: int
    var r: EventR

    constructor (id: int)
      ensures this.id == id && r == EventR(null, false)
    {
      this.id, r := id, EventR(null, false);
    }
  }

  datatype AnalysisProtoR = AnalysisProtoR(event: Event?, loadedEvent: bool)

  class AnalysisProto {
    const id: int
    const eventId: int
    var r: AnalysisProtoR

    constructor (id: int, eventId: int)
      ensures this.id == id && this.eventId == eventId && r == AnalysisProtoR(null, false)
    {
      this.id, this.eventId, r := id, eventId, AnalysisProtoR(null, false);
    }
  }

  // The join columns.
  function CarId(o: CCar): int { o.cols.id }
  function CarClassId(o: CCar): int { o.cols.cCarClassId }
  function EntryCarId(e: CCarEntry): int { e.cCarId }
  function ClassId(c: CCarClass): int { c.id }
  function EventId(e: Event): int { e.id }
  function ProtoEventId(p: AnalysisProto): int { p.eventId }

  // What a query hands back.
  datatype Fetched<+T> = Rows(rows: seq<T>) | Failed(error: string) {
    function All(): seq<T> { if Rows? then rows else [] }
  }

  // The non-nil elements of a slice of cars, and of a slice of events.
  function Cars(os: seq<CCar?>): (r: seq<CCar>)
    ensures forall o :: o in r ==> o in os
    ensures forall o :: o in os && o != null ==> o in r
  {
    if os == [] then []
    else if os[|os| - 1] == null then Cars(os[..|os| - 1])
    else Cars(os[..|os| - 1]) + [os[|os| - 1]]
  }

  function Events(os: seq<Event?>): (r: seq<Event>)
    ensures forall o :: o in r ==> o in os
    ensures forall o :: o in os && o != null ==> o in r
  {
    if os == [] then []
    else if os[|os| - 1] == null then Events(os[..|os| - 1])
    else Events(os[..|os| - 1]) + [os[|os| - 1]]
  }

  // The elements keep the order of the slice: without nil it is the slice itself, and slices one after the
  // other give their elements one after the other.
  lemma {:induction false} CarsOf(os: seq<CCar?>)
    ensures Cars([null]) == []
    ensures null !in os ==> Cars(os) == os
  {
    if os != [] {
      var front, last := os[..|os| - 1], os[|os| - 1];
      assert os == front + [last];
      CarsOf(front);
    }
  }

  lemma {:induction false} CarsAppend(xs: seq<CCar?>, ys: seq<CCar?>)
    ensures Cars(xs + ys) == Cars(xs) + Cars(ys)
  {
    if ys == [] {
      assert xs + ys == xs;
    } else {
      var front, last := ys[..|ys| - 1], ys[|ys| - 1];
      assert (xs + ys)[..|xs + ys| - 1] == xs + front && (xs + ys)[|xs + ys| - 1] == last;
      CarsAppend(xs, front);
    }
  }

  lemma {:induction false} EventsOf(os: seq<Event?>)
    ensures Events([null]) == []
    ensures null !in os ==> Events(os) == os
  {
    if os != [] {
      var front, last := os[..|os| - 1], os[|os| - 1];
      assert os == front + [last];
      EventsOf(front);
    }
  }

  lemma {:induction false} EventsAppend(xs: seq<Event?>, ys: seq<Event?>)
    ensures Events(xs + ys) == Events(xs) + Events(ys)
  {
    if ys == [] {
      assert xs + ys == xs;
    } else {
      var front, last := ys[..|ys| - 1], ys[|ys| - 1];
      assert (xs + ys)[..|xs + ys| - 1] == xs + front && (xs + ys)[|xs + ys| - 1] == last;
      EventsAppend(xs, front);
    }
  }
}
