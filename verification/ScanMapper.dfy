/** The scan mapper for preloaded cars: one nullable buffer, reused for every row. */
module ScanMapper {
  import opened Models
  import opened Options
  import opened ScanBuffer
  import opened Stitching

  datatype Column =
    ID | EventID | Name | NameShort | CarID | CCarClassID | FuelPCT | PowerAdjust | WeightPenalty | DryTireSets

  datatype Value = IntValue(i: int) | TextValue(s: string) | DecimalValue(d: real)

  function ColumnNamed(name: string): Option<Column> {
    match name
    case "id" => Some(ID)
    case "event_id" => Some(EventID)
    case "name" => Some(Name)
    case "name_short" => Some(NameShort)
    case "car_id" => Some(CarID)
    case "c_car_class_id" => Some(CCarClassID)
    case "fuel_pct" => Some(FuelPCT)
    case "power_adjust" => Some(PowerAdjust)
    case "weight_penalty" => Some(WeightPenalty)
    case "dry_tire_sets" => Some(DryTireSets)
    case _ => None
  }

  // The model column a result column stands for, if it has the prefix and a known name.
  function ColumnOf(prefix: string, col: string): Option<Column> {
    if prefix <= col then ColumnNamed(col[|prefix|..]) else None
  }

  predicate Fits(c: Column, v: Value) {
    match c
    case Name => v.TextValue?
    case NameShort => v.TextValue?
    case FuelPCT => v.DecimalValue?
    case PowerAdjust => v.DecimalValue?
    case WeightPenalty => v.DecimalValue?
    case _ => v.IntValue?
  }

  function Resolve(prefix: string, cols: seq<string>): Resolved<Column> {
    seq(|cols|, i requires 0 <= i < |cols| => ColumnOf(prefix, cols[i]))
  }

  // The database delivers values of the columns' types.
  ghost predicate Typed(ds: Resolved<Column>, row: Row<Value>) {
    |row| == |ds| &&
    forall i :: 0 <= i < |ds| && ds[i].Some? && row[i].Some? ==> Fits(ds[i].value, row[i].value)
  }

  // ----- the row as an object -----

  function IntOf(v: Option<Value>): int { if v.Some? && v.value.IntValue? then v.value.i else 0 }
  function TextOf(v: Option<Value>): string { if v.Some? && v.value.TextValue? then v.value.s else "" }
  function DecimalOf(v: Option<Value>): real { if v.Some? && v.value.DecimalValue? then v.value.d else 0.0 }

  // The object for a filled buffer: NULL and unselected columns are zero.
  function Decode(cells: map<Column, Value>): CCarColumns {
    CCarColumns(IntOf(Get(cells, ID)), IntOf(Get(cells, EventID)), TextOf(Get(cells, Name)),
                TextOf(Get(cells, NameShort)), IntOf(Get(cells, CarID)), IntOf(Get(cells, CCarClassID)),
                DecimalOf(Get(cells, FuelPCT)), DecimalOf(Get(cells, PowerAdjust)),
                DecimalOf(Get(cells, WeightPenalty)), IntOf(Get(cells, DryTireSets)))
  }

  /** The object a buffer of its own would give for a row holds, in each column, the cell of the last
      result column that stands for it. */
  lemma FreshObject(ds: Resolved<Column>, row: Row<Value>)
    requires |row| == |ds|
    ensures Decode(FreshCells(ds, row)) == CCarColumns(
      IntOf(CellOf(ds, row, ID)), IntOf(CellOf(ds, row, EventID)), TextOf(CellOf(ds, row, Name)),
      TextOf(CellOf(ds, row, NameShort)), IntOf(CellOf(ds, row, CarID)), IntOf(CellOf(ds, row, CCarClassID)),
      DecimalOf(CellOf(ds, row, FuelPCT)), DecimalOf(CellOf(ds, row, PowerAdjust)),
      DecimalOf(CellOf(ds, row, WeightPenalty)), IntOf(CellOf(ds, row, DryTireSets)))
  {
    forall c: Column ensures Get(FreshCells(ds, row), c) == CellOf(ds, row, c) {
      ScanOverwrites(ds, row, map[], c);
    }
  }

  class CCarPreloadBuf {
    var cells: map<Column, Value>

    constructor ()
      ensures cells == map[]
    {
      cells := map[];
    }
  }

  method ResolveTargets(prefix: string, cols: seq<string>) returns (targets: seq<Target<Column>>)
    ensures targets == Targets(Resolve(prefix, cols))
  {
    targets := [];
    for i := 0 to |cols|
      invariant targets == Targets(Resolve(prefix, cols)[..i])
    {
      Snoc(Resolve(prefix, cols), i);
      var column := ColumnOf(prefix, cols[i]);
      if column.Some? {
        targets := targets + [Target(i, column.value)];
      }
    }
    assert Resolve(prefix, cols)[..|cols|] == Resolve(prefix, cols);
  }

  // The before function schedules the targets, and the scan fills them.
  method ScanRow(buf: CCarPreloadBuf, targets: seq<Target<Column>>, row: Row<Value>)
    requires forall k :: 0 <= k < |targets| ==> targets[k].idx < |row|
    modifies buf
    ensures buf.cells == Scanned(old(buf.cells), targets, row)
  {
    for i := 0 to |targets|
      invariant buf.cells == Scanned(old(buf.cells), targets[..i], row)
    {
      Snoc(targets, i);
      buf.cells := Put(buf.cells, targets[i].dst, row[targets[i].idx]);
    }
    assert targets[..|targets|] == targets;
  }

  // The after function.
  method BuildChild(buf: CCarPreloadBuf) returns (o: CCar?)
    ensures o == null <==> buf.cells == map[]
    ensures o != null ==> fresh(o) && o.cols == Decode(buf.cells)
  {
    var b := buf.cells;
    if ID !in b && EventID !in b && Name !in b && NameShort !in b && CarID !in b && CCarClassID !in b
       && FuelPCT !in b && PowerAdjust !in b && WeightPenalty !in b && DryTireSets !in b {
      forall c ensures c !in b { match c { case ID => case _ => } }
      return null;
    }
    o := new CCar(Decode(b));
  }

  // o is what a buffer of its own would give for the row.
  ghost predicate ObjectOf(ds: Resolved<Column>, row: Row<Value>, o: CCar?) {
    if o == null then NoChild(ds, row) else !NoChild(ds, row) && o.cols == Decode(FreshCells(ds, row))
  }

  // ----- the row as its columns are named -----

  // A row of the joined car table: a value or NULL in each column.
  datatype CarRow = CarRow(
    id: Option<int>, eventId: Option<int>, name: Option<string>, nameShort: Option<string>, carId: Option<int>,
    cCarClassId: Option<int>, fuelPct: Option<real>, powerAdjust: Option<real>, weightPenalty: Option<real>,
    dryTireSets: Option<int>)

  const NullRow := CarRow(None, None, None, None, None, None, None, None, None, None)

  function IntCell(v: Option<int>): Option<Value> { if v.Some? then Some(IntValue(v.value)) else None }
  function TextCell(v: Option<string>): Option<Value> { if v.Some? then Some(TextValue(v.value)) else None }
  function DecimalCell(v: Option<real>): Option<Value> { if v.Some? then Some(DecimalValue(v.value)) else None }

  function Or<T>(v: Option<T>, zero: T): T { if v.Some? then v.value else zero }

  // Every result column of that name delivers v; there is one unless v is NULL.
  ghost predicate Delivers(cols: seq<string>, row: Row<Value>, col: string, v: Option<Value>)
    requires |row| == |cols|
  {
    (v.Some? ==> col in cols) && forall i :: 0 <= i < |cols| && cols[i] == col ==> row[i] == v
  }

  /** The row delivers r under the column names of the table with the prefix, in any order, with any other result
      columns in between. */
  ghost predicate RowOf(prefix: string, cols: seq<string>, row: Row<Value>, r: CarRow) {
    && |row| == |cols|
    && Delivers(cols, row, prefix + "id", IntCell(r.id))
    && Delivers(cols, row, prefix + "event_id", IntCell(r.eventId))
    && Delivers(cols, row, prefix + "name", TextCell(r.name))
    && Delivers(cols, row, prefix + "name_short", TextCell(r.nameShort))
    && Delivers(cols, row, prefix + "car_id", IntCell(r.carId))
    && Delivers(cols, row, prefix + "c_car_class_id", IntCell(r.cCarClassId))
    && Delivers(cols, row, prefix + "fuel_pct", DecimalCell(r.fuelPct))
    && Delivers(cols, row, prefix + "power_adjust", DecimalCell(r.powerAdjust))
    && Delivers(cols, row, prefix + "weight_penalty", DecimalCell(r.weightPenalty))
    && Delivers(cols, row, prefix + "dry_tire_sets", IntCell(r.dryTireSets))
  }

  lemma PrefixedName(prefix: string, col: string, name: string, c: Column)
    requires forall n :: ColumnNamed(n) == Some(c) <==> n == name
    ensures ColumnOf(prefix, col) == Some(c) <==> col == prefix + name
  {
    if prefix <= col { assert col == prefix + col[|prefix|..]; }
    if col == prefix + name { assert col[|prefix|..] == name; }
  }

  /** Which result columns a target is resolved for, column by column of the table. */
  lemma ColumnByName(prefix: string, col: string)
    ensures ColumnOf(prefix, col) == Some(ID) <==> col == prefix + "id"
    ensures ColumnOf(prefix, col) == Some(EventID) <==> col == prefix + "event_id"
    ensures ColumnOf(prefix, col) == Some(Name) <==> col == prefix + "name"
    ensures ColumnOf(prefix, col) == Some(NameShort) <==> col == prefix + "name_short"
    ensures ColumnOf(prefix, col) == Some(CarID) <==> col == prefix + "car_id"
    ensures ColumnOf(prefix, col) == Some(CCarClassID) <==> col == prefix + "c_car_class_id"
    ensures ColumnOf(prefix, col) == Some(FuelPCT) <==> col == prefix + "fuel_pct"
    ensures ColumnOf(prefix, col) == Some(PowerAdjust) <==> col == prefix + "power_adjust"
    ensures ColumnOf(prefix, col) == Some(WeightPenalty) <==> col == prefix + "weight_penalty"
    ensures ColumnOf(prefix, col) == Some(DryTireSets) <==> col == prefix + "dry_tire_sets"
  {
    PrefixedName(prefix, col, "id", ID);
    PrefixedName(prefix, col, "event_id", EventID);
    PrefixedName(prefix, col, "name", Name);
    PrefixedName(prefix, col, "name_short", NameShort);
    PrefixedName(prefix, col, "car_id", CarID);
    PrefixedName(prefix, col, "c_car_class_id", CCarClassID);
    PrefixedName(prefix, col, "fuel_pct", FuelPCT);
    PrefixedName(prefix, col, "power_adjust", PowerAdjust);
    PrefixedName(prefix, col, "weight_penalty", WeightPenalty);
    PrefixedName(prefix, col, "dry_tire_sets", DryTireSets);
  }

  lemma NamedCell(prefix: string, cols: seq<string>, row: Row<Value>, name: string, c: Column, v: Option<Value>)
    requires |row| == |cols| && Delivers(cols, row, prefix + name, v)
    requires forall n :: ColumnNamed(n) == Some(c) <==> n == name
    ensures CellOf(Resolve(prefix, cols), row, c) == v
  {
    var ds := Resolve(prefix, cols);
    forall i | 0 <= i < |cols| ensures ds[i] == Some(c) <==> cols[i] == prefix + name {
      PrefixedName(prefix, cols[i], name, c);
    }
    if v.Some? {
      var i :| 0 <= i < |cols| && cols[i] == prefix + name;
      assert ds[i] == Some(c);
    }
    CellIs(ds, row, c, v);
  }

  lemma CellsByName(prefix: string, cols: seq<string>, row: Row<Value>, r: CarRow)
    requires RowOf(prefix, cols, row, r)
    ensures var ds := Resolve(prefix, cols);
      && CellOf(ds, row, ID) == IntCell(r.id)
      && CellOf(ds, row, EventID) == IntCell(r.eventId)
      && CellOf(ds, row, Name) == TextCell(r.name)
      && CellOf(ds, row, NameShort) == TextCell(r.nameShort)
      && CellOf(ds, row, CarID) == IntCell(r.carId)
      && CellOf(ds, row, CCarClassID) == IntCell(r.cCarClassId)
      && CellOf(ds, row, FuelPCT) == DecimalCell(r.fuelPct)
      && CellOf(ds, row, PowerAdjust) == DecimalCell(r.powerAdjust)
      && CellOf(ds, row, WeightPenalty) == DecimalCell(r.weightPenalty)
      && CellOf(ds, row, DryTireSets) == IntCell(r.dryTireSets)
  {
    NamedCell(prefix, cols, row, "id", ID, IntCell(r.id));
    NamedCell(prefix, cols, row, "event_id", EventID, IntCell(r.eventId));
    NamedCell(prefix, cols, row, "name", Name, TextCell(r.name));
    NamedCell(prefix, cols, row, "name_short", NameShort, TextCell(r.nameShort));
    NamedCell(prefix, cols, row, "car_id", CarID, IntCell(r.carId));
    NamedCell(prefix, cols, row, "c_car_class_id", CCarClassID, IntCell(r.cCarClassId));
    NamedCell(prefix, cols, row, "fuel_pct", FuelPCT, DecimalCell(r.fuelPct));
    NamedCell(prefix, cols, row, "power_adjust", PowerAdjust, DecimalCell(r.powerAdjust));
    NamedCell(prefix, cols, row, "weight_penalty", WeightPenalty, DecimalCell(r.weightPenalty));
    NamedCell(prefix, cols, row, "dry_tire_sets", DryTireSets, IntCell(r.dryTireSets));
  }

  // The fields of a car that has the values of a row, and zeros for NULL.
  function FieldsOf(r: CarRow): (cols: CCarColumns)
    ensures cols.id == if r.id.Some? then r.id.value else 0
    ensures cols.eventId == if r.eventId.Some? then r.eventId.value else 0
    ensures cols.name == if r.name.Some? then r.name.value else ""
    ensures cols.nameShort == if r.nameShort.Some? then r.nameShort.value else ""
    ensures cols.carId == if r.carId.Some? then r.carId.value else 0
    ensures cols.cCarClassId == if r.cCarClassId.Some? then r.cCarClassId.value else 0
    ensures cols.fuelPct == if r.fuelPct.Some? then r.fuelPct.value else 0.0
    ensures cols.powerAdjust == if r.powerAdjust.Some? then r.powerAdjust.value else 0.0
    ensures cols.weightPenalty == if r.weightPenalty.Some? then r.weightPenalty.value else 0.0
    ensures cols.dryTireSets == if r.dryTireSets.Some? then r.dryTireSets.value else 0
  {
    CCarColumns(Or(r.id, 0), Or(r.eventId, 0), Or(r.name, ""), Or(r.nameShort, ""), Or(r.carId, 0),
                Or(r.cCarClassId, 0), Or(r.fuelPct, 0.0), Or(r.powerAdjust, 0.0), Or(r.weightPenalty, 0.0),
                Or(r.dryTireSets, 0))
  }

  lemma NullCell(ds: Resolved<Column>, row: Row<Value>, c: Column)
    requires |row| == |ds|
    requires
      && CellOf(ds, row, ID) == None
      && CellOf(ds, row, EventID) == None
      && CellOf(ds, row, Name) == None
      && CellOf(ds, row, NameShort) == None
      && CellOf(ds, row, CarID) == None
      && CellOf(ds, row, CCarClassID) == None
      && CellOf(ds, row, FuelPCT) == None
      && CellOf(ds, row, PowerAdjust) == None
      && CellOf(ds, row, WeightPenalty) == None
      && CellOf(ds, row, DryTireSets) == None
    ensures CellOf(ds, row, c) == None
  {
    match c { case ID => case _ => }
  }

  /** The object for a row is nil exactly if all its columns are NULL, and otherwise has the value of each column
      in the field of its name, and zero for NULL. */
  lemma ObjectByName(prefix: string, cols: seq<string>, row: Row<Value>, r: CarRow, o: CCar?)
    requires RowOf(prefix, cols, row, r) && ObjectOf(Resolve(prefix, cols), row, o)
    ensures o == null <==> r == NullRow
    ensures o != null ==> o.cols == FieldsOf(r)
  {
    var ds := Resolve(prefix, cols);
    CellsByName(prefix, cols, row, r);
    FreshObject(ds, row);
    if r == NullRow {
      forall d <- ds | d.Some? ensures CellOf(ds, row, d.value) == None { NullCell(ds, row, d.value); }
    } else if NoChild(ds, row) {
      forall c: Column ensures CellOf(ds, row, c) == None { ScanOverwrites(ds, row, map[], c); }
      assert false;
    }
  }

  // o has what the row delivers for each column of the table.
  ghost predicate CarriesRow(prefix: string, cols: seq<string>, row: Row<Value>, o: CCar?) {
    forall r :: RowOf(prefix, cols, row, r) ==> (o == null <==> r == NullRow) && (o != null ==> o.cols == FieldsOf(r))
  }

  lemma ObjectCarriesRow(prefix: string, cols: seq<string>, row: Row<Value>, o: CCar?)
    requires ObjectOf(Resolve(prefix, cols), row, o)
    ensures CarriesRow(prefix, cols, row, o)
  {
    forall r | RowOf(prefix, cols, row, r)
      ensures (o == null <==> r == NullRow) && (o != null ==> o.cols == FieldsOf(r))
    {
      ObjectByName(prefix, cols, row, r, o);
    }
  }

  /** A row that delivers the columns of a car gives a car with exactly these columns. */
  lemma RoundTrip(prefix: string, cols: seq<string>, row: Row<Value>, v: CCarColumns, o: CCar?)
    requires RowOf(prefix, cols, row, CarRow(
      Some(v.id), Some(v.eventId), Some(v.name), Some(v.nameShort), Some(v.carId), Some(v.cCarClassId),
      Some(v.fuelPct), Some(v.powerAdjust), Some(v.weightPenalty), Some(v.dryTireSets)))
    requires CarriesRow(prefix, cols, row, o)
    ensures o != null && o.cols == v
  {
  }

  /** Such rows have the columns' types, so any result made of them can be mapped. */
  lemma RowIsTyped(prefix: string, cols: seq<string>, row: Row<Value>, r: CarRow)
    requires RowOf(prefix, cols, row, r)
    ensures Typed(Resolve(prefix, cols), row)
  {
    var ds := Resolve(prefix, cols);
    forall i | 0 <= i < |ds| && ds[i].Some? && row[i].Some? ensures Fits(ds[i].value, row[i].value) {
      ColumnByName(prefix, cols[i]);
    }
  }

  // ----- mapping rows -----

  // One row: before, scan, after.
  method MapRow(buf: CCarPreloadBuf, targets: seq<Target<Column>>, row: Row<Value>, ghost ds: Resolved<Column>)
    returns (o: CCar?)
    requires targets == Targets(ds) && Typed(ds, row) && forall c <- buf.cells :: Some(c) in ds
    modifies buf
    ensures forall c <- buf.cells :: Some(c) in ds
    ensures ObjectOf(ds, row, o) && (o != null ==> fresh(o))
  {
    ReuseIsUnobservable(ds, row, buf.cells);
    FreshScan(ds, row);
    ScanRow(buf, targets, row);
    o := BuildChild(buf);
  }

  /** Mapping a whole result with one buffer: each row gives no object exactly when all its cells are NULL,
      and otherwise a new object, shared with no other row, that holds that row's values only. */
  method MapRows(prefix: string, cols: seq<string>, rows: seq<Row<Value>>) returns (objs: seq<CCar?>)
    requires forall i :: 0 <= i < |rows| ==> Typed(Resolve(prefix, cols), rows[i])
    ensures |objs| == |rows| && forall i :: 0 <= i < |rows| ==> ObjectOf(Resolve(prefix, cols), rows[i], objs[i])
    ensures forall i :: 0 <= i < |rows| ==> CarriesRow(prefix, cols, rows[i], objs[i])
    ensures forall i :: 0 <= i < |rows| && objs[i] != null ==> fresh(objs[i])
    ensures forall i, j :: 0 <= i < j < |rows| && objs[i] != null ==> objs[i] != objs[j]
  {
    ghost var ds := Resolve(prefix, cols);
    var targets := ResolveTargets(prefix, cols);
    var buf := new CCarPreloadBuf();
    objs := [];
    for i := 0 to |rows|
      invariant |objs| == i && fresh(buf) && forall c <- buf.cells :: Some(c) in ds
      invariant forall k :: 0 <= k < i ==> ObjectOf(ds, rows[k], objs[k])
      invariant forall k :: 0 <= k < i && objs[k] != null ==> fresh(objs[k])
      invariant forall j, k :: 0 <= j < k < i && objs[j] != null ==> objs[j] != objs[k]
    {
      var o := MapRow(buf, targets, rows[i], ds);
      objs := objs + [o];
    }
    forall i | 0 <= i < |rows| ensures CarriesRow(prefix, cols, rows[i], objs[i]) {
      ObjectCarriesRow(prefix, cols, rows[i], objs[i]);
    }
  }
}
