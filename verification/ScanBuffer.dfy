/** Scanning rows into a buffer of nullable columns, for any column names and value types. */
module ScanBuffer {
  import opened Options

  // The buffer column each result column is scanned into, if any.
  type Resolved<K> = seq<Option<K>>

  // What the database delivers in each result column of a row; None is NULL.
  type Row<V> = seq<Option<V>>

  datatype Target<K> = Target(idx: nat, dst: K)

  // The buffer holds the columns that are not NULL, with their values.
  function Get<K, V>(cells: map<K, V>, c: K): Option<V> {
    if c in cells then Some(cells[c]) else None
  }

  function Put<K, V>(cells: map<K, V>, c: K, v: Option<V>): map<K, V> {
    if v.Some? then cells[c := v.value] else cells - {c}
  }

  // The buffer after the targets of one row have been scanned into it, in order.
  ghost function Scanned<K, V>(cells: map<K, V>, targets: seq<Target<K>>, row: Row<V>): map<K, V>
    requires forall k :: 0 <= k < |targets| ==> targets[k].idx < |row|
  {
    if targets == [] then cells
    else
      var t := targets[|targets| - 1];
      Put(Scanned(cells, targets[..|targets| - 1], row), t.dst, row[t.idx])
  }

  ghost function Targets<K>(ds: Resolved<K>): (ts: seq<Target<K>>)
    ensures forall k :: 0 <= k < |ts| ==> ts[k].idx < |ds|
  {
    if ds == [] then []
    else
      var front, n := Targets(ds[..|ds| - 1]), |ds| - 1;
      if ds[n].Some? then front + [Target(n, ds[n].value)] else front
  }

  // What a row leaves in a buffer of its own.
  ghost function FreshCells<K, V>(ds: Resolved<K>, row: Row<V>): map<K, V> {
    if |row| == |ds| then Scanned(map[], Targets(ds), row) else map[]
  }

  /** What a row says about column c: the cell of the last result column that stands for it. */
  ghost function CellOf<K, V>(ds: Resolved<K>, row: Row<V>, c: K): Option<V>
    requires |row| == |ds|
  {
    if ds == [] then None
    else if ds[|ds| - 1] == Some(c) then row[|ds| - 1]
    else CellOf(ds[..|ds| - 1], row[..|ds| - 1], c)
  }

  /** Of several result columns for the same column the last one counts. */
  lemma {:induction false} LastCellCounts<K, V>(ds: Resolved<K>, row: Row<V>, c: K, i: nat)
    requires |row| == |ds| && i < |ds| && ds[i] == Some(c) && forall j :: i < j < |ds| ==> ds[j] != Some(c)
    ensures CellOf(ds, row, c) == row[i]
  {
    if i < |ds| - 1 { LastCellCounts(ds[..|ds| - 1], row[..|ds| - 1], c, i); }
  }

  // A column whose result columns all deliver v, at least one of them unless v is NULL.
  lemma {:induction false} CellIs<K, V>(ds: Resolved<K>, row: Row<V>, c: K, v: Option<V>)
    requires |row| == |ds| && (v.Some? ==> Some(c) in ds)
    requires forall i :: 0 <= i < |ds| && ds[i] == Some(c) ==> row[i] == v
    ensures CellOf(ds, row, c) == v
  {
    if ds != [] {
      var n := |ds| - 1;
      assert ds == ds[..n] + [ds[n]];
      if ds[n] != Some(c) { CellIs(ds[..n], row[..n], c, v); }
    }
  }

  lemma {:induction false} ScanPrefix<K, V>(cells: map<K, V>, targets: seq<Target<K>>, row: Row<V>, n: nat)
    requires n <= |row| && forall k :: 0 <= k < |targets| ==> targets[k].idx < n
    ensures Scanned(cells, targets, row) == Scanned(cells, targets, row[..n])
  {
    if targets != [] { ScanPrefix(cells, targets[..|targets| - 1], row, n); }
  }

  lemma ScanOneMore<K, V>(cells: map<K, V>, ds: Resolved<K>, row: Row<V>)
    requires ds != [] && |row| == |ds|
    ensures var n := |ds| - 1;
      var before := Scanned(cells, Targets(ds[..n]), row[..n]);
      Scanned(cells, Targets(ds), row) == if ds[n].Some? then Put(before, ds[n].value, row[n]) else before
  {
    var n := |ds| - 1;
    var ts := Targets(ds[..n]);
    ScanPrefix(cells, ts, row, n);
    if ds[n].Some? {
      var t := Target(n, ds[n].value);
      assert Targets(ds) == ts + [t] && (ts + [t])[..|ts|] == ts;
    }
  }

  lemma PutThenGet<K, V>(cells: map<K, V>, c: K, v: Option<V>, d: K)
    ensures Get(Put(cells, c, v), d) == if c == d then v else Get(cells, d)
  {
  }

  /** Scanning overwrites every selected column and no other. */
  lemma {:induction false} ScanOverwrites<K, V>(ds: Resolved<K>, row: Row<V>, cells: map<K, V>, c: K)
    requires |row| == |ds|
    ensures Get(Scanned(cells, Targets(ds), row), c) == if Some(c) in ds then CellOf(ds, row, c) else Get(cells, c)
    ensures Some(c) !in ds ==> CellOf(ds, row, c) == None
  {
    if ds != [] {
      var n := |ds| - 1;
      var before := Scanned(cells, Targets(ds[..n]), row[..n]);
      ScanOverwrites(ds[..n], row[..n], cells, c);
      ScanOneMore(cells, ds, row);
      assert ds == ds[..n] + [ds[n]];
      if ds[n].Some? { PutThenGet(before, ds[n].value, row[n], c); }
    }
  }

  lemma SameCells<K, V>(a: map<K, V>, b: map<K, V>)
    requires forall c <- a.Keys + b.Keys :: Get(a, c) == Get(b, c)
    ensures a == b
  {
    forall c ensures c in a <==> c in b {
      if c in a || c in b { assert c in a.Keys + b.Keys; }
    }
    forall c | c in a ensures a[c] == b[c] { assert c in a.Keys + b.Keys; }
  }

  /** The reused buffer is unobservable: whatever an earlier row left in selected columns, scanning a row
      gives what a fresh buffer would. */
  lemma ReuseIsUnobservable<K, V>(ds: Resolved<K>, row: Row<V>, cells: map<K, V>)
    requires |row| == |ds| && forall c <- cells :: Some(c) in ds
    ensures Scanned(cells, Targets(ds), row) == FreshCells(ds, row)
    ensures forall c <- Scanned(cells, Targets(ds), row) :: Some(c) in ds
  {
    var a, b := Scanned(cells, Targets(ds), row), Scanned(map[], Targets(ds), row);
    forall c <- a.Keys + b.Keys ensures Get(a, c) == Get(b, c) {
      ScanOverwrites(ds, row, cells, c);
      ScanOverwrites(ds, row, map[], c);
    }
    SameCells(a, b);
    forall c <- a ensures Some(c) in ds { ScanOverwrites(ds, row, map[], c); }
  }

  // All cells that count are NULL.
  ghost predicate NoChild<K, V>(ds: Resolved<K>, row: Row<V>) {
    |row| == |ds| && forall d <- ds :: d.Some? ==> CellOf(ds, row, d.value) == None
  }

  lemma {:induction false} CellIsNull<K, V>(ds: Resolved<K>, row: Row<V>, c: K)
    requires |row| == |ds| && forall i :: 0 <= i < |ds| && ds[i].Some? ==> row[i] == None
    ensures CellOf(ds, row, c) == None
  {
    if ds != [] { CellIsNull(ds[..|ds| - 1], row[..|ds| - 1], c); }
  }

  /** A row whose prefixed columns are all NULL has no child. */
  lemma AllNullMeansNoChild<K, V>(ds: Resolved<K>, row: Row<V>)
    requires |row| == |ds| && forall i :: 0 <= i < |ds| && ds[i].Some? ==> row[i] == None
    ensures NoChild(ds, row)
  {
    forall d <- ds | d.Some? { CellIsNull(ds, row, d.value); }
  }

  lemma FreshScan<K, V>(ds: Resolved<K>, row: Row<V>)
    requires |row| == |ds|
    ensures FreshCells(ds, row) == map[] <==> NoChild(ds, row)
  {
    var scanned := FreshCells(ds, row);
    if NoChild(ds, row) {
      forall c <- scanned ensures false { ScanOverwrites(ds, row, map[], c); }
    } else {
      var d :| d in ds && d.Some? && CellOf(ds, row, d.value) != None;
      ScanOverwrites(ds, row, map[], d.value);
    }
  }
}
