/** Replacing the rows of a slice by freshly retrieved rows with the same primary key. */
module CopyRows {
  import opened Models
  import opened Options
  import opened Stitching

  // The row a slot holds afterwards: the first incoming row with its key, if any.
  ghost function Replacement(from: seq<CCar>, slot: CCar): CCar {
    match First(from, CarId, slot.cols.id) case Some(row) => row case None => slot
  }

  // The last slot with the key of row n that does not hold n itself.
  ghost function Donor(slots: seq<CCar>, n: CCar): Option<CCar> {
    if slots == [] then None
    else
      var last := slots[|slots| - 1];
      if last.cols.id == n.cols.id && last != n then Some(last) else Donor(slots[..|slots| - 1], n)
  }

  // The row whose relationships n ends up with.
  ghost function SourceOfR(slots: seq<CCar>, from: seq<CCar>, n: CCar): CCar {
    if First(from, CarId, n.cols.id) == Some(n) && Donor(slots, n).Some? then Donor(slots, n).value else n
  }

  lemma SourceStep(slots: seq<CCar>, i: nat, from: seq<CCar>, n: CCar)
    requires i < |slots|
    ensures var row := slots[i];
      SourceOfR(slots[..i + 1], from, n) ==
      if row.cols.id == n.cols.id && row != n && First(from, CarId, n.cols.id) == Some(n) then row
      else SourceOfR(slots[..i], from, n)
  {
    Snoc(slots, i);
  }

  // The first incoming row for each key.
  method FirstByPK(from: seq<CCar>) returns (fromByPK: map<int, CCar>)
    ensures forall k :: First(from, CarId, k) == if k in fromByPK then Some(fromByPK[k]) else None
  {
    fromByPK := map[];
    for i := 0 to |from|
      invariant forall k :: First(from[..i], CarId, k) == if k in fromByPK then Some(fromByPK[k]) else None
    {
      forall k { FirstStep<CCar>(from, i, CarId, k); }
      if from[i].cols.id !in fromByPK {
        fromByPK := fromByPK[from[i].cols.id := from[i]];
      }
    }
    assert from[..|from|] == from;
  }

  method CopyMatchingRows(o: array<CCar>, from: seq<CCar>)
    modifies o, from`r
    ensures forall i :: 0 <= i < o.Length ==> o[i] == Replacement(from, old(o[i])) && o[i].cols.id == old(o[i]).cols.id
    ensures forall n :: n in from ==> n.r == old(SourceOfR(o[..], from, n).r)
  {
    ghost var slots := o[..];
    var fromByPK := FirstByPK(from);
    for i := 0 to o.Length
      invariant forall k :: 0 <= k < o.Length ==> o[k] == if k < i then Replacement(from, slots[k]) else slots[k]
      invariant forall n :: n in from ==> n.r == old(SourceOfR(slots[..i], from, n).r)
    {
      var row := o[i];
      forall n { SourceStep(slots, i, from, n); }
      if row.cols.id in fromByPK {
        FirstIsFirst<CCar>(from, CarId, row.cols.id);
        var incoming := fromByPK[row.cols.id];
        assert row.r == old(row.r) || row == incoming;
        incoming.r := row.r;
        o[i] := incoming;
      } else {
        FirstIsFirst<CCar>(from, CarId, row.cols.id);
      }
    }
    assert slots[..|slots|] == slots;
    forall i | 0 <= i < o.Length ensures o[i].cols.id == old(o[i]).cols.id {
      FirstIsFirst<CCar>(from, CarId, slots[i].cols.id);
    }
  }

  // Rows and their relationships while the nested loop runs.
  datatype Copied = Copied(slots: seq<CCar>, rs: map<CCar, CCarR>)

  /** The nested loop this replaces: every slot takes the first incoming row with its key, which takes
      over the relationships of the slot's old row as they are at that moment. */
  ghost function NestedCopy(slots: seq<CCar>, from: seq<CCar>, rs: map<CCar, CCarR>): (r: Copied)
    requires forall s :: s in slots ==> s in rs
    ensures rs.Keys <= r.rs.Keys
  {
    if slots == [] then Copied([], rs)
    else
      var before, last := NestedCopy(slots[..|slots| - 1], from, rs), slots[|slots| - 1];
      match First(from, CarId, last.cols.id)
      case None => before.(slots := before.slots + [last])
      case Some(row) => Copied(before.slots + [row], before.rs[row := before.rs[last]])
  }

  /** The map-based form and the nested loop leave the same slots and the same relationships, for every
      slice and every list of incoming rows, repeated keys and shared rows included. */
  lemma {:induction false} CopyMatchesNestedLoop(slots: seq<CCar>, from: seq<CCar>, rs: map<CCar, CCarR>)
    requires forall s :: s in slots || s in from ==> s in rs
    ensures var after := NestedCopy(slots, from, rs);
      && |after.slots| == |slots|
      && (forall i :: 0 <= i < |slots| ==> after.slots[i] == Replacement(from, slots[i]))
      && (forall n :: n in rs && SourceOfR(slots, from, n) in rs ==> after.rs[n] == rs[SourceOfR(slots, from, n)])
  {
    if slots != [] {
      var front, last := slots[..|slots| - 1], slots[|slots| - 1];
      CopyMatchesNestedLoop(front, from, rs);
      FirstIsFirst<CCar>(from, CarId, last.cols.id);
      forall n | n in rs && SourceOfR(slots, from, n) in rs
        ensures NestedCopy(slots, from, rs).rs[n] == rs[SourceOfR(slots, from, n)]
      {
        DonorIsSlot(front, n);
        DonorIsSlot(front, last);
      }
    }
  }

  lemma {:induction false} DonorIsSlot(slots: seq<CCar>, n: CCar)
    ensures Donor(slots, n).Some? ==> Donor(slots, n).value in slots && Donor(slots, n).value.cols.id == n.cols.id
  {
    if slots != [] { DonorIsSlot(slots[..|slots| - 1], n); }
  }

  /** A row that is not in the slice takes over the relationships of the last old slot with its key. */
  lemma {:induction false} NewRowTakesLastSlot(slots: seq<CCar>, n: CCar)
    requires n !in slots
    ensures var same := WithKey(slots, CarId, n.cols.id);
      Donor(slots, n) == if same == [] then None else Some(same[|same| - 1])
  {
    if slots != [] { NewRowTakesLastSlot(slots[..|slots| - 1], n); }
  }
}
