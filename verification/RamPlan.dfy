/**
 * The flight-plan table of src/lib/storage/storage_ram.c: the simple backend, and here the
 * specification the flash backend is measured against.  A row whose time is ST_FP_NULL is free.
 */
module RamPlan {
  import opened Memory
  import opened PlanRecord

  /** The first row at or after `from` whose time is `t`, or -1. */
  function Find(rows: seq<Entry>, t: int32, from: nat): (i: int)
    requires from <= |rows|
    ensures i == -1 || (from <= i < |rows| && rows[i].time == t)
    ensures forall k | from <= k < (if i == -1 then |rows| else i) :: rows[k].time != t
    decreases |rows| - from
  {
    if from == |rows| then -1 else if rows[from].time == t then from else Find(rows, t, from + 1)
  }

  /** Rows in use. */
  function Live(rows: seq<Entry>): nat {
    if rows == [] then 0 else Live(rows[..|rows| - 1]) + if rows[|rows| - 1].time != FP_NULL then 1 else 0
  }

  datatype Result = Result(ok: bool, rows: seq<Entry>)

  /** `storage_flight_plan_set` */
  function Set(rows: seq<Entry>, e: Entry): (r: Result)
    ensures |r.rows| == |rows|
  {
    var i := Find(rows, FP_NULL, 0);
    if e.time < 0 || i == -1 then Result(false, rows) else Result(true, rows[i := e])
  }

  /** `storage_flight_plan_get`: a copy of the first row with that time, free or not */
  function Get(rows: seq<Entry>, t: int32): (bool, Entry) {
    var i := Find(rows, t, 0);
    if i == -1 then (false, Cleared(0)) else (true, rows[i])
  }

  /** `storage_flight_plan_get_args` copies the strings of the row it finds, which a free row does not have. */
  predicate HasStrings(rows: seq<Entry>, t: int32) {
    t != FP_NULL || Find(rows, t, 0) == -1
  }

  /** `storage_flight_plan_delete_row` */
  function Delete(rows: seq<Entry>, t: int32, commNode: int32): (r: Result)
    ensures |r.rows| == |rows|
  {
    var i := Find(rows, t, 0);
    if i == -1 then Result(false, rows) else Result(true, rows[i := Cleared(commNode)])
  }

  /** `storage_flight_plan_delete_row_idx`; the comparison with a size_t makes a negative index too large. */
  function DeleteIdx(rows: seq<Entry>, i: int, commNode: int32): (r: Result)
    ensures |r.rows| == |rows|
  {
    if 0 <= i < |rows| then Result(true, rows[i := Cleared(commNode)]) else Result(false, rows)
  }

  /** `storage_flight_plan_reset`: the loop returns in its first round. */
  function Reset(rows: seq<Entry>, commNode: int32): (r: Result)
    ensures |r.rows| == |rows|
  {
    if rows == [] then Result(false, rows) else Result(true, rows[0 := Cleared(commNode)])
  }

  lemma {:induction false} LiveZero(rows: seq<Entry>)
    ensures Live(rows) == 0 <==> forall i | 0 <= i < |rows| :: rows[i].time == FP_NULL
  {
    if rows != [] {
      var init := rows[..|rows| - 1];
      LiveZero(init);
      forall i | 0 <= i < |init| ensures rows[i] == init[i] {}
    }
  }

  lemma {:induction false} LiveUpdate(rows: seq<Entry>, i: nat, e: Entry)
    requires i < |rows|
    ensures Live(rows[i := e]) ==
      Live(rows) - (if rows[i].time != FP_NULL then 1 else 0) + (if e.time != FP_NULL then 1 else 0)
  {
    var last := |rows| - 1;
    if i == last {
      assert rows[i := e][..last] == rows[..last];
    } else {
      assert rows[i := e][..last] == rows[..last][i := e];
      LiveUpdate(rows[..last], i, e);
    }
  }

  /** The reset reports success and yet empties the table exactly when rows 1 onward were free already. */
  lemma ResetEmptiesIff(rows: seq<Entry>, commNode: int32)
    requires rows != []
    ensures Reset(rows, commNode).ok
    ensures Live(Reset(rows, commNode).rows) == 0 <==> forall i | 1 <= i < |rows| :: rows[i].time == FP_NULL
  {
    var after := Reset(rows, commNode).rows;
    LiveZero(after);
    assert forall i | 1 <= i < |rows| :: after[i] == rows[i];
  }

  class RamFlightPlan {
    const rows: array<Entry>
    const commNode: int32

    constructor (entries: nat, commNode: int32)
      ensures fresh(rows) && rows.Length == entries && this.commNode == commNode
      ensures Live(rows[..]) == 0
    {
      this.commNode := commNode;
      rows := new Entry[entries](_ => Cleared(commNode));
      new;
      LiveZero(rows[..]);
    }

    /** The linear scan every operation starts with. */
    method FindRow(t: int32) returns (i: int)
      ensures i == Find(rows[..], t, 0)
    {
      var k := 0;
      while k < rows.Length
        invariant 0 <= k <= rows.Length
        invariant Find(rows[..], t, 0) == Find(rows[..], t, k)
      {
        if rows[k].time == t { return k; }
        k := k + 1;
      }
      return -1;
    }

    method SetRow(e: Entry) returns (ok: bool)
      modifies rows
      ensures Result(ok, rows[..]) == Set(old(rows[..]), e)
    {
      if e.time < 0 { return false; }
      var i := FindRow(FP_NULL);
      if i == -1 { return false; }
      rows[i] := e;
      return true;
    }

    method GetRow(t: int32) returns (ok: bool, e: Entry)
      ensures (ok, e) == Get(rows[..], t)
    {
      var i := FindRow(t);
      if i == -1 { return false, Cleared(0); }
      return true, rows[i];
    }

    /** For a free row the source copies from a null pointer, so its callers must not look for one. */
    method GetArgs(t: int32) returns (ok: bool, e: Entry)
      requires HasStrings(rows[..], t)
      ensures (ok, e) == Get(rows[..], t) && (ok ==> e.time == t != FP_NULL)
    {
      ok, e := GetRow(t);
    }

    method DeleteRow(t: int32) returns (ok: bool)
      modifies rows
      ensures Result(ok, rows[..]) == Delete(old(rows[..]), t, commNode)
    {
      var i := FindRow(t);
      if i == -1 { return false; }
      rows[i] := Cleared(commNode);
      return true;
    }

    method DeleteRowIdx(i: int) returns (ok: bool)
      modifies rows
      ensures Result(ok, rows[..]) == DeleteIdx(old(rows[..]), i, commNode)
    {
      if i < 0 || i >= rows.Length { return false; }
      rows[i] := Cleared(commNode);
      return true;
    }

    method ResetTable() returns (ok: bool)
      modifies rows
      ensures Result(ok, rows[..]) == Reset(old(rows[..]), commNode)
    {
      // the source's loop returns in its first round, so it never takes a second one
      if rows.Length > 0 {
        rows[0] := Cleared(commNode);
        return true;
      }
      return false;
    }
  }
}
