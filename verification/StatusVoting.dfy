/** Status variables kept in three copies and read by vote: src/system/repoData.c. */
module StatusVoting {
  import opened Memory

  /** dat_get_status_var compares three copies and prefers the first. */
  function Vote(a: uint32, b: uint32, c: uint32): uint32 {
    if a == b || a == c then a else if b == c then b else a
  }

  /** The cell of copy `k` of variable `i`. */
  function Copy(L: nat, i: nat, k: nat): nat { if k == 0 then i else if k == 1 then i + L else i + 2 * L }

  /** dat_set_status_var: the copies are `L`, dat_status_last_address, cells apart. */
  function Write(cells: seq<uint32>, L: nat, i: nat, v: uint32): (r: seq<uint32>)
    requires i < L && |cells| == 3 * L
    ensures |r| == |cells|
  {
    cells[i := v][i + L := v][i + 2 * L := v]
  }

  /** dat_get_status_var: it steps by `V`, dat_status_last_var. */
  function Read(cells: seq<uint32>, V: nat, i: nat): uint32
    requires i + 2 * V < |cells|
  {
    Vote(cells[i], cells[i + V], cells[i + 2 * V])
  }

  // ---------------------------------------------------------------- the vote

  datatype Copies = Copies(a: uint32, b: uint32, c: uint32)
  {
    function At(k: nat): uint32
      requires k < 3
    {
      if k == 0 then a else if k == 1 then b else c
    }
  }

  /** All copies outside `hit` hold `w`. */
  predicate Intact(x: Copies, hit: set<nat>, w: uint32) {
    forall k | 0 <= k < 3 && k !in hit :: x.At(k) == w
  }

  /** The vote recovers the value whatever the copies in `hit` hold. */
  ghost predicate Tolerates(hit: set<nat>) {
    forall x: Copies, w: uint32 | Intact(x, hit, w) :: Vote(x.a, x.b, x.c) == w
  }

  lemma AtMostOne(hit: set<nat>, j: nat, k: nat)
    requires |hit| <= 1 && j != k
    ensures j !in hit || k !in hit
  {
    if j in hit {
      var rest := hit - {j};
      assert |rest| == 0;
      assert k !in rest;
    }
  }

  lemma PairInside(hit: set<nat>) returns (j: nat, k: nat)
    requires |hit| >= 2
    ensures j in hit && k in hit && j != k
  {
    j :| j in hit;
    var rest := hit - {j};
    assert |rest| == |hit| - 1;
    k :| k in rest;
  }

  /** It does exactly when at most one copy was hit. */
  lemma ToleratesIff(hit: set<nat>)
    requires forall k | k in hit :: k < 3
    ensures Tolerates(hit) <==> |hit| <= 1
  {
    if |hit| <= 1 {
      AtMostOne(hit, 0, 1);
      AtMostOne(hit, 0, 2);
      AtMostOne(hit, 1, 2);
      forall x: Copies, w: uint32 | Intact(x, hit, w) ensures Vote(x.a, x.b, x.c) == w {
        assert forall k | 0 <= k < 3 :: k !in hit ==> x.At(k) == w;
        assert 0 !in hit ==> x.At(0) == w;
        assert 1 !in hit ==> x.At(1) == w;
        assert 2 !in hit ==> x.At(2) == w;
      }
    } else {
      var j, k := PairInside(hit);
      var x := Copies(if 0 in hit then 1 else 0, if 1 in hit then 1 else 0, if 2 in hit then 1 else 0);
      assert x.At(j) == 1 && x.At(k) == 1;
      assert Intact(x, hit, 0) && Vote(x.a, x.b, x.c) == 1;
    }
  }

  // ---------------------------------------------------------------- runs

  /** A write by the program, or a cell that changes by itself. */
  datatype Event = Set(i: nat, v: uint32) | Alter(cell: nat, v: uint32)

  predicate Possible(e: Event, L: nat) {
    match e case Set(i, _) => i < L case Alter(cell, _) => cell < 3 * L
  }

  ghost predicate ValidRun(es: seq<Event>, L: nat) {
    forall e | e in es :: Possible(e, L)
  }

  function Step(cells: seq<uint32>, L: nat, e: Event): (r: seq<uint32>)
    requires |cells| == 3 * L && Possible(e, L)
    ensures |r| == |cells|
  {
    match e
    case Set(i, v) => Write(cells, L, i, v)
    case Alter(cell, v) => cells[cell := v]
  }

  ghost function Final(cells: seq<uint32>, L: nat, es: seq<Event>): (r: seq<uint32>)
    requires |cells| == 3 * L && ValidRun(es, L)
    ensures |r| == |cells|
  {
    if es == [] then cells else Step(Final(cells, L, es[..|es| - 1]), L, es[|es| - 1])
  }

  /** The value last written to a variable. */
  function Last(es: seq<Event>, i: nat, initial: uint32): uint32 {
    if es == [] then initial
    else if es[|es| - 1].Set? && es[|es| - 1].i == i then es[|es| - 1].v
    else Last(es[..|es| - 1], i, initial)
  }

  /** The copies of a variable altered since it was last written. */
  function Hits(es: seq<Event>, L: nat, i: nat): (r: set<nat>)
    ensures forall k | k in r :: k < 3
  {
    if es == [] then {} else
      var before := Hits(es[..|es| - 1], L, i);
      match es[|es| - 1]
      case Set(j, _) => if j == i then {} else before
      case Alter(cell, _) => before + set k: nat | k < 3 && Copy(L, i, k) == cell
  }

  lemma StepKeepsCopy(cells: seq<uint32>, L: nat, e: Event, i: nat, k: nat)
    requires |cells| == 3 * L && Possible(e, L) && i < L && k < 3
    ensures Step(cells, L, e)[Copy(L, i, k)] ==
      match e
      case Set(j, v) => if j == i then v else cells[Copy(L, i, k)]
      case Alter(cell, v) => if cell == Copy(L, i, k) then v else cells[Copy(L, i, k)]
  {
  }

  /** Each copy that was not hit still holds the value last written. */
  lemma {:induction false} CopyKept(cells: seq<uint32>, L: nat, es: seq<Event>, i: nat, initial: uint32, k: nat)
    requires |cells| == 3 * L && ValidRun(es, L) && i < L && k < 3
    requires cells[i] == cells[i + L] == cells[i + 2 * L] == initial
    ensures k in Hits(es, L, i) || Final(cells, L, es)[Copy(L, i, k)] == Last(es, i, initial)
  {
    if es != [] {
      var e, before := es[|es| - 1], es[..|es| - 1];
      StepKeepsCopy(Final(cells, L, before), L, e, i, k);
      if !(e.Set? && e.i == i) {
        CopyKept(cells, L, before, i, initial, k);
      }
    }
  }

  lemma VoteMasks(x: Copies, hit: set<nat>, w: uint32)
    requires (0 in hit || x.a == w) && (1 in hit || x.b == w) && (2 in hit || x.c == w)
    requires |hit| <= 1 && forall k | k in hit :: k < 3
    ensures Vote(x.a, x.b, x.c) == w
  {
    assert Intact(x, hit, w);
    ToleratesIff(hit);
  }

  /** Voting masks single faults: if at most one copy was altered since the last write, that write is read. */
  lemma MasksSingleFaults(cells: seq<uint32>, L: nat, es: seq<Event>, i: nat, initial: uint32)
    requires |cells| == 3 * L && ValidRun(es, L) && i < L
    requires cells[i] == cells[i + L] == cells[i + 2 * L] == initial
    requires |Hits(es, L, i)| <= 1
    ensures Read(Final(cells, L, es), L, i) == Last(es, i, initial)
  {
    var end, hit, w := Final(cells, L, es), Hits(es, L, i), Last(es, i, initial);
    CopyKept(cells, L, es, i, initial, 0);
    CopyKept(cells, L, es, i, initial, 1);
    CopyKept(cells, L, es, i, initial, 2);
    VoteMasks(Copies(end[i], end[i + L], end[i + 2 * L]), hit, w);
  }

  /** Writing one variable never changes what another reads as, whatever state its copies are in. */
  lemma WriteKeepsOthers(cells: seq<uint32>, L: nat, i: nat, v: uint32, j: nat)
    requires |cells| == 3 * L && i < L && j < L && i != j
    ensures Read(Write(cells, L, i, v), L, j) == Read(cells, L, j)
  {
  }

  /** Single faults are masked, for every variable and every run from a coherent start. */
  ghost predicate Masks(L: nat, V: nat)
    requires V <= L
  {
    forall cells: seq<uint32>, es: seq<Event>, i: nat, initial: uint32 |
      |cells| == 3 * L && ValidRun(es, L) && i < L &&
      cells[i] == cells[i + L] == cells[i + 2 * L] == initial && |Hits(es, L, i)| <= 1 ::
      Read(Final(cells, L, es), V, i) == Last(es, i, initial)
  }

  /** That needs the two strides to be the same: dat_status_last_var must equal dat_status_last_address. */
  lemma MasksIff(L: nat, V: nat)
    requires 0 < L && V <= L
    ensures Masks(L, V) <==> V == L
  {
    if V == L {
      forall cells: seq<uint32>, es: seq<Event>, i: nat, initial: uint32 |
        |cells| == 3 * L && ValidRun(es, L) && i < L &&
        cells[i] == cells[i + L] == cells[i + 2 * L] == initial && |Hits(es, L, i)| <= 1
        ensures Read(Final(cells, L, es), V, i) == Last(es, i, initial)
      {
        MasksSingleFaults(cells, L, es, i, initial);
      }
    } else {
      WrongStride(L, V);
    }
  }

  /** With a shorter stride the second value compared belongs to another variable, or is the first one again. */
  lemma WrongStride(L: nat, V: nat)
    requires V < L
    ensures !Masks(L, V)
  {
    var cells: seq<uint32> := seq(3 * L, _ => 0);
    var write, fault := Set(0, 1), Alter(0, 2);
    var es := [write, fault];
    assert es[..1] == [write] && [write][..0] == [];
    assert Final(cells, L, []) == cells;
    assert Final(cells, L, [write]) == Write(cells, L, 0, 1);
    var end := Write(cells, L, 0, 1)[0 := 2];
    assert Final(cells, L, es) == end;
    assert Hits([write], L, 0) == {};
    assert Hits(es, L, 0) == {0} by {
      assert forall k: nat | k < 3 :: Copy(L, 0, k) == 0 <==> k == 0;
    }
    assert end[V] != 1 && Read(end, V, 0) != 1;
    assert Last(es, 0, 0) == Last([write], 0, 0) == 1;
    assert ValidRun(es, L) && cells[0] == cells[0 + L] == cells[0 + 2 * L] == 0;
  }

  /** `L` is dat_status_last_address, the stride of the writes, and `V` dat_status_last_var, that of the reads. */
  class StatusRepo {
    const L: nat
    const V: nat
    const cells: array<uint32>

    ghost predicate Valid() { cells.Length == 3 * L }

    constructor (L: nat, V: nat)
      ensures this.L == L && this.V == V && Valid() && fresh(cells) && forall k | 0 <= k < 3 * L :: cells[k] == 0
    {
      this.L, this.V := L, V;
      cells := new uint32[3 * L](_ => 0);
    }

    method SetStatusVar(i: nat, v: uint32)
      requires Valid() && i < L
      modifies cells
      ensures cells[..] == Write(old(cells[..]), L, i, v)
    {
      cells[i] := v;
      cells[i + L] := v;
      cells[i + L * 2] := v;
    }

    method GetStatusVar(i: nat) returns (v: uint32)
      requires Valid() && i + 2 * V < cells.Length
      ensures v == Read(cells[..], V, i)
    {
      var first, second, third := cells[i], cells[i + V], cells[i + V * 2];
      if first == second || first == third {
        return first;
      }
      if second == third {
        return second;
      }
      return first;
    }
  }
}
