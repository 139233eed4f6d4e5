/** The table of open files, shared by all threads of a process and guarded by one lock. */
module HandleTable {
  import opened NetCDF

  /** A slot holds the record of an open file, here its serial number. */
  datatype Table = Table(slots: seq<Option<nat>>, num: int)

  function Occupied(slots: seq<Option<nat>>): (n: nat)
    ensures n <= |slots|
  {
    if slots == [] then 0
    else Occupied(slots[..|slots| - 1]) + (if slots[|slots| - 1].Some? then 1 else 0)
  }

  predicate IsLowestFree(slots: seq<Option<nat>>, id: int) {
    0 <= id < |slots| && slots[id].None? && forall j :: 0 <= j < id ==> slots[j].Some?
  }

  predicate Full(slots: seq<Option<nat>>) {
    forall j :: 0 <= j < |slots| ==> slots[j].Some?
  }

  function FirstFree(slots: seq<Option<nat>>): (id: int)
    ensures id == -1 ==> Full(slots)
    ensures id != -1 ==> IsLowestFree(slots, id)
  {
    if slots == [] then -1
    else if FirstFree(slots[..|slots| - 1]) != -1 then FirstFree(slots[..|slots| - 1])
    else if slots[|slots| - 1].None? then |slots| - 1 else -1
  }

  lemma {:induction false} OccupiedUpdate(slots: seq<Option<nat>>, id: int, x: Option<nat>)
    requires 0 <= id < |slots|
    ensures Occupied(slots[id := x])
         == Occupied(slots) - (if slots[id].Some? then 1 else 0) + (if x.Some? then 1 else 0)
  {
    var n := |slots| - 1;
    if id < n {
      OccupiedUpdate(slots[..n], id, x);
      assert slots[id := x][..n] == slots[..n][id := x];
    } else {
      assert slots[id := x][..n] == slots[..n];
    }
  }

  lemma {:induction false} OccupiedExtremes(slots: seq<Option<nat>>)
    ensures Occupied(slots) == |slots| <==> Full(slots)
    ensures Occupied(slots) == 0 <==> forall j :: 0 <= j < |slots| ==> slots[j].None?
  {
    if slots != [] {
      var n := |slots| - 1;
      OccupiedExtremes(slots[..n]);
      assert forall j :: 0 <= j < n ==> slots[j] == slots[..n][j];
    }
  }

  /* ---------------- the operations, on values ---------------- */

  function Added(t: Table, file: nat): Table {
    var id := FirstFree(t.slots);
    if t.num == NC_MAX_NFILES || id == -1 then t else Table(t.slots[id := Some(file)], t.num + 1)
  }

  function Removed(t: Table, id: int): Table
    requires 0 <= id < |t.slots|
  {
    Table(t.slots[id := None], t.num - 1)
  }

  predicate Accepts(t: Table, id: int) {
    t.num != 0 && 0 <= id < |t.slots|
  }

  predicate Live(t: Table, id: int) {
    0 <= id < |t.slots| && t.slots[id].Some?
  }

  /** The counter is right. */
  predicate Exact(t: Table) {
    |t.slots| == NC_MAX_NFILES && t.num == Occupied(t.slots)
  }

  /* ---------------- the table itself ---------------- */

  class FileList {
    const slots: array<Option<nat>>
    var numfiles: int

    ghost predicate Valid()
      reads this, slots
    {
      slots.Length == NC_MAX_NFILES
    }

    ghost function Contents(): Table
      reads this, slots
    {
      Table(slots[..], numfiles)
    }

    constructor ()
      ensures Valid() && fresh(slots) && Exact(Contents()) && numfiles == 0
    {
      slots := new Option<nat>[NC_MAX_NFILES](_ => None);
      numfiles := 0;
      new;
      OccupiedExtremes(slots[..]);
    }

    /** A new id: the lowest free slot. */
    method NewId(file: nat) returns (err: int, id: int)
      requires Valid()
      modifies this`numfiles, slots
      ensures Valid() && Contents() == Added(old(Contents()), file)
      ensures err == if old(numfiles) == NC_MAX_NFILES then NC_ENFILE else NC_NOERR
      ensures id == if err == NC_NOERR then FirstFree(old(slots[..])) else -1
      ensures old(Exact(Contents())) ==> Exact(Contents()) && (err == NC_NOERR <==> id != -1)
    {
      ghost var before := slots[..];
      OccupiedExtremes(before);
      id := -1;
      if numfiles == NC_MAX_NFILES { return NC_ENFILE, -1; }
      err := NC_NOERR;
      var i := 0;
      while i < NC_MAX_NFILES
        invariant i <= NC_MAX_NFILES && slots[..] == before && id == -1 && numfiles == old(numfiles)
        invariant forall j :: 0 <= j < i ==> before[j].Some?
      {
        if slots[i].None? {
          OccupiedUpdate(before, i, Some(file));
          id := i;
          slots[i] := Some(file);
          numfiles := numfiles + 1;
          return;
        }
        i := i + 1;
      }
    }

    /** Frees a slot. Whether it is in use is for the caller to know. */
    method Delete(id: int)
      requires Valid() && 0 <= id < NC_MAX_NFILES
      modifies this`numfiles, slots
      ensures Valid() && Contents() == Removed(old(Contents()), id)
    {
      slots[id] := None;
      numfiles := numfiles - 1;
    }

    /** The record behind an id; the record is only written when there is no error. */
    method CheckId(id: int) returns (err: int, file: Option<nat>)
      requires Valid()
      ensures err == if Accepts(Contents(), id) then NC_NOERR else NC_EBADID
      ensures err == NC_NOERR ==> file == slots[id]
    {
      err, file := NC_NOERR, None;
      if numfiles == 0 || id < 0 || id >= NC_MAX_NFILES { err := NC_EBADID; } else { file := slots[id]; }
    }

    /** How many files are open and, when they are asked for, their ids: in increasing order, each
        once, and all of them. Without the ids the counter is all that is looked at. */
    method InqFilesOpened(wantIds: bool) returns (num: int, ids: seq<int>)
      requires Valid()
      ensures num == if wantIds then Occupied(slots[..]) else numfiles
      ensures wantIds ==> num == |ids| && (forall i, j :: 0 <= i < j < |ids| ==> ids[i] < ids[j])
      ensures wantIds ==> forall id :: id in ids <==> Live(Contents(), id)
    {
      num, ids := numfiles, [];
      if !wantIds { return; }
      num := 0;
      for i := 0 to NC_MAX_NFILES
        invariant num == |ids| == Occupied(slots[..i])
        invariant forall j, k :: 0 <= j < k < |ids| ==> ids[j] < ids[k]
        invariant forall j :: 0 <= j < |ids| ==> ids[j] < i
        invariant forall id :: id in ids <==> 0 <= id < i && slots[id].Some?
      {
        assert slots[..i + 1][..i] == slots[..i];
        if slots[i].Some? {
          ids := ids + [i];
          num := num + 1;
        }
      }
      assert slots[..NC_MAX_NFILES] == slots[..];
    }

    /** Creating or opening a file, after the modes have been compared. `status` is the outcome of
        that comparison, `code` the driver's; those in `tolerated` are reported but not fatal. */
    method Register(status: int, code: int, tolerated: set<int>, file: nat) returns (err: int, id: int)
      requires Valid() && Exact(Contents())
      requires status == NC_NOERR || status in tolerated
      requires NC_NOERR !in tolerated && NC_ENFILE !in tolerated
      modifies this`numfiles, slots
      ensures Valid() && Exact(Contents())
      ensures id == -1 ==> Contents() == old(Contents()) && err != NC_NOERR && err !in tolerated
      ensures id != -1 ==> Contents() == Added(old(Contents()), file) && IsLowestFree(old(slots[..]), id)
      ensures id != -1 ==> err == NC_NOERR || err in tolerated
      // a fatal error of the driver leaves a file open exactly when the comparison had complained
      ensures code != NC_NOERR && code !in tolerated ==>
        (id != -1 <==> status != NC_NOERR && !old(Full(slots[..])))
    {
      ghost var before := Contents();
      OccupiedExtremes(slots[..]);
      err, id := NewId(file);
      if err != NC_NOERR { return; }
      err := if status == NC_NOERR then code else status;
      if err != NC_NOERR && err !in tolerated {
        OccupiedUpdate(slots[..], id, None);
        AddRemove(before, file);
        Delete(id);
        id := -1;
      }
    }
  }

  /* ---------------- histories ---------------- */

  /** Giving back the id just taken restores the table. */
  lemma AddRemove(t: Table, file: nat)
    requires t.num != NC_MAX_NFILES && FirstFree(t.slots) != -1
    ensures Removed(Added(t, file), FirstFree(t.slots)) == t
  {
  }

  datatype Op = New(file: nat) | Del(id: nat)

  predicate OpOk(op: Op) {
    op.Del? ==> op.id < NC_MAX_NFILES
  }

  /** The table after operations by any threads, in the order in which they took the lock. */
  function After(ops: seq<Op>): (t: Table)
    requires forall op :: op in ops ==> OpOk(op)
    ensures |t.slots| == NC_MAX_NFILES
  {
    if ops == [] then Table(seq(NC_MAX_NFILES, _ => None), 0)
    else
      var t := After(ops[..|ops| - 1]);
      assert OpOk(ops[|ops| - 1]);
      match ops[|ops| - 1]
      case New(file) => Added(t, file)
      case Del(id) => Removed(t, id)
  }

  /** Deletions of slots that were free already: two threads closing one file. */
  function Strays(ops: seq<Op>): nat
    requires forall op :: op in ops ==> OpOk(op)
  {
    if ops == [] then 0
    else
      var op := ops[|ops| - 1];
      Strays(ops[..|ops| - 1]) + (if op.Del? && !Live(After(ops[..|ops| - 1]), op.id) then 1 else 0)
  }

  /** Over any history the counter falls behind the slots by one for every stray deletion. */
  lemma {:induction false} CounterDrift(ops: seq<Op>)
    requires forall op :: op in ops ==> OpOk(op)
    ensures After(ops).num == Occupied(After(ops).slots) - Strays(ops)
    ensures Exact(After(ops)) <==> Strays(ops) == 0
  {
    if ops == [] {
      OccupiedExtremes(After(ops).slots);
    } else {
      var t := After(ops[..|ops| - 1]);
      CounterDrift(ops[..|ops| - 1]);
      assert OpOk(ops[|ops| - 1]);
      match ops[|ops| - 1]
      case New(file) => if FirstFree(t.slots) != -1 { OccupiedUpdate(t.slots, FirstFree(t.slots), Some(file)); }
      case Del(id) => OccupiedUpdate(t.slots, id, None);
    }
  }

  /** The id check accepts the live ids and no others exactly when no file is open or every slot
      is taken; in between it answers a free slot with no error and no record. */
  lemma CheckedIffLive(t: Table)
    requires Exact(t)
    ensures (forall id :: Accepts(t, id) <==> Live(t, id)) <==> t.num == 0 || t.num == NC_MAX_NFILES
  {
    OccupiedExtremes(t.slots);
    if t.num != 0 && t.num != NC_MAX_NFILES {
      var id :| 0 <= id < |t.slots| && t.slots[id].None?;
      assert Accepts(t, id) && !Live(t, id);
    }
  }
}
