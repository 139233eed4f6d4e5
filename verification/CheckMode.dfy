/** Calls on top of the mode machine: the C++ guards that bring a file into define or data mode,
    and ncmpi_fill_var_rec. */
module CheckMode {
  import opened NetCDF
  import opened NcmpioDriver
  import opened Dispatch
  import opened FileRecord
  import opened Network
  import opened Collective
  import opened Agreement
  import opened SafeMode
  import opened Session

  /** ncmpiCheckDefineMode; ncmpiCheck throws on every error code it is given. */
  method CheckDefineMode(p: PNC) returns (thrown: bool)
    requires p.Valid() && Consistent(p.Contents())
    modifies p`flags, p`ncp
    ensures p.Valid() && Consistent(p.Contents())
    ensures thrown <==> old(p.flags.rdonly)
    ensures !thrown ==> p.flags.def
    ensures thrown ==> p.Contents() == old(p.Contents())
  {
    var status := p.Redef();
    thrown := status != NC_EINDEFINE && status != NC_NOERR;
  }

  /** ncmpiCheckDataMode. */
  method CheckDataMode(p: PNC, io: Io) returns (thrown: bool)
    requires p.Valid() && Consistent(p.Contents()) && IoOk(io)
    modifies p`flags, p`ncp
    ensures p.Valid() && Consistent(p.Contents())
    ensures thrown <==> old(p.flags.def && EnddefCode(p.Contents(), io) !in {NC_NOERR, NC_ENOTINDEFINE})
    ensures !thrown && old(EnddefCode(p.Contents(), io)) != NC_ENOTINDEFINE ==> !p.flags.def
  {
    var status := p.Enddef(io);
    thrown := status != NC_ENOTINDEFINE && status != NC_NOERR;
  }

  /* ---------------- the data-mode guard on several processes ---------------- */

  /** Records that need not be equal, of files in safe mode. */
  ghost predicate FilesReady(fs: seq<File>, io: Io) {
    fs != [] && IoOk(io) && forall i :: 0 <= i < |fs| ==> Consistent(fs[i]) && fs[i].flags.safe
  }

  /** The processes at the start of an ncmpi_enddef. */
  ghost function Starting(fs: seq<File>, io: Io): (w: seq<Task>)
    requires FilesReady(fs, io)
    ensures |w| == |fs|
  {
    seq(|fs|, i requires 0 <= i < |fs| => TaskOf(fs[i], Enddef, io, i == 0))
  }

  /** Everybody has returned, with a new record and a code. */
  ghost predicate CallOver(fs: seq<File>, io: Io, run: seq<Net<Task>>, fs': seq<File>, codes: seq<int>)
    requires FilesReady(fs, io)
  {
    && IsRun(Tasks(), run, Starting(fs, io)) && AllHome(Tasks(), Last(run).procs)
    && |Last(run).procs| == |fs| == |fs'| == |codes|
    && forall i :: 0 <= i < |fs| ==>
         fs'[i] == RecordAfter(fs[i], Enddef, io, Last(run).procs[i].pc) &&
         Last(run).procs[i].pc.Done? && codes[i] == Last(run).procs[i].pc.code
  }

  ghost predicate SomebodyInDataMode(fs: seq<File>) {
    exists i :: 0 <= i < |fs| && !fs[i].flags.def
  }

  lemma MixedIsDoomed(fs: seq<File>, io: Io)
    requires FilesReady(fs, io) && SomebodyInDataMode(fs)
    ensures Doomed(Starting(fs, io)) && MinOf(Errs(Starting(fs, io))) == NC_ENOTINDEFINE
  {
    var w := Starting(fs, io);
    forall i | 0 <= i < |w|
      ensures w[i].pc.First? && w[i].items == [] && w[i].err == if fs[i].flags.def then 0 else NC_ENOTINDEFINE
    {
    }
    var x :| 0 <= x < |fs| && !fs[x].flags.def;
    assert Errs(w)[x] in Errs(w);
  }

  /** In safe mode the guard's call of ncmpi_enddef does nothing on any process as long as one of
      them is in data mode, and yet the guard is content with what it returns: a process that was
      in define mode is in define mode still. */
  lemma DataModeGuardMisled(fs: seq<File>, io: Io, run: seq<Net<Task>>, fs': seq<File>, codes: seq<int>)
    requires FilesReady(fs, io) && SomebodyInDataMode(fs) && CallOver(fs, io, run, fs', codes)
    ensures fs' == fs && forall i :: 0 <= i < |fs| ==> codes[i] == NC_ENOTINDEFINE
  {
    var w := Starting(fs, io);
    MixedIsDoomed(fs, io);
    EveryRunDecides(w, run);
    forall i | 0 <= i < |fs| ensures fs'[i] == fs[i] && codes[i] == NC_ENOTINDEFINE {
      assert Last(run).procs[i].pc == Verdict(w, i);
    }
  }

  lemma NobodyObjects(fs: seq<File>, io: Io)
    requires FilesReady(fs, io) && !SomebodyInDataMode(fs)
    ensures Sync(Starting(fs, io))
    ensures forall i :: 0 <= i < |fs| ==> Passed(fs[i], Enddef) && Verdict(Starting(fs, io), i) == Done(EnddefCode(fs[i], io), true)
  {
    var w := Starting(fs, io);
    forall i | 0 <= i < |w| ensures Passed(fs[i], Enddef) && w[i] == Task([], true, EnddefCode(fs[i], io), false, i == 0, First, 0, false) {
    }
    forall i | 0 <= i < |w| ensures w[i].drv <= 0 { TaskSigns(fs[i], Enddef, io); }
    assert Aligned(w);
    OwedOfNoItems(w);
    MinZero(Errs(w));
  }

  lemma AllLeave(fs: seq<File>, io: Io, run: seq<Net<Task>>, fs': seq<File>, codes: seq<int>)
    requires FilesReady(fs, io) && !SomebodyInDataMode(fs) && CallOver(fs, io, run, fs', codes)
    ensures forall i :: 0 <= i < |fs| ==> codes[i] == EnddefCode(fs[i], io) && (fs'[i].flags.def <==> EnddefCode(fs[i], io) != NC_NOERR)
  {
    var w := Starting(fs, io);
    NobodyObjects(fs, io);
    EveryRunDecides(w, run);
    forall i | 0 <= i < |fs|
      ensures codes[i] == EnddefCode(fs[i], io) && (fs'[i].flags.def <==> EnddefCode(fs[i], io) != NC_NOERR)
    {
      assert Last(run).procs[i].pc == Verdict(w, i);
    }
  }

  /** Whoever has returned normally from the guard is in data mode, on every process, exactly when
      nobody or everybody was in data mode before; for files that the driver can leave define mode
      of. */
  lemma DataModeGuardIff(fs: seq<File>, io: Io, run: seq<Net<Task>>, fs': seq<File>, codes: seq<int>)
    requires FilesReady(fs, io) && CallOver(fs, io, run, fs', codes)
    requires forall i :: 0 <= i < |fs| ==> EnddefCode(fs[i], io) == NC_NOERR
    ensures (forall i :: 0 <= i < |fs| ==> (codes[i] == NC_NOERR || codes[i] == NC_ENOTINDEFINE) && !fs'[i].flags.def)
       <==> (forall i :: 0 <= i < |fs| ==> fs[i].flags.def == fs[0].flags.def)
  {
    if SomebodyInDataMode(fs) {
      DataModeGuardMisled(fs, io, run, fs', codes);
      var x :| 0 <= x < |fs| && !fs[x].flags.def;
    } else {
      AllLeave(fs, io, run, fs', codes);
    }
  }

  /* ---------------- ncmpi_fill_var_rec ---------------- */

  function FillRecCheck(f: File, varid: int): (e: int)
    ensures e <= 0
  {
    if f.flags.rdonly then NC_EPERM
    else if f.flags.def then NC_EINDEFINE
    else if varid == NC_GLOBAL then NC_EGLOBAL
    else if varid < 0 || varid >= f.nvars then NC_ENOTVAR
    else if varid < |f.vars| && f.vars[varid].recdim == -1 then NC_ENOTRECVAR
    else if f.flags.indep then NC_EINDEP
    else NC_NOERR
  }

  /** A process behind its checks: only in safe mode does it agree on their outcome, and only there
      does it return it. */
  function FillRecTask(f: File, varid: int, drv: int): Task {
    Task([], true, drv, false, false, if f.flags.safe then First else Done(drv, true), FillRecCheck(f, varid), false)
  }

  /** Files that all are, or all are not, in safe mode, and what each process passes. */
  ghost predicate FillRecReady(fs: seq<File>, varids: seq<int>, drv: int) {
    && fs != [] && |varids| == |fs| && drv <= 0
    && (forall i :: 0 <= i < |fs| ==> fs[i].flags.safe == fs[0].flags.safe)
  }

  function FillRecWorld(fs: seq<File>, varids: seq<int>, drv: int): seq<Task>
    requires |varids| == |fs|
  {
    seq(|fs|, i requires 0 <= i < |fs| => FillRecTask(fs[i], varids[i], drv))
  }

  predicate SomeCheckFails(fs: seq<File>, varids: seq<int>)
    requires |varids| == |fs|
  {
    exists i :: 0 <= i < |fs| && FillRecCheck(fs[i], varids[i]) != NC_NOERR
  }

  function FillRecVerdict(fs: seq<File>, varids: seq<int>, drv: int): Pc
    requires fs != [] && |varids| == |fs|
  {
    if !fs[0].flags.safe then Done(drv, true)
    else if SomeCheckFails(fs, varids) then Done(MinOf(Errs(FillRecWorld(fs, varids, drv))), false)
    else Done(drv, true)
  }

  lemma FillRecErrs(fs: seq<File>, varids: seq<int>, drv: int)
    requires FillRecReady(fs, varids, drv)
    ensures MinOf(Errs(FillRecWorld(fs, varids, drv))) == 0 <==> !SomeCheckFails(fs, varids)
  {
    var w := FillRecWorld(fs, varids, drv);
    forall i | 0 <= i < |w| ensures Errs(w)[i] == FillRecCheck(fs[i], varids[i]) <= 0 { }
    MinZero(Errs(w));
  }

  lemma FillRecOrderly(fs: seq<File>, varids: seq<int>, drv: int)
    requires FillRecReady(fs, varids, drv)
    ensures Orderly(FillRecWorld(fs, varids, drv))
    ensures forall i :: 0 <= i < |fs| ==> Verdict(FillRecWorld(fs, varids, drv), i) == FillRecVerdict(fs, varids, drv)
  {
    var w := FillRecWorld(fs, varids, drv);
    FillRecErrs(fs, varids, drv);
    forall i | 0 <= i < |w| ensures w[i] == FillRecTask(fs[i], varids[i], drv) && w[i].err <= 0 { }
    if fs[0].flags.safe && !SomeCheckFails(fs, varids) {
      OwedOfNoItems(w);
    }
  }

  /** The driver is called, by somebody, with arguments that the caller's own checks have refused
      if and only if safe mode is off and some check fails: out of safe mode the outcome of the
      checks is not looked at. */
  lemma FillRecUnguarded(fs: seq<File>, varids: seq<int>, drv: int, run: seq<Net<Task>>)
    requires FillRecReady(fs, varids, drv) && IsRun(Tasks(), run, FillRecWorld(fs, varids, drv))
    requires AllHome(Tasks(), Last(run).procs)
    ensures |Last(run).procs| == |fs| && forall i :: 0 <= i < |fs| ==> Last(run).procs[i].pc.Done?
    ensures (exists i :: 0 <= i < |fs| && Last(run).procs[i].pc.reached && FillRecCheck(fs[i], varids[i]) != NC_NOERR)
       <==> !fs[0].flags.safe && SomeCheckFails(fs, varids)
  {
    var w := FillRecWorld(fs, varids, drv);
    FillRecOrderly(fs, varids, drv);
    EveryRunDecides(w, run);
    var tasks := Last(run).procs;
    forall i | 0 <= i < |fs| ensures tasks[i].pc == Verdict(w, i) { }
  }
}
