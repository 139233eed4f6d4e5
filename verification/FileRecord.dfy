/** The dispatcher's record of an open file, updated in place, with the calls of one process.
    In safe mode the steps between the local checks and the driver call are agreed on with the
    other processes; modules Collective and SafeMode are about those. */
module FileRecord {
  import opened NetCDF
  import opened NcmpioDriver
  import opened Dispatch

  const PNC_VARS_CHUNK := 64

  /** n rounded up to a multiple of the chunk. */
  function RoundUp(n: nat): nat {
    (n + PNC_VARS_CHUNK - 1) / PNC_VARS_CHUNK * PNC_VARS_CHUNK
  }

  /** A cache that has the right record dimensions has the right number of record variables. */
  lemma {:induction false} CountCopied(d: Nc, vars: seq<CachedVar>, n: nat)
    requires n <= |vars| == |d.vars| && forall k :: 0 <= k < |vars| ==> (vars[k].recdim >= 0 <==> FirstUnlimited(d, k))
    ensures CountRec(vars[..n]) == CountRecVars(d, n)
  {
    if n > 0 {
      CountCopied(d, vars, n - 1);
      assert vars[..n][..n - 1] == vars[..n - 1];
    }
  }

  class PNC {
    var flags: Flags
    var format: int
    var ndims: int
    var unlimdimid: int
    var nvars: nat
    var nrecVars: int
    var vars: array<CachedVar>
    var ncp: Nc
    ghost const drift: int   // by how much the counter of record variables is off

    ghost predicate Valid()
      reads this, vars
    {
      && nvars <= vars.Length
      && vars.Length == RoundUp(nvars)
      && nrecVars == CountRec(vars[..nvars]) + drift
    }

    ghost function Contents(): File
      reads this, vars
      requires Valid()
    {
      File(flags, format, ndims, unlimdimid, nvars, nrecVars, vars[..nvars], ncp)
    }

    /** The record of a file just created. */
    constructor Create(format: int, safe: bool)
      ensures Valid() && fresh(vars)
      ensures Contents() == File(Flags(false, true, false, safe), format, 0, -1, 0, 0, [],
                                 Nc([], [], -1, 0, map[], true, false, None, 0))
      ensures Consistent(Contents()) && ReadOnlySafe(Contents()) && ModesAgree(Contents())
      ensures drift == 0
    {
      drift := 0;
      this.format := format;
      flags := Flags(false, true, false, safe);
      ndims, unlimdimid, nvars, nrecVars := 0, -1, 0, 0;
      vars := new CachedVar[0];
      ncp := Nc([], [], -1, 0, map[], true, false, None, 0);
    }

    /** The record of a file just opened. The source leaves the record counter as the allocator
        returned it (`garbage`). */
    constructor Open(format: int, writable: bool, safe: bool, driver: Nc, garbage: int)
      requires WellFormed(driver) && !driver.inDef && !driver.inIndep && driver.counted == NumRecVars(driver)
      ensures Valid() && fresh(vars)
      ensures Consistent(Contents()) && ReadOnlySafe(Contents()) && ModesAgree(Contents())
      ensures flags == Flags(!writable, false, false, safe) && ncp == driver && this.format == format
      ensures nrecVars == garbage && drift == garbage - NumRecVars(driver)
    {
      drift := garbage - NumRecVars(driver);
      this.format := format;
      flags := Flags(!writable, false, false, safe);
      ncp := driver;
      ndims, nvars, unlimdimid := |driver.dims|, |driver.vars|, driver.unlimitedId;
      nrecVars := garbage;
      var copies := CopyVars(driver);
      vars := copies;
      new;
      CopyAgrees(File(flags, format, ndims, unlimdimid, nvars, nrecVars, vars[..nvars], ncp));
    }

    /** The variables, copied from the driver one by one. */
    static method CopyVars(driver: Nc) returns (vars: array<CachedVar>)
      requires WellFormed(driver)
      ensures fresh(vars) && vars.Length == RoundUp(|driver.vars|)
      ensures forall k :: 0 <= k < |driver.vars| ==> Copied(driver, k, vars[k])
    {
      vars := new CachedVar[RoundUp(|driver.vars|)](_ => CachedVar(0, -1, 0, []));
      for i := 0 to |driver.vars|
        invariant fresh(vars) && vars.Length == RoundUp(|driver.vars|)
        invariant forall k :: 0 <= k < i ==> Copied(driver, k, vars[k])
      {
        var dimids := driver.vars[i].dimids;
        assert driver.vars[i] in driver.vars;
        var shape := ReadShape(driver, dimids);
        vars[i] := CachedVar(|dimids|, if dimids != [] && dimids[0] == driver.unlimitedId then driver.unlimitedId else -1,
                             driver.vars[i].xtype, shape);
      }
    }

    static ghost predicate Copied(d: Nc, i: int, c: CachedVar) {
      && 0 <= i < |d.vars| && InRange(d, d.vars[i].dimids)
      && c == CachedVar(|d.vars[i].dimids|,
                        if d.vars[i].dimids != [] && d.vars[i].dimids[0] == d.unlimitedId then d.unlimitedId else -1,
                        d.vars[i].xtype,
                        seq(|d.vars[i].dimids|, k requires 0 <= k < |d.vars[i].dimids| => InqDim(d, d.vars[i].dimids[k])))
    }

    /** A copy of everything agrees with the driver. */
    static lemma CopyAgrees(f: File)
      requires WellFormed(f.driver) && f.ndims == |f.driver.dims| && f.unlimdimid == f.driver.unlimitedId
      requires f.nvars == |f.vars| == |f.driver.vars|
      requires forall k :: 0 <= k < |f.vars| ==> Copied(f.driver, k, f.vars[k])
      ensures Consistent(f) && CountRec(f.vars) == NumRecVars(f.driver)
    {
      forall k | 0 <= k < |f.vars| ensures VarAgrees(f, k) && (f.vars[k].recdim >= 0 <==> FirstUnlimited(f.driver, k)) {
        assert f.driver.vars[k] in f.driver.vars && Copied(f.driver, k, f.vars[k]);
      }
      CountCopied(f.driver, f.vars, |f.vars|);
      assert f.vars[..|f.vars|] == f.vars;
    }

    /** The lengths of a variable's dimensions, asked from the driver one after another. */
    static method ReadShape(driver: Nc, dimids: seq<int>) returns (shape: seq<int>)
      requires InRange(driver, dimids)
      ensures shape == seq(|dimids|, i requires 0 <= i < |dimids| => InqDim(driver, dimids[i]))
    {
      shape := [];
      while |shape| < |dimids|
        invariant |shape| <= |dimids|
        invariant forall i :: 0 <= i < |shape| ==> shape[i] == InqDim(driver, dimids[i])
      {
        shape := shape + [InqDim(driver, dimids[|shape|])];
      }
    }

    /** Makes room for one more variable: every PNC_VARS_CHUNK variables the array is replaced by
        a longer one that starts with the same entries. */
    method Reserve()
      requires Valid()
      modifies this`vars
      ensures vars.Length == RoundUp(nvars + 1) && nvars < vars.Length
      ensures vars[..nvars] == old(vars[..nvars])
      ensures vars == old(vars) || fresh(vars)
    {
      if nvars % PNC_VARS_CHUNK == 0 {
        var longer := new CachedVar[nvars + PNC_VARS_CHUNK](_ => CachedVar(0, -1, 0, []));
        for i := 0 to nvars
          invariant vars == old(vars) && fresh(longer) && nvars <= vars.Length && longer.Length == nvars + PNC_VARS_CHUNK
          invariant longer[..i] == vars[..i]
        {
          longer[i] := vars[i];
        }
        vars := longer;
      }
    }

    method DefDim(name: Option<string>, size: int) returns (err: int, dimid: int)
      requires Valid() && Consistent(Contents())
      modifies this
      ensures Valid() && Consistent(Contents())
      ensures (err, Contents()) == Alone(old(Contents()), Call.DefDim(name, size), Good)
      ensures err == NC_NOERR ==> dimid == old(ndims)
    {
      ghost var f := Contents();
      dimid := -1;
      err := CheckName(name);
      if !flags.def {
        return NC_ENOTINDEFINE, -1;
      } else if err != NC_NOERR {
        return;
      }
      if !DimSizeOk(format, size) {
        err := NC_EDIMSIZE;
      } else if size == NC_UNLIMITED && unlimdimid != -1 {
        err := NC_EUNLIMIT;
      } else if ndims == NC_MAX_DIMS {
        err := NC_EMAXDIMS;
      } else if FindDim(ncp.dims, name.value) != -1 {
        err := NC_ENAMEINUSE;
      }
      if err != NC_NOERR { return; }
      dimid := |ncp.dims|;
      ncp := AddDim(ncp, name.value, size);
      if size == NC_UNLIMITED && unlimdimid == -1 { unlimdimid := dimid; }
      ndims := ndims + 1;
      AfterKeepsConsistent(f, Call.DefDim(name, size), Good);
      assert Contents() == After(f, Call.DefDim(name, size), Good);
    }

    method RenameDim(dimid: int, newname: Option<string>) returns (err: int)
      requires Valid() && Consistent(Contents())
      modifies this`ncp
      ensures Valid() && Consistent(Contents())
      ensures (err, Contents()) == Alone(old(Contents()), Call.RenameDim(dimid, newname), Good)
    {
      ghost var f := Contents();
      if flags.rdonly { return NC_EPERM; }
      err := CheckName(newname);
      if err != NC_NOERR { return; }
      if dimid < 0 || dimid >= ndims { return NC_EBADDIM; }
      var skipRename := false;
      var inqId := FindDim(ncp.dims, newname.value);
      if inqId != -1 {
        if inqId == dimid { skipRename := true; } else { return NC_ENAMEINUSE; }
      }
      if !skipRename {
        err := RenameCheck(ncp, ncp.dims[dimid].name, newname.value);
        if err == NC_NOERR { ncp := SetDimName(ncp, dimid, newname.value); }
      }
      AfterKeepsConsistent(f, Call.RenameDim(dimid, newname), Good);
      assert Contents() == After(f, Call.RenameDim(dimid, newname), Good);
    }

    /** The local checks of a variable definition. */
    method CheckNewVar(name: Option<string>, xtype: int, n: int, dimids: Option<seq<int>>) returns (err: int)
      requires Valid() && CallOk(Call.DefVar(name, xtype, n, dimids))
      ensures err == CheckDefVar(Contents(), name, xtype, n, dimids)
    {
      if !flags.def { return NC_ENOTINDEFINE; }
      err := CheckName(name);
      if err != NC_NOERR { return; }
      if xtype <= 0 || xtype > NC_UINT64 { return NC_EBADTYPE; }
      if xtype > NC_DOUBLE {
        if format <= NC_FORMAT_CDF2 { return NC_ESTRICTCDF2; }
        if format == NC_FORMAT_NETCDF4_CLASSIC { return NC_ESTRICTNC3; }
      }
      if n < 0 { return NC_EINVAL; }
      if nvars == NC_MAX_VARS { return NC_EMAXVARS; }
      if FindVar(ncp.vars, name.value) != -1 { return NC_ENAMEINUSE; }
      if n > 0 && dimids.None? { return NC_EINVAL; }
      var ids := Used(n, dimids);
      for i := 0 to |ids|
        invariant forall k :: 0 <= k < i ==> !(ids[k] < 0 || ndims == 0 || ids[k] >= ndims)
      {
        if ids[i] < 0 || ndims == 0 || ids[i] >= ndims { return NC_EBADDIM; }
      }
    }

    method DefVar(name: Option<string>, xtype: int, n: int, dimids: Option<seq<int>>) returns (err: int, varid: int)
      requires Valid() && Consistent(Contents()) && CallOk(Call.DefVar(name, xtype, n, dimids))
      modifies this, vars
      ensures Valid() && Consistent(Contents())
      ensures vars == old(vars) || fresh(vars)
      ensures (err, Contents()) == Alone(old(Contents()), Call.DefVar(name, xtype, n, dimids), Good)
      ensures err == NC_NOERR ==> varid == old(nvars) && nvars == varid + 1
    {
      ghost var f, c := Contents(), Call.DefVar(name, xtype, n, dimids);
      varid := -1;
      err := CheckNewVar(name, xtype, n, dimids);
      if err != NC_NOERR { return; }
      AfterKeepsConsistent(f, c, Good);
      err, varid := NewVar(name.value, xtype, Used(n, dimids));
      assert Contents() == After(f, c, Good);
    }

    /** The driver call of a variable definition, and the dispatcher's copy. */
    method NewVar(name: string, xtype: int, ids: seq<int>) returns (err: int, varid: int)
      requires Valid() && InRange(ncp, ids) && nvars == |ncp.vars|
      modifies this, vars
      ensures Valid() && (vars == old(vars) || fresh(vars))
      ensures err == old(ShapeCheck(ncp, xtype, ids))
      ensures err != NC_NOERR ==> Contents() == old(Contents())
      ensures err == NC_NOERR ==> varid == old(nvars) && Contents() == old(WithVar(Contents(), name, xtype, ids))
    {
      ghost var f := Contents();
      varid := -1;
      err := ShapeCheck(ncp, xtype, ids);
      if err != NC_NOERR { return; }
      varid := |ncp.vars|;
      assert varid == nvars;
      ncp := AddVar(ncp, name, xtype, ids);
      assert Cached(Contents(), xtype, ids).shape == Cached(f, xtype, ids).shape;
      CacheVar(varid, xtype, ids);
    }

    /** Appends the dispatcher's copy of the variable the driver has just added. */
    method CacheVar(varid: int, xtype: int, ids: seq<int>)
      requires Valid() && varid == nvars && InRange(ncp, ids)
      modifies this`vars, this`nvars, this`nrecVars, vars
      ensures Valid() && nvars == old(nvars) + 1
      ensures vars == old(vars) || fresh(vars)
      ensures vars[..nvars] == old(vars[..nvars]) + [old(Cached(Contents(), xtype, ids))]
      ensures nrecVars == old(nrecVars) + (if vars[varid].recdim >= 0 then 1 else 0)
    {
      Reserve();
      var recdim := -1;
      if |ids| > 0 && ids[0] == unlimdimid {
        recdim := unlimdimid;
        nrecVars := nrecVars + 1;
      }
      var shape := ReadShape(ncp, ids);
      Append(CachedVar(|ids|, recdim, xtype, shape));
    }

    /** One more entry, which the counter of record variables has counted already. */
    method Append(entry: CachedVar)
      requires nvars < vars.Length == RoundUp(nvars + 1)
      requires nrecVars == CountRec(vars[..nvars]) + drift + if entry.recdim >= 0 then 1 else 0
      modifies this`nvars, vars
      ensures Valid() && nvars == old(nvars) + 1 && vars[..nvars] == old(vars[..nvars]) + [entry]
    {
      ghost var was := vars[..nvars];
      vars[nvars] := entry;
      nvars := nvars + 1;
      assert vars[..nvars] == was + [entry];
      CountRecPush(was, entry);
    }

    method RenameVar(varid: int, newname: Option<string>) returns (err: int)
      requires Valid() && Consistent(Contents())
      modifies this`ncp
      ensures Valid() && Consistent(Contents())
      ensures (err, Contents()) == Alone(old(Contents()), Call.RenameVar(varid, newname), Good)
    {
      ghost var f := Contents();
      if flags.rdonly { return NC_EPERM; }
      if varid == NC_GLOBAL { return NC_EGLOBAL; }
      if varid < 0 || varid >= nvars { return NC_ENOTVAR; }
      err := CheckName(newname);
      if err != NC_NOERR { return; }
      if FindVar(ncp.vars, newname.value) != -1 { return NC_ENAMEINUSE; }
      AfterKeepsConsistent(f, Call.RenameVar(varid, newname), Good);
      err := RenameCheck(ncp, ncp.vars[varid].name, newname.value);
      if err == NC_NOERR { ncp := SetVarName(ncp, varid, newname.value); }
      assert Contents() == After(f, Call.RenameVar(varid, newname), Good);
    }

    /** The driver's check of the sizes of all variables: two passes, over the fixed-size variables
        and over the record variables. */
    method CheckVlens() returns (err: int)
      requires VarsInRange(ncp)
      ensures err == if VlensLegal(format, ncp) then NC_NOERR else NC_EVARSIZE
    {
      if |ncp.vars| == 0 { return NC_NOERR; }
      assert forall i :: 0 <= i < |ncp.vars| && TooLarge(format, ncp, i) ==> LargeOf(IsRecVar(ncp, i), i);
      var largeFix, lastFix, records := CountLarge(false);
      if format >= 5 && largeFix > 0 { return NC_EVARSIZE; }
      if largeFix > 1 { return NC_EVARSIZE; }
      if largeFix == 1 && !lastFix { return NC_EVARSIZE; }
      if records == 0 {
        forall i | 0 <= i < |ncp.vars| && TooLarge(format, ncp, i)
          ensures !IsRecVar(ncp, i) && format < 5 && NoLater(ncp, i, false) && NoRecVars(ncp)
        {
          assert IsRecVar(ncp, i) == false;
          assert LargeOf(false, i);
        }
        return NC_NOERR;
      }
      if largeFix == 1 { return NC_EVARSIZE; }
      var largeRec, lastRec, _ := CountLarge(true);
      if format >= 5 && largeRec > 0 { return NC_EVARSIZE; }
      if largeRec > 1 { return NC_EVARSIZE; }
      if largeRec == 1 && !lastRec { return NC_EVARSIZE; }
      forall i | 0 <= i < |ncp.vars| && TooLarge(format, ncp, i)
        ensures IsRecVar(ncp, i) && format < 5 && NoLater(ncp, i, true)
      {
        assert LargeOf(IsRecVar(ncp, i), i) && !LargeOf(false, i);
      }
      return NC_NOERR;
    }

    ghost predicate LargeOf(rec: bool, i: int)
      reads this
      requires VarsInRange(ncp)
    {
      0 <= i < |ncp.vars| && IsRecVar(ncp, i) == rec && TooLarge(format, ncp, i)
    }

    /** One pass: how many variables of a kind are too large, and whether the last of the kind is. */
    method CountLarge(rec: bool) returns (large: nat, last: bool, others: nat)
      requires VarsInRange(ncp)
      ensures large == 0 <==> forall i :: !LargeOf(rec, i)
      ensures large == 1 && last ==> forall i :: LargeOf(rec, i) ==> NoLater(ncp, i, rec)
      ensures large > 1 || (large == 1 && !last) ==> exists i :: LargeOf(rec, i) && !NoLater(ncp, i, rec)
      ensures others == 0 <==> forall i :: 0 <= i < |ncp.vars| ==> IsRecVar(ncp, i) == rec
    {
      large, last, others := 0, false, 0;
      ghost var first, latest := -1, -1;   // the first one too large, the latest of the kind
      for i := 0 to |ncp.vars|
        invariant others == 0 <==> forall k :: 0 <= k < i ==> IsRecVar(ncp, k) == rec
        invariant -1 <= latest < i && (latest >= 0 ==> IsRecVar(ncp, latest) == rec)
        invariant forall k :: latest < k < i ==> IsRecVar(ncp, k) != rec
        invariant last == LargeOf(rec, latest)
        invariant large == 0 ==> forall k :: 0 <= k < i ==> !LargeOf(rec, k)
        invariant large > 0 ==> 0 <= first <= latest && LargeOf(rec, first)
        invariant large == 1 ==> forall k :: 0 <= k < i && LargeOf(rec, k) ==> k == first
        invariant large > 1 ==> first < latest
      {
        if IsRecVar(ncp, i) != rec {
          others := others + 1;
        } else {
          latest := i;
          last := false;
          if TooLarge(format, ncp, i) {
            large := large + 1;
            last := true;
            if large == 1 { first := i; }
          }
        }
      }
      if large > 1 || (large == 1 && !last) { assert LargeOf(rec, first) && !NoLater(ncp, first, rec); }
    }

    /** The driver's way out of define mode: as long as nothing has been written it stays if
        something is wrong; after that it leaves, whatever comes. */
    method DriverEnddef(io: Io) returns (err: int)
      requires Valid() && Consistent(Contents())
      modifies this`ncp
      ensures Valid() && err == EnddefCode(old(Contents()), io)
      ensures ncp == if Staying(old(Contents()), io) != NC_NOERR then old(ncp)
                     else old(ncp.(inDef := false, saved := None, counted := NumRecVars(ncp)))
    {
      VarsOfConsistent(Contents());
      err := CheckVlens();
      if err != NC_NOERR { return; }
      if io.begins != NC_NOERR { return io.begins; }
      if flags.safe && io.voffs != NC_NOERR { return io.voffs; }
      if ncp.saved.Some? && |ncp.vars| > 0 && io.moves != NC_NOERR { return io.moves; }
      var status := io.writes;
      var count := CountRecords();
      if |ncp.vars| > 0 && status == NC_NOERR { status := io.fills; }
      ncp := ncp.(inDef := false, saved := None, counted := count);
      return status;
    }

    /** The number of record variables. */
    method CountRecords() returns (count: nat)
      ensures count == NumRecVars(ncp)
    {
      count := 0;
      for i := 0 to |ncp.vars|
        invariant count == CountRecVars(ncp, i)
      {
        if FirstUnlimited(ncp, i) { count := count + 1; }
      }
    }

    method Enddef(io: Io) returns (err: int)
      requires Valid() && Consistent(Contents()) && IoOk(io)
      modifies this`flags, this`ncp
      ensures Valid() && Consistent(Contents())
      ensures (err, Contents()) == Alone(old(Contents()), Call.Enddef, io)
    {
      ghost var f := Contents();
      if !flags.def { return NC_ENOTINDEFINE; }
      AfterKeepsConsistent(f, Call.Enddef, io);
      err := DriverEnddef(io);
      if err != NC_NOERR { return; }
      flags := flags.(indep := false);
      flags := flags.(def := false);
    }

    method Redef() returns (err: int)
      requires Valid() && Consistent(Contents())
      modifies this`flags, this`ncp
      ensures Valid() && Consistent(Contents())
      ensures (err, Contents()) == Alone(old(Contents()), Call.Redef, Good)
    {
      ghost var f := Contents();
      if flags.rdonly { return NC_EPERM; }
      if flags.def { return NC_EINDEFINE; }
      AfterKeepsConsistent(f, Call.Redef, Good);
      if ncp.inIndep { ncp := ncp.(inIndep := false); }
      ncp := ncp.(saved := Some(|ncp.vars|));
      ncp := ncp.(inDef := true);
      flags := flags.(def := true);
      err := NC_NOERR;
    }

    /** Enddef with the four alignment arguments. */
    method EnddefAlign(h: int, v: int, vm: int, r: int, io: Io) returns (err: int)
      requires Valid() && Consistent(Contents()) && IoOk(io)
      modifies this`flags, this`ncp
      ensures Valid() && Consistent(Contents())
      ensures (err, Contents()) == Alone(old(Contents()), Call.EnddefAlign(h, v, vm, r), io)
    {
      ghost var f := Contents();
      if !flags.def { return NC_ENOTINDEFINE; }
      if h < 0 || v < 0 || vm < 0 || r < 0 { return NC_EINVAL; }
      AfterKeepsConsistent(f, Call.EnddefAlign(h, v, vm, r), io);
      err := DriverEnddef(io);
      if err != NC_NOERR { return; }
      flags := flags.(indep := false);
      flags := flags.(def := false);
    }

    method BeginIndep() returns (err: int)
      requires Valid() && Consistent(Contents())
      modifies this`flags, this`ncp
      ensures Valid() && Consistent(Contents())
      ensures (err, Contents()) == Alone(old(Contents()), Call.BeginIndep, Good)
    {
      ghost var f := Contents();
      AfterKeepsConsistent(f, Call.BeginIndep, Good);
      if ncp.inDef { return NC_EINDEFINE; }
      ncp := ncp.(inIndep := true);
      flags := flags.(indep := true);
      err := NC_NOERR;
    }

    method EndIndep(io: Io) returns (err: int)
      requires Valid() && Consistent(Contents())
      modifies this`flags, this`ncp
      ensures Valid() && Consistent(Contents())
      ensures (err, Contents()) == Alone(old(Contents()), Call.EndIndep, io)
    {
      ghost var f := Contents();
      AfterKeepsConsistent(f, Call.EndIndep, io);
      if ncp.inDef { return NC_EINDEFINE; }
      err := NC_NOERR;
      if ncp.inIndep {
        if !flags.rdonly && ncp.counted > 0 { err := io.sync; }
        ncp := ncp.(inIndep := false);
      }
      if err != NC_NOERR { return; }
      flags := flags.(indep := false);
    }

    method DefVarFill(varid: int, noFill: int, fill: Option<seq<int>>) returns (err: int)
      requires Valid() && Consistent(Contents())
      modifies this`ncp
      ensures Valid() && Consistent(Contents())
      ensures (err, Contents()) == Alone(old(Contents()), Call.DefVarFill(varid, noFill, fill), Good)
    {
      ghost var f := Contents();
      if !flags.def { return NC_ENOTINDEFINE; }
      if varid == NC_GLOBAL { return NC_EGLOBAL; }
      if varid < 0 || varid >= nvars { return NC_ENOTVAR; }
      AfterKeepsConsistent(f, Call.DefVarFill(varid, noFill, fill), Good);
      err := SetVarFillCheck(ncp, varid, noFill != 0, fill);
      ncp := SetNoFill(ncp, varid, noFill != 0);
      if err == NC_NOERR && fill.Some? && noFill == 0 {
        ncp := ncp.(atts := ncp.atts[(varid, "_FillValue") := Element(ncp, varid, fill.value)]);
      }
      assert Contents() == After(f, Call.DefVarFill(varid, noFill, fill), Good);
    }

    /** Copies an attribute within the file. */
    method CopyAtt(varid: int, name: Option<string>, varidOut: int) returns (err: int)
      requires Valid() && Consistent(Contents())
      modifies this`ncp
      ensures Valid() && Consistent(Contents())
      ensures (err, Contents()) == Alone(old(Contents()), Call.CopyAtt(varid, name, varidOut), Good)
    {
      ghost var f := Contents();
      if flags.rdonly { return NC_EPERM; }
      if varid != NC_GLOBAL && (varid < 0 || varid >= nvars) { return NC_ENOTVAR; }
      if varidOut != NC_GLOBAL && (varidOut < 0 || varidOut >= nvars) { return NC_ENOTVAR; }
      if name.None? || name.value == "" { return NC_EBADNAME; }
      if |name.value| > NC_MAX_NAME { return NC_EMAXNAME; }
      AfterKeepsConsistent(f, Call.CopyAtt(varid, name, varidOut), Good);
      err := DuplicateAttCheck(ncp, varid, name.value, varidOut);
      if err == NC_NOERR { ncp := DuplicateAtt(ncp, varid, name.value, varidOut); }
    }

    method RenameAtt(varid: int, name: Option<string>, newname: Option<string>) returns (err: int)
      requires Valid() && Consistent(Contents())
      modifies this`ncp
      ensures Valid() && Consistent(Contents())
      ensures (err, Contents()) == Alone(old(Contents()), Call.RenameAtt(varid, name, newname), Good)
    {
      ghost var f := Contents();
      if flags.rdonly { return NC_EPERM; }
      if varid != NC_GLOBAL && (varid < 0 || varid >= nvars) { return NC_ENOTVAR; }
      if name.None? || name.value == "" { return NC_EBADNAME; }
      if |name.value| > NC_MAX_NAME { return NC_EMAXNAME; }
      err := CheckName(newname);
      if err != NC_NOERR { return; }
      AfterKeepsConsistent(f, Call.RenameAtt(varid, name, newname), Good);
      err := MoveAttCheck(ncp, varid, name.value, newname.value);
      if err == NC_NOERR { ncp := MoveAtt(ncp, varid, name.value, newname.value); }
    }

    method DelAtt(varid: int, name: Option<string>) returns (err: int)
      requires Valid() && Consistent(Contents())
      modifies this`ncp
      ensures Valid() && Consistent(Contents())
      ensures (err, Contents()) == Alone(old(Contents()), Call.DelAtt(varid, name), Good)
    {
      ghost var f := Contents();
      if flags.rdonly { return NC_EPERM; }
      if !flags.def { return NC_ENOTINDEFINE; }
      if varid != NC_GLOBAL && (varid < 0 || varid >= nvars) { return NC_ENOTVAR; }
      if name.None? || name.value == "" { return NC_EBADNAME; }
      if |name.value| > NC_MAX_NAME { return NC_EMAXNAME; }
      AfterKeepsConsistent(f, Call.DelAtt(varid, name), Good);
      err := RemoveAttCheck(ncp, varid, name.value);
      if err == NC_NOERR { ncp := RemoveAtt(ncp, varid, name.value); }
    }

    /** The numbers of variables without and with the unlimited dimension that the library
        reports. For the whole life of the record they are off from what the file has by what the
        counter was off at its birth: by nothing for a created file, and for an opened one by the
        difference of what the memory held and the record variables in the file. */
    method InqNumVars() returns (fixed: int, records: int)
      requires Valid() && Consistent(Contents())
      ensures records == NumRecVars(ncp) + drift
      ensures fixed == |ncp.vars| - NumRecVars(ncp) - drift
    {
      fixed := nvars - nrecVars;
      records := nrecVars;
      forall k | 0 <= k < nvars ensures vars[..nvars][k].recdim >= 0 <==> FirstUnlimited(ncp, k) {
        assert VarAgrees(Contents(), k);
      }
      CountCopied(ncp, vars[..nvars], nvars);
      assert vars[..nvars][..nvars] == vars[..nvars];
    }
  }
}
