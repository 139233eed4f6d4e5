/** The dispatcher's record of one open file and the define-mode calls on it, as one process sees
    them: the local checks, and what a call does once the checks have passed. */
module Dispatch {
  import opened NetCDF
  import opened NcmpioDriver

  /** The mode bits of a file that the calls below read or write. */
  datatype Flags = Flags(rdonly: bool, def: bool, indep: bool, safe: bool)

  /** The dispatcher's copy of a variable. */
  datatype CachedVar = CachedVar(ndims: int, recdim: int, xtype: int, shape: seq<int>)

  datatype File = File(
    flags: Flags, format: int, ndims: int, unlimdimid: int, nvars: int, nrecVars: int,
    vars: seq<CachedVar>, driver: Nc)

  datatype Call =
    | DefDim(name: Option<string>, size: int)
    | RenameDim(dimid: int, newname: Option<string>)
    | DefVar(name: Option<string>, xtype: int, ndims: int, dimids: Option<seq<int>>)
    | RenameVar(varid: int, newname: Option<string>)
    | DefVarFill(varid: int, noFill: int, fill: Option<seq<int>>)
    | CopyAtt(varid: int, name: Option<string>, varidOut: int)
    | RenameAtt(varid: int, name: Option<string>, newname: Option<string>)
    | DelAtt(varid: int, name: Option<string>)
    | Enddef
    | EnddefAlign(hMinfree: int, vAlign: int, vMinfree: int, rAlign: int)
    | Redef
    | BeginIndep
    | EndIndep

  /** What C requires of the caller: an array argument has as many entries as it is said to. */
  predicate CallOk(c: Call) {
    c.DefVar? && c.dimids.Some? ==> c.ndims <= |c.dimids.value|
  }

  /* ---------------- local checks ---------------- */

  /** The checks on a name, in the order all calls make them. */
  function CheckName(name: Option<string>): int {
    if name.None? || name.value == "" then NC_EBADNAME
    else if |name.value| > NC_MAX_NAME then NC_EMAXNAME
    else if !LegalName(name.value) then NC_EBADNAME
    else NC_NOERR
  }

  /** As above for the name of an attribute that exists already: its characters are not checked. */
  function CheckOldName(name: Option<string>): int {
    if name.None? || name.value == "" then NC_EBADNAME
    else if |name.value| > NC_MAX_NAME then NC_EMAXNAME
    else NC_NOERR
  }

  predicate DimSizeOk(format: int, size: int) {
    if format == NC_FORMAT_CDF2 then 0 <= size <= NC_MAX_UINT - 3
    else if format == NC_FORMAT_CDF5 then size >= 0
    else if format == NC_FORMAT_NETCDF4 || format == NC_FORMAT_NETCDF4_CLASSIC then size >= 0
    else 0 <= size <= NC_MAX_INT - 3
  }

  function CheckDefDim(f: File, name: Option<string>, size: int): int {
    if !f.flags.def then NC_ENOTINDEFINE
    else if CheckName(name) != NC_NOERR then CheckName(name)
    else if !DimSizeOk(f.format, size) then NC_EDIMSIZE
    else if size == NC_UNLIMITED && f.unlimdimid != -1 then NC_EUNLIMIT
    else if f.ndims == NC_MAX_DIMS then NC_EMAXDIMS
    else if FindDim(f.driver.dims, name.value) != -1 then NC_ENAMEINUSE
    else NC_NOERR
  }

  function CheckRenameDim(f: File, dimid: int, newname: Option<string>): int {
    if f.flags.rdonly then NC_EPERM
    else if CheckName(newname) != NC_NOERR then CheckName(newname)
    else if dimid < 0 || dimid >= f.ndims then NC_EBADDIM
    else
      var id := FindDim(f.driver.dims, newname.value);
      if id != -1 && id != dimid then NC_ENAMEINUSE else NC_NOERR
  }

  predicate SomeBadDim(f: File, ids: seq<int>) {
    exists i :: 0 <= i < |ids| && (ids[i] < 0 || f.ndims == 0 || ids[i] >= f.ndims)
  }

  /** The dimension ids a call uses. */
  function Used(ndims: int, dimids: Option<seq<int>>): seq<int> {
    if ndims <= 0 || dimids.None? then []
    else if ndims <= |dimids.value| then dimids.value[..ndims]
    else dimids.value
  }

  function CheckDefVar(f: File, name: Option<string>, xtype: int, ndims: int, dimids: Option<seq<int>>): int {
    if !f.flags.def then NC_ENOTINDEFINE
    else if CheckName(name) != NC_NOERR then CheckName(name)
    else if xtype <= 0 || xtype > NC_UINT64 then NC_EBADTYPE
    else if xtype > NC_DOUBLE && f.format <= NC_FORMAT_CDF2 then NC_ESTRICTCDF2
    else if xtype > NC_DOUBLE && f.format == NC_FORMAT_NETCDF4_CLASSIC then NC_ESTRICTNC3
    else if ndims < 0 then NC_EINVAL
    else if f.nvars == NC_MAX_VARS then NC_EMAXVARS
    else if FindVar(f.driver.vars, name.value) != -1 then NC_ENAMEINUSE
    else if ndims > 0 && dimids.None? then NC_EINVAL
    else if SomeBadDim(f, Used(ndims, dimids)) then NC_EBADDIM
    else NC_NOERR
  }

  function CheckVarid(f: File, varid: int): int {
    if varid < 0 || varid >= f.nvars then NC_ENOTVAR else NC_NOERR
  }

  function CheckRenameVar(f: File, varid: int, newname: Option<string>): int {
    if f.flags.rdonly then NC_EPERM
    else if varid == NC_GLOBAL then NC_EGLOBAL
    else if CheckVarid(f, varid) != NC_NOERR then CheckVarid(f, varid)
    else if CheckName(newname) != NC_NOERR then CheckName(newname)
    else if FindVar(f.driver.vars, newname.value) != -1 then NC_ENAMEINUSE
    else NC_NOERR
  }

  function CheckDefVarFill(f: File, varid: int): int {
    if !f.flags.def then NC_ENOTINDEFINE
    else if varid == NC_GLOBAL then NC_EGLOBAL
    else CheckVarid(f, varid)
  }

  function CheckAttVarid(f: File, varid: int): int {
    if varid == NC_GLOBAL then NC_NOERR else CheckVarid(f, varid)
  }

  function CheckCopyAtt(f: File, varid: int, name: Option<string>, varidOut: int): int {
    if f.flags.rdonly then NC_EPERM
    else if CheckAttVarid(f, varid) != NC_NOERR then NC_ENOTVAR
    else if CheckAttVarid(f, varidOut) != NC_NOERR then NC_ENOTVAR
    else CheckOldName(name)
  }

  function CheckRenameAtt(f: File, varid: int, name: Option<string>, newname: Option<string>): int {
    if f.flags.rdonly then NC_EPERM
    else if CheckAttVarid(f, varid) != NC_NOERR then NC_ENOTVAR
    else if CheckOldName(name) != NC_NOERR then CheckOldName(name)
    else CheckName(newname)
  }

  /** ncmpi_del_att returns at once, without joining the others, when the file is in define mode
      and the variable id is bad. */
  predicate ReturnsEarly(f: File, c: Call) {
    c.DelAtt? && !f.flags.rdonly && f.flags.def && CheckAttVarid(f, c.varid) != NC_NOERR
  }

  function CheckDelAtt(f: File, varid: int, name: Option<string>): int {
    if f.flags.rdonly then NC_EPERM
    else if !f.flags.def then NC_ENOTINDEFINE
    else if CheckAttVarid(f, varid) != NC_NOERR then NC_ENOTVAR
    else CheckOldName(name)
  }

  function CheckEnddefAlign(f: File, h: int, v: int, vm: int, r: int): int {
    if !f.flags.def then NC_ENOTINDEFINE
    else if h < 0 || v < 0 || vm < 0 || r < 0 then NC_EINVAL
    else NC_NOERR
  }

  function CheckRedef(f: File): int {
    if f.flags.rdonly then NC_EPERM
    else if f.flags.def then NC_EINDEFINE
    else NC_NOERR
  }

  function LocalCheck(f: File, c: Call): (e: int)
    ensures e <= 0
  {
    match c
    case DefDim(name, size) => CheckDefDim(f, name, size)
    case RenameDim(dimid, newname) => CheckRenameDim(f, dimid, newname)
    case DefVar(name, xtype, ndims, dimids) => CheckDefVar(f, name, xtype, ndims, dimids)
    case RenameVar(varid, newname) => CheckRenameVar(f, varid, newname)
    case DefVarFill(varid, _, _) => CheckDefVarFill(f, varid)
    case CopyAtt(varid, name, varidOut) => CheckCopyAtt(f, varid, name, varidOut)
    case RenameAtt(varid, name, newname) => CheckRenameAtt(f, varid, name, newname)
    case DelAtt(varid, name) => CheckDelAtt(f, varid, name)
    case Enddef => if f.flags.def then NC_NOERR else NC_ENOTINDEFINE
    case EnddefAlign(h, v, vm, r) => CheckEnddefAlign(f, h, v, vm, r)
    case Redef => CheckRedef(f)
    case BeginIndep => NC_NOERR
    case EndIndep => NC_NOERR
  }

  /* ---------------- what the driver answers, and the record afterwards ---------------- */

  /** The record cached for a new variable. */
  function Cached(f: File, xtype: int, ids: seq<int>): CachedVar
    requires InRange(f.driver, ids)
  {
    CachedVar(|ids|, if ids != [] && ids[0] == f.unlimdimid then f.unlimdimid else -1, xtype,
              seq(|ids|, i requires 0 <= i < |ids| => InqDim(f.driver, ids[i])))
  }

  /** The record with a variable added in the driver and in the cache. */
  function WithVar(f: File, name: string, xtype: int, ids: seq<int>): File
    requires InRange(f.driver, ids)
  {
    var cv := Cached(f, xtype, ids);
    f.(driver := AddVar(f.driver, name, xtype, ids), vars := f.vars + [cv], nvars := f.nvars + 1,
       nrecVars := if cv.recdim >= 0 then f.nrecVars + 1 else f.nrecVars)
  }

  /** The dispatcher's record agrees with the driver. */
  ghost predicate Consistent(f: File) {
    && WellFormed(f.driver)
    && f.ndims == |f.driver.dims|
    && f.unlimdimid == f.driver.unlimitedId
    && f.nvars == |f.vars| == |f.driver.vars|
    && (forall i :: 0 <= i < |f.vars| ==> VarAgrees(f, i))
  }

  /** Entry i of the cache is what the driver would answer for variable i; the length of the
      unlimited dimension alone may have moved on since. */
  ghost predicate VarAgrees(f: File, i: nat)
    requires i < |f.vars| && i < |f.driver.vars|
  {
    var c, v := f.vars[i], f.driver.vars[i];
    && c.xtype == v.xtype
    && c.ndims == |v.dimids| == |c.shape|
    && c.recdim == (if v.dimids != [] && v.dimids[0] == f.unlimdimid then f.unlimdimid else -1)
    && InRange(f.driver, v.dimids)
    && (forall k :: 0 <= k < |v.dimids| && f.driver.dims[v.dimids[k]].size != NC_UNLIMITED ==>
          c.shape[k] == f.driver.dims[v.dimids[k]].size)
  }

  predicate NameGiven(name: Option<string>) {
    name.Some? && name.value != ""
  }

  lemma CheckedName(name: Option<string>)
    ensures CheckName(name) == NC_NOERR ==> NameGiven(name)
    ensures CheckOldName(name) == NC_NOERR ==> NameGiven(name)
  {
  }

  /** A call that has passed the local checks of its process. */
  ghost predicate Passed(f: File, c: Call) {
    Consistent(f) && CallOk(c) && LocalCheck(f, c) == NC_NOERR
  }

  lemma VarsOfConsistent(f: File)
    requires Consistent(f)
    ensures VarsInRange(f.driver)
  {
    forall i | 0 <= i < |f.driver.vars| ensures InRange(f.driver, f.driver.vars[i].dimids) { assert VarAgrees(f, i); }
  }

  ghost function Staying(f: File, io: Io): int
    requires Consistent(f)
  {
    VarsOfConsistent(f);
    StayCode(f.format, f.flags.safe, f.driver, io)
  }

  ghost function EnddefCode(f: File, io: Io): int
    requires Consistent(f)
  {
    if Staying(f, io) != NC_NOERR then Staying(f, io) else LeaveCode(f.driver, io)
  }

  /** The driver's return code. */
  ghost function DriverCode(f: File, c: Call, io: Io): int
    requires Passed(f, c)
  {
    match c
    case DefDim(_, _) => NC_NOERR
    case RenameDim(dimid, newname) =>
      if FindDim(f.driver.dims, newname.value) == dimid then NC_NOERR   // the driver is not called
      else RenameCheck(f.driver, f.driver.dims[dimid].name, newname.value)
    case DefVar(_, xtype, ndims, dimids) => ShapeCheck(f.driver, xtype, Used(ndims, dimids))
    case RenameVar(varid, newname) => RenameCheck(f.driver, f.driver.vars[varid].name, newname.value)
    case DefVarFill(varid, noFill, fill) => SetVarFillCheck(f.driver, varid, noFill != 0, fill)
    case CopyAtt(varid, name, varidOut) => DuplicateAttCheck(f.driver, varid, name.value, varidOut)
    case RenameAtt(varid, name, newname) => MoveAttCheck(f.driver, varid, name.value, newname.value)
    case DelAtt(varid, name) => RemoveAttCheck(f.driver, varid, name.value)
    case Enddef => EnddefCode(f, io)
    case EnddefAlign(_, _, _, _) => EnddefCode(f, io)
    case Redef => NC_NOERR
    case BeginIndep => if f.driver.inDef then NC_EINDEFINE else NC_NOERR
    case EndIndep => EndIndepCode(f.driver, !f.flags.rdonly, io)
  }

  /** The record after the driver has been asked to leave define mode. If it fails after having
      left, the dispatcher stays in define mode alone. */
  ghost function LeaveDefine(f: File, io: Io): File
    requires Consistent(f)
  {
    if Staying(f, io) != NC_NOERR then f
    else
      var left := f.driver.(inDef := false, saved := None, counted := NumRecVars(f.driver));
      if LeaveCode(f.driver, io) != NC_NOERR then f.(driver := left)
      else f.(driver := left, flags := f.flags.(indep := false, def := false))
  }

  /** The record after the driver has been called. */
  ghost function After(f: File, c: Call, io: Io): File
    requires Passed(f, c)
  {
    if DriverCode(f, c, io) != NC_NOERR && !(c.Enddef? || c.EnddefAlign? || c.DefVarFill? || c.EndIndep?) then f
    else match c
      case DefDim(name, size) =>
        f.(driver := AddDim(f.driver, name.value, size),
           unlimdimid := if size == NC_UNLIMITED && f.unlimdimid == -1 then |f.driver.dims| else f.unlimdimid,
           ndims := f.ndims + 1)
      case RenameDim(dimid, newname) =>
        if FindDim(f.driver.dims, newname.value) == dimid then f
        else f.(driver := SetDimName(f.driver, dimid, newname.value))
      case DefVar(name, xtype, ndims, dimids) =>
        WithVar(f, name.value, xtype, Used(ndims, dimids))
      case RenameVar(varid, newname) => f.(driver := SetVarName(f.driver, varid, newname.value))
      case DefVarFill(varid, noFill, fill) =>
        // a fill value is refused when the flag has been set already
        if DriverCode(f, c, io) != NC_NOERR then f.(driver := SetNoFill(f.driver, varid, noFill != 0))
        else f.(driver := SetVarFill(f.driver, varid, noFill != 0, fill))
      case CopyAtt(varid, name, varidOut) => f.(driver := DuplicateAtt(f.driver, varid, name.value, varidOut))
      case RenameAtt(varid, name, newname) =>
        f.(driver := MoveAtt(f.driver, varid, name.value, newname.value))
      case DelAtt(varid, name) => f.(driver := RemoveAtt(f.driver, varid, name.value))
      case Enddef => LeaveDefine(f, io)
      case EnddefAlign(_, _, _, _) => LeaveDefine(f, io)
      case Redef =>
        f.(driver := f.driver.(inDef := true, inIndep := false, saved := Some(|f.driver.vars|)),
           flags := f.flags.(def := true))
      case BeginIndep => f.(driver := f.driver.(inIndep := true), flags := f.flags.(indep := true))
      case EndIndep =>
        // if the number of records cannot be written, the driver has left the mode alone
        if f.driver.inDef then f
        else if DriverCode(f, c, io) != NC_NOERR then f.(driver := f.driver.(inIndep := false))
        else f.(driver := f.driver.(inIndep := false), flags := f.flags.(indep := false))
  }

  /** A whole call on a file that one process has open by itself: result and record afterwards. */
  ghost function Alone(f: File, c: Call, io: Io): (int, File)
    requires Consistent(f) && CallOk(c)
  {
    if LocalCheck(f, c) != NC_NOERR then (LocalCheck(f, c), f)
    else (DriverCode(f, c, io), After(f, c, io))
  }

  /* ---------------- what every call keeps ---------------- */

  lemma AgreesAfterDims(f: File, f': File)
    requires Consistent(f) && f'.vars == f.vars && f'.driver.vars == f.driver.vars
    requires |f.driver.dims| <= |f'.driver.dims|
    requires forall i :: 0 <= i < |f.driver.dims| ==> f'.driver.dims[i].size == f.driver.dims[i].size
    requires f'.unlimdimid == f.unlimdimid || (f.unlimdimid == -1 && f'.unlimdimid == |f.driver.dims|)
    ensures forall i :: 0 <= i < |f'.vars| ==> VarAgrees(f', i)
  {
    forall i | 0 <= i < |f'.vars| ensures VarAgrees(f', i) { assert VarAgrees(f, i); }
  }

  lemma AgreesAfterVar(f: File, f': File, varid: int)
    requires Consistent(f) && f'.vars == f.vars && 0 <= varid < |f.driver.vars| == |f'.driver.vars|
    requires f'.driver.dims == f.driver.dims && f'.unlimdimid == f.unlimdimid
    requires forall i :: 0 <= i < |f.vars| ==>
      f'.driver.vars[i].xtype == f.driver.vars[i].xtype && f'.driver.vars[i].dimids == f.driver.vars[i].dimids
    ensures forall i :: 0 <= i < |f'.vars| ==> VarAgrees(f', i)
  {
    forall i | 0 <= i < |f'.vars| ensures VarAgrees(f', i) { assert VarAgrees(f, i); }
  }

  lemma DefDimKeeps(f: File, c: Call, io: Io)
    requires Passed(f, c) && c.DefDim?
    ensures Consistent(After(f, c, io))
  {
    CheckedName(c.name);
    AddDimKeeps(f.driver, c.name.value, c.size);
    AgreesAfterDims(f, After(f, c, io));
  }

  lemma RenameDimKeeps(f: File, c: Call, io: Io)
    requires Passed(f, c) && c.RenameDim?
    ensures Consistent(After(f, c, io))
  {
    if FindDim(f.driver.dims, c.newname.value) == -1 {
      SetDimNameKeeps(f.driver, c.dimid, c.newname.value);
      AgreesAfterDims(f, After(f, c, io));
    }
  }

  lemma DefVarKeeps(f: File, c: Call, io: Io)
    requires Passed(f, c) && c.DefVar?
    ensures Consistent(After(f, c, io))
  {
    var f' := After(f, c, io);
    var ids := Used(c.ndims, c.dimids);
    if DriverCode(f, c, io) == NC_NOERR {
      AddVarKeeps(f.driver, c.name.value, c.xtype, ids);
      forall i | 0 <= i < |f'.vars| ensures VarAgrees(f', i) {
        if i < |f.vars| { assert VarAgrees(f, i); }
      }
    }
  }

  lemma RenameVarKeeps(f: File, c: Call, io: Io)
    requires Passed(f, c) && c.RenameVar?
    ensures Consistent(After(f, c, io))
  {
    var f' := After(f, c, io);
    ReplaceVarKeeps(f.driver, SetVarName(f.driver, c.varid, c.newname.value), c.varid,
                    f.driver.vars[c.varid].(name := c.newname.value));
    AgreesAfterVar(f, f', c.varid);
  }

  lemma DefVarFillKeeps(f: File, c: Call, io: Io)
    requires Passed(f, c) && c.DefVarFill?
    ensures Consistent(After(f, c, io))
  {
    var f' := After(f, c, io);
    ReplaceVarKeeps(f.driver, f'.driver, c.varid, f.driver.vars[c.varid].(noFill := c.noFill != 0));
    AgreesAfterVar(f, f', c.varid);
  }

  /** The cache agrees with the driver after every call, whatever the driver answers. */
  lemma AfterKeepsConsistent(f: File, c: Call, io: Io)
    requires Passed(f, c)
    ensures Consistent(After(f, c, io))
  {
    match c
    case DefDim(_, _) => DefDimKeeps(f, c, io);
    case RenameDim(_, _) => RenameDimKeeps(f, c, io);
    case DefVar(_, _, _, _) => DefVarKeeps(f, c, io);
    case RenameVar(_, _) => RenameVarKeeps(f, c, io);
    case DefVarFill(_, _, _) => DefVarFillKeeps(f, c, io);
    case _ => AgreesAfterDims(f, After(f, c, io));
  }

  /** Number of record variables in the cache. */
  function CountRec(vars: seq<CachedVar>): nat {
    if vars == [] then 0
    else CountRec(vars[..|vars| - 1]) + (if vars[|vars| - 1].recdim >= 0 then 1 else 0)
  }

  /** The record counter moves with the cache: whatever distance it starts at, it keeps. */
  lemma RecordCounterDrift(f: File, c: Call, io: Io)
    requires Passed(f, c)
    ensures After(f, c, io).nrecVars - CountRec(After(f, c, io).vars) == f.nrecVars - CountRec(f.vars)
  {
    var f' := After(f, c, io);
    if c.DefVar? && DriverCode(f, c, io) == NC_NOERR {
      CountRecPush(f.vars, Cached(f, c.xtype, Used(c.ndims, c.dimids)));
    } else {
      assert f'.vars == f.vars && f'.nrecVars == f.nrecVars;
    }
  }

  lemma CountRecPush(vars: seq<CachedVar>, cv: CachedVar)
    ensures CountRec(vars + [cv]) == CountRec(vars) + if cv.recdim >= 0 then 1 else 0
  {
    assert (vars + [cv])[..|vars|] == vars;
  }

  /** Once a file has its unlimited dimension, no call gives it another. */
  lemma UnlimitedDimensionStays(f: File, c: Call, io: Io)
    requires Passed(f, c) && f.unlimdimid != -1
    ensures After(f, c, io).unlimdimid == f.unlimdimid
    ensures c.DefDim? ==> c.size != NC_UNLIMITED
  {
  }

  /** A file opened read-only is never in define mode. */
  predicate ReadOnlySafe(f: File) {
    f.flags.rdonly ==> !f.flags.def
  }

  /** The dispatcher's mode bits against the driver's own. Re-entering define mode from the
      independent mode clears the driver's bit only, so there the dispatcher's may linger. */
  predicate ModesAgree(f: File) {
    && f.flags.def == f.driver.inDef
    && (if f.flags.def then !f.driver.inIndep else f.flags.indep == f.driver.inIndep)
  }

  lemma ReadOnlyKept(f: File, c: Call, io: Io)
    requires Passed(f, c) && ReadOnlySafe(f)
    ensures ReadOnlySafe(After(f, c, io)) && After(f, c, io).flags.rdonly == f.flags.rdonly
  {
  }

  /** On a read-only file only the two independent-mode calls pass their local checks, although
      some of the others test the define mode alone. */
  lemma ReadOnlyNeverDefined(f: File, c: Call)
    requires Passed(f, c) && f.flags.rdonly && ReadOnlySafe(f)
    ensures c.BeginIndep? || c.EndIndep?
  {
  }

  /** The driver changes its mode and then fails: an enddef that it has found nothing to refuse in,
      but in which it cannot write the header or fill new variables; or an end of the independent
      mode in which it cannot write the number of records. */
  ghost predicate Parts(f: File, c: Call, io: Io)
    requires Passed(f, c)
  {
    || ((c.Enddef? || c.EnddefAlign?) && Staying(f, io) == NC_NOERR && LeaveCode(f.driver, io) != NC_NOERR)
    || (c.EndIndep? && !f.driver.inDef && Syncs(f.driver, !f.flags.rdonly) && io.sync != NC_NOERR)
  }

  /** All other calls, and all other outcomes of these, keep the modes in agreement. */
  lemma ModesAgreeIff(f: File, c: Call, io: Io)
    requires Passed(f, c) && ModesAgree(f)
    ensures ModesAgree(After(f, c, io)) <==> !Parts(f, c, io)
  {
  }

  /** What a caller can tell beforehand: an enddef may leave the modes apart if and only if the
      sizes of all variables are legal. If they are not, it is refused whatever the file does. */
  lemma ModesMayPartIff(f: File)
    requires Passed(f, Enddef) && ModesAgree(f)
    ensures VarsInRange(f.driver)
    ensures (exists io :: IoOk(io) && !ModesAgree(After(f, Enddef, io))) <==> VlensLegal(f.format, f.driver)
    ensures !VlensLegal(f.format, f.driver) ==>
      forall io :: After(f, Enddef, io) == f && DriverCode(f, Enddef, io) == NC_EVARSIZE
  {
    VarsOfConsistent(f);
    if VlensLegal(f.format, f.driver) {
      var io := Good.(writes := NC_EPERM);
      assert IoOk(io) && !ModesAgree(After(f, Enddef, io));
    }
  }

  /** The three outcomes of ncmpi_def_var_fill in the driver. */
  lemma FillRefusedIff(f: File, c: Call, io: Io)
    requires Passed(f, c) && c.DefVarFill?
    ensures DriverCode(f, c, io) in {NC_NOERR, NC_ELATEFILL, NC_ENOTINDEFINE}
    ensures DriverCode(f, c, io) == NC_ELATEFILL <==> c.fill.Some? && c.noFill == 0 && IsOld(f.driver, c.varid)
    ensures DriverCode(f, c, io) == NC_ENOTINDEFINE <==> c.fill.Some? && c.noFill == 0 && NoPlace(f.driver, c.varid)
  {
  }

  /** Refused for either reason, it leaves the record as it was if and only if the variable was in
      fill mode before; otherwise fill mode has been switched on, without the value. */
  lemma RefusedFillIff(f: File, c: Call, io: Io)
    requires Passed(f, c) && c.DefVarFill? && DriverCode(f, c, io) != NC_NOERR
    ensures After(f, c, io) == f <==> !f.driver.vars[c.varid].noFill
    ensures After(f, c, io).driver.atts == f.driver.atts && !After(f, c, io).driver.vars[c.varid].noFill
  {
    var vars := f.driver.vars;
    if !vars[c.varid].noFill { assert vars[c.varid := vars[c.varid].(noFill := false)] == vars; }
  }

  /** Right behind a redef every value is refused as late. */
  lemma FillBehindRedef(f: File, c: Call, io: Io)
    requires Passed(f, Redef)
    ensures var g := After(f, Redef, io);
      && g.driver.saved == Some(f.nvars) && g.driver.inDef
      && (Passed(g, c) && c.DefVarFill? ==>
            DriverCode(g, c, io) == if c.fill.Some? && c.noFill == 0 then NC_ELATEFILL else NC_NOERR)
  {
    AfterKeepsConsistent(f, Redef, io);
  }

  /** As long as the modes agree a value is refused for no other reason. */
  lemma FillWhileAgreed(f: File, c: Call, io: Io)
    requires Passed(f, c) && c.DefVarFill? && ModesAgree(f)
    ensures DriverCode(f, c, io) == if c.fill.Some? && c.noFill == 0 && IsOld(f.driver, c.varid) then NC_ELATEFILL else NC_NOERR
  {
  }

  /** Behind an enddef that has parted the modes no value is late, and each is refused for which
      there is no place yet. */
  lemma FillBehindParting(f: File, e: Call, io: Io, c: Call)
    requires Passed(f, e) && (e.Enddef? || e.EnddefAlign?) && Parts(f, e, io) && c.DefVarFill?
    ensures Passed(f, c) <==> Passed(After(f, e, io), c)
    ensures Passed(f, c) ==> var g := After(f, e, io);
      DriverCode(g, c, io) == if c.fill.Some? && c.noFill == 0 && NoPlace(g.driver, c.varid) then NC_ENOTINDEFINE else NC_NOERR
    ensures Passed(f, c) ==>
      (NoPlace(After(f, e, io).driver, c.varid) <==>
        ((c.varid, "_FillValue") in f.driver.atts ==>
          Pad4(ElementSize(f.driver, c.varid)) > Pad4(|f.driver.atts[(c.varid, "_FillValue")]|)))
  {
    AfterKeepsConsistent(f, e, io);
  }
}
