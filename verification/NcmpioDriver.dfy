/** The metadata object of the default I/O driver (src/drivers/ncmpio), as far as the dispatchers
    look at it: dimensions, variables, attributes, and its own copy of the mode. */
module NcmpioDriver {
  import opened NetCDF

  datatype Dim = Dim(name: string, size: int)

  datatype Var = Var(name: string, xtype: int, dimids: seq<int>, noFill: bool)

  /** `atts` are the attributes' values in bytes; `saved` is, after ncmpi_redef, the number of
      variables in the header that has been put aside; `counted` is the number of record variables
      when define mode was last left. */
  datatype Nc = Nc(
    dims: seq<Dim>, vars: seq<Var>, unlimitedId: int, numrecs: nat,
    atts: map<(int, string), seq<int>>, inDef: bool, inIndep: bool, saved: Option<nat>, counted: nat)

  /** What file operations come to, each zero or an error. In leaving define mode: laying the
      variables out, checking their order, moving data that is in the file, writing the header,
      filling new variables. In leaving the independent mode: writing the number of records. */
  datatype Io = Io(begins: int, voffs: int, moves: int, writes: int, fills: int, sync: int)

  predicate IoOk(io: Io) {
    io.begins <= 0 && io.voffs <= 0 && io.moves <= 0 && io.writes <= 0 && io.fills <= 0 && io.sync <= 0
  }

  const Good := Io(0, 0, 0, 0, 0, 0)

  function FindDim(dims: seq<Dim>, name: string): (r: int)
    ensures -1 <= r < |dims|
    ensures r == -1 ==> forall i :: 0 <= i < |dims| ==> dims[i].name != name
    ensures r >= 0 ==> dims[r].name == name
  {
    if dims == [] then -1
    else if dims[|dims| - 1].name == name then |dims| - 1
    else FindDim(dims[..|dims| - 1], name)
  }

  function FindVar(vars: seq<Var>, name: string): (r: int)
    ensures -1 <= r < |vars|
    ensures r == -1 ==> forall i :: 0 <= i < |vars| ==> vars[i].name != name
    ensures r >= 0 ==> vars[r].name == name
  {
    if vars == [] then -1
    else if vars[|vars| - 1].name == name then |vars| - 1
    else FindVar(vars[..|vars| - 1], name)
  }

  /** Metadata that the driver can hold. */
  ghost predicate WellFormed(d: Nc) {
    && (forall i :: 0 <= i < |d.dims| ==> d.dims[i].size >= 0)
    && -1 <= d.unlimitedId < |d.dims|
    && (forall i :: 0 <= i < |d.dims| ==> (d.dims[i].size == NC_UNLIMITED <==> i == d.unlimitedId))
    && (forall i, j :: 0 <= i < j < |d.dims| ==> d.dims[i].name != d.dims[j].name)
    && (forall i, j :: 0 <= i < j < |d.vars| ==> d.vars[i].name != d.vars[j].name)
    && (forall v :: v in d.vars ==> DimIdsOk(d, v.dimids))
    && (d.saved.Some? ==> d.inDef && d.saved.value <= |d.vars|)
  }

  predicate InRange(d: Nc, dimids: seq<int>) {
    forall k :: 0 <= k < |dimids| ==> 0 <= dimids[k] < |d.dims|
  }

  /** Ids in range, and the unlimited dimension nowhere but in the first place. */
  predicate DimIdsOk(d: Nc, dimids: seq<int>) {
    && InRange(d, dimids)
    && (forall k :: 1 <= k < |dimids| ==> d.dims[dimids[k]].size != NC_UNLIMITED)
  }

  function AddDim(d: Nc, name: string, size: int): Nc {
    d.(dims := d.dims + [Dim(name, size)],
       unlimitedId := if size == NC_UNLIMITED then |d.dims| else d.unlimitedId)
  }

  /** The length of a dimension; for the unlimited one, the number of records. */
  function InqDim(d: Nc, dimid: int): int
    requires 0 <= dimid < |d.dims|
  {
    if d.dims[dimid].size == NC_UNLIMITED then d.numrecs else d.dims[dimid].size
  }

  /** Whether prod times the sizes stays within max, tested by division. */
  predicate VlenOk(d: Nc, dimids: seq<int>, prod: int, max: int)
    requires InRange(d, dimids)
  {
    dimids == [] || prod <= 0 ||
    (var size := d.dims[dimids[0]].size;
     size <= max / prod && VlenOk(d, dimids[1..], prod * size, max))
  }

  function ShapeCheck(d: Nc, xtype: int, dimids: seq<int>): int
    requires InRange(d, dimids)
  {
    if !DimIdsOk(d, dimids) then NC_EUNLIMPOS
    else
      var first := if dimids != [] && d.dims[dimids[0]].size == NC_UNLIMITED then 1 else 0;
      if VlenOk(d, dimids[first..], TypeSize(xtype), X_INT64_MAX - 3) then NC_NOERR else NC_EVARSIZE
  }

  function AddVar(d: Nc, name: string, xtype: int, dimids: seq<int>): Nc {
    d.(vars := d.vars + [Var(name, xtype, dimids, true)])
  }

  /** A new name may not be longer than the old one outside define mode. */
  function RenameCheck(d: Nc, oldname: string, newname: string): int {
    if !d.inDef && |oldname| < |newname| then NC_ENOTINDEFINE else NC_NOERR
  }

  function SetDimName(d: Nc, dimid: int, newname: string): Nc
    requires 0 <= dimid < |d.dims|
  {
    d.(dims := d.dims[dimid := d.dims[dimid].(name := newname)])
  }

  function SetVarName(d: Nc, varid: int, newname: string): Nc
    requires 0 <= varid < |d.vars|
  {
    d.(vars := d.vars[varid := d.vars[varid].(name := newname)])
  }

  /** Bytes of one element of a variable. */
  function ElementSize(d: Nc, varid: int): (n: int)
    ensures 1 <= n <= 8
  {
    if 0 <= varid < |d.vars| then TypeSize(d.vars[varid].xtype) else 1
  }

  /** A fill value is as many bytes as an element; what the caller's memory holds behind it is not
      looked at. */
  function Element(d: Nc, varid: int, fill: seq<int>): seq<int> {
    Padded(fill, ElementSize(d, varid))
  }

  function SetVarFill(d: Nc, varid: int, noFill: bool, fill: Option<seq<int>>): Nc
    requires 0 <= varid < |d.vars|
  {
    SetNoFill(d, varid, noFill).(
       atts := if fill.Some? && !noFill then d.atts[(varid, "_FillValue") := Element(d, varid, fill.value)] else d.atts)
  }

  /** The variable was there when define mode was entered. */
  predicate IsOld(d: Nc, varid: int) {
    d.saved.Some? && varid < d.saved.value
  }

  /** Outside define mode a fill value needs the place of one that is there already. */
  predicate NoPlace(d: Nc, varid: int) {
    !d.inDef &&
    ((varid, "_FillValue") in d.atts ==> Pad4(ElementSize(d, varid)) > Pad4(|d.atts[(varid, "_FillValue")]|))
  }

  /** Whether the driver takes a fill value. */
  function SetVarFillCheck(d: Nc, varid: int, noFill: bool, fill: Option<seq<int>>): int {
    if fill.None? || noFill then NC_NOERR
    else if IsOld(d, varid) then NC_ELATEFILL
    else if NoPlace(d, varid) then NC_ENOTINDEFINE
    else NC_NOERR
  }

  /** The flag is set before the fill value is looked at. */
  function SetNoFill(d: Nc, varid: int, noFill: bool): Nc
    requires 0 <= varid < |d.vars|
  {
    d.(vars := d.vars[varid := d.vars[varid].(noFill := noFill)])
  }

  function RemoveAttCheck(d: Nc, varid: int, name: string): int {
    if (varid, name) !in d.atts then NC_ENOTATT else NC_NOERR
  }

  function RemoveAtt(d: Nc, varid: int, name: string): Nc {
    d.(atts := d.atts - {(varid, name)})
  }

  function MoveAttCheck(d: Nc, varid: int, name: string, newname: string): int {
    if (varid, name) !in d.atts then NC_ENOTATT
    else if (varid, newname) in d.atts then NC_ENAMEINUSE
    else RenameCheck(d, name, newname)
  }

  function MoveAtt(d: Nc, varid: int, name: string, newname: string): Nc
    requires (varid, name) in d.atts
  {
    d.(atts := (d.atts - {(varid, name)})[(varid, newname) := d.atts[(varid, name)]])
  }

  /** Space in the file, in whole words of four bytes. */
  function Pad4(n: nat): nat {
    (n + 3) / 4 * 4
  }

  function DuplicateAttCheck(d: Nc, varidIn: int, name: string, varidOut: int): int {
    if (varidIn, name) !in d.atts then NC_ENOTATT
    else if (varidOut, name) in d.atts then
      if varidIn == varidOut then NC_NOERR
      else if !d.inDef && Pad4(|d.atts[(varidIn, name)]|) > Pad4(|d.atts[(varidOut, name)]|) then NC_ENOTINDEFINE
      else NC_NOERR
    else if !d.inDef then NC_ENOTINDEFINE
    else NC_NOERR
  }

  function DuplicateAtt(d: Nc, varidIn: int, name: string, varidOut: int): Nc
    requires (varidIn, name) in d.atts
  {
    d.(atts := d.atts[(varidOut, name) := d.atts[(varidIn, name)]])
  }

  /* ---------------- leaving define mode ---------------- */

  function MaxVlen(format: int): int {
    if format >= 5 then X_INT64_MAX - 3 else if format == 2 then NC_MAX_UINT - 3 else NC_MAX_INT - 3
  }

  predicate IsRecVar(d: Nc, i: int)
    requires 0 <= i < |d.vars| && InRange(d, d.vars[i].dimids)
  {
    d.vars[i].dimids != [] && d.dims[d.vars[i].dimids[0]].size == NC_UNLIMITED
  }

  /** Whether a variable, or a record of it, is larger than the format can address. */
  predicate TooLarge(format: int, d: Nc, i: int)
    requires 0 <= i < |d.vars| && InRange(d, d.vars[i].dimids)
  {
    !VlenOk(d, d.vars[i].dimids[if IsRecVar(d, i) then 1 else 0..], TypeSize(d.vars[i].xtype), MaxVlen(format))
  }

  predicate VarsInRange(d: Nc) {
    forall i :: 0 <= i < |d.vars| ==> InRange(d, d.vars[i].dimids)
  }

  /** Only the last variable may be too large, of the fixed-size ones only if there are no record
      variables, and none in the format with 64-bit sizes. */
  ghost predicate VlensLegal(format: int, d: Nc)
    requires VarsInRange(d)
  {
    forall i :: 0 <= i < |d.vars| && TooLarge(format, d, i) ==>
      format < 5 && if IsRecVar(d, i) then NoLater(d, i, true) else NoLater(d, i, false) && NoRecVars(d)
  }

  /** No later variable of a kind. */
  ghost predicate NoLater(d: Nc, i: int, rec: bool)
    requires VarsInRange(d)
  {
    forall j :: i < j < |d.vars| && 0 <= j ==> IsRecVar(d, j) != rec
  }

  ghost predicate NoRecVars(d: Nc)
    requires VarsInRange(d)
  {
    forall j :: 0 <= j < |d.vars| ==> !IsRecVar(d, j)
  }

  predicate FirstUnlimited(d: Nc, i: nat)
    requires i < |d.vars|
  {
    d.vars[i].dimids != [] && d.vars[i].dimids[0] == d.unlimitedId && d.unlimitedId >= 0
  }

  /** Number of the variables, of the first n, whose first dimension is the unlimited one. */
  function CountRecVars(d: Nc, n: nat): nat
    requires n <= |d.vars|
  {
    if n == 0 then 0 else CountRecVars(d, n - 1) + (if FirstUnlimited(d, n - 1) then 1 else 0)
  }

  function NumRecVars(d: Nc): nat {
    CountRecVars(d, |d.vars|)
  }

  /** The error with which the driver stays in define mode. */
  ghost function StayCode(format: int, safe: bool, d: Nc, io: Io): int
    requires VarsInRange(d)
  {
    if !VlensLegal(format, d) then NC_EVARSIZE
    else if io.begins != 0 then io.begins
    else if safe && io.voffs != 0 then io.voffs
    else if d.saved.Some? && d.vars != [] then io.moves else NC_NOERR
  }

  /** The error with which it leaves it all the same. */
  function LeaveCode(d: Nc, io: Io): int {
    if io.writes != 0 || d.vars == [] then io.writes else io.fills
  }

  /** Leaving the independent mode synchronises the number of records if there are any and the
      file can be written. */
  predicate Syncs(d: Nc, writable: bool) {
    d.inIndep && writable && d.counted > 0
  }

  /** If that fails, the mode has been left all the same. */
  function EndIndepCode(d: Nc, writable: bool, io: Io): int {
    if d.inDef then NC_EINDEFINE else if Syncs(d, writable) then io.sync else NC_NOERR
  }

  lemma AddDimKeeps(d: Nc, name: string, size: int)
    requires WellFormed(d) && size >= 0 && FindDim(d.dims, name) == -1
    requires size == NC_UNLIMITED ==> d.unlimitedId == -1
    ensures WellFormed(AddDim(d, name, size))
  {
  }

  lemma AddVarKeeps(d: Nc, name: string, xtype: int, dimids: seq<int>)
    requires WellFormed(d) && FindVar(d.vars, name) == -1 && InRange(d, dimids)
    requires ShapeCheck(d, xtype, dimids) == NC_NOERR
    ensures WellFormed(AddVar(d, name, xtype, dimids))
  {
    var d' := AddVar(d, name, xtype, dimids);
    forall v | v in d'.vars ensures DimIdsOk(d', v.dimids) {
      assert v in d.vars || v.dimids == dimids;
      assert DimIdsOk(d, v.dimids);
    }
  }

  lemma SetDimNameKeeps(d: Nc, dimid: int, newname: string)
    requires WellFormed(d) && 0 <= dimid < |d.dims| && FindDim(d.dims, newname) == -1
    ensures WellFormed(SetDimName(d, dimid, newname))
  {
  }

  /** Replacing a variable by one of the same dimensions and of a fresh name. */
  lemma ReplaceVarKeeps(d: Nc, d': Nc, varid: int, v': Var)
    requires WellFormed(d) && 0 <= varid < |d.vars| && v'.dimids == d.vars[varid].dimids
    requires d'.vars == d.vars[varid := v']
    requires d'.dims == d.dims && d'.unlimitedId == d.unlimitedId && d'.saved == d.saved && d'.inDef == d.inDef
    requires v'.name == d.vars[varid].name || FindVar(d.vars, v'.name) == -1
    ensures WellFormed(d')
  {
  }
}
