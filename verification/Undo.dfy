/** What lookups find after a call, and what one call undoes of another. */
module Undo {
  import opened NetCDF
  import opened NcmpioDriver
  import opened Dispatch

  /* ---------------- lookups ---------------- */

  lemma {:induction false} DimFound(dims: seq<Dim>, i: nat)
    requires i < |dims| && forall j, k :: 0 <= j < k < |dims| ==> dims[j].name != dims[k].name
    ensures FindDim(dims, dims[i].name) == i
  {
    var r := FindDim(dims, dims[i].name);
    assert r >= 0 && dims[r].name == dims[i].name;
  }

  lemma {:induction false} VarFound(vars: seq<Var>, i: nat)
    requires i < |vars| && forall j, k :: 0 <= j < k < |vars| ==> vars[j].name != vars[k].name
    ensures FindVar(vars, vars[i].name) == i
  {
    var r := FindVar(vars, vars[i].name);
    assert r >= 0 && vars[r].name == vars[i].name;
  }

  lemma DimLookup(b: seq<Dim>, x: string, r: int)
    requires forall j, k :: 0 <= j < k < |b| ==> b[j].name != b[k].name
    requires -1 <= r < |b| && (r >= 0 ==> b[r].name == x)
    requires r == -1 ==> forall i :: 0 <= i < |b| ==> b[i].name != x
    ensures FindDim(b, x) == r
  {
    if r >= 0 { DimFound(b, r); }
  }

  lemma VarLookup(b: seq<Var>, x: string, r: int)
    requires forall j, k :: 0 <= j < k < |b| ==> b[j].name != b[k].name
    requires -1 <= r < |b| && (r >= 0 ==> b[r].name == x)
    requires r == -1 ==> forall i :: 0 <= i < |b| ==> b[i].name != x
    ensures FindVar(b, x) == r
  {
    if r >= 0 { VarFound(b, r); }
  }

  /** After a dimension has been defined its name, and no other, leads to its id, which is the old
      count; every other name leads where it did, with the same length. */
  lemma DefDimLookup(f: File, c: Call, io: Io, x: string)
    requires Passed(f, c) && c.DefDim?
    ensures var f' := After(f, c, io);
      && FindDim(f'.driver.dims, x) == (if x == c.name.value then f.ndims else FindDim(f.driver.dims, x))
      && (x == c.name.value ==> f'.driver.dims[f.ndims].size == c.size)
      && (FindDim(f.driver.dims, x) >= 0 ==>
            f'.driver.dims[FindDim(f.driver.dims, x)] == f.driver.dims[FindDim(f.driver.dims, x)])
  {
    AfterKeepsConsistent(f, c, io);
    var b := After(f, c, io).driver.dims;
    DimLookup(b, x, if x == c.name.value then f.ndims else FindDim(f.driver.dims, x));
  }

  /** Likewise for a variable, if the driver accepts its shape. */
  lemma DefVarLookup(f: File, c: Call, io: Io, x: string)
    requires Passed(f, c) && c.DefVar? && DriverCode(f, c, io) == NC_NOERR
    ensures var f' := After(f, c, io);
      && FindVar(f'.driver.vars, x) == (if x == c.name.value then f.nvars else FindVar(f.driver.vars, x))
      && f'.driver.vars[f.nvars].dimids == Used(c.ndims, c.dimids) && f'.driver.vars[f.nvars].xtype == c.xtype
      && f'.driver.vars[..f.nvars] == f.driver.vars
  {
    AfterKeepsConsistent(f, c, io);
    var b := After(f, c, io).driver.vars;
    VarLookup(b, x, if x == c.name.value then f.nvars else FindVar(f.driver.vars, x));
  }

  /** After a renaming the new name leads to the dimension, the old one nowhere, and every other
      name where it did. */
  lemma RenameDimLookup(f: File, c: Call, io: Io, x: string)
    requires Passed(f, c) && c.RenameDim? && DriverCode(f, c, io) == NC_NOERR
    requires FindDim(f.driver.dims, c.newname.value) == -1
    ensures FindDim(After(f, c, io).driver.dims, x) ==
      if x == c.newname.value then c.dimid else if x == f.driver.dims[c.dimid].name then -1 else FindDim(f.driver.dims, x)
  {
    AfterKeepsConsistent(f, c, io);
    var b := After(f, c, io).driver.dims;
    DimLookup(b, x,
      if x == c.newname.value then c.dimid else if x == f.driver.dims[c.dimid].name then -1 else FindDim(f.driver.dims, x));
  }

  lemma RenameVarLookup(f: File, c: Call, io: Io, x: string)
    requires Passed(f, c) && c.RenameVar? && DriverCode(f, c, io) == NC_NOERR
    ensures FindVar(After(f, c, io).driver.vars, x) ==
      if x == c.newname.value then c.varid else if x == f.driver.vars[c.varid].name then -1 else FindVar(f.driver.vars, x)
  {
    AfterKeepsConsistent(f, c, io);
    var b := After(f, c, io).driver.vars;
    VarLookup(b, x,
      if x == c.newname.value then c.varid else if x == f.driver.vars[c.varid].name then -1 else FindVar(f.driver.vars, x));
  }

  /* ---------------- renaming back ---------------- */

  /** Renaming a dimension back, to an old name that is legal, passes the checks; it restores the
      record if the file is in define mode or the names are equally long, and is otherwise refused
      and changes nothing. */
  lemma RenameDimBackIff(f: File, c: Call, io: Io)
    requires Passed(f, c) && c.RenameDim? && DriverCode(f, c, io) == NC_NOERR
    requires FindDim(f.driver.dims, c.newname.value) == -1
    requires CheckName(Some(f.driver.dims[c.dimid].name)) == NC_NOERR
    ensures var f', back := After(f, c, io), RenameDim(c.dimid, Some(f.driver.dims[c.dimid].name));
      && Passed(f', back)
      && (DriverCode(f', back, io) == NC_NOERR <==> f.driver.inDef || |f.driver.dims[c.dimid].name| == |c.newname.value|)
      && After(f', back, io) == if DriverCode(f', back, io) == NC_NOERR then f else f'
  {
    var former := f.driver.dims[c.dimid].name;
    AfterKeepsConsistent(f, c, io);
    RenameDimLookup(f, c, io, former);
    assert f.driver.dims[c.dimid := f.driver.dims[c.dimid].(name := c.newname.value)]
      [c.dimid := f.driver.dims[c.dimid]] == f.driver.dims;
  }

  /** Likewise for a variable. */
  lemma RenameVarBackIff(f: File, c: Call, io: Io)
    requires Passed(f, c) && c.RenameVar? && DriverCode(f, c, io) == NC_NOERR
    requires CheckName(Some(f.driver.vars[c.varid].name)) == NC_NOERR
    ensures var f', back := After(f, c, io), RenameVar(c.varid, Some(f.driver.vars[c.varid].name));
      && Passed(f', back)
      && (DriverCode(f', back, io) == NC_NOERR <==> f.driver.inDef || |f.driver.vars[c.varid].name| == |c.newname.value|)
      && After(f', back, io) == if DriverCode(f', back, io) == NC_NOERR then f else f'
  {
    var former := f.driver.vars[c.varid].name;
    AfterKeepsConsistent(f, c, io);
    RenameVarLookup(f, c, io, former);
    assert f.driver.vars[c.varid := f.driver.vars[c.varid].(name := c.newname.value)]
      [c.varid := f.driver.vars[c.varid]] == f.driver.vars;
  }

  /** Likewise for an attribute. */
  lemma RenameAttBackIff(f: File, c: Call, io: Io)
    requires Passed(f, c) && c.RenameAtt? && DriverCode(f, c, io) == NC_NOERR
    requires CheckName(c.name) == NC_NOERR
    ensures var f', back := After(f, c, io), RenameAtt(c.varid, c.newname, c.name);
      && Passed(f', back)
      && (DriverCode(f', back, io) == NC_NOERR <==> f.driver.inDef || |c.name.value| == |c.newname.value|)
      && After(f', back, io) == if DriverCode(f', back, io) == NC_NOERR then f else f'
  {
    AfterKeepsConsistent(f, c, io);
    var a := f.driver.atts;
    var a' := After(f, c, io).driver.atts;
    assert (a' - {(c.varid, c.newname.value)})[(c.varid, c.name.value) := a[(c.varid, c.name.value)]] == a;
  }

  /* ---------------- attributes and modes ---------------- */

  /** Deleting, in define mode, an attribute that has been copied to where there was none restores
      the record. */
  lemma DeleteCopied(f: File, c: Call, io: Io)
    requires Passed(f, c) && c.CopyAtt? && DriverCode(f, c, io) == NC_NOERR && f.flags.def
    requires (c.varidOut, c.name.value) !in f.driver.atts
    ensures var f', del := After(f, c, io), DelAtt(c.varidOut, c.name);
      Passed(f', del) && DriverCode(f', del, io) == NC_NOERR && After(f', del, io) == f
  {
    AfterKeepsConsistent(f, c, io);
    var a' := After(f, c, io).driver.atts;
    assert a' - {(c.varidOut, c.name.value)} == f.driver.atts;
  }

  /** Leaving define mode and entering it again, if the driver does leave it, restores the record
      if and only if no independent mode had been left behind, define mode had been entered with all
      the variables there are, and the driver had counted the record variables among them: a later
      fill value is refused for every one of them afterwards. */
  lemma ReenterDefineIff(f: File, io: Io)
    requires Passed(f, Enddef) && !f.flags.rdonly && f.driver.inDef && DriverCode(f, Enddef, io) == NC_NOERR
    ensures var f' := After(f, Enddef, io);
      && Passed(f', Redef)
      && (After(f', Redef, io) == f <==>
            !f.flags.indep && !f.driver.inIndep && f.driver.saved == Some(f.nvars) && f.driver.counted == NumRecVars(f.driver))
      && (forall c: Call :: c.DefVarFill? && c.fill.Some? && c.noFill == 0 && Passed(After(f', Redef, io), c) ==>
            DriverCode(After(f', Redef, io), c, io) == NC_ELATEFILL)
  {
    AfterKeepsConsistent(f, Enddef, io);
    AfterKeepsConsistent(After(f, Enddef, io), Redef, io);
  }

  /** A file with one scalar variable, in define mode; `saved` as if entered again, or not. */
  function OneVariable(saved: Option<nat>): File {
    File(Flags(false, true, false, true), NC_FORMAT_CLASSIC, 0, -1, 1, 0, [CachedVar(0, -1, 4, [])],
         Nc([], [Var("v", 4, [], true)], -1, 0, map[], true, false, saved, 0))
  }

  lemma OneVariableOk(saved: Option<nat>)
    requires saved.Some? ==> saved.value <= 1
    ensures Consistent(OneVariable(saved)) && VlensLegal(NC_FORMAT_CLASSIC, OneVariable(saved).driver)
  {
    assert VarAgrees(OneVariable(saved), 0);
  }

  /** Define mode is left and entered again. */
  lemma ReenterExample()
    ensures var f := OneVariable(None);
      && Passed(f, Enddef) && Passed(After(f, Enddef, Good), Redef)
      && After(After(f, Enddef, Good), Redef, Good) == OneVariable(Some(1))
  {
    OneVariableOk(None);
    AfterKeepsConsistent(OneVariable(None), Enddef, Good);
  }

  /** Before that, giving the variable a fill value succeeds; after it, it fails, with fill mode
      switched on and no value set. */
  lemma LateFillExample()
    ensures var f, fill := OneVariable(None), DefVarFill(0, 0, Some([1, 0, 0, 0]));
      Passed(f, fill) && DriverCode(f, fill, Good) == NC_NOERR
    ensures var f, fill := OneVariable(Some(1)), DefVarFill(0, 0, Some([1, 0, 0, 0]));
      && Passed(f, fill) && DriverCode(f, fill, Good) == NC_ELATEFILL
      && After(f, fill, Good).driver.atts == map[]
      && !After(f, fill, Good).driver.vars[0].noFill && f.driver.vars[0].noFill
  {
    OneVariableOk(None);
    OneVariableOk(Some(1));
  }

  /** An enddef that cannot write the header leaves the dispatcher in define mode and the driver not.
      The fill value that was accepted before is now refused, with fill mode switched on and no value
      set. */
  lemma PartedFillExample()
    ensures var f0, io, fill := OneVariable(None), Good.(writes := NC_EPERM), DefVarFill(0, 0, Some([1, 0, 0, 0]));
      && Passed(f0, Enddef) && Parts(f0, Enddef, io) && Passed(After(f0, Enddef, io), fill)
      && After(f0, Enddef, io).flags.def && !After(f0, Enddef, io).driver.inDef
      && DriverCode(f0, fill, Good) == NC_NOERR && DriverCode(After(f0, Enddef, io), fill, Good) == NC_ENOTINDEFINE
      && After(After(f0, Enddef, io), fill, Good).driver.atts == map[]
      && !After(After(f0, Enddef, io), fill, Good).driver.vars[0].noFill && After(f0, Enddef, io).driver.vars[0].noFill
  {
    OneVariableOk(None);
    AfterKeepsConsistent(OneVariable(None), Enddef, Good.(writes := NC_EPERM));
  }
}
