/** One collective call on equal records: the record and the code of every process afterwards, and
    exactly when a call goes well. */
module Session {
  import opened NetCDF
  import opened NcmpioDriver
  import opened Dispatch
  import opened Network
  import opened Collective
  import opened Agreement
  import opened SafeMode

  /** One collective call: each process's arguments, and what the file operations come to. */
  datatype Turn = Turn(cs: seq<Call>, io: Io)

  ghost predicate TurnReady(f: File, r: Turn) {
    Ready(f, r.cs, r.io)
  }

  /** A process's record when it has returned. */
  ghost function RecordAfter(f: File, c: Call, io: Io, pc: Pc): File
    requires Consistent(f) && CallOk(c)
  {
    if pc.Done? && pc.reached && LocalCheck(f, c) == NC_NOERR then After(f, c, io) else f
  }

  /** The record after the call: it changes exactly when everybody passes its checks and asks for
      the same. */
  ghost function NextRecord(f: File, r: Turn): File
    requires TurnReady(f, r)
  {
    if AllPass(f, r.cs) && Unanimous(f, r.cs) then After(f, r.cs[0], r.io) else f
  }

  /** The code that process i returns. */
  ghost function CodeOf(f: File, r: Turn, i: nat): int
    requires TurnReady(f, r) && i < |r.cs|
  {
    if !AllPass(f, r.cs) then MinOf(Checks(f, r.cs))
    else if Unanimous(f, r.cs) then DriverCode(f, r.cs[0], r.io)
    else if r.cs[0].DefVarFill? && Complaints(f, r.cs)[i] != 0 then Complaints(f, r.cs)[i]
    else MinOf(Complaints(f, r.cs))
  }

  lemma DecidedCode(f: File, r: Turn, i: nat, pc: Pc)
    requires TurnReady(f, r) && i < |r.cs| && Decided(f, r.cs, r.io, i, pc)
    ensures pc.Done? && pc.code == CodeOf(f, r, i)
  {
  }

  lemma DecidedRecord(f: File, r: Turn, i: nat, pc: Pc)
    requires TurnReady(f, r) && i < |r.cs| && Decided(f, r.cs, r.io, i, pc)
    ensures RecordAfter(f, r.cs[i], r.io, pc) == NextRecord(f, r)
  {
    if AllPass(f, r.cs) && Unanimous(f, r.cs) { SameDriver(f, r.cs, r.io); }
  }

  lemma NextRecordKeeps(f: File, r: Turn)
    requires TurnReady(f, r)
    ensures Consistent(NextRecord(f, r)) && NextRecord(f, r).flags.safe
  {
    if AllPass(f, r.cs) && Unanimous(f, r.cs) { AfterKeepsConsistent(f, r.cs[0], r.io); }
  }

  /** A process returns zero exactly if all pass, ask for the same, and the driver has no error. */
  lemma ZeroIff(f: File, r: Turn, i: nat)
    requires TurnReady(f, r) && Smooth(f, r.cs) && i < |r.cs|
    ensures CodeOf(f, r, i) == NC_NOERR <==>
      AllPass(f, r.cs) && Unanimous(f, r.cs) && DriverCode(f, r.cs[0], r.io) == NC_NOERR
  {
    var w := World(f, r.cs, r.io);
    WorldOrderly(f, r.cs, r.io);
    Verdicts(f, r.cs, r.io, i);
    DecidedCode(f, r, i, Verdict(w, i));
  }

  /* ---------------- one code for everybody ---------------- */

  ghost predicate OneCode(f: File, r: Turn)
    requires TurnReady(f, r)
  {
    forall i :: 0 <= i < |r.cs| ==> CodeOf(f, r, i) == CodeOf(f, r, 0)
  }

  /** Process i names another variable or mode than the root, or only one of them gives a value. */
  predicate OtherIds(cs: seq<Call>, i: nat)
    requires i < |cs|
  {
    cs[0].DefVarFill? && cs[i].DefVarFill? &&
    (cs[i].varid != cs[0].varid || cs[i].noFill != cs[0].noFill || cs[i].fill.None? != cs[0].fill.None?)
  }

  /** Process i differs from the root in the fill value alone. */
  predicate OtherValue(f: File, cs: seq<Call>, i: nat)
    requires i < |cs|
  {
    cs[0].DefVarFill? && cs[i].DefVarFill? && !OtherIds(cs, i) && cs[i].fill.Some? &&
    Element(f.driver, cs[i].varid, cs[i].fill.value) != Element(f.driver, cs[0].varid, cs[0].fill.value)
  }

  lemma FillComplaint(f: File, r: Turn, i: nat)
    requires TurnReady(f, r) && i < |r.cs| && r.cs[0].DefVarFill?
    ensures Complaints(f, r.cs)[i] ==
      if OtherIds(r.cs, i) then NC_EMULTIDEFINE_FNC_ARGS
      else if OtherValue(f, r.cs, i) then NC_EMULTIDEFINE_VAR_FILL_VALUE else 0
  {
    var c, root := r.cs[i], r.cs[0];
    assert Api(c) == Api(root);
    var a, b := ItemsOf(f, c), ItemsOf(f, root);
    assert FirstErr(a, b, 1) == 0;
    assert a[0].ids == b[0].ids <==> !OtherIds(r.cs, i) by {
      assert a[0].ids[0] == c.varid && a[0].ids[1] == c.noFill && b[0].ids[0] == root.varid && b[0].ids[1] == root.noFill;
      assert a[0].ids[2] == (if c.fill.None? then 1 else 0) && b[0].ids[2] == (if root.fill.None? then 1 else 0);
    }
  }

  lemma UnanimousFill(f: File, r: Turn)
    requires TurnReady(f, r) && r.cs[0].DefVarFill?
    ensures Unanimous(f, r.cs) <==> forall i :: 0 <= i < |r.cs| ==> !OtherIds(r.cs, i) && !OtherValue(f, r.cs, i)
  {
    forall i | 0 <= i < |r.cs| ensures SameArgs(f, r.cs[i], r.cs[0]) <==> !OtherIds(r.cs, i) && !OtherValue(f, r.cs, i) {
      assert Api(r.cs[i]) == Api(r.cs[0]);
    }
  }

  /** Everybody returns the same code, except from ncmpi_def_var_fill if some process differs from
      the root in what it names and some other one in the value alone. */
  lemma OneCodeIff(f: File, r: Turn)
    requires TurnReady(f, r)
    ensures OneCode(f, r) <==>
      !(AllPass(f, r.cs) && (exists a :: 0 <= a < |r.cs| && OtherIds(r.cs, a)) && (exists b :: 0 <= b < |r.cs| && OtherValue(f, r.cs, b)))
  {
    if r.cs[0].DefVarFill? && AllPass(f, r.cs) {
      UnanimousFill(f, r);
      forall i | 0 <= i < |r.cs|
        ensures Complaints(f, r.cs)[i] == if OtherIds(r.cs, i) then NC_EMULTIDEFINE_FNC_ARGS
          else if OtherValue(f, r.cs, i) then NC_EMULTIDEFINE_VAR_FILL_VALUE else 0
      {
        FillComplaint(f, r, i);
      }
      FillCodes(f, r);
    }
  }

  lemma FillCodes(f: File, r: Turn)
    requires TurnReady(f, r) && r.cs[0].DefVarFill? && AllPass(f, r.cs)
    requires Unanimous(f, r.cs) <==> forall i :: 0 <= i < |r.cs| ==> !OtherIds(r.cs, i) && !OtherValue(f, r.cs, i)
    requires forall i :: 0 <= i < |r.cs| ==>
      Complaints(f, r.cs)[i] == if OtherIds(r.cs, i) then NC_EMULTIDEFINE_FNC_ARGS
        else if OtherValue(f, r.cs, i) then NC_EMULTIDEFINE_VAR_FILL_VALUE else 0
    ensures OneCode(f, r) <==>
      !((exists a :: 0 <= a < |r.cs| && OtherIds(r.cs, a)) && (exists b :: 0 <= b < |r.cs| && OtherValue(f, r.cs, b)))
  {
    var cp := Complaints(f, r.cs);
    var m := MinOf(cp);
    if a, b :| 0 <= a < |cp| && 0 <= b < |cp| && OtherIds(r.cs, a) && OtherValue(f, r.cs, b) {
      assert CodeOf(f, r, a) == cp[a] && CodeOf(f, r, b) == cp[b];
    } else if !Unanimous(f, r.cs) {
      var x :| 0 <= x < |cp| && (OtherIds(r.cs, x) || OtherValue(f, r.cs, x));
      assert cp[x] in cp && m in cp;
      forall i | 0 <= i < |cp| ensures CodeOf(f, r, i) == m {
        assert cp[i] == 0 || cp[i] == cp[x];
      }
    }
  }

  lemma TwoComplaints(f: File, r: Turn, a: nat, b: nat)
    requires TurnReady(f, r) && AllPass(f, r.cs) && a < |r.cs| && b < |r.cs| && OtherIds(r.cs, a) && OtherValue(f, r.cs, b)
    ensures CodeOf(f, r, 0) == CodeOf(f, r, b) == NC_EMULTIDEFINE_VAR_FILL_VALUE && CodeOf(f, r, a) == NC_EMULTIDEFINE_FNC_ARGS
  {
    UnanimousFill(f, r);
    forall i | 0 <= i < |r.cs|
      ensures Complaints(f, r.cs)[i] >= NC_EMULTIDEFINE_VAR_FILL_VALUE
      ensures i == a ==> Complaints(f, r.cs)[i] == NC_EMULTIDEFINE_FNC_ARGS
      ensures i == b ==> Complaints(f, r.cs)[i] == NC_EMULTIDEFINE_VAR_FILL_VALUE
      ensures i == 0 ==> Complaints(f, r.cs)[i] == 0
    {
      FillComplaint(f, r, i);
    }
    assert Complaints(f, r.cs)[b] in Complaints(f, r.cs);
  }

  /** Three processes, of which two complain of different things. */
  function ThreeFills(): Turn {
    Turn([DefVarFill(0, 0, Some([1, 0, 0, 0])), DefVarFill(1, 0, Some([1, 0, 0, 0])), DefVarFill(0, 0, Some([2, 0, 0, 0]))], Good)
  }

  lemma ThreeFillsReady()
    ensures TurnReady(TwoVariables(), ThreeFills()) && AllPass(TwoVariables(), ThreeFills().cs)
    ensures !SplitEarly(TwoVariables(), ThreeFills().cs) && !SplitSizes(TwoVariables(), ThreeFills().cs)
  {
    TwoVariablesOk();
  }

  /** They return -272, -269 and -272, though the call goes well. */
  lemma DifferentCodes()
    ensures TurnReady(TwoVariables(), ThreeFills()) && Smooth(TwoVariables(), ThreeFills().cs)
    ensures CodeOf(TwoVariables(), ThreeFills(), 0) == CodeOf(TwoVariables(), ThreeFills(), 2) == -272
    ensures CodeOf(TwoVariables(), ThreeFills(), 1) == -269
  {
    ThreeFillsReady();
    assert Element(TwoVariables().driver, 0, [1, 0, 0, 0])[0] == 1 && Element(TwoVariables().driver, 0, [2, 0, 0, 0])[0] == 2;
    TwoComplaints(TwoVariables(), ThreeFills(), 1, 2);
  }

  /** A file with two four-byte variables and one of eight bytes, in define mode. */
  function TwoVariables(): File {
    File(Flags(false, true, false, true), NC_FORMAT_CLASSIC, 0, -1, 3, 0,
         [CachedVar(0, -1, 4, []), CachedVar(0, -1, 5, []), CachedVar(0, -1, 6, [])],
         Nc([], [Var("u", 4, [], true), Var("v", 5, [], true), Var("w", 6, [], true)], -1, 0, map[], true, false, None, 0))
  }

  lemma TwoVariablesOk()
    ensures Consistent(TwoVariables())
  {
    var f := TwoVariables();
    assert VarAgrees(f, 0) && VarAgrees(f, 1) && VarAgrees(f, 2);
  }
}
