/** The collective define-mode calls in safe mode: N processes hold replicas of one file's record
    and call the same function, each with arguments of its own. */
module SafeMode {
  import opened NetCDF
  import opened NcmpioDriver
  import opened Dispatch
  import opened Network
  import opened Collective
  import opened Agreement

  /** Number of the library function. */
  function Api(c: Call): nat {
    match c
    case DefDim(_, _) => 0
    case RenameDim(_, _) => 1
    case DefVar(_, _, _, _) => 2
    case RenameVar(_, _) => 3
    case DefVarFill(_, _, _) => 4
    case CopyAtt(_, _, _) => 5
    case RenameAtt(_, _, _) => 6
    case DelAtt(_, _) => 7
    case Enddef => 8
    case EnddefAlign(_, _, _, _) => 9
    case Redef => 10
    case BeginIndep => 11
    case EndIndep => 12
  }

  /** The functions that make no safe-mode comparison of their own. */
  predicate Unchecked(c: Call) {
    c.Redef? || c.BeginIndep? || c.EndIndep?
  }

  function Chars(name: Option<string>): string {
    if name.Some? then name.value else ""
  }

  /** The arguments that are compared with the root's, in the order of the code. Everybody copies
      the new name of an attribute into the buffer, not only the root. */
  function ItemsOf(f: File, c: Call): seq<Item> {
    match c
    case DefDim(name, size) =>
      [Str(Chars(name), false, NC_EMULTIDEFINE_DIM_NAME), Scalars(OFFSET, [size], NC_EMULTIDEFINE_DIM_SIZE)]
    case RenameDim(dimid, newname) =>
      [Str(Chars(newname), false, NC_EMULTIDEFINE_DIM_NAME), Scalars(INT, [dimid], NC_EMULTIDEFINE_FNC_ARGS)]
    case DefVar(name, xtype, ndims, dimids) =>
      [Str(Chars(name), false, NC_EMULTIDEFINE_VAR_NAME), Scalars(INT, [xtype], NC_EMULTIDEFINE_VAR_TYPE),
       Vec(ndims, Used(ndims, dimids), NC_EMULTIDEFINE_VAR_NDIMS, NC_EMULTIDEFINE_VAR_DIMIDS)]
    case RenameVar(varid, newname) =>
      [Str(Chars(newname), false, NC_EMULTIDEFINE_VAR_NAME), Scalars(INT, [varid], NC_EMULTIDEFINE_FNC_ARGS)]
    case DefVarFill(varid, noFill, fill) =>
      [Fill([varid, noFill, if fill.None? then 1 else 0], ElementSize(f.driver, varid),
            if fill.None? then [] else Element(f.driver, varid, fill.value), NC_EMULTIDEFINE_FNC_ARGS, NC_EMULTIDEFINE_VAR_FILL_VALUE)]
    case CopyAtt(varid, name, varidOut) =>
      [Str(Chars(name), false, NC_EMULTIDEFINE_ATTR_NAME), Scalars(INT, [varid, varidOut], NC_EMULTIDEFINE_FNC_ARGS)]
    case RenameAtt(varid, name, newname) =>
      [Str(Chars(name), false, NC_EMULTIDEFINE_ATTR_NAME), Str(Chars(newname), true, NC_EMULTIDEFINE_ATTR_NAME),
       Scalars(INT, [varid], NC_EMULTIDEFINE_FNC_ARGS)]
    case DelAtt(varid, name) =>
      [Str(Chars(name), false, NC_EMULTIDEFINE_ATTR_NAME), Scalars(INT, [varid], NC_EMULTIDEFINE_FNC_ARGS)]
    case EnddefAlign(h, v, vm, r) => [Scalars(OFFSET, [h, v, vm, r], NC_EMULTIDEFINE_FNC_ARGS)]
    case _ => []
  }

  /** Whether the driver's function agrees on its error code before it changes anything. */
  predicate DriverReduces(f: File, c: Call) {
    match c
    case RenameDim(dimid, newname) => FindDim(f.driver.dims, Chars(newname)) != dimid
    case DefVar(_, _, _, _) => true
    case RenameVar(_, _) => true
    case DefVarFill(_, noFill, fill) => fill.Some? && noFill == 0   // writing the attribute
    case CopyAtt(_, _, _) => true
    case RenameAtt(_, _, _) => true
    case DelAtt(_, _) => true
    case _ => false
  }

  /** A process at the moment its local checks are behind it. */
  ghost function TaskOf(f: File, c: Call, io: Io, root: bool): Task
    requires Consistent(f) && CallOk(c)
  {
    var err := LocalCheck(f, c);
    var drv := if err == NC_NOERR then DriverCode(f, c, io) else NC_NOERR;
    var pc := if Unchecked(c) then Done(if err != NC_NOERR then err else drv, err == NC_NOERR)
              else if ReturnsEarly(f, c) then Done(NC_ENOTVAR, false)
              else First;
    Task(ItemsOf(f, c), !c.DefVarFill?, drv, DriverReduces(f, c), root, pc, err, false)
  }

  /** The processes of a communicator about to make the same call on replicas of f. */
  ghost predicate Ready(f: File, cs: seq<Call>, io: Io) {
    && Consistent(f) && f.flags.safe && IoOk(io) && cs != []
    && (forall i :: 0 <= i < |cs| ==> CallOk(cs[i]) && Api(cs[i]) == Api(cs[0]))
  }

  ghost function World(f: File, cs: seq<Call>, io: Io): (w: seq<Task>)
    requires Ready(f, cs, io)
    ensures |w| == |cs| && forall i :: 0 <= i < |w| ==> PcOk(w[i]) && |w[i].items| == |w[0].items|
  {
    assert forall i :: 0 <= i < |cs| ==> |ItemsOf(f, cs[i])| == |ItemsOf(f, cs[0])|;
    seq(|cs|, i requires 0 <= i < |cs| => TaskOf(f, cs[i], io, i == 0))
  }

  /** Some processes leave ncmpi_del_att before the first agreement, and some do not. */
  predicate SplitEarly(f: File, cs: seq<Call>) {
    exists i, j :: 0 <= i < |cs| && 0 <= j < |cs| && ReturnsEarly(f, cs[i]) && !ReturnsEarly(f, cs[j])
  }

  predicate AllPass(f: File, cs: seq<Call>) {
    forall i :: 0 <= i < |cs| ==> LocalCheck(f, cs[i]) == NC_NOERR
  }

  /** The root broadcasts a fill value and somebody names a variable of another element size. */
  predicate SplitSizes(f: File, cs: seq<Call>)
    requires cs != []
  {
    && AllPass(f, cs) && cs[0].DefVarFill? && cs[0].fill.Some?
    && exists i :: 0 <= i < |cs| && cs[i].DefVarFill? && ElementSize(f.driver, cs[i].varid) != ElementSize(f.driver, cs[0].varid)
  }

  /** Process i's new name for an attribute is longer than the buffer that the root's has had
      allocated. */
  predicate Overruns(f: File, cs: seq<Call>, i: nat)
    requires i < |cs|
  {
    AllPass(f, cs) && cs[0].RenameAtt? && cs[i].RenameAtt? && |Chars(cs[i].newname)| > |Chars(cs[0].newname)|
  }

  predicate SomeOverrun(f: File, cs: seq<Call>) {
    exists i :: 0 <= i < |cs| && Overruns(f, cs, i)
  }

  /** Two calls ask for the same thing. Dimension ids beyond the count are not looked at, nor is
      what is behind a fill value. */
  predicate SameArgs(f: File, a: Call, b: Call) {
    a == b ||
    (a.DefVar? && b.DefVar? && a.name == b.name && a.xtype == b.xtype && a.ndims == b.ndims &&
     Used(a.ndims, a.dimids) == Used(b.ndims, b.dimids)) ||
    (a.DefVarFill? && b.DefVarFill? && a.varid == b.varid && a.noFill == b.noFill && a.fill.Some? && b.fill.Some? &&
     Element(f.driver, a.varid, a.fill.value) == Element(f.driver, b.varid, b.fill.value))
  }

  lemma NamesCompared(f: File, c: Call)
    requires Passed(f, c) && !Unchecked(c)
    ensures (c.DefDim? || c.DefVar? || c.CopyAtt? || c.RenameAtt? || c.DelAtt?) ==> NameGiven(c.name)
    ensures (c.RenameDim? || c.RenameVar? || c.RenameAtt?) ==> NameGiven(c.newname)
  {
  }

  lemma {:induction false} FirstErrZero(mine: seq<Item>, root: seq<Item>, k: nat)
    requires |mine| == |root|
    ensures FirstErr(mine, root, k) == 0 <==> forall x :: k <= x < |mine| ==> ItemErr(mine[x], root[x]) == 0
    decreases |mine| - k
  {
    if k < |mine| { FirstErrZero(mine, root, k + 1); }
  }

  lemma PaddedUsed(n: int, dimids: Option<seq<int>>)
    requires n > 0 && dimids.Some? && n <= |dimids.value|
    ensures Padded(Used(n, dimids), n) == Used(n, dimids)
  {
  }

  lemma DefVarComplaint(f: File, c: Call, root: Call)
    requires Passed(f, c) && Passed(f, root) && c.DefVar? && root.DefVar?
    ensures FirstErr(ItemsOf(f, c), ItemsOf(f, root), 0) == 0 <==> SameArgs(f, c, root)
  {
    var a, b := ItemsOf(f, c), ItemsOf(f, root);
    FirstErrZero(a, b, 0);
    CheckedName(c.name);
    CheckedName(root.name);
    if c.ndims > 0 { PaddedUsed(c.ndims, c.dimids); }
    if root.ndims > 0 { PaddedUsed(root.ndims, root.dimids); }
    assert SameArgs(f, c, root) <==> ItemErr(a[0], b[0]) == 0 && ItemErr(a[1], b[1]) == 0 && ItemErr(a[2], b[2]) == 0;
  }

  /** Comparing with the root's arguments complains exactly about those that differ. */
  lemma ComplaintIffDifferent(f: File, c: Call, root: Call)
    requires Passed(f, c) && Passed(f, root) && Api(c) == Api(root) && !Unchecked(c)
    ensures FirstErr(ItemsOf(f, c), ItemsOf(f, root), 0) == 0 <==> SameArgs(f, c, root)
  {
    if c.DefVar? {
      DefVarComplaint(f, c, root);
    } else {
      var a, b := ItemsOf(f, c), ItemsOf(f, root);
      FirstErrZero(a, b, 0);
      NamesCompared(f, c);
      NamesCompared(f, root);
      if |a| == 1 {
        assert SameArgs(f, c, root) <==> ItemErr(a[0], b[0]) == 0;
      } else if |a| == 2 {
        assert SameArgs(f, c, root) <==> ItemErr(a[0], b[0]) == 0 && ItemErr(a[1], b[1]) == 0;
      } else if |a| == 3 {
        assert SameArgs(f, c, root) <==> ItemErr(a[0], b[0]) == 0 && ItemErr(a[1], b[1]) == 0 && ItemErr(a[2], b[2]) == 0;
      }
    }
  }

  lemma SameArgsSameEffect(f: File, c: Call, root: Call, io: Io)
    requires Passed(f, c) && Passed(f, root) && SameArgs(f, c, root)
    ensures DriverCode(f, c, io) == DriverCode(f, root, io) && After(f, c, io) == After(f, root, io)
    ensures DriverReduces(f, c) == DriverReduces(f, root)
  {
  }

  /* ---------------- the protocol is orderly ---------------- */

  lemma SameKinds(f: File, c: Call, root: Call)
    requires Api(c) == Api(root)
    requires c.DefVarFill? && root.fill.Some? ==> ElementSize(f.driver, c.varid) == ElementSize(f.driver, root.varid)
    ensures |ItemsOf(f, c)| == |ItemsOf(f, root)|
    ensures forall k :: 0 <= k < |ItemsOf(f, c)| ==> SameKind(ItemsOf(f, c)[k], ItemsOf(f, root)[k])
  {
  }

  lemma TaskPlaces(f: File, cs: seq<Call>, io: Io, i: nat)
    requires Ready(f, cs, io) && i < |cs| && !SplitEarly(f, cs)
    ensures SamePlace(World(f, cs, io)[i], World(f, cs, io)[0])
  {
  }

  lemma TaskSigns(f: File, c: Call, io: Io)
    requires Consistent(f) && CallOk(c) && IoOk(io)
    ensures forall root :: TaskOf(f, c, io, root).err <= 0 && TaskOf(f, c, io, root).drv <= 0
  {
  }

  /** Somebody fails a local check while everybody goes on to the first agreement. */
  lemma DoomedWorld(f: File, cs: seq<Call>, io: Io)
    requires Ready(f, cs, io) && !AllPass(f, cs) && !SplitEarly(f, cs)
    requires !Unchecked(cs[0]) && !ReturnsEarly(f, cs[0])
    ensures Doomed(World(f, cs, io))
  {
    var w := World(f, cs, io);
    forall i | 0 <= i < |w| ensures w[i].pc.First? && w[i].err <= 0 && |w[i].items| == |w[0].items| {
      TaskSigns(f, cs[i], io);
      assert Api(cs[i]) == Api(cs[0]) && ReturnsEarly(f, cs[i]) == ReturnsEarly(f, cs[0]);
    }
    var x :| 0 <= x < |cs| && LocalCheck(f, cs[x]) != NC_NOERR;
    assert Errs(w)[x] == LocalCheck(f, cs[x]) && Errs(w)[x] in Errs(w);
  }

  lemma AlignedWorld(f: File, cs: seq<Call>, io: Io)
    requires Ready(f, cs, io) && !SplitEarly(f, cs)
    requires cs[0].DefVarFill? && cs[0].fill.Some? ==>
      forall i :: 0 <= i < |cs| && cs[i].DefVarFill? ==> ElementSize(f.driver, cs[i].varid) == ElementSize(f.driver, cs[0].varid)
    ensures Aligned(World(f, cs, io))
  {
    var w := World(f, cs, io);
    forall i | 0 <= i < |w| ensures SameCall(w[i], w[0]) && SamePlace(w[i], w[0]) {
      assert Api(cs[i]) == Api(cs[0]);
      SameKinds(f, cs[i], cs[0]);
      TaskPlaces(f, cs, io, i);
      TaskSigns(f, cs[i], io);
    }
  }

  /** What process i owes at the start: the complaint about its arguments. */
  lemma OwedAtStart(f: File, cs: seq<Call>, io: Io, i: nat)
    requires Ready(f, cs, io) && AllPass(f, cs) && i < |cs| && Aligned(World(f, cs, io))
    requires !Unchecked(cs[0])
    ensures Owing(World(f, cs, io))[i] == FirstErr(ItemsOf(f, cs[i]), ItemsOf(f, cs[0]), 0)
    ensures Owing(World(f, cs, io))[i] == 0 <==> SameArgs(f, cs[i], cs[0])
  {
    assert Api(cs[i]) == Api(cs[0]);
    assert !ReturnsEarly(f, cs[i]);
    ComplaintIffDifferent(f, cs[i], cs[0]);
  }

  lemma PassingWorld(f: File, cs: seq<Call>, io: Io)
    requires Ready(f, cs, io) && AllPass(f, cs) && !SplitSizes(f, cs) && !Unchecked(cs[0])
    ensures Sync(World(f, cs, io))
  {
    var w := World(f, cs, io);
    AlignedWorld(f, cs, io);
    OwingSigns(w);
    MinZero(Owing(w));
    if MinOf(Owing(w)) == 0 {
      forall i | 0 <= i < |w| ensures w[i].drvReduce == w[0].drvReduce {
        OwedAtStart(f, cs, io, i);
        SameArgsSameEffect(f, cs[i], cs[0], io);
      }
    }
  }

  lemma DoneWorld(f: File, cs: seq<Call>, io: Io)
    requires Ready(f, cs, io) && !SplitEarly(f, cs) && (Unchecked(cs[0]) || ReturnsEarly(f, cs[0]))
    ensures Sync(World(f, cs, io)) && AllDone(World(f, cs, io))
  {
    var w := World(f, cs, io);
    AlignedWorld(f, cs, io);
    forall i | 0 <= i < |w| ensures w[i].pc.Done? && w[i].drvReduce == w[0].drvReduce {
      assert Api(cs[i]) == Api(cs[0]);
      assert ReturnsEarly(f, cs[i]) == ReturnsEarly(f, cs[0]);
    }
  }

  /** Unless the processes part at ncmpi_del_att's early return or at a fill value's size, the
      call is orderly, whatever the arguments. */
  lemma WorldOrderly(f: File, cs: seq<Call>, io: Io)
    requires Ready(f, cs, io) && !SplitEarly(f, cs) && !SplitSizes(f, cs)
    ensures Orderly(World(f, cs, io))
  {
    if Unchecked(cs[0]) || ReturnsEarly(f, cs[0]) {
      DoneWorld(f, cs, io);
    } else if AllPass(f, cs) {
      PassingWorld(f, cs, io);
    } else {
      DoomedWorld(f, cs, io);
    }
  }

  /* ---------------- what is decided ---------------- */

  function Checks(f: File, cs: seq<Call>): seq<int> {
    seq(|cs|, i requires 0 <= i < |cs| => LocalCheck(f, cs[i]))
  }

  /** What each process complains of when it compares its arguments with the root's. */
  function Complaints(f: File, cs: seq<Call>): seq<int>
    requires cs != [] && forall i :: 0 <= i < |cs| ==> Api(cs[i]) == Api(cs[0])
  {
    seq(|cs|, i requires 0 <= i < |cs| =>
      if |ItemsOf(f, cs[i])| == |ItemsOf(f, cs[0])| then FirstErr(ItemsOf(f, cs[i]), ItemsOf(f, cs[0]), 0) else 0)
  }

  predicate Unanimous(f: File, cs: seq<Call>) {
    forall i :: 0 <= i < |cs| ==> SameArgs(f, cs[i], cs[0])
  }

  /** The decision for process i, in terms of the arguments alone. */
  ghost predicate Decided(f: File, cs: seq<Call>, io: Io, i: nat, pc: Pc)
    requires Ready(f, cs, io) && i < |cs|
  {
    && pc.Done?
    && (pc.reached <==> AllPass(f, cs) && Unanimous(f, cs))
    && (pc.reached ==> pc.code == DriverCode(f, cs[0], io))
    && (!AllPass(f, cs) ==> pc.code == MinOf(Checks(f, cs)) < 0)
    && (AllPass(f, cs) && !Unanimous(f, cs) ==>
          pc.code == (if cs[0].DefVarFill? && Complaints(f, cs)[i] != 0 then Complaints(f, cs)[i]
                      else MinOf(Complaints(f, cs))) < 0)
  }

  lemma SameDriver(f: File, cs: seq<Call>, io: Io)
    requires Ready(f, cs, io) && AllPass(f, cs) && Unanimous(f, cs)
    ensures forall i :: 0 <= i < |cs| ==>
      DriverCode(f, cs[i], io) == DriverCode(f, cs[0], io) && After(f, cs[i], io) == After(f, cs[0], io)
    ensures Drvs(World(f, cs, io)) != []
    ensures MinOf(Drvs(World(f, cs, io))) == DriverCode(f, cs[0], io)
  {
  }

  lemma StartComplaints(f: File, cs: seq<Call>, io: Io)
    requires Ready(f, cs, io) && AllPass(f, cs) && !Unchecked(cs[0]) && Sync(World(f, cs, io))
    ensures Owing(World(f, cs, io)) == Complaints(f, cs)
    ensures forall i :: 0 <= i < |cs| ==> Complaints(f, cs)[i] <= 0 && (Complaints(f, cs)[i] == 0 <==> SameArgs(f, cs[i], cs[0]))
  {
    var w := World(f, cs, io);
    OwingSigns(w);
    forall j | 0 <= j < |cs|
      ensures Owing(w)[j] == Complaints(f, cs)[j] && Complaints(f, cs)[j] <= 0
      ensures Complaints(f, cs)[j] == 0 <==> SameArgs(f, cs[j], cs[0])
    {
      OwedAtStart(f, cs, io, j);
    }
  }

  lemma NoErrorsAtStart(f: File, cs: seq<Call>, io: Io)
    requires Ready(f, cs, io) && AllPass(f, cs)
    ensures MinOf(Errs(World(f, cs, io))) == 0
  {
  }

  lemma StartFacts(f: File, cs: seq<Call>, io: Io)
    requires Ready(f, cs, io) && AllPass(f, cs) && !Unchecked(cs[0]) && Sync(World(f, cs, io))
    ensures Owing(World(f, cs, io)) == Complaints(f, cs)
    ensures forall i :: 0 <= i < |cs| ==> Complaints(f, cs)[i] <= 0 && (Complaints(f, cs)[i] == 0 <==> SameArgs(f, cs[i], cs[0]))
    ensures MinOf(Complaints(f, cs)) <= 0 && (MinOf(Complaints(f, cs)) == 0 <==> Unanimous(f, cs))
    ensures MinOf(Errs(World(f, cs, io))) == 0
  {
    StartComplaints(f, cs, io);
    NoErrorsAtStart(f, cs, io);
    MinZero(Complaints(f, cs));
  }

  lemma AtFirst(f: File, cs: seq<Call>, io: Io, i: nat)
    requires Ready(f, cs, io) && AllPass(f, cs) && !Unchecked(cs[0]) && i < |cs|
    ensures World(f, cs, io)[i].pc == First && World(f, cs, io)[i].strict == !cs[0].DefVarFill?
  {
    assert Api(cs[i]) == Api(cs[0]) && !ReturnsEarly(f, cs[i]);
  }

  lemma VerdictAtFirst(f: File, cs: seq<Call>, io: Io, i: nat)
    requires Ready(f, cs, io) && AllPass(f, cs) && !Unchecked(cs[0]) && i < |cs|
    requires Sync(World(f, cs, io))
    ensures Owing(World(f, cs, io)) == Complaints(f, cs)
    ensures Verdict(World(f, cs, io), i) ==
      if !cs[0].DefVarFill? || Complaints(f, cs)[i] == 0 then
        if MinOf(Complaints(f, cs)) != 0 then Done(MinOf(Complaints(f, cs)), false) else DriverVerdict(World(f, cs, io), i)
      else Done(Complaints(f, cs)[i], false)
  {
    StartFacts(f, cs, io);
    AtFirst(f, cs, io, i);
  }

  lemma PassingVerdict(f: File, cs: seq<Call>, io: Io, i: nat)
    requires Ready(f, cs, io) && AllPass(f, cs) && !Unchecked(cs[0]) && i < |cs|
    requires Sync(World(f, cs, io))
    ensures Decided(f, cs, io, i, Verdict(World(f, cs, io), i))
  {
    VerdictAtFirst(f, cs, io, i);
    StartFacts(f, cs, io);
    if Unanimous(f, cs) {
      SameDriver(f, cs, io);
    } else {
      assert MinOf(Complaints(f, cs)) < 0;
    }
  }

  /** All return at once: the functions without a comparison, and ncmpi_del_att's early return. */
  lemma ImmediateVerdict(f: File, cs: seq<Call>, io: Io, i: nat)
    requires Ready(f, cs, io) && !SplitEarly(f, cs) && i < |cs|
    requires Unchecked(cs[0]) || ReturnsEarly(f, cs[0])
    ensures Decided(f, cs, io, i, Verdict(World(f, cs, io), i))
  {
  }

  lemma DoomedVerdict(f: File, cs: seq<Call>, io: Io, i: nat)
    requires Ready(f, cs, io) && !AllPass(f, cs) && Doomed(World(f, cs, io)) && i < |cs|
    ensures Decided(f, cs, io, i, Verdict(World(f, cs, io), i))
  {
    var w := World(f, cs, io);
    assert Errs(w) == Checks(f, cs);
    MinZero(Errs(w));
  }

  lemma Verdicts(f: File, cs: seq<Call>, io: Io, i: nat)
    requires Ready(f, cs, io) && !SplitEarly(f, cs) && !SplitSizes(f, cs) && i < |cs|
    ensures Decided(f, cs, io, i, Verdict(World(f, cs, io), i))
  {
    if Unchecked(cs[0]) || ReturnsEarly(f, cs[0]) {
      ImmediateVerdict(f, cs, io, i);
    } else if AllPass(f, cs) {
      PassingWorld(f, cs, io);
      PassingVerdict(f, cs, io, i);
    } else {
      DoomedWorld(f, cs, io);
      DoomedVerdict(f, cs, io, i);
    }
  }

  /* ---------------- writing past the buffer for a name ---------------- */

  lemma SpillsIff(f: File, c: Call, root: Call, isRoot: bool)
    requires Api(c) == Api(root) && (isRoot ==> c == root)
    ensures |ItemsOf(f, c)| == |ItemsOf(f, root)|
    ensures SpillsFrom(ItemsOf(f, c), ItemsOf(f, root), 0, isRoot) <==>
      c.RenameAtt? && |Chars(c.newname)| > |Chars(root.newname)|
  {
    var a, b := ItemsOf(f, c), ItemsOf(f, root);
    if c.RenameAtt? {
      assert Fit(a[1], isRoot, HeadColl(b[1]).data) <==> |Chars(c.newname)| <= |Chars(root.newname)|;
    }
  }

  /** Everybody's writes stay within the buffers if and only if nobody's new name for an attribute
      is longer than the root's. */
  lemma WillSpillIff(f: File, cs: seq<Call>, io: Io, i: nat)
    requires Ready(f, cs, io) && !SplitEarly(f, cs) && i < |cs|
    ensures WillSpill(World(f, cs, io), i) <==> Overruns(f, cs, i)
  {
    var w := World(f, cs, io);
    assert Api(cs[i]) == Api(cs[0]) && ReturnsEarly(f, cs[i]) == ReturnsEarly(f, cs[0]);
    SpillsIff(f, cs[i], cs[0], i == 0);
    if AllPass(f, cs) {
      NoErrorsAtStart(f, cs, io);
    } else if w[0].pc.First? {
      DoomedWorld(f, cs, io);
    }
  }

  ghost predicate AllDecided(f: File, cs: seq<Call>, io: Io, tasks: seq<Task>)
    requires Ready(f, cs, io)
  {
    && |tasks| == |cs|
    && (forall i :: 0 <= i < |cs| ==> Decided(f, cs, io, i, tasks[i].pc))
  }

  predicate SpiltExactly(f: File, cs: seq<Call>, tasks: seq<Task>) {
    |tasks| == |cs| && forall i :: 0 <= i < |cs| ==> (tasks[i].spilt <==> Overruns(f, cs, i))
  }

  /** A call goes well if the processes part neither at the early return of ncmpi_del_att nor at
      the size of a fill value, and nobody writes past a buffer. */
  predicate Smooth(f: File, cs: seq<Call>)
    requires cs != []
  {
    !SplitEarly(f, cs) && !SplitSizes(f, cs) && !SomeOverrun(f, cs)
  }

  lemma DeliveredDecides(f: File, cs: seq<Call>, io: Io, tasks: seq<Task>)
    requires Ready(f, cs, io) && !SplitEarly(f, cs) && !SplitSizes(f, cs)
    requires Orderly(World(f, cs, io)) && Delivered(World(f, cs, io), tasks)
    ensures AllDecided(f, cs, io, tasks) && SpiltExactly(f, cs, tasks)
  {
    forall i | 0 <= i < |cs|
      ensures Decided(f, cs, io, i, tasks[i].pc) && (tasks[i].spilt <==> Overruns(f, cs, i))
    {
      Verdicts(f, cs, io, i);
      WillSpillIff(f, cs, io, i);
    }
  }

  /** The lockstep execution of a call. */
  lemma CallCompletes(f: File, cs: seq<Call>, io: Io) returns (tr: seq<seq<Task>>)
    requires Ready(f, cs, io) && Smooth(f, cs)
    ensures IsComplete(Tasks(), tr, World(f, cs, io)) && AllDecided(f, cs, io, tr[|tr| - 1])
    ensures AllDone(tr[|tr| - 1]) && forall t :: t in tr[|tr| - 1] ==> !t.spilt
  {
    WorldOrderly(f, cs, io);
    tr := Completes(World(f, cs, io));
    DeliveredDecides(f, cs, io, tr[|tr| - 1]);
  }

  /** The exact decision of a safe-mode call, under every interleaving. Which processes have written
      past a buffer is exact too; what the others decide then is what they decide if the write has
      hit nothing else. */
  lemma SafeCallDecides(f: File, cs: seq<Call>, io: Io, run: seq<Net<Task>>)
    requires Ready(f, cs, io) && !SplitEarly(f, cs) && !SplitSizes(f, cs) && IsRun(Tasks(), run, World(f, cs, io))
    ensures !Mismatch(Last(run))
    ensures AllHome(Tasks(), Last(run).procs) || CanMove(Tasks(), Last(run))
    ensures |run| - 1 <= |cs| * 20
    ensures AllHome(Tasks(), Last(run).procs) ==> AllDecided(f, cs, io, Last(run).procs)
    ensures AllHome(Tasks(), Last(run).procs) ==> SpiltExactly(f, cs, Last(run).procs)
  {
    var w := World(f, cs, io);
    WorldOrderly(f, cs, io);
    EveryRunDecides(w, run);
    TasksDwindle();
    WorldWeights(f, cs, io);
    RunsEnd(Tasks(), run, w, 10);
    if AllHome(Tasks(), Last(run).procs) { DeliveredDecides(f, cs, io, Last(run).procs); }
  }

  lemma WorldWeights(f: File, cs: seq<Call>, io: Io)
    requires Ready(f, cs, io)
    ensures forall i :: 0 <= i < |cs| ==> Tasks().weight(World(f, cs, io)[i]) <= 10
  {
  }
}
