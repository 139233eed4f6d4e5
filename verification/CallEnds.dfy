/** Exactly when one call on equal records ends well under every interleaving, and what goes wrong
    otherwise. */
module CallEnds {
  import opened NetCDF
  import opened NcmpioDriver
  import opened Dispatch
  import opened Network
  import opened Collective
  import opened Agreement
  import opened SafeMode
  import opened Session

  /** Everybody has returned, no two processes have met in different collectives, and nobody has
      written past a buffer. */
  ghost predicate WentWell(m: Net<Task>) {
    && AllHome(Tasks(), m.procs) && !Mismatch(m)
    && forall i :: 0 <= i < |m.procs| ==> !m.procs[i].spilt
  }

  /* ---------------- the early return of ncmpi_del_att ---------------- */

  /** When some processes leave ncmpi_del_att early and some do not, those that do not wait in the
      first agreement for as long as the others make no other collective call. */
  lemma DelAttWaits(f: File, cs: seq<Call>, io: Io, run: seq<Net<Task>>, i: nat)
    requires Ready(f, cs, io) && SplitEarly(f, cs) && IsRun(Tasks(), run, World(f, cs, io))
    requires i < |cs| && !ReturnsEarly(f, cs[i])
    ensures |Last(run).procs| == |cs| && !AllHome(Tasks(), Last(run).procs)
  {
    var x :| 0 <= x < |cs| && ReturnsEarly(f, cs[x]);
    var w := World(f, cs, io);
    assert Api(cs[i]) == Api(cs[0]) && Api(cs[x]) == Api(cs[0]);
    DoneStrands(Tasks(), [w], w, run, i, x);
  }

  /* ---------------- the size of a fill value ---------------- */

  /** A process whose next two answers are a clear agreement and `head`. */
  predicate ThenBody(t: Task, head: Data) {
    && PcOk(t) && t.pc == First && t.items != [] && Contribution(t) == 0
    && Advance(t, MinE(0)) == t.(pc := Head(0))
    && Act(t.(pc := Head(0))) == HeadColl(t.items[0])
    && Advance(t.(pc := Head(0)), Got(head)).pc == Body(0, head)
  }

  /** A process in ncmpi_def_var_fill, up to the broadcast of the fill value. */
  lemma FillTask(f: File, c: Call, root: Call, io: Io, isRoot: bool)
    requires Passed(f, c) && c.DefVarFill? && root.DefVarFill? && root.fill.Some?
    ensures ThenBody(TaskOf(f, c, io, isRoot), Ints([root.varid, root.noFill, 0]))
    ensures TaskOf(f, c, io, isRoot).items == ItemsOf(f, c)
    ensures Match(HeadColl(ItemsOf(f, root)[0]), HeadColl(ItemsOf(f, c)[0]))
    ensures HeadColl(ItemsOf(f, root)[0]).data == Ints([root.varid, root.noFill, 0])
  {
  }

  /** An agreement that nobody objects to. */
  lemma CalmRound(w: seq<Task>)
    requires w != [] && forall i :: 0 <= i < |w| ==> PcOk(w[i])
    requires forall i :: 0 <= i < |w| ==> w[i].pc.First? && Contribution(w[i]) == 0
    ensures Matched(Tasks(), w) && Round(Tasks(), w) == Lockstep(w)
    ensures forall i :: 0 <= i < |w| ==> Lockstep(w)[i] == Advance(w[i], MinE(0))
  {
    assert seq(|w|, i requires 0 <= i < |w| => Contribution(w[i])) == seq(|w|, _ => 0);
    LockstepIsRound(w);
  }

  /** A broadcast from the root. */
  lemma HeadRound(w: seq<Task>, head: Data)
    requires w != [] && forall i :: 0 <= i < |w| ==> PcOk(w[i]) && w[i].pc == Head(0)
    requires forall i :: 0 <= i < |w| ==> Act(w[i]).Bcast? && Match(Act(w[0]), Act(w[i]))
    requires Act(w[0]).data == head
    ensures Matched(Tasks(), w) && Round(Tasks(), w) == Lockstep(w)
    ensures forall i :: 0 <= i < |w| ==> Lockstep(w)[i] == Advance(w[i], Got(head))
  {
    LockstepIsRound(w);
  }

  lemma TwoRounds(w: seq<Task>, head: Data) returns (tr: seq<seq<Task>>)
    requires w != [] && forall i :: 0 <= i < |w| ==> ThenBody(w[i], head) && |w[i].items| > 0
    requires HeadColl(w[0].items[0]).data == head
    requires forall i :: 0 <= i < |w| ==> Match(HeadColl(w[0].items[0]), HeadColl(w[i].items[0]))
    ensures IsTrace(Tasks(), tr, w) && |tr| == 3
    ensures forall i :: 0 <= i < |w| ==> tr[2][i].items == w[i].items && tr[2][i].pc == Body(0, head)
  {
    CalmRound(w);
    var w1 := Lockstep(w);
    assert forall i :: 0 <= i < |w| ==> w1[i] == w[i].(pc := Head(0)) && Act(w1[i]) == HeadColl(w[i].items[0]);
    HeadRound(w1, head);
    var w2 := Lockstep(w1);
    assert forall i :: 0 <= i < |w| ==> w2[i] == Advance(w1[i], Got(head));
    tr := [w, w1, w2];
  }

  lemma FillTrace(f: File, cs: seq<Call>, io: Io) returns (tr: seq<seq<Task>>)
    requires Ready(f, cs, io) && SplitSizes(f, cs)
    ensures IsTrace(Tasks(), tr, World(f, cs, io)) && |tr| == 3
    ensures forall i :: 0 <= i < |cs| ==> cs[i].DefVarFill? && tr[2][i].items == ItemsOf(f, cs[i])
    ensures forall i :: 0 <= i < |cs| ==> tr[2][i].pc == Body(0, Ints([cs[0].varid, cs[0].noFill, 0]))
  {
    var w := World(f, cs, io);
    var head := Ints([cs[0].varid, cs[0].noFill, 0]);
    forall i | 0 <= i < |cs|
      ensures cs[i].DefVarFill? && w[i].items == ItemsOf(f, cs[i]) && ThenBody(w[i], head)
      ensures Match(HeadColl(ItemsOf(f, cs[0])[0]), HeadColl(ItemsOf(f, cs[i])[0]))
    {
      assert Api(cs[i]) == Api(cs[0]);
      FillTask(f, cs[i], cs[0], io, i == 0);
    }
    FillTask(f, cs[0], cs[0], io, true);
    tr := TwoRounds(w, head);
  }

  /** The check that is to catch differing variable ids broadcasts with differing counts: no run
      of ncmpi_def_var_fill with such arguments ends without a mismatch. */
  lemma DefVarFillMismatches(f: File, cs: seq<Call>, io: Io, run: seq<Net<Task>>)
    requires Ready(f, cs, io) && SplitSizes(f, cs) && IsRun(Tasks(), run, World(f, cs, io))
    requires AllHome(Tasks(), Last(run).procs)
    ensures Mismatch(Last(run))
  {
    var tr, i := SizesDiffer(f, cs, io);
    PairedOrStuck(tr, World(f, cs, io), run, i, 0);
  }

  /** After two rounds there are broadcasts of different counts. */
  lemma SizesDiffer(f: File, cs: seq<Call>, io: Io) returns (tr: seq<seq<Task>>, i: nat)
    requires Ready(f, cs, io) && SplitSizes(f, cs)
    ensures IsTrace(Tasks(), tr, World(f, cs, io)) && i < |cs|
    ensures !Tasks().done(tr[|tr| - 1][i]) && !Tasks().done(tr[|tr| - 1][0])
    ensures !Match(Tasks().act(tr[|tr| - 1][i]), Tasks().act(tr[|tr| - 1][0]))
  {
    tr := FillTrace(f, cs, io);
    i :| 0 <= i < |cs| && cs[i].DefVarFill? && ElementSize(f.driver, cs[i].varid) != ElementSize(f.driver, cs[0].varid);
  }

  lemma PairedOrStuck(tr: seq<seq<Task>>, w: seq<Task>, run: seq<Net<Task>>, i: nat, j: nat)
    requires IsTrace(Tasks(), tr, w) && IsRun(Tasks(), run, w) && i < |w| && j < |w| && AllHome(Tasks(), Last(run).procs)
    requires !Tasks().done(tr[|tr| - 1][i]) && !Tasks().done(tr[|tr| - 1][j])
    requires !Match(Tasks().act(tr[|tr| - 1][i]), Tasks().act(tr[|tr| - 1][j]))
    ensures Mismatch(Last(run))
  {
    UnequalRoundMismatches(Tasks(), tr, w, run, i, j);
    FinishedIsPast(Tasks(), tr, w, run, i);
    FinishedIsPast(Tasks(), tr, w, run, j);
  }

  /* ---------------- the exact condition ---------------- */

  lemma MaximalWentWell(f: File, cs: seq<Call>, io: Io, run: seq<Net<Task>>)
    requires Ready(f, cs, io) && IsMaximal(Tasks(), run, World(f, cs, io))
    ensures WentWell(Last(run)) <==> Smooth(f, cs)
  {
    if SplitEarly(f, cs) {
      var x, y :| 0 <= x < |cs| && 0 <= y < |cs| && ReturnsEarly(f, cs[x]) && !ReturnsEarly(f, cs[y]);
      DelAttWaits(f, cs, io, run, y);
    } else if SplitSizes(f, cs) {
      if AllHome(Tasks(), Last(run).procs) { DefVarFillMismatches(f, cs, io, run); }
    } else {
      SafeCallDecides(f, cs, io, run);
      RunWaited(Tasks(), run, World(f, cs, io));
    }
  }

  /** All maximal runs of a call, in whatever interleaving, go well if and only if the processes
      part neither at the early return of ncmpi_del_att nor at the size of a fill value, and nobody's
      new name for an attribute is longer than the root's. If not, none of them goes well. */
  lemma CallEndsIff(f: File, cs: seq<Call>, io: Io)
    requires Ready(f, cs, io)
    ensures (forall run :: IsMaximal(Tasks(), run, World(f, cs, io)) ==> WentWell(Last(run))) <==> Smooth(f, cs)
    ensures (exists run :: IsMaximal(Tasks(), run, World(f, cs, io)) && WentWell(Last(run))) <==> Smooth(f, cs)
  {
    var w := World(f, cs, io);
    forall run | IsMaximal(Tasks(), run, w) ensures WentWell(Last(run)) <==> Smooth(f, cs) {
      MaximalWentWell(f, cs, io, run);
    }
    TasksDwindle();
    WorldWeights(f, cs, io);
    StartIsRun(Tasks(), w);
    var run := Exhaust(Tasks(), [Start(w)], w, 10);
    assert IsMaximal(Tasks(), run, w);
  }

  /* ---------------- inputs for which it does not ---------------- */

  /** Two processes delete an attribute, one of them of a variable that does not exist. */
  function SomeDelAtt(): seq<Call> {
    [DelAtt(7, Some("a")), DelAtt(NC_GLOBAL, Some("a"))]
  }

  lemma SplitEarlyExample()
    ensures Ready(TwoVariables(), SomeDelAtt(), Good) && SplitEarly(TwoVariables(), SomeDelAtt())
  {
    TwoVariablesOk();
    assert ReturnsEarly(TwoVariables(), SomeDelAtt()[0]) && !ReturnsEarly(TwoVariables(), SomeDelAtt()[1]);
  }

  /** Two processes give a fill value, one of them to a variable of eight bytes. */
  function SomeFills(): seq<Call> {
    [DefVarFill(0, 0, Some([1, 0, 0, 0])), DefVarFill(2, 0, Some([1, 0, 0, 0, 0, 0, 0, 0]))]
  }

  lemma SplitSizesExample()
    ensures Ready(TwoVariables(), SomeFills(), Good) && SplitSizes(TwoVariables(), SomeFills())
  {
    TwoVariablesOk();
    assert ElementSize(TwoVariables().driver, SomeFills()[1].varid) == 8 && ElementSize(TwoVariables().driver, SomeFills()[0].varid) == 4;
  }

  /** Two processes rename an attribute, one of them to a longer name than the root's. */
  function SomeRenames(): seq<Call> {
    [RenameAtt(NC_GLOBAL, Some("a"), Some("b")), RenameAtt(NC_GLOBAL, Some("a"), Some("bcd"))]
  }

  lemma OverrunExample()
    ensures Ready(TwoVariables(), SomeRenames(), Good) && !SplitEarly(TwoVariables(), SomeRenames())
    ensures Overruns(TwoVariables(), SomeRenames(), 1) && !Overruns(TwoVariables(), SomeRenames(), 0)
    ensures Copied(ItemsOf(TwoVariables(), SomeRenames()[1])[1], false) == 4
    ensures HeadColl(ItemsOf(TwoVariables(), SomeRenames()[0])[1]).data == Ints([2])
  {
    TwoVariablesOk();
    assert LegalName("b") && LegalName("bcd");
  }

  /** On each of the three, no run of the call goes well. */
  lemma ExamplesFail()
    ensures Ready(TwoVariables(), SomeDelAtt(), Good) && Ready(TwoVariables(), SomeFills(), Good)
    ensures Ready(TwoVariables(), SomeRenames(), Good)
    ensures forall cs, run :: cs == SomeDelAtt() || cs == SomeFills() || cs == SomeRenames() ==>
      IsMaximal(Tasks(), run, World(TwoVariables(), cs, Good)) ==> !WentWell(Last(run))
  {
    SplitEarlyExample();
    SplitSizesExample();
    OverrunExample();
    CallEndsIff(TwoVariables(), SomeDelAtt(), Good);
    CallEndsIff(TwoVariables(), SomeFills(), Good);
    CallEndsIff(TwoVariables(), SomeRenames(), Good);
  }
}
