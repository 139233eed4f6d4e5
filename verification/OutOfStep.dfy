/** What becomes of a program in which some processes leave ncmpi_del_att before its first agreement
    and others do not. */
module OutOfStep {
  import opened NetCDF
  import opened NcmpioDriver
  import opened Dispatch
  import opened Network
  import opened Collective
  import opened Agreement
  import opened SafeMode
  import opened Session
  import opened Program
  import opened TwoCalls

  /* ---------------- when the others are released ---------------- */

  /** A process is back from such a call at once. */
  predicate LeftAtOnce(f: File, c: Call) {
    Unchecked(c) || ReturnsEarly(f, c)
  }

  /** With this record. */
  ghost function LeftWith(f: File, c: Call, io: Io): File
    requires Consistent(f) && CallOk(c)
  {
    if Unchecked(c) && LocalCheck(f, c) == NC_NOERR then After(f, c, io) else f
  }

  /** None of these calls makes the process enter a collective. */
  ghost predicate NoCollective(f: File, steps: seq<Step>)
    decreases |steps|
  {
    steps == [] || !StepOk(f, steps[0]) ||
    (LeftAtOnce(f, steps[0].call) && NoCollective(LeftWith(f, steps[0].call, steps[0].io), steps[1..]))
  }

  /** The first call that does, the record that it finds, and the calls behind it. */
  datatype Stop = Stop(meet: Meet, rest: seq<Step>)

  ghost function StopOf(f: File, steps: seq<Step>): Stop
    requires !NoCollective(f, steps)
    decreases |steps|
  {
    if LeftAtOnce(f, steps[0].call) then StopOf(LeftWith(f, steps[0].call, steps[0].io), steps[1..])
    else Stop(Meet(f, steps[0].call, steps[0].io), steps[1..])
  }

  /** A process that has just begun the call of a stop. */
  ghost predicate StandsAt(q: Proc, s: Stop, root: bool) {
    && q.cur.Some? && q.cur.value.step == Step(s.meet.c, s.meet.io) && q.rec == s.meet.f && q.todo == s.rest && q.root == root
    && StepOk(q.rec, q.cur.value.step) && !LeftAtOnce(q.rec, s.meet.c)
    && q.cur.value.task == TaskOf(s.meet.f, s.meet.c, s.meet.io, root) && q.cur.value.task.pc.First?
  }

  lemma LeavesWith(f: File, c: Call, io: Io, root: bool)
    requires Consistent(f) && CallOk(c)
    ensures var pc := TaskOf(f, c, io, root).pc;
      && (pc.Done? <==> LeftAtOnce(f, c)) && (!pc.Done? ==> pc.First?)
      && (pc.Done? ==> RecordAfter(f, c, io, pc) == LeftWith(f, c, io))
  {
  }

  /** A process that is between calls comes to the first agreement of its next call that has one,
      or to the end of its program. */
  lemma {:induction false} SettleStops(p: Proc)
    requires p.cur.None?
    ensures Settle(p).cur.None? <==> NoCollective(p.rec, p.todo)
    ensures Settle(p).cur.Some? ==> StandsAt(Settle(p), StopOf(p.rec, p.todo), p.root)
    decreases |p.todo|
  {
    if p.todo != [] && StepOk(p.rec, p.todo[0]) {
      var q := Begin(p);
      LeavesWith(p.rec, p.todo[0].call, p.todo[0].io, p.root);
      if q.cur.value.task.pc.Done? { SettleStops(Close(q)); }
    }
  }

  /** Process i has no collective left before the end of its program. */
  ghost predicate AtEnd(g: File, turns: seq<Turn>, n: nat, i: nat)
    requires TurnsOk(turns, n) && i < n
  {
    NoCollective(g, Part(turns, i))
  }

  lemma GateStops(g: File, codes: seq<seq<int>>, turns: seq<Turn>)
    requires TurnsOk(turns, |codes|)
    ensures var ps := Settled(Gate(g, codes, turns));
      forall i :: 0 <= i < |ps| ==>
        && (Procs().done(ps[i]) <==> AtEnd(g, turns, |codes|, i))
        && (!AtEnd(g, turns, |codes|, i) ==> Procs().act(ps[i]).Allreduce?)
  {
    forall i | 0 <= i < |codes|
      ensures var p := Settle(Waiting(g, codes, turns, i));
        (Procs().done(p) <==> AtEnd(g, turns, |codes|, i)) && (!AtEnd(g, turns, |codes|, i) ==> Procs().act(p).Allreduce?)
    {
      SettleStops(Waiting(g, codes, turns, i));
    }
  }

  /** A process that is about to make call k and does not leave it at once. */
  lemma NotAtEnd(g: File, turns: seq<Turn>, n: nat, i: nat)
    requires TurnsOk(turns, n) && turns != [] && i < n && Consistent(g)
    requires turns[0].cs[0].DelAtt? && !ReturnsEarly(g, turns[0].cs[i])
    ensures !AtEnd(g, turns, n, i)
  {
    assert Api(turns[0].cs[i]) == Api(turns[0].cs[0]);
  }

  /** The lockstep execution up to call number k. */
  ghost predicate IsGate(f: File, turns: seq<Turn>, n: nat, k: nat, tr: seq<seq<Proc>>, later: seq<seq<int>>)
    requires Consistent(f) && f.flags.safe && TurnsOk(turns, n) && k <= |turns|
  {
    && |later| == n && TurnsOk(turns[k..], n)
    && IsTrace(Procs(), tr, Launch(f, turns, n))
    && tr[|tr| - 1] == Settled(Gate(RecordAt(f, turns, n, k), later, turns[k..]))
  }

  /** A run in which process i has got past the end of a trace. */
  ghost predicate GetsPast(run: seq<Net<Proc>>, tr: seq<seq<Proc>>, w: seq<Proc>, i: nat) {
    IsRun(Procs(), run, w) && |Last(run).round| == |w| && i < |w| && Last(run).round[i] >= |tr|
  }

  /** Process j has entered its collective at the end of a trace. */
  ghost predicate HasCome(run: seq<Net<Proc>>, tr: seq<seq<Proc>>, j: nat)
    requires run != [] && tr != []
  {
    (|tr| - 1, j) in Last(run).log
  }

  /** Everybody who is not done is in an agreement. */
  ghost predicate Agreeing(ps: seq<Proc>) {
    forall x :: 0 <= x < |ps| && !Procs().done(ps[x]) ==> Procs().act(ps[x]).Allreduce?
  }

  lemma AgreementReleasesIff(tr: seq<seq<Proc>>, w: seq<Proc>, i: nat)
    requires IsTrace(Procs(), tr, w) && i < |w|
    requires Agreeing(tr[|tr| - 1]) && !Procs().done(tr[|tr| - 1][i])
    ensures forall run, j: nat :: GetsPast(run, tr, w, i) && j < |w| ==> HasCome(run, tr, j)
    ensures (exists run :: GetsPast(run, tr, w, i)) <==> !SomebodyDone(tr[|tr| - 1])
    ensures !SomebodyDone(tr[|tr| - 1]) ==> forall run :: IsMaximal(Procs(), run, w) ==> GetsPast(run, tr, w, i)
  {
    forall run, j: nat | GetsPast(run, tr, w, i) && j < |w| ensures HasCome(run, tr, j) {
      ComesFirst(tr, w, run, i, j);
    }
    var last := tr[|tr| - 1];
    if run :| GetsPast(run, tr, w, i) {
      forall j: nat | j < |last| ensures !Procs().done(last[j]) { ComesFirst(tr, w, run, i, j); }
    }
    if !SomebodyDone(tr[|tr| - 1]) {
      var longer, run := OneMoreRound(tr, w);
      assert GetsPast(run, tr, w, i);
      forall run | IsMaximal(Procs(), run, w) ensures GetsPast(run, tr, w, i) { BehindCanMove(Procs(), longer, w, run, i); }
    }
  }

  lemma ComesFirst(tr: seq<seq<Proc>>, w: seq<Proc>, run: seq<Net<Proc>>, i: nat, j: nat)
    requires IsTrace(Procs(), tr, w) && GetsPast(run, tr, w, i) && j < |w|
    requires Procs().act(tr[|tr| - 1][i]).Allreduce?
    ensures HasCome(run, tr, j) && !Procs().done(tr[|tr| - 1][j])
  {
    NobodyLeavesAlone(Procs(), tr, w, run, i, j);
    RunFollows(Procs(), tr, w, run);
  }

  ghost predicate SomebodyDone(ps: seq<Proc>) {
    exists x :: 0 <= x < |ps| && Procs().done(ps[x])
  }

  /** If everybody is at an agreement at the end of a trace, some run takes them all past it. */
  lemma OneMoreRound(tr: seq<seq<Proc>>, w: seq<Proc>) returns (longer: seq<seq<Proc>>, run: seq<Net<Proc>>)
    requires IsTrace(Procs(), tr, w) && Agreeing(tr[|tr| - 1]) && !SomebodyDone(tr[|tr| - 1])
    ensures IsTrace(Procs(), longer, w) && |longer| == |tr| + 1
    ensures longer[|tr| - 1] == tr[|tr| - 1] && longer[|tr|] == Round(Procs(), tr[|tr| - 1])
    ensures IsRun(Procs(), run, w) && !Mismatch(Last(run)) && Last(run).procs == longer[|tr|]
    ensures |Last(run).round| == |w| && forall i :: 0 <= i < |w| ==> Last(run).round[i] == |tr|
  {
    var last := tr[|tr| - 1];
    longer := Longer(Procs(), tr, [last, Round(Procs(), last)], w);
    StartIsRun(Procs(), w);
    run := RunAlong(Procs(), longer, w, [Start(w)]);
  }

  /** Call number k is an ncmpi_del_att that some processes leave early and some do not, and the
      calls before go well. None of those that do not leaves the first agreement before every
      process has entered it or the first agreement of a later call. They get out of it in some run
      if and only if every process that has left early comes to another collective before its
      program ends; and then they get out of it in every run that goes on for as long as it can. */
  lemma DelAttReleasedIff(f: File, turns: seq<Turn>, n: nat, k: nat, i: nat) returns (tr: seq<seq<Proc>>, later: seq<seq<int>>)
    requires Consistent(f) && f.flags.safe && TurnsOk(turns, n) && k < |turns| && SmoothProgram(f, turns[..k], n)
    requires SplitEarly(RecordAt(f, turns, n, k), turns[k].cs) && i < n
    requires !ReturnsEarly(RecordAt(f, turns, n, k), turns[k].cs[i])
    ensures IsGate(f, turns, n, k, tr, later)
    ensures forall run, j: nat :: GetsPast(run, tr, Launch(f, turns, n), i) && j < n ==> HasCome(run, tr, j)
    ensures (exists run :: GetsPast(run, tr, Launch(f, turns, n), i)) <==>
      forall j :: 0 <= j < n ==> !AtEnd(RecordAt(f, turns, n, k), turns[k..], n, j)
    ensures (forall run :: IsMaximal(Procs(), run, Launch(f, turns, n)) ==> GetsPast(run, tr, Launch(f, turns, n), i)) <==>
      forall j :: 0 <= j < n ==> !AtEnd(RecordAt(f, turns, n, k), turns[k..], n, j)
  {
    tr, later := UpToCall(f, seq(n, _ => []), turns, k, Records(f, turns, n), Codes(f, turns, n));
    AtTheGate(RecordAt(f, turns, n, k), later, turns[k..], i);
    AgreementReleasesIff(tr, Launch(f, turns, n), i);
    var longest := SomeMaximal(f, turns, n);
  }

  lemma SomeMaximal(f: File, turns: seq<Turn>, n: nat) returns (run: seq<Net<Proc>>)
    requires TurnsOk(turns, n)
    ensures IsMaximal(Procs(), run, Launch(f, turns, n))
  {
    ProcsDwindle();
    LaunchLoad(f, turns, n);
    StartIsRun(Procs(), Launch(f, turns, n));
    run := Exhaust(Procs(), [Start(Launch(f, turns, n))], Launch(f, turns, n), 10 * |turns|);
  }

  lemma AtTheGate(g: File, codes: seq<seq<int>>, turns: seq<Turn>, i: nat)
    requires TurnsOk(turns, |codes|) && turns != [] && i < |codes| && Consistent(g)
    requires SplitEarly(g, turns[0].cs) && !ReturnsEarly(g, turns[0].cs[i])
    ensures var ps := Settled(Gate(g, codes, turns));
      && Agreeing(ps) && !Procs().done(ps[i])
      && (SomebodyDone(ps) <==> exists j :: 0 <= j < |codes| && AtEnd(g, turns, |codes|, j))
  {
    var x :| 0 <= x < |codes| && ReturnsEarly(g, turns[0].cs[x]);
    assert Api(turns[0].cs[x]) == Api(turns[0].cs[0]);
    NotAtEnd(g, turns, |codes|, i);
    GateStops(g, codes, turns);
  }

  /* ---------------- the calls in which they meet ---------------- */

  /** A process inside a call, its record, and the call. */
  ghost function MeetOf(p: Proc): Meet
    requires p.cur.Some?
  {
    Meet(p.rec, p.cur.value.step.call, p.cur.value.step.io)
  }

  ghost function Meets(ps: seq<Proc>): (ms: seq<Meet>)
    requires Busy(ps)
    ensures |ms| == |ps|
  {
    seq(|ps|, i requires 0 <= i < |ps| => MeetOf(ps[i]))
  }

  /** A process that has just begun a call. */
  ghost predicate Fresh(p: Proc, i: nat) {
    && p.cur.Some? && MeetOk(MeetOf(p)) && p.root == (i == 0)
    && p.cur.value.task == TaskOf(p.rec, p.cur.value.step.call, p.cur.value.step.io, i == 0)
  }

  ghost function StopAt(g: File, turns: seq<Turn>, n: nat, i: nat): Stop
    requires TurnsOk(turns, n) && i < n && !AtEnd(g, turns, n, i)
  {
    StopOf(g, Part(turns, i))
  }

  /** The calls that the processes come to from record g. */
  ghost function Meeting(g: File, turns: seq<Turn>, n: nat): (ms: seq<Meet>)
    requires TurnsOk(turns, n) && forall i :: 0 <= i < n ==> !AtEnd(g, turns, n, i)
    ensures |ms| == n
  {
    seq(n, i requires 0 <= i < n => StopAt(g, turns, n, i).meet)
  }

  lemma SafeStays(f: File, c: Call, io: Io)
    requires Consistent(f) && CallOk(c)
    ensures Consistent(LeftWith(f, c, io)) && LeftWith(f, c, io).flags.safe == f.flags.safe
  {
    if LocalCheck(f, c) == NC_NOERR { AfterKeepsConsistent(f, c, io); }
  }

  /** The call with a collective that process i comes to: the ones before are left at once. */
  lemma {:induction false} ComesTo(g: File, turns: seq<Turn>, n: nat, i: nat) returns (m: nat)
    requires TurnsOk(turns, n) && i < n && Consistent(g) && g.flags.safe && !AtEnd(g, turns, n, i)
    ensures MeetOk(StopAt(g, turns, n, i).meet)
    ensures m < |turns| && StopAt(g, turns, n, i).meet.c == turns[m].cs[i] && Skips(turns, n, i, m)
    decreases |turns|
  {
    var c, io := turns[0].cs[i], turns[0].io;
    assert Part(turns, i)[1..] == Part(turns[1..], i);
    if LeftAtOnce(g, c) {
      SafeStays(g, c, io);
      m := ComesTo(LeftWith(g, c, io), turns[1..], n, i);
      m := m + 1;
      forall l: nat | l < m ensures Unchecked(turns[l].cs[i]) || turns[l].cs[i].DelAtt? {
        if l > 0 { assert turns[l] == turns[1..][l - 1]; }
      }
    } else {
      m := 0;
    }
  }

  /** Behind an ncmpi_del_att that some leave early everybody meets in ncmpi_del_att or in one other
      call. */
  lemma MeetingIsMixed(g: File, turns: seq<Turn>, n: nat)
    requires TurnsOk(turns, n) && turns != [] && Consistent(g) && g.flags.safe && SplitEarly(g, turns[0].cs)
    requires forall i :: 0 <= i < n ==> !AtEnd(g, turns, n, i)
    ensures Mixed(Meeting(g, turns, n))
  {
    var ms := Meeting(g, turns, n);
    forall i | 0 <= i < n ensures MeetOk(ms[i]) { var m := ComesTo(g, turns, n, i); }
    var y := SomebodyWaits(g, turns, n);
    assert ms[y].c.DelAtt?;
    forall i, j | 0 <= i < |ms| && 0 <= j < |ms| && !ms[i].c.DelAtt? && !ms[j].c.DelAtt? ensures Api(ms[i].c) == Api(ms[j].c) {
      var m := ComesTo(g, turns, n, i);
      var m' := ComesTo(g, turns, n, j);
      OneOther(turns, n, i, j, m, m');
    }
  }

  lemma SomebodyWaits(g: File, turns: seq<Turn>, n: nat) returns (y: nat)
    requires TurnsOk(turns, n) && turns != [] && Consistent(g) && SplitEarly(g, turns[0].cs)
    requires forall i :: 0 <= i < n ==> !AtEnd(g, turns, n, i)
    ensures y < n && StopAt(g, turns, n, y).meet.c.DelAtt?
  {
    var x :| 0 <= x < n && ReturnsEarly(g, turns[0].cs[x]);
    y :| 0 <= y < n && !ReturnsEarly(g, turns[0].cs[y]);
    assert Api(turns[0].cs[y]) == Api(turns[0].cs[0]) == Api(turns[0].cs[x]);
  }

  lemma GateStands(g: File, codes: seq<seq<int>>, turns: seq<Turn>)
    requires TurnsOk(turns, |codes|) && forall i :: 0 <= i < |codes| ==> !AtEnd(g, turns, |codes|, i)
    ensures var gate := Settled(Gate(g, codes, turns));
      forall i :: 0 <= i < |codes| ==> StandsAt(gate[i], StopAt(g, turns, |codes|, i), i == 0)
  {
    forall i | 0 <= i < |codes| ensures StandsAt(Settle(Waiting(g, codes, turns, i)), StopAt(g, turns, |codes|, i), i == 0) {
      assert !AtEnd(g, turns, |codes|, i);
      SettleStops(Waiting(g, codes, turns, i));
    }
  }

  /** These are the calls that the processes are in then. */
  lemma GateMeets(g: File, codes: seq<seq<int>>, turns: seq<Turn>)
    requires TurnsOk(turns, |codes|) && turns != [] && Consistent(g) && g.flags.safe && SplitEarly(g, turns[0].cs)
    requires forall i :: 0 <= i < |codes| ==> !AtEnd(g, turns, |codes|, i)
    ensures var gate := Settled(Gate(g, codes, turns));
      AllFresh(gate) && Meets(gate) == Meeting(g, turns, |codes|) && Mixed(Meets(gate))
  {
    GateStands(g, codes, turns);
    MeetingIsMixed(g, turns, |codes|);
    StandingMeets(Settled(Gate(g, codes, turns)), g, turns, |codes|);
  }

  lemma StandingMeets(gate: seq<Proc>, g: File, turns: seq<Turn>, n: nat)
    requires TurnsOk(turns, n) && |gate| == n && forall i :: 0 <= i < n ==> !AtEnd(g, turns, n, i)
    requires forall i :: 0 <= i < n ==> StandsAt(gate[i], StopAt(g, turns, n, i), i == 0)
    requires Mixed(Meeting(g, turns, n))
    ensures AllFresh(gate) && Meets(gate) == Meeting(g, turns, n)
  {
    var ms := Meeting(g, turns, n);
    forall i | 0 <= i < n ensures Fresh(gate[i], i) && MeetOf(gate[i]) == ms[i] {
      assert MeetOk(ms[i]) && StandsAt(gate[i], StopAt(g, turns, n, i), i == 0);
    }
  }

  ghost predicate AllFresh(ps: seq<Proc>) {
    ps != [] && forall i :: 0 <= i < |ps| ==> Fresh(ps[i], i)
  }

  ghost predicate Skips(turns: seq<Turn>, n: nat, i: nat, m: nat)
    requires TurnsOk(turns, n) && i < n && m < |turns|
  {
    !Unchecked(turns[m].cs[i]) && forall l: nat :: l < m ==> Unchecked(turns[l].cs[i]) || turns[l].cs[i].DelAtt?
  }

  lemma OneOther(turns: seq<Turn>, n: nat, i: nat, j: nat, m: nat, m': nat)
    requires TurnsOk(turns, n) && i < n && j < n && m < |turns| && m' < |turns| && Skips(turns, n, i, m) && Skips(turns, n, j, m')
    ensures turns[m].cs[i].DelAtt? || turns[m'].cs[j].DelAtt? || Api(turns[m].cs[i]) == Api(turns[m'].cs[j])
  {
    SameApi(turns, n, m, i, j);
    SameApi(turns, n, m', i, j);
  }

  lemma SameApi(turns: seq<Turn>, n: nat, m: nat, i: nat, j: nat)
    requires TurnsOk(turns, n) && m < |turns| && i < n && j < n
    ensures Api(turns[m].cs[i]) == Api(turns[m].cs[j])
  {
    assert TurnOk(turns[m], n);
  }

  /* ---------------- from there on ---------------- */

  /** Another collective comes after the call that a process is in, if that leaves its record. */
  ghost predicate HasMore(p: Proc) {
    !NoCollective(p.rec, p.todo)
  }

  /** Process i is back from where all have met when it has r collectives behind it. */
  ghost predicate WasBack(run: seq<Net<Proc>>, gate: seq<Proc>, i: nat, r: nat)
    requires i < |gate|
  {
    exists k :: 0 <= k < |run| && BackAt(run[k], gate, i, r)
  }

  ghost predicate BackAt(m: Net<Proc>, gate: seq<Proc>, i: nat, r: nat)
    requires i < |gate|
  {
    i < |m.round| && i < |m.procs| && m.round[i] == r && |m.procs[i].codes| > |gate[i].codes|
  }

  /** In the first r collectives nothing is mismatched, and they bring everybody back. */
  ghost predicate AllBack(run: seq<Net<Proc>>, w: seq<Proc>, gate: seq<Proc>, r: nat) {
    && IsRun(Procs(), run, w) && !MismatchBefore(Last(run), r)
    && forall i :: 0 <= i < |gate| ==> WasBack(run, gate, i, r)
  }

  ghost predicate EveryRunBack(w: seq<Proc>, gate: seq<Proc>, r: nat) {
    forall run :: IsMaximal(Procs(), run, w) ==> AllBack(run, w, gate, r)
  }

  /** Every run that goes on for as long as it can brings everybody back. */
  ghost predicate ComeBack(w: seq<Proc>, gate: seq<Proc>) {
    exists r: nat :: EveryRunBack(w, gate, r)
  }

  /** No run does. */
  ghost predicate NeverBack(w: seq<Proc>, gate: seq<Proc>) {
    forall run, r: nat :: !AllBack(run, w, gate, r)
  }

  /** A lockstep execution brings them back. */
  lemma TraceBringsBack(ptr: seq<seq<Proc>>, w: seq<Proc>, gate: seq<Proc>)
    requires IsTrace(Procs(), ptr, w) && |gate| == |w|
    requires forall i :: 0 <= i < |gate| ==> |ptr[|ptr| - 1][i].codes| > |gate[i].codes|
    ensures ComeBack(w, gate)
  {
    var r: nat := |ptr| - 1;
    forall run | IsMaximal(Procs(), run, w) ensures AllBack(run, w, gate, r) {
      MatchedBefore(Procs(), ptr, w, run);
      forall i | 0 <= i < |gate| ensures WasBack(run, gate, i, r) { IsBack(ptr, w, gate, run, i); }
    }
    assert EveryRunBack(w, gate, r);
  }

  lemma IsBack(ptr: seq<seq<Proc>>, w: seq<Proc>, gate: seq<Proc>, run: seq<Net<Proc>>, i: nat)
    requires IsTrace(Procs(), ptr, w) && i < |gate| == |w| && |ptr[|ptr| - 1][i].codes| > |gate[i].codes|
    requires IsMaximal(Procs(), run, w)
    ensures WasBack(run, gate, i, |ptr| - 1)
  {
    BehindCanMove(Procs(), ptr, w, run, i);
    var k := PassesRound(Procs(), run, w, i, |ptr| - 1);
    PrefixIsRun(Procs(), run, w, k);
    RunFollows(Procs(), ptr, w, run[..k + 1]);
    assert BackAt(run[k], gate, i, |ptr| - 1);
  }

  lemma FreshTasks(gate: seq<Proc>)
    requires AllFresh(gate) && Mixed(Meets(gate))
    ensures With(gate, Tasking(Meets(gate))) == gate && Settled(gate) == gate
  {
  }

  /** A trace of the calls, behind the trace to where they begin. */
  lemma Lifted(tr: seq<seq<Proc>>, w: seq<Proc>, gate: seq<Proc>, ttr: seq<seq<Task>>) returns (ptr: seq<seq<Proc>>)
    requires IsTrace(Procs(), tr, w) && tr[|tr| - 1] == gate && AllFresh(gate) && Mixed(Meets(gate))
    requires IsTrace(Tasks(), ttr, Tasking(Meets(gate)))
    ensures IsTrace(Procs(), ptr, w) && |ptr| == |tr| + |ttr| - 1 && ptr[|tr| - 1] == gate
    ensures ptr[|ptr| - 1] == Settled(With(gate, ttr[|ttr| - 1]))
  {
    FreshTasks(gate);
    var up := InsideCalls(gate, ttr, Tasking(Meets(gate)));
    ptr := Longer(Procs(), tr, up, w);
  }

  lemma InsideCalls(ps: seq<Proc>, ttr: seq<seq<Task>>, w: seq<Task>) returns (up: seq<seq<Proc>>)
    requires Busy(ps) && |w| == |ps| && IsTrace(Tasks(), ttr, w)
    ensures IsTrace(Procs(), up, Settled(With(ps, w))) && |up| == |ttr|
    ensures up[|up| - 1] == Settled(With(ps, ttr[|ttr| - 1]))
  {
    up := seq(|ttr|, k requires 0 <= k < |ttr| => Settled(With(ps, ttr[k])));
    forall k | 0 <= k < |up| - 1 ensures Matched(Procs(), up[k]) && up[k + 1] == Round(Procs(), up[k]) {
      StaysInCall(ps, ttr[k]);
      RoundInCall(ps, ttr[k]);
    }
  }

  lemma {:induction false} SettleGrows(p: Proc)
    ensures |Settle(p).codes| >= |p.codes|
    decreases |p.todo|, if p.cur.Some? then 1 else 0
  {
    if p.cur.None? {
      if p.todo != [] && StepOk(p.rec, p.todo[0]) { SettleGrows(Begin(p)); }
    } else if p.cur.value.task.pc.Done? && StepOk(p.rec, p.cur.value.step) {
      SettleGrows(Close(p));
    }
  }

  lemma {:induction false} TraceGrows(tr: seq<seq<Proc>>, w: seq<Proc>, k: nat, i: nat)
    requires IsTrace(Procs(), tr, w) && k < |tr| && i < |w|
    ensures |tr[k][i].codes| <= |tr[|tr| - 1][i].codes|
    decreases |tr| - k
  {
    if k < |tr| - 1 {
      TraceGrows(tr, w, k + 1, i);
      var p, r := tr[k][i], Answered(Procs(), tr[k]);
      assert Matched(Procs(), tr[k]) && tr[k + 1][i] == Procs().adv(p, r);
      SettleGrows(p.(cur := Some(p.cur.value.(task := StepOf(p.cur.value.task, r)))));
    }
  }

  /** Who is back, and was not at the end of a trace, has got past it: at some moment, and at the
      end of the run. */
  lemma BackIsPast(ptr: seq<seq<Proc>>, w: seq<Proc>, gate: seq<Proc>, run: seq<Net<Proc>>, r: nat, i: nat) returns (k: nat)
    requires IsTrace(Procs(), ptr, w) && AllBack(run, w, gate, r) && i < |w| == |gate|
    requires |ptr[|ptr| - 1][i].codes| <= |gate[i].codes|
    ensures k < |run| && BackAt(run[k], gate, i, r) && r >= |ptr| && IsRun(Procs(), run[..k + 1], w)
    ensures Last(run[..k + 1]) == run[k] && GetsPast(run[..k + 1], ptr, w, i) && GetsPast(run, ptr, w, i)
  {
    assert WasBack(run, gate, i, r);
    k :| 0 <= k < |run| && BackAt(run[k], gate, i, r);
    PrefixIsRun(Procs(), run, w, k);
    RunFollows(Procs(), ptr, w, run[..k + 1]);
    if r < |ptr| { TraceGrows(ptr, w, r, i); }
    RoundsGrow(Procs(), run, w, k, i);
  }

  /* -- the ends of the calls -- */

  /** A process that returns from its call has one code more. */
  lemma ReturnedGrows(p: Proc, t: Task)
    requires p.cur.Some? && StepOk(p.rec, p.cur.value.step) && t.pc.Done?
    ensures |Settle(p.(cur := Some(p.cur.value.(task := t)))).codes| > |p.codes|
  {
    SettleGrows(Close(p.(cur := Some(p.cur.value.(task := t)))));
  }

  lemma CompleteBringsBack(tr: seq<seq<Proc>>, w: seq<Proc>, gate: seq<Proc>)
    requires IsTrace(Procs(), tr, w) && tr[|tr| - 1] == gate && AllFresh(gate) && Mixed(Meets(gate))
    requires !AllClear(Meets(gate)) || Compatible(Meets(gate))
    ensures ComeBack(w, gate)
  {
    var ttr := AllEnd(Meets(gate));
    var ptr: seq<seq<Proc>> := Lifted(tr, w, gate, ttr);
    var last := ttr[|ttr| - 1];
    forall i: nat | i < |gate| ensures |ptr[|ptr| - 1][i].codes| > |gate[i].codes| {
      assert Tasks().done(last[i]);
      TraceIsOk(ttr, Meets(gate), i);
      ReturnedGrows(gate[i], last[i]);
    }
    TraceBringsBack(ptr, w, gate);
  }

  lemma {:induction false} TraceIsOk(ttr: seq<seq<Task>>, ms: seq<Meet>, i: nat)
    requires Mixed(ms) && IsTrace(Tasks(), ttr, Tasking(ms)) && i < |ms|
    ensures PcOk(ttr[|ttr| - 1][i])
    decreases |ttr|
  {
    if |ttr| > 1 {
      var prev := ttr[..|ttr| - 1];
      forall k | 0 <= k < |prev| - 1 ensures Matched(Tasks(), prev[k]) && prev[k + 1] == Round(Tasks(), prev[k]) {
        assert prev[k] == ttr[k] && prev[k + 1] == ttr[k + 1];
      }
      TraceIsOk(prev, ms, i);
      assert ttr[|ttr| - 1] == Round(Tasks(), ttr[|ttr| - 2]);
    }
  }

  /* -- different collectives -- */

  lemma ClashIsFinal(tr: seq<seq<Proc>>, w: seq<Proc>, gate: seq<Proc>, ttr: seq<seq<Task>>, i: nat, j: nat)
    requires IsTrace(Procs(), tr, w) && tr[|tr| - 1] == gate && AllFresh(gate) && Mixed(Meets(gate))
    requires Clashes(ttr, Tasking(Meets(gate)), i, j)
    ensures NeverBack(w, gate)
  {
    var ptr := Lifted(tr, w, gate, ttr);
    var last := ptr[|ptr| - 1];
    assert last[i] == With(gate, ttr[|ttr| - 1])[i] && last[j] == With(gate, ttr[|ttr| - 1])[j];
    forall run, r: nat | AllBack(run, w, gate, r) ensures false {
      var k := BackIsPast(ptr, w, gate, run, r, i);
      var l := BackIsPast(ptr, w, gate, run, r, j);
      UnequalRoundMismatches(Procs(), ptr, w, run, i, j);
    }
  }

  /* -- an enddef, of which only the first agreement is modelled: in the library the driver's own
        collectives follow, agreements and a broadcast of another type than the other process is
        waiting in -- */

  /** A process that is within its call at the end of a trace only returns from it after another
      agreement. */
  ghost predicate SecondNeeded(m: Net<Proc>, ptr: seq<seq<Proc>>, i: nat)
    requires ptr != [] && i < |ptr[|ptr| - 1]|
  {
    i < |m.procs| && i < |m.round| &&
    (m.round[i] >= |ptr| - 1 ==>
      AgreedSince(m, |ptr| - 1, i) || (m.procs[i].codes == ptr[|ptr| - 1][i].codes && Inner(m.procs[i])))
  }

  ghost predicate AgreedSince(m: Net<Proc>, from: nat, i: nat)
    requires i < |m.round|
  {
    exists k: nat :: from <= k < m.round[i] && (k, i) in m.log && m.log[(k, i)].Allreduce?
  }

  /** Behind the first agreement of a call. */
  predicate Inner(p: Proc) {
    p.cur.Some? && PcOk(p.cur.value.task) && !p.cur.value.task.pc.First? && !p.cur.value.task.pc.Done?
  }

  lemma InnerStep(p: Proc, r: Reply)
    requires Inner(p) && Fits(Procs().act(p), r)
    ensures Procs().act(p).Allreduce? || (Procs().adv(p, r).codes == p.codes && Inner(Procs().adv(p, r)))
  {
    var t := p.cur.value.task;
    assert !Act(t).Allreduce? ==> !Advance(t, r).pc.Done? && !Advance(t, r).pc.First?;
  }

  lemma {:induction false} NeedsSecond(ptr: seq<seq<Proc>>, w: seq<Proc>, run: seq<Net<Proc>>, i: nat)
    requires IsTrace(Procs(), ptr, w) && IsRun(Procs(), run, w) && i < |w| && Inner(ptr[|ptr| - 1][i])
    ensures SecondNeeded(Last(run), ptr, i)
    decreases |run|
  {
    RunFollows(Procs(), ptr, w, run);
    if |run| > 1 {
      var prev, j := LastMove(Procs(), run, w);
      NeedsSecond(ptr, w, prev, i);
      RunWaited(Procs(), prev, w);
      MoveNeedsSecond(ptr, Last(prev), Last(run), i, j);
    }
  }

  lemma MoveNeedsSecond(ptr: seq<seq<Proc>>, m: Net<Proc>, m': Net<Proc>, i: nat, j: nat)
    requires ptr != [] && i < |ptr[|ptr| - 1]| && SecondNeeded(m, ptr, i) && Move(Procs(), m, m', j)
    requires LogExact(m) && Inside(Procs(), m)
    requires i < |m'.procs| && i < |m'.round|
    requires m'.round[i] == |ptr| - 1 ==> m'.procs[i] == ptr[|ptr| - 1][i]
    requires Inner(ptr[|ptr| - 1][i])
    ensures SecondNeeded(m', ptr, i)
  {
    var from: nat := |ptr| - 1;
    if m.round[i] >= from {
      if AgreedSince(m, from, i) {
        var k: nat :| from <= k < m.round[i] && (k, i) in m.log && m.log[(k, i)].Allreduce?;
        assert (k, i) in m'.log && m'.log[(k, i)] == m.log[(k, i)] && k < m'.round[i];
      } else if i == j && m.posted[i] {
        var p, k := m.procs[i], m.round[i];
        assert (k, i) in m'.log && m'.log[(k, i)] == Procs().act(p) && k < m'.round[i];
        InnerStep(p, Answer(m, i));
      }
    }
  }

  /** A process that is done with its enddef is at the first agreement of another call, or at the
      end of its program; the one in ncmpi_del_att is at a broadcast. */
  lemma EnddefIsFinal(tr: seq<seq<Proc>>, w: seq<Proc>, gate: seq<Proc>, d: nat, x: nat)
    requires IsTrace(Procs(), tr, w) && tr[|tr| - 1] == gate && AllFresh(gate) && Mixed(Meets(gate)) && AllClear(Meets(gate))
    requires d < |gate| && x < |gate| && Meets(gate)[d].c.DelAtt? && Meets(gate)[x].c.Enddef?
    ensures NeverBack(w, gate)
  {
    var ms := Meets(gate);
    var w1 := JointAgreement(ms);
    var ptr := Lifted(tr, w, gate, [Tasking(ms), w1]);
    var last := ptr[|ptr| - 1];
    assert last[d] == With(gate, w1)[d] && Inner(last[d]) && Procs().act(last[d]).Bcast?;
    EnddefOver(gate[x], w1[x]);
    forall run, r: nat | AllBack(run, w, gate, r) ensures false { WaitsForAnother(ptr, w, gate, run, r, d, x); }
  }

  lemma WaitsForAnother(ptr: seq<seq<Proc>>, w: seq<Proc>, gate: seq<Proc>, run: seq<Net<Proc>>, r: nat, d: nat, x: nat)
    requires IsTrace(Procs(), ptr, w) && d < |w| == |gate| && x < |w| && Inner(ptr[|ptr| - 1][d])
    requires ptr[|ptr| - 1][d].codes == gate[d].codes
    requires var last := ptr[|ptr| - 1];
      Procs().act(last[d]).Bcast? && (Procs().done(last[x]) || Procs().act(last[x]).Allreduce?)
    ensures !AllBack(run, w, gate, r)
  {
    if AllBack(run, w, gate, r) {
      var k := BackIsPast(ptr, w, gate, run, r, d);
      NeedsSecond(ptr, w, run[..k + 1], d);
      StrandedOrUnequal(ptr, w, run[..k + 1], d, x, r);
      MismatchStays(Procs(), run, w, k, r);
    }
  }

  lemma EnddefOver(p: Proc, t: Task)
    requires p.cur.Some? && StepOk(p.rec, p.cur.value.step) && t.pc.Done?
    ensures var q := Settle(p.(cur := Some(p.cur.value.(task := t)))); Procs().done(q) || Procs().act(q).Allreduce?
  {
    SettleStops(Close(p.(cur := Some(p.cur.value.(task := t)))));
  }

  lemma StrandedOrUnequal(ptr: seq<seq<Proc>>, w: seq<Proc>, run: seq<Net<Proc>>, d: nat, x: nat, r: nat)
    requires IsTrace(Procs(), ptr, w) && IsRun(Procs(), run, w) && d < |w| && x < |w|
    requires GetsPast(run, ptr, w, d) && AgreedSince(Last(run), |ptr| - 1, d) && r >= |ptr|
    requires var last := ptr[|ptr| - 1];
      Procs().act(last[d]).Bcast? && (Procs().done(last[x]) || Procs().act(last[x]).Allreduce?)
    ensures MismatchBefore(Last(run), r)
  {
    var m, from: nat := Last(run), |ptr| - 1;
    RunFollows(Procs(), ptr, w, run);
    RunWaited(Procs(), run, w);
    var k: nat :| from <= k < m.round[d] && (k, d) in m.log && m.log[(k, d)].Allreduce?;
    assert AllIn(m, k);
    assert (k, x) in m.log;
    assert (from, x) in m.log && (from, d) in m.log;
  }

  /* -- a renaming that the driver is not asked for -- */

  /** Its process goes on to the first agreement of another call, or to the end of its program,
      with the same record. */
  lemma SkipperGoesOn(p: Proc, t: Task)
    requires p.cur.Some? && MeetOk(MeetOf(p)) && t.pc.Done? && LikeDelAtt(p.cur.value.step.call)
    requires !DriverReduces(p.rec, p.cur.value.step.call)
    ensures var q := Settle(p.(cur := Some(p.cur.value.(task := t))));
      && (Procs().done(q) <==> !HasMore(p)) && (HasMore(p) ==> Procs().act(q).Allreduce?)
  {
    var done := Close(p.(cur := Some(p.cur.value.(task := t))));
    assert done.rec == p.rec;
    SettleStops(done);
  }

  /** Everybody without a collective in the driver has another call with one ahead. */
  ghost predicate SkippersGoOn(gate: seq<Proc>)
    requires Busy(gate)
  {
    forall i :: 0 <= i < |gate| ==> DriverReduces(gate[i].rec, gate[i].cur.value.step.call) || HasMore(gate[i])
  }

  lemma AtTheDriver(tr: seq<seq<Proc>>, w: seq<Proc>, gate: seq<Proc>) returns (ptr: seq<seq<Proc>>)
    requires IsTrace(Procs(), tr, w) && tr[|tr| - 1] == gate && AllFresh(gate) && Mixed(Meets(gate))
    requires AllClear(Meets(gate)) && AllLike(Meets(gate)) && Coincide(Meets(gate))
    ensures IsTrace(Procs(), ptr, w)
    ensures forall i :: 0 <= i < |gate| ==> InOrPast(gate[i], ptr[|ptr| - 1][i])
  {
    var ms := Meets(gate);
    var ttr := DriverParts(ms);
    ptr := Lifted(tr, w, gate, ttr);
    var last := ttr[|ttr| - 1];
    forall i | 0 <= i < |gate| ensures InOrPast(gate[i], ptr[|ptr| - 1][i]) {
      if DriverReduces(ms[i].f, ms[i].c) {
        assert ptr[|ptr| - 1][i] == With(gate, last)[i];
      } else {
        SkipperGoesOn(gate[i], last[i]);
        ReturnedGrows(gate[i], last[i]);
      }
    }
  }

  /** In the driver's agreement, or back from the call. */
  ghost predicate InOrPast(p: Proc, q: Proc)
    requires p.cur.Some?
  {
    if DriverReduces(p.rec, p.cur.value.step.call) then
      q.cur.Some? && q.cur.value.task.pc == Driver && q.codes == p.codes && q.rec == p.rec && q.cur.value.step == p.cur.value.step
    else
      |q.codes| > |p.codes| && (Procs().done(q) <==> !HasMore(p)) && (HasMore(p) ==> Procs().act(q).Allreduce?)
  }

  lemma DriverReleasesIff(tr: seq<seq<Proc>>, w: seq<Proc>, gate: seq<Proc>)
    requires IsTrace(Procs(), tr, w) && tr[|tr| - 1] == gate && AllFresh(gate) && Mixed(Meets(gate))
    requires AllClear(Meets(gate)) && AllLike(Meets(gate)) && Coincide(Meets(gate))
    ensures if SkippersGoOn(gate) then ComeBack(w, gate) else NeverBack(w, gate)
  {
    var ptr := AtTheDriver(tr, w, gate);
    if SkippersGoOn(gate) {
      OutOfTheDriver(ptr, w, gate);
    } else {
      forall run, r: nat | AllBack(run, w, gate, r) ensures false { LeftInTheDriver(ptr, w, gate, run, r); }
    }
  }

  lemma LeftInTheDriver(ptr: seq<seq<Proc>>, w: seq<Proc>, gate: seq<Proc>, run: seq<Net<Proc>>, r: nat)
    requires IsTrace(Procs(), ptr, w) && |gate| == |w| && AllFresh(gate) && Mixed(Meets(gate)) && !SkippersGoOn(gate)
    requires forall i :: 0 <= i < |gate| ==> InOrPast(gate[i], ptr[|ptr| - 1][i])
    ensures !AllBack(run, w, gate, r)
  {
    var d :| 0 <= d < |gate| && Meets(gate)[d].c.DelAtt?;
    var x :| 0 <= x < |gate| && !DriverReduces(gate[x].rec, gate[x].cur.value.step.call) && !HasMore(gate[x]);
    assert InOrPast(gate[d], ptr[|ptr| - 1][d]) && InOrPast(gate[x], ptr[|ptr| - 1][x]);
    DelAttInDriver(gate[d], ptr[|ptr| - 1][d]);
    if AllBack(run, w, gate, r) {
      var k := BackIsPast(ptr, w, gate, run, r, d);
      DoneStrands(Procs(), ptr, w, run, d, x);
    }
  }

  lemma DelAttInDriver(p: Proc, q: Proc)
    requires p.cur.Some? && p.cur.value.step.call.DelAtt? && InOrPast(p, q)
    ensures !Procs().done(q) && Procs().act(q).Allreduce? && q.codes == p.codes
  {
  }

  lemma OutOfTheDriver(ptr: seq<seq<Proc>>, w: seq<Proc>, gate: seq<Proc>)
    requires IsTrace(Procs(), ptr, w) && |gate| == |w| && AllFresh(gate) && SkippersGoOn(gate)
    requires forall i :: 0 <= i < |gate| ==> InOrPast(gate[i], ptr[|ptr| - 1][i])
    ensures ComeBack(w, gate)
  {
    var last := ptr[|ptr| - 1];
    forall i | 0 <= i < |last| ensures !Procs().done(last[i]) && Procs().act(last[i]).Allreduce? {
      assert InOrPast(gate[i], last[i]);
    }
    var r := Answered(Procs(), last);
    var longer: seq<seq<Proc>> := Longer(Procs(), ptr, [last, Round(Procs(), last)], w);
    forall i | 0 <= i < |gate| ensures |longer[|longer| - 1][i].codes| > |gate[i].codes| {
      assert InOrPast(gate[i], last[i]) && longer[|longer| - 1][i] == Procs().adv(last[i], r);
      OutAndBack(gate[i], last[i], r);
    }
    TraceBringsBack(longer, w, gate);
  }

  lemma OutAndBack(p: Proc, q: Proc, r: Reply)
    requires p.cur.Some? && MeetOk(MeetOf(p)) && InOrPast(p, q) && Procs().act(q).Allreduce? && r.MinE?
    ensures |Procs().adv(q, r).codes| > |p.codes|
  {
    if q.cur.Some? {
      var t := StepOf(q.cur.value.task, r);
      if DriverReduces(p.rec, p.cur.value.step.call) {
        ReturnedGrows(q, t);
      } else {
        SettleGrows(q.(cur := Some(q.cur.value.(task := t))));
      }
    }
  }

  /* ---------------- the exact condition ---------------- */

  ghost predicate GateWell(gate: seq<Proc>)
    requires Busy(gate)
  {
    !AllClear(Meets(gate)) || (AllLike(Meets(gate)) && (Coincide(Meets(gate)) ==> SkippersGoOn(gate)))
  }

  lemma GateWellIff(tr: seq<seq<Proc>>, w: seq<Proc>, gate: seq<Proc>)
    requires IsTrace(Procs(), tr, w) && tr[|tr| - 1] == gate && AllFresh(gate) && Mixed(Meets(gate))
    ensures if GateWell(gate) then ComeBack(w, gate) else NeverBack(w, gate)
  {
    var ms := Meets(gate);
    if AllClear(ms) && AllLike(ms) && Coincide(ms) {
      DriverReleasesIff(tr, w, gate);
    } else if !AllClear(ms) || AllLike(ms) {
      CompleteBringsBack(tr, w, gate);
    } else {
      var d :| 0 <= d < |ms| && ms[d].c.DelAtt?;
      var x :| 0 <= x < |ms| && !LikeDelAtt(ms[x].c);
      if ms[x].c.Enddef? {
        EnddefIsFinal(tr, w, gate, d, x);
      } else {
        var ttr := OtherCallParts(ms, d, x);
        ClashIsFinal(tr, w, gate, ttr, x, d);
      }
    }
  }

  /** Somebody has an error in these calls; or the calls compare a name and one id each, and if all
      names and ids are equal, everybody whom the driver is not asked for has yet another call with
      a collective. */
  ghost predicate MeetWell(g: File, turns: seq<Turn>, n: nat)
    requires TurnsOk(turns, n) && forall i :: 0 <= i < n ==> !AtEnd(g, turns, n, i)
  {
    var ms := Meeting(g, turns, n);
    !AllClear(ms) ||
    (AllLike(ms) && (Coincide(ms) ==> forall i :: 0 <= i < n ==> DriverReduces(ms[i].f, ms[i].c) || AnotherAhead(g, turns, n, i)))
  }

  /** Process i has another collective behind the call that it comes to, if that leaves its record. */
  ghost predicate AnotherAhead(g: File, turns: seq<Turn>, n: nat, i: nat)
    requires TurnsOk(turns, n) && i < n && !AtEnd(g, turns, n, i)
  {
    var s := StopAt(g, turns, n, i);
    !NoCollective(s.meet.f, s.rest)
  }

  lemma GateIsMeeting(g: File, codes: seq<seq<int>>, turns: seq<Turn>)
    requires TurnsOk(turns, |codes|) && forall i :: 0 <= i < |codes| ==> !AtEnd(g, turns, |codes|, i)
    ensures var gate := Settled(Gate(g, codes, turns));
      && Busy(gate) && Meets(gate) == Meeting(g, turns, |codes|)
      && (forall i :: 0 <= i < |codes| ==> (HasMore(gate[i]) <==> AnotherAhead(g, turns, |codes|, i)))
      && (GateWell(gate) <==> MeetWell(g, turns, |codes|))
  {
    var gate := Settled(Gate(g, codes, turns));
    GateStands(g, codes, turns);
    assert Meets(gate) == Meeting(g, turns, |codes|);
    SkippersSame(gate, g, turns, |codes|);
  }

  lemma SkippersSame(gate: seq<Proc>, g: File, turns: seq<Turn>, n: nat)
    requires TurnsOk(turns, n) && |gate| == n && forall i :: 0 <= i < n ==> !AtEnd(g, turns, n, i)
    requires forall i :: 0 <= i < n ==> StandsAt(gate[i], StopAt(g, turns, n, i), i == 0)
    ensures Busy(gate) && forall i :: 0 <= i < n ==> (HasMore(gate[i]) <==> AnotherAhead(g, turns, n, i))
    ensures SkippersGoOn(gate) <==>
      forall i :: 0 <= i < n ==> DriverReduces(Meeting(g, turns, n)[i].f, Meeting(g, turns, n)[i].c) || AnotherAhead(g, turns, n, i)
  {
    forall i | 0 <= i < n
      ensures gate[i].rec == Meeting(g, turns, n)[i].f && gate[i].cur.Some?
      ensures gate[i].cur.value.step.call == Meeting(g, turns, n)[i].c && (HasMore(gate[i]) <==> AnotherAhead(g, turns, n, i))
    {
      assert StandsAt(gate[i], StopAt(g, turns, n, i), i == 0);
    }
  }

  /** Call number k is an ncmpi_del_att that some processes leave early and some do not, and every
      process comes to a collective, so that the agreement is passed. If somebody has an error in
      the calls that they have met in, or the calls ahead are ones that compare a name and one id
      like ncmpi_del_att (ncmpi_rename_var, ncmpi_rename_dim, or ncmpi_del_att again), every run that
      goes on for as long as it can brings everybody back from them without mismatched collectives;
      except that a process that renames a dimension to the name it has, which is what the others
      delete, must have yet another collective to come. If not, no run does. */
  lemma InStepIff(f: File, turns: seq<Turn>, n: nat, k: nat) returns (tr: seq<seq<Proc>>, later: seq<seq<int>>)
    requires Consistent(f) && f.flags.safe && TurnsOk(turns, n) && k < |turns| && SmoothProgram(f, turns[..k], n)
    requires SplitEarly(RecordAt(f, turns, n, k), turns[k].cs)
    requires forall j :: 0 <= j < n ==> !AtEnd(RecordAt(f, turns, n, k), turns[k..], n, j)
    ensures IsGate(f, turns, n, k, tr, later)
    ensures ComeBack(Launch(f, turns, n), tr[|tr| - 1]) <==> MeetWell(RecordAt(f, turns, n, k), turns[k..], n)
    ensures NeverBack(Launch(f, turns, n), tr[|tr| - 1]) <==> !MeetWell(RecordAt(f, turns, n, k), turns[k..], n)
  {
    var g := RecordAt(f, turns, n, k);
    tr, later := UpToCall(f, seq(n, _ => []), turns, k, Records(f, turns, n), Codes(f, turns, n));
    GateMeets(g, later, turns[k..]);
    GateIsMeeting(g, later, turns[k..]);
    GateWellIff(tr, Launch(f, turns, n), tr[|tr| - 1]);
    var longest := SomeMaximal(f, turns, n);
    NotBoth(Launch(f, turns, n), tr[|tr| - 1], longest);
  }

  lemma NotBoth(w: seq<Proc>, gate: seq<Proc>, run: seq<Net<Proc>>)
    requires IsMaximal(Procs(), run, w)
    ensures !(ComeBack(w, gate) && NeverBack(w, gate))
  {
    if ComeBack(w, gate) {
      var r: nat :| EveryRunBack(w, gate, r);
      assert AllBack(run, w, gate, r);
    }
  }

  /* ---------------- the two processes of an enddef ahead ---------------- */

  /** One of two processes deletes an attribute of a variable that does not exist, and both end define
      mode. */
  function BadDelAtt(f: File): seq<Turn> {
    [Turn([DelAtt(f.nvars, Some("a")), DelAtt(NC_GLOBAL, Some("a"))], Good), Turn([Enddef, Enddef], Good)]
  }

  ghost predicate InDefineMode(f: File) {
    Consistent(f) && f.flags.safe && f.flags.def && !f.flags.rdonly
  }

  lemma BadDelAttMeets(f: File)
    requires InDefineMode(f)
    ensures TurnsOk(BadDelAtt(f), 2) && SplitEarly(f, BadDelAtt(f)[0].cs)
    ensures ReturnsEarly(f, BadDelAtt(f)[0].cs[0]) && !ReturnsEarly(f, BadDelAtt(f)[0].cs[1])
  {
    var turns := BadDelAtt(f);
    assert TurnOk(turns[0], 2) && TurnOk(turns[1], 2);
    assert ReturnsEarly(f, turns[0].cs[0]) && !ReturnsEarly(f, turns[0].cs[1]);
  }

  /** One of them is in enddef then, and the other in ncmpi_del_att. */
  lemma BadDelAttMeeting(f: File)
    requires InDefineMode(f) && TurnsOk(BadDelAtt(f), 2)
    requires ReturnsEarly(f, BadDelAtt(f)[0].cs[0]) && !ReturnsEarly(f, BadDelAtt(f)[0].cs[1])
    ensures forall i :: 0 <= i < 2 ==> !AtEnd(f, BadDelAtt(f), 2, i)
    ensures Meeting(f, BadDelAtt(f), 2) == [Meet(f, Enddef, Good), Meet(f, DelAtt(NC_GLOBAL, Some("a")), Good)]
  {
    var turns := BadDelAtt(f);
    var first, second := Part(turns, 0), Part(turns, 1);
    assert first[0] == Step(turns[0].cs[0], Good) && first[1..] == [Step(Enddef, Good)] && second[0] == Step(turns[0].cs[1], Good);
    assert LeftWith(f, turns[0].cs[0], Good) == f && !NoCollective(f, first[1..]);
    assert !AtEnd(f, turns, 2, 0) && !AtEnd(f, turns, 2, 1);
    assert StopOf(f, first[1..]).meet == Meet(f, Enddef, Good);
    assert StopOf(f, first) == StopOf(f, first[1..]);
    assert StopAt(f, turns, 2, 1).meet == Meet(f, turns[0].cs[1], Good);
  }

  lemma EnddefNotLike(gate: seq<Proc>, f: File)
    requires Busy(gate) && InDefineMode(f)
    requires Meets(gate) == [Meet(f, Enddef, Good), Meet(f, DelAtt(NC_GLOBAL, Some("a")), Good)]
    ensures !GateWell(gate)
  {
    assert LocalCheck(f, Enddef) == NC_NOERR && LocalCheck(f, DelAtt(NC_GLOBAL, Some("a"))) == NC_NOERR;
    assert !LikeDelAtt(Meets(gate)[0].c);
  }

  /** The enddef of the one releases the other from ncmpi_del_att's first agreement in some run, and
      no run without mismatched collectives brings both back. */
  lemma BadDelAttExample(f: File) returns (tr: seq<seq<Proc>>)
    requires InDefineMode(f)
    ensures TurnsOk(BadDelAtt(f), 2) && IsTrace(Procs(), tr, Launch(f, BadDelAtt(f), 2))
    ensures exists run :: GetsPast(run, tr, Launch(f, BadDelAtt(f), 2), 1)
    ensures NeverBack(Launch(f, BadDelAtt(f), 2), tr[|tr| - 1])
  {
    BadDelAttMeets(f);
    BadDelAttMeeting(f);
    var turns, none: seq<seq<int>> := BadDelAtt(f), seq(2, _ => []);
    var w := Launch(f, turns, 2);
    tr := [w];
    GateMeets(f, none, turns);
    EnddefNotLike(w, f);
    ReleasedAtOnce(f, none, turns, w);
    GateWellIff(tr, w, w);
  }

  lemma ReleasedAtOnce(f: File, none: seq<seq<int>>, turns: seq<Turn>, w: seq<Proc>)
    requires TurnsOk(turns, |none|) && turns != [] && Consistent(f) && w == Settled(Gate(f, none, turns)) && |none| > 1
    requires SplitEarly(f, turns[0].cs) && !ReturnsEarly(f, turns[0].cs[1])
    requires forall i :: 0 <= i < |none| ==> !AtEnd(f, turns, |none|, i)
    ensures exists run :: GetsPast(run, [w], w, 1)
  {
    AtTheGate(f, none, turns, 1);
    AgreementReleasesIff([w], w, 1);
  }
}
