/** Threads of several processes that each write a file, meet in a barrier of two levels, and read
    a neighbour's file. One thread of each process joins the barrier of the processes; all threads
    of a process then join a barrier of their own. Any interleaving of the threads is allowed. */
module TwoLevelBarrier {
  import opened Arithmetic

  /** Where a thread is: about to create its file, about to write the k-th of three slabs, about
      to close; about to enter a barrier, or inside it; about to open the neighbour's file, about
      to read its k-th slab, about to close it. */
  datatype Pc = Create | Put(k: nat) | Close | EnterOuter | InOuter | EnterInner | InInner
              | Open | Get(k: nat) | CloseAgain | Finished

  /** A file: its slabs, and whether its writer still has it open. */
  datatype Content = Content(slabs: map<nat, int>, open: bool)

  datatype Sys = Sys(pc: seq<Pc>, files: map<nat, Content>, errs: seq<nat>)

  /** procs processes of threads threads; in each, the one numbered `leader` joins the outer
      barrier. */
  datatype Shape = Shape(procs: nat, threads: nat, leader: nat)

  ghost predicate ShapeOk(c: Shape) {
    c.procs > 0 && c.threads > 0 && c.leader < c.threads
  }

  function Count(c: Shape): nat {
    c.procs * c.threads
  }

  predicate IsLeader(c: Shape, i: nat)
    requires c.threads > 0
  {
    i % c.threads == c.leader
  }

  function Process(c: Shape, i: nat): nat
    requires c.threads > 0
  {
    i / c.threads
  }

  /** The file that thread i reads. */
  function Target(c: Shape, i: nat): nat
    requires Count(c) > 0
  {
    (i + 1) % Count(c)
  }

  function Stage(pc: Pc): nat {
    match pc
    case Create => 0
    case Put(k) => 1 + (if k < 3 then k else 3)
    case Close => 5
    case EnterOuter => 6
    case InOuter => 7
    case EnterInner => 8
    case InInner => 9
    case Open => 10
    case Get(k) => 11 + (if k < 3 then k else 3)
    case CloseAgain => 15
    case Finished => 16
  }

  function NextPc(c: Shape, i: nat, pc: Pc): Pc
    requires c.threads > 0
  {
    match pc
    case Create => Put(0)
    case Put(k) => if k < 2 then Put(k + 1) else Close
    case Close => if IsLeader(c, i) then EnterOuter else EnterInner
    case EnterOuter => InOuter
    case InOuter => EnterInner
    case EnterInner => InInner
    case InInner => Open
    case Open => Get(0)
    case Get(k) => if k < 2 then Get(k + 1) else CloseAgain
    case CloseAgain => Finished
    case Finished => Finished
  }

  predicate PcOk(pc: Pc) {
    (pc.Put? ==> pc.k < 3) && (pc.Get? ==> pc.k < 3)
  }

  ghost predicate SysOk(c: Shape, m: Sys) {
    && ShapeOk(c) && |m.pc| == |m.errs| == Count(c)
    && (forall i :: 0 <= i < |m.pc| ==> PcOk(m.pc[i]))
  }

  ghost predicate AllLeadersIn(c: Shape, m: Sys)
    requires c.threads > 0
  {
    forall j: nat :: j < |m.pc| && IsLeader(c, j) ==> Stage(m.pc[j]) >= 7
  }

  ghost predicate AllLocalIn(c: Shape, m: Sys, i: nat)
    requires c.threads > 0
  {
    forall j: nat :: j < |m.pc| && Process(c, j) == Process(c, i) ==> Stage(m.pc[j]) >= 9
  }

  ghost predicate CanStep(c: Shape, m: Sys, i: nat) {
    && SysOk(c, m) && i < |m.pc| && !m.pc[i].Finished?
    && (m.pc[i].InOuter? ==> AllLeadersIn(c, m))
    && (m.pc[i].InInner? ==> AllLocalIn(c, m, i))
  }

  function Slabs(files: map<nat, Content>, f: nat): map<nat, int> {
    if f in files then files[f].slabs else map[]
  }

  function FilesAfter(files: map<nat, Content>, pc: Pc, i: nat): map<nat, Content> {
    match pc
    case Create => files[i := Content(map[], true)]
    case Put(k) => files[i := Content(Slabs(files, i)[k := i], true)]
    case Close => files[i := Content(Slabs(files, i), false)]
    case _ => files
  }

  /** Opening a file that is not there is an error, and so is reading anything but its number. */
  function NewErrors(files: map<nat, Content>, pc: Pc, f: nat): nat {
    match pc
    case Open => if f in files then 0 else 1
    case Get(k) => if k in Slabs(files, f) && Slabs(files, f)[k] == f then 0 else 1
    case _ => 0
  }

  function Step(c: Shape, m: Sys, i: nat): Sys
    requires c.threads > 0 && Count(c) > 0 && i < |m.pc| && i < |m.errs|
  {
    Sys(m.pc[i := NextPc(c, i, m.pc[i])], FilesAfter(m.files, m.pc[i], i),
        m.errs[i := m.errs[i] + NewErrors(m.files, m.pc[i], Target(c, i))])
  }

  function Start(c: Shape): Sys {
    Sys(seq(Count(c), _ => Create), map[], seq(Count(c), _ => 0))
  }

  ghost predicate Moves(c: Shape, m: Sys, m': Sys, i: nat) {
    CanStep(c, m, i) && m' == Step(c, m, i)
  }

  ghost predicate Next(c: Shape, m: Sys, m': Sys) {
    exists i: nat :: Moves(c, m, m', i)
  }

  ghost predicate IsRun(c: Shape, run: seq<Sys>) {
    && ShapeOk(c) && run != [] && run[0] == Start(c)
    && (forall n :: 0 <= n < |run| - 1 ==> Next(c, run[n], run[n + 1]))
  }

  function Last(run: seq<Sys>): Sys
    requires run != []
  {
    run[|run| - 1]
  }

  /** Written in full and closed by its writer. */
  predicate Ready(files: map<nat, Content>, f: nat) {
    && f in files && !files[f].open
    && (forall k :: 0 <= k < 3 ==> k in files[f].slabs && files[f].slabs[k] == f)
  }

  /** Some thread opens, or has opened, a file that its writer is not done with. */
  ghost predicate Unsafe(c: Shape, m: Sys)
    requires Count(c) > 0
  {
    exists i: nat :: i < |m.pc| && Stage(m.pc[i]) > 10 && !Ready(m.files, Target(c, i))
  }

  /* ---------------- safety ---------------- */

  /** What a thread has made of its own file. */
  predicate OwnFile(m: Sys, i: nat)
    requires i < |m.pc|
  {
    && (Stage(m.pc[i]) > 0 ==> i in m.files)
    && (forall k :: 0 <= k < 3 && Stage(m.pc[i]) > 1 + k ==> k in Slabs(m.files, i) && Slabs(m.files, i)[k] == i)
    && (Stage(m.pc[i]) > 5 ==> Ready(m.files, i))
  }

  ghost predicate Inv(c: Shape, m: Sys) {
    && SysOk(c, m)
    && (forall i: nat :: i < |m.pc| ==> OwnFile(m, i))
    && (forall i: nat :: i < |m.pc| && IsLeader(c, i) && Stage(m.pc[i]) > 7 ==> AllLeadersIn(c, m))
    && (forall i: nat :: i < |m.pc| && Stage(m.pc[i]) > 9 ==> AllLocalIn(c, m, i))
  }

  lemma NextStage(c: Shape, i: nat, pc: Pc)
    requires c.threads > 0 && PcOk(pc) && !pc.Finished?
    ensures PcOk(NextPc(c, i, pc)) && Stage(NextPc(c, i, pc)) > Stage(pc)
    ensures IsLeader(c, i) && Stage(NextPc(c, i, pc)) > 7 ==> Stage(pc) >= 7
    ensures Stage(NextPc(c, i, pc)) > 9 ==> Stage(pc) >= 9
  {
  }

  lemma StagesGrow(c: Shape, m: Sys, i: nat)
    requires CanStep(c, m, i)
    ensures SysOk(c, Step(c, m, i))
    ensures forall j :: 0 <= j < |m.pc| ==> Stage(Step(c, m, i).pc[j]) >= Stage(m.pc[j])
    ensures AllLeadersIn(c, m) ==> AllLeadersIn(c, Step(c, m, i))
    ensures forall j: nat :: AllLocalIn(c, m, j) ==> AllLocalIn(c, Step(c, m, i), j)
  {
  }

  lemma OwnFileKept(c: Shape, m: Sys, i: nat, j: nat)
    requires Inv(c, m) && CanStep(c, m, i) && j < |m.pc|
    ensures OwnFile(Step(c, m, i), j)
  {
    assert OwnFile(m, j);
    var m' := Step(c, m, i);
    if i == j && m.pc[i].Put? {
      assert Slabs(m'.files, j) == Slabs(m.files, j)[m.pc[i].k := i];
    } else if m.pc[i] != Create || i != j {
      assert Slabs(m'.files, j) == Slabs(m.files, j);
    }
  }

  lemma InvKept(c: Shape, m: Sys, i: nat)
    requires Inv(c, m) && CanStep(c, m, i)
    ensures Inv(c, Step(c, m, i))
  {
    var m' := Step(c, m, i);
    NextStage(c, i, m.pc[i]);
    StagesGrow(c, m, i);
    forall j: nat | j < |m.pc| ensures OwnFile(m', j) { OwnFileKept(c, m, i, j); }
  }

  lemma {:induction false} RunKeepsInv(c: Shape, run: seq<Sys>)
    requires IsRun(c, run)
    ensures Inv(c, Last(run))
  {
    if |run| > 1 {
      RunKeepsInv(c, run[..|run| - 1]);
      assert Next(c, run[|run| - 2], Last(run));
      var i: nat :| Moves(c, run[|run| - 2], Last(run), i);
      InvKept(c, run[|run| - 2], i);
    }
  }

  /** The file a thread reads is of its own process, or is that of the first thread of one. */
  lemma TargetPlace(c: Shape, i: nat)
    requires ShapeOk(c) && i < Count(c)
    ensures 0 <= Target(c, i) < Count(c)
    ensures Process(c, Target(c, i)) == Process(c, i) || Target(c, i) % c.threads == 0
    ensures c.procs == 1 ==> Process(c, Target(c, i)) == Process(c, i)
  {
    var t := c.threads;
    DivMod(i, t);
    if i + 1 < Count(c) {
      DivUnique(i + 1, Count(c), 0, i + 1);
      if i % t < t - 1 { DivUnique(i + 1, t, i / t, i % t + 1); } else { DivUnique(i + 1, t, i / t + 1, 0); }
    } else {
      DivUnique(i + 1, Count(c), 1, 0);
      DivUnique(0, t, 0, 0);
    }
    if c.procs == 1 { DivUnique(i, t, 0, i); DivUnique(Target(c, i), t, 0, Target(c, i)); }
  }

  /** The leader of a thread's process. */
  lemma LeaderOf(c: Shape, i: nat) returns (l: nat)
    requires ShapeOk(c) && i < Count(c)
    ensures l < Count(c) && IsLeader(c, l) && Process(c, l) == Process(c, i)
  {
    var t := c.threads;
    DivBelow(i, c.procs, t);
    DigitsBelow(i / t, c.procs, c.leader, t);
    l := i / t * t + c.leader;
    DivUnique(l, t, i / t, c.leader);
  }

  /** A thread that is past both barriers finds its neighbour's file closed. */
  lemma PastBarriers(c: Shape, m: Sys, i: nat)
    requires Inv(c, m) && (c.leader == 0 || c.procs == 1)
    requires i < |m.pc| && Stage(m.pc[i]) > 9
    ensures Ready(m.files, Target(c, i))
  {
    var f := Target(c, i);
    TargetPlace(c, i);
    assert AllLocalIn(c, m, i);
    if Process(c, f) != Process(c, i) {
      var l := LeaderOf(c, i);
      assert AllLeadersIn(c, m);
      assert IsLeader(c, f);
    }
    assert OwnFile(m, f);
  }

  lemma {:induction false} NoErrors(c: Shape, run: seq<Sys>)
    requires IsRun(c, run) && (c.leader == 0 || c.procs == 1)
    ensures |Last(run).errs| == Count(c)
    ensures forall i :: 0 <= i < Count(c) ==> Last(run).errs[i] == 0
  {
    if |run| > 1 {
      var prev := run[..|run| - 1];
      NoErrors(c, prev);
      RunKeepsInv(c, prev);
      assert Next(c, run[|run| - 2], Last(run));
      var i: nat :| Moves(c, run[|run| - 2], Last(run), i);
      var m := run[|run| - 2];
      assert m == prev[|prev| - 1];
      if Stage(m.pc[i]) > 9 { PastBarriers(c, m, i); }
    }
  }

  /** With the first thread of each process in the outer barrier, every interleaving is safe and
      no thread counts an error. */
  lemma Safe(c: Shape, run: seq<Sys>)
    requires IsRun(c, run) && (c.leader == 0 || c.procs == 1)
    ensures Count(c) > 0 && !Unsafe(c, Last(run))
    ensures forall e :: e in Last(run).errs ==> e == 0
  {
    RunKeepsInv(c, run);
    NoErrors(c, run);
    var m := Last(run);
    Positive(c);
    forall i: nat | i < |m.pc| && Stage(m.pc[i]) > 10 ensures Ready(m.files, Target(c, i)) {
      PastBarriers(c, m, i);
    }
  }

  lemma Positive(c: Shape)
    requires ShapeOk(c)
    ensures Count(c) > 0
  {
  }

  /** Each file is read by exactly one thread. */
  lemma EachFileReadOnce(c: Shape, f: nat)
    requires ShapeOk(c) && f < Count(c)
    ensures exists i: nat :: i < Count(c) && Target(c, i) == f
    ensures forall i: nat, j: nat :: i < Count(c) && j < Count(c) && Target(c, i) == Target(c, j) ==> i == j
  {
    var n := Count(c);
    var i := if f == 0 then n - 1 else f - 1;
    assert Target(c, i) == f by { if f > 0 { DivUnique(f, n, 0, f); } else { DivUnique(n, n, 1, 0); } }
    forall i: nat, j: nat | i < n && j < n && Target(c, i) == Target(c, j) ensures i == j {
      if i + 1 < n { DivUnique(i + 1, n, 0, i + 1); } else { DivUnique(n, n, 1, 0); }
      if j + 1 < n { DivUnique(j + 1, n, 0, j + 1); } else { DivUnique(n, n, 1, 0); }
    }
  }

  /* ---------------- progress ---------------- */

  function Slowest(pc: seq<Pc>): (i: nat)
    requires pc != []
    ensures i < |pc| && forall j :: 0 <= j < |pc| ==> Stage(pc[i]) <= Stage(pc[j])
  {
    if |pc| == 1 then 0
    else
      var i := Slowest(pc[..|pc| - 1]);
      assert forall j :: 0 <= j < |pc| - 1 ==> pc[j] == pc[..|pc| - 1][j];
      if Stage(pc[|pc| - 1]) < Stage(pc[i]) then |pc| - 1 else i
  }

  /** No interleaving gets stuck, whichever thread is the leader. */
  lemma NoDeadlock(c: Shape, run: seq<Sys>)
    requires IsRun(c, run)
    ensures (exists i: nat :: CanStep(c, Last(run), i)) || forall pc :: pc in Last(run).pc ==> pc == Finished
  {
    var m := Last(run);
    RunKeepsInv(c, run);
    Positive(c);
    var i := Slowest(m.pc);
    if m.pc[i].Finished? {
      forall j | 0 <= j < |m.pc| ensures m.pc[j] == Finished { assert Stage(m.pc[j]) >= 16; }
    } else {
      assert CanStep(c, m, i);
    }
  }

  function Total(pc: seq<Pc>): nat {
    if pc == [] then 0 else Stage(pc[0]) + Total(pc[1..])
  }

  lemma {:induction false} TotalUpdate(pc: seq<Pc>, i: nat, p: Pc)
    requires i < |pc|
    ensures Total(pc[i := p]) == Total(pc) - Stage(pc[i]) + Stage(p)
  {
    if i > 0 {
      TotalUpdate(pc[1..], i - 1, p);
      assert pc[i := p][1..] == pc[1..][i - 1 := p];
    } else {
      assert pc[i := p][1..] == pc[1..];
    }
  }

  lemma {:induction false} TotalBound(pc: seq<Pc>)
    ensures Total(pc) <= 16 * |pc|
  {
    if pc != [] { TotalBound(pc[1..]); }
  }

  lemma {:induction false} RunLength(c: Shape, run: seq<Sys>)
    requires IsRun(c, run)
    ensures |run| - 1 <= Total(Last(run).pc)
  {
    if |run| > 1 {
      var prev := run[..|run| - 1];
      RunLength(c, prev);
      var m := run[|run| - 2];
      assert m == prev[|prev| - 1] && Next(c, m, Last(run));
      var i: nat :| Moves(c, m, Last(run), i);
      NextStage(c, i, m.pc[i]);
      TotalUpdate(m.pc, i, NextPc(c, i, m.pc[i]));
    }
  }

  /** Every interleaving comes to an end: sixteen steps a thread at most. */
  lemma RunsEnd(c: Shape, run: seq<Sys>)
    requires IsRun(c, run)
    ensures |run| - 1 <= 16 * Count(c)
  {
    RunKeepsInv(c, run);
    RunLength(c, run);
    TotalBound(Last(run).pc);
  }

  /* ---------------- any other leader is a mistake ---------------- */

  lemma Extend(c: Shape, run: seq<Sys>, i: nat)
    requires IsRun(c, run) && CanStep(c, Last(run), i)
    ensures IsRun(c, run + [Step(c, Last(run), i)])
  {
    var longer := run + [Step(c, Last(run), i)];
    assert Moves(c, Last(run), Last(longer), i);
    forall n | 0 <= n < |longer| - 1 ensures Next(c, longer[n], longer[n + 1]) {
      if n < |run| - 1 { assert Next(c, run[n], run[n + 1]); }
    }
  }

  /** The threads of a set are in one place and may go on from it. */
  ghost predicate Poised(c: Shape, m: Sys, s: set<nat>, pc: Pc) {
    && SysOk(c, m) && PcOk(pc) && !pc.Finished?
    && (forall i :: i in s ==> i < |m.pc| && m.pc[i] == pc)
    && (pc.InOuter? ==> AllLeadersIn(c, m))
    && (pc.InInner? ==> forall i :: i in s ==> AllLocalIn(c, m, i))
  }

  ghost predicate Swept(c: Shape, m: Sys, m': Sys, s: set<nat>, pc: Pc) {
    && SysOk(c, m) && SysOk(c, m')
    && (forall j: nat :: j < |m.pc| ==> m'.pc[j] == if j in s then NextPc(c, j, pc) else m.pc[j])
  }

  /** Lets the threads of a set take one step each. */
  lemma {:induction false} Sweep(c: Shape, run: seq<Sys>, s: set<nat>, pc: Pc) returns (run': seq<Sys>)
    requires IsRun(c, run) && Poised(c, Last(run), s, pc)
    ensures IsRun(c, run') && Swept(c, Last(run), Last(run'), s, pc)
    decreases |s|
  {
    run' := run;
    if s != {} {
      var i :| i in s;
      var m := Last(run);
      Extend(c, run, i);
      StagesGrow(c, m, i);
      run' := Sweep(c, run + [Step(c, m, i)], s - {i}, pc);
    }
  }

  function Below(n: nat): (s: set<nat>)
    ensures forall i: nat :: i in s <==> i < n
  {
    if n == 0 then {} else Below(n - 1) + {n - 1}
  }

  lemma Everyone(c: Shape, except: nat) returns (s: set<nat>, leaders: set<nat>, first: set<nat>)
    requires ShapeOk(c)
    ensures forall i: nat :: i in s <==> i < Count(c) && i != except
    ensures forall i: nat :: i in leaders <==> i < Count(c) && IsLeader(c, i)
    ensures forall i: nat :: i in first <==> i < Count(c) && Process(c, i) == 0
  {
    s := Below(Count(c)) - {except};
    leaders := set i: nat | i < Count(c) && IsLeader(c, i);
    first := set i: nat | i < Count(c) && Process(c, i) == 0;
  }

  /** Everybody but one writes its file. */
  lemma WriteAllBut(c: Shape, s: set<nat>) returns (run: seq<Sys>)
    requires ShapeOk(c) && forall i :: i in s ==> i < Count(c)
    ensures IsRun(c, run) && SysOk(c, Last(run))
    ensures forall i: nat :: i < Count(c) ==>
      Last(run).pc[i] == if i !in s then Create else if IsLeader(c, i) then EnterOuter else EnterInner
  {
    run := [Start(c)];
    run := Sweep(c, run, s, Create);
    run := Sweep(c, run, s, Put(0));
    run := Sweep(c, run, s, Put(1));
    run := Sweep(c, run, s, Put(2));
    run := Sweep(c, run, s, Close);
  }

  /** Everybody but the first thread of the second process writes its file, which takes the
      leaders through the outer barrier. */
  lemma AllButOne(c: Shape) returns (run: seq<Sys>)
    requires ShapeOk(c) && c.leader != 0 && c.procs > 1
    ensures IsRun(c, run) && SysOk(c, Last(run)) && c.threads < Count(c)
    ensures Last(run).pc[c.threads] == Create
    ensures forall i: nat :: i < Count(c) && i != c.threads ==> Last(run).pc[i] == EnterInner
  {
    var late := c.threads;
    DivUnique(late, c.threads, 1, 0);
    MulMono(2, c.procs, c.threads);
    var s, leaders, _ := Everyone(c, late);
    run := WriteAllBut(c, s);
    run := Sweep(c, run, leaders, EnterOuter);
    run := Sweep(c, run, leaders, InOuter);
  }

  lemma OtherLeaderFails(c: Shape) returns (run: seq<Sys>)
    requires ShapeOk(c) && c.leader != 0 && c.procs > 1
    ensures IsRun(c, run) && Count(c) > 0 && Unsafe(c, Last(run))
  {
    var t := c.threads;
    run := AllButOne(c);
    var _, _, first := Everyone(c, t);
    DivUnique(t, t, 1, 0);
    DivUnique(t - 1, t, 0, t - 1);
    run := Sweep(c, run, first, EnterInner);
    run := Sweep(c, run, {t - 1}, InInner);
    run := Sweep(c, run, {t - 1}, Open);
    DivUnique(t, Count(c), 0, t);
    assert Target(c, t - 1) == t;
    RunOfCreate(c, run, t);
  }

  /** A file nobody has created is not there. */
  lemma {:induction false} RunOfCreate(c: Shape, run: seq<Sys>, f: nat)
    requires IsRun(c, run) && f < |Last(run).pc| && Last(run).pc[f] == Create
    ensures f !in Last(run).files
  {
    if |run| > 1 {
      var m := run[|run| - 2];
      assert Next(c, m, Last(run));
      var i: nat :| Moves(c, m, Last(run), i);
      NextStage(c, i, m.pc[i]);
      RunOfCreate(c, run[..|run| - 1], f);
    }
  }

  /** The choice of the leader is exactly right: for the shift by one, all interleavings are safe
      if and only if it is the first thread, or there is only one process. */
  lemma SafeIffFirstLeads(c: Shape)
    requires ShapeOk(c)
    ensures Count(c) > 0
    ensures (forall run :: IsRun(c, run) ==> !Unsafe(c, Last(run))) <==> c.leader == 0 || c.procs == 1
  {
    Positive(c);
    if c.leader == 0 || c.procs == 1 {
      forall run | IsRun(c, run) ensures !Unsafe(c, Last(run)) { Safe(c, run); }
    } else {
      var run := OtherLeaderFails(c);
    }
  }
}
