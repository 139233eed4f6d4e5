/** Whole programs: every process makes a sequence of collective calls, and goes on to the next one
    as soon as it has returned from the last, whatever the others are doing. */
module Program {
  import opened NetCDF
  import opened NcmpioDriver
  import opened Dispatch
  import opened Network
  import opened Collective
  import opened Agreement
  import opened SafeMode
  import opened Session

  /** One process's part of a collective call. */
  datatype Step = Step(call: Call, io: Io)

  datatype Running = Running(step: Step, task: Task)

  /** A process: its record of the file, the codes its calls have returned, the call it is in, and
      the calls that are still to come. `spilt`: it has written past a buffer in an earlier call. */
  datatype Proc = Proc(root: bool, rec: File, codes: seq<int>, spilt: bool, cur: Option<Running>, todo: seq<Step>)

  ghost predicate StepOk(f: File, s: Step) {
    Consistent(f) && CallOk(s.call)
  }

  /** The next call begins. */
  ghost function Begin(p: Proc): Proc
    requires p.todo != [] && StepOk(p.rec, p.todo[0])
  {
    p.(cur := Some(Running(p.todo[0], TaskOf(p.rec, p.todo[0].call, p.todo[0].io, p.root))), todo := p.todo[1..])
  }

  /** A call is over: its code and its effect on the record are kept. */
  ghost function Close(p: Proc): Proc
    requires p.cur.Some? && p.cur.value.task.pc.Done? && StepOk(p.rec, p.cur.value.step)
  {
    var r := p.cur.value;
    p.(rec := RecordAfter(p.rec, r.step.call, r.step.io, r.task.pc), codes := p.codes + [r.task.pc.code],
       spilt := p.spilt || r.task.spilt, cur := None)
  }

  /** What a process does by itself: it returns from calls that are over and begins the next, until
      it comes to a collective or to the end of its program. */
  ghost function Settle(p: Proc): Proc
    decreases |p.todo|, if p.cur.Some? then 1 else 0
  {
    if p.cur.None? then
      if p.todo != [] && StepOk(p.rec, p.todo[0]) then Settle(Begin(p)) else p
    else if p.cur.value.task.pc.Done? && StepOk(p.rec, p.cur.value.step) then Settle(Close(p))
    else p
  }

  ghost function Procs(): Machine<Proc> {
    Machine((p: Proc) => p.cur.None? || Finished(p.cur.value.task),
            (p: Proc) => if p.cur.None? then Allreduce(0) else ActOf(p.cur.value.task),
            (p: Proc, r: Reply) => if p.cur.None? then p else Settle(p.(cur := Some(p.cur.value.(task := StepOf(p.cur.value.task, r))))),
            (p: Proc) => Load(p))
  }

  /** Collectives that are still ahead of a process, at most. */
  ghost function Load(p: Proc): nat {
    (if p.cur.None? then 0 else WeightOf(p.cur.value.task)) + 10 * |p.todo|
  }

  lemma TaskWeight(f: File, c: Call, io: Io, root: bool)
    requires Consistent(f) && CallOk(c)
    ensures WeightOf(TaskOf(f, c, io, root)) <= 10
  {
  }

  lemma {:induction false} SettleLoad(p: Proc)
    ensures Load(Settle(p)) <= Load(p)
    decreases |p.todo|, if p.cur.Some? then 1 else 0
  {
    if p.cur.None? {
      if p.todo != [] && StepOk(p.rec, p.todo[0]) {
        TaskWeight(p.rec, p.todo[0].call, p.todo[0].io, p.root);
        SettleLoad(Begin(p));
      }
    } else if p.cur.value.task.pc.Done? && StepOk(p.rec, p.cur.value.step) {
      SettleLoad(Close(p));
    }
  }

  lemma ProcsDwindle()
    ensures Dwindles(Procs())
  {
    forall p: Proc, r: Reply | !Procs().done(p) && Fits(Procs().act(p), r)
      ensures Procs().weight(Procs().adv(p, r)) < Procs().weight(p)
    {
      var t := p.cur.value.task;
      WeightDrops(t, r);
      SettleLoad(p.(cur := Some(p.cur.value.(task := StepOf(t, r)))));
    }
  }

  /* ---------------- programs on equal records ---------------- */

  /** Process i's program. */
  function Part(turns: seq<Turn>, i: nat): seq<Step>
    requires forall k :: 0 <= k < |turns| ==> i < |turns[k].cs|
  {
    seq(|turns|, k requires 0 <= k < |turns| => Step(turns[k].cs[i], turns[k].io))
  }

  /** n processes make the same calls, each with arguments of its own. */
  ghost predicate TurnsOk(turns: seq<Turn>, n: nat) {
    n > 0 && forall k :: 0 <= k < |turns| ==> TurnOk(turns[k], n)
  }

  ghost predicate TurnOk(r: Turn, n: nat) {
    && |r.cs| == n && IoOk(r.io)
    && (forall i :: 0 <= i < n ==> CallOk(r.cs[i]) && Api(r.cs[i]) == Api(r.cs[0]))
  }

  lemma TurnIsReady(f: File, r: Turn, n: nat)
    requires Consistent(f) && f.flags.safe && TurnOk(r, n) && n > 0
    ensures TurnReady(f, r)
  {
  }

  /** The processes that have the same record and these calls before them. `codes[i]` are the
      codes that process i has had so far. */
  ghost function Gate(f: File, codes: seq<seq<int>>, turns: seq<Turn>): (ps: seq<Proc>)
    requires TurnsOk(turns, |codes|)
    ensures |ps| == |codes|
  {
    seq(|codes|, i requires 0 <= i < |codes| => Waiting(f, codes, turns, i))
  }

  /** Process i, before its next call. */
  ghost function Waiting(f: File, codes: seq<seq<int>>, turns: seq<Turn>, i: nat): Proc
    requires TurnsOk(turns, |codes|) && i < |codes|
  {
    Proc(i == 0, f, codes[i], false, None, Part(turns, i))
  }

  ghost function Settled(ps: seq<Proc>): (ps': seq<Proc>)
    ensures |ps'| == |ps|
  {
    seq(|ps|, i requires 0 <= i < |ps| => Settle(ps[i]))
  }

  /** The start of the program. */
  ghost function Launch(f: File, turns: seq<Turn>, n: nat): (ps: seq<Proc>)
    requires TurnsOk(turns, n)
    ensures |ps| == n
  {
    Settled(Gate(f, seq(n, _ => []), turns))
  }

  /** Everybody goes well through every call, on the record that the calls before have left. */
  ghost predicate SmoothProgram(f: File, turns: seq<Turn>, n: nat)
    requires Consistent(f) && f.flags.safe && TurnsOk(turns, n)
    decreases |turns|
  {
    turns == [] ||
    (TurnIsReady(f, turns[0], n); NextRecordKeeps(f, turns[0]);
     Smooth(f, turns[0].cs) && SmoothProgram(NextRecord(f, turns[0]), turns[1..], n))
  }

  /** The record after k calls. */
  ghost function RecordAt(f: File, turns: seq<Turn>, n: nat, k: nat): (g: File)
    requires Consistent(f) && f.flags.safe && TurnsOk(turns, n) && k <= |turns|
    ensures Consistent(g) && g.flags.safe
    decreases k
  {
    if k == 0 then f
    else
      TurnIsReady(f, turns[0], n);
      NextRecordKeeps(f, turns[0]);
      RecordAt(NextRecord(f, turns[0]), turns[1..], n, k - 1)
  }

  /** What process i's call number k returns. */
  ghost function CodeAt(f: File, turns: seq<Turn>, n: nat, k: nat, i: nat): int
    requires Consistent(f) && f.flags.safe && TurnsOk(turns, n) && k < |turns| && i < n
  {
    TurnIsReady(RecordAt(f, turns, n, k), turns[k], n);
    CodeOf(RecordAt(f, turns, n, k), turns[k], i)
  }

  /* ---------------- the lockstep execution of a program ---------------- */

  predicate Unspilt(tasks: seq<Task>) {
    forall i :: 0 <= i < |tasks| ==> !tasks[i].spilt
  }

  /** The processes inside the next call. */
  ghost function InCall(f: File, codes: seq<seq<int>>, turns: seq<Turn>, tasks: seq<Task>): (ps: seq<Proc>)
    requires TurnsOk(turns, |codes|) && turns != [] && |tasks| == |codes|
    ensures |ps| == |codes|
  {
    seq(|codes|, i requires 0 <= i < |codes| =>
      Proc(i == 0, f, codes[i], false, Some(Running(Step(turns[0].cs[i], turns[0].io), tasks[i])), Part(turns[1..], i)))
  }

  lemma GateOpens(f: File, codes: seq<seq<int>>, turns: seq<Turn>)
    requires TurnsOk(turns, |codes|) && turns != [] && Consistent(f) && f.flags.safe && TurnReady(f, turns[0])
    ensures Settled(Gate(f, codes, turns)) == Settled(InCall(f, codes, turns, World(f, turns[0].cs, turns[0].io)))
  {
    var w := World(f, turns[0].cs, turns[0].io);
    forall i | 0 <= i < |codes|
      ensures Settle(Gate(f, codes, turns)[i]) == Settle(InCall(f, codes, turns, w)[i])
    {
      var p := Waiting(f, codes, turns, i);
      assert p.todo[1..] == Part(turns[1..], i);
      assert Begin(p) == InCall(f, codes, turns, w)[i];
    }
  }

  /** The codes after the next call. */
  ghost function MoreCodes(f: File, codes: seq<seq<int>>, r: Turn): (codes': seq<seq<int>>)
    requires TurnReady(f, r) && |r.cs| == |codes|
    ensures |codes'| == |codes|
  {
    seq(|codes|, i requires 0 <= i < |codes| => codes[i] + [CodeOf(f, r, i)])
  }

  lemma GateCloses(f: File, codes: seq<seq<int>>, turns: seq<Turn>, tasks: seq<Task>)
    requires TurnsOk(turns, |codes|) && turns != [] && TurnReady(f, turns[0])
    requires AllDecided(f, turns[0].cs, turns[0].io, tasks) && Unspilt(tasks)
    ensures Settled(InCall(f, codes, turns, tasks))
         == Settled(Gate(NextRecord(f, turns[0]), MoreCodes(f, codes, turns[0]), turns[1..]))
  {
    var r := turns[0];
    var next := Gate(NextRecord(f, r), MoreCodes(f, codes, r), turns[1..]);
    forall i | 0 <= i < |codes| ensures Settle(InCall(f, codes, turns, tasks)[i]) == Settle(next[i]) {
      assert Decided(f, r.cs, r.io, i, tasks[i].pc);
      DecidedCode(f, r, i, tasks[i].pc);
      DecidedRecord(f, r, i, tasks[i].pc);
      assert Close(InCall(f, codes, turns, tasks)[i]) == next[i];
    }
  }

  ghost predicate Busy(ps: seq<Proc>) {
    forall i :: 0 <= i < |ps| ==> ps[i].cur.Some?
  }

  /** The processes with other tasks. */
  ghost function With(ps: seq<Proc>, tasks: seq<Task>): (ps': seq<Proc>)
    requires Busy(ps) && |tasks| == |ps|
    ensures |ps'| == |ps| && Busy(ps')
  {
    seq(|ps|, i requires 0 <= i < |ps| => ps[i].(cur := Some(ps[i].cur.value.(task := tasks[i]))))
  }

  lemma StaysInCall(ps: seq<Proc>, tasks: seq<Task>)
    requires Busy(ps) && |tasks| == |ps| && Matched(Tasks(), tasks)
    ensures Settled(With(ps, tasks)) == With(ps, tasks) && Matched(Procs(), With(ps, tasks))
  {
    forall i | 0 <= i < |tasks| ensures !tasks[i].pc.Done? { assert !Tasks().done(tasks[i]); }
  }

  /** A round inside calls is a round of the calls. */
  lemma RoundInCall(ps: seq<Proc>, tasks: seq<Task>)
    requires Busy(ps) && |tasks| == |ps| && Matched(Tasks(), tasks)
    ensures Round(Procs(), With(ps, tasks)) == Settled(With(ps, Round(Tasks(), tasks)))
  {
    var ps' := With(ps, tasks);
    assert seq(|ps'|, i requires 0 <= i < |ps'| => Offer(Procs(), ps'[i]))
        == seq(|tasks|, i requires 0 <= i < |tasks| => Offer(Tasks(), tasks[i]));
    assert Answered(Procs(), ps') == Answered(Tasks(), tasks);
  }

  /** The records before and after the calls. */
  ghost function Records(f: File, turns: seq<Turn>, n: nat): (recs: seq<File>)
    requires Consistent(f) && f.flags.safe && TurnsOk(turns, n)
    ensures |recs| == |turns| + 1
  {
    seq(|turns| + 1, k requires 0 <= k <= |turns| => RecordAt(f, turns, n, k))
  }

  /** The codes of the calls, one row a call. */
  ghost function Codes(f: File, turns: seq<Turn>, n: nat): (table: seq<seq<int>>)
    requires Consistent(f) && f.flags.safe && TurnsOk(turns, n)
    ensures |table| == |turns| && forall k :: 0 <= k < |table| ==> |table[k]| == n
  {
    seq(|turns|, k requires 0 <= k < |turns| => CodesAt(f, turns, n, k))
  }

  ghost function CodesAt(f: File, turns: seq<Turn>, n: nat, k: nat): (row: seq<int>)
    requires Consistent(f) && f.flags.safe && TurnsOk(turns, n) && k < |turns|
    ensures |row| == n
  {
    seq(n, i requires 0 <= i < n => CodeAt(f, turns, n, k, i))
  }

  /** The program from its second call on. */
  lemma OneLater(f: File, turns: seq<Turn>, n: nat)
    requires Consistent(f) && f.flags.safe && TurnsOk(turns, n) && turns != [] && TurnReady(f, turns[0])
    requires Consistent(NextRecord(f, turns[0])) && NextRecord(f, turns[0]).flags.safe
    ensures var g, recs, table := NextRecord(f, turns[0]), Records(f, turns, n), Codes(f, turns, n);
      && recs[0] == f && recs[1..] == Records(g, turns[1..], n) && table[1..] == Codes(g, turns[1..], n)
      && forall i :: 0 <= i < n ==> table[0][i] == CodeOf(f, turns[0], i)
  {
    var g, turns' := NextRecord(f, turns[0]), turns[1..];
    forall k: nat | k <= |turns'| ensures RecordAt(f, turns, n, k + 1) == RecordAt(g, turns', n, k) {}
    forall k: nat | k < |turns'| ensures CodesAt(f, turns, n, k + 1) == CodesAt(g, turns', n, k) {
      forall i: nat | i < n ensures CodeAt(f, turns, n, k + 1, i) == CodeAt(g, turns', n, k, i) {}
    }
  }

  predicate BookOk(recs: seq<File>, table: seq<seq<int>>, n: nat) {
    |recs| == |table| + 1 && forall k :: 0 <= k < |table| ==> |table[k]| == n
  }

  /** A process has made as many calls as it has codes, and its record and its codes are those of
      the book, `codes` being those of the calls before. */
  predicate Right(p: Proc, i: nat, recs: seq<File>, table: seq<seq<int>>, codes: seq<seq<int>>)
    requires BookOk(recs, table, |codes|) && i < |codes|
  {
    && |codes[i]| <= |p.codes| <= |codes[i]| + |table|
    && p.rec == recs[|p.codes| - |codes[i]|]
    && p.codes[..|codes[i]|] == codes[i]
    && (forall k: nat :: k < |p.codes| - |codes[i]| ==> p.codes[|codes[i]| + k] == table[k][i])
    && !p.spilt && (p.cur.Some? ==> !p.cur.value.task.spilt)
  }

  predicate AllRight(ps: seq<Proc>, recs: seq<File>, table: seq<seq<int>>, codes: seq<seq<int>>)
    requires BookOk(recs, table, |codes|)
  {
    |ps| == |codes| && forall i :: 0 <= i < |ps| ==> Right(ps[i], i, recs, table, codes)
  }

  lemma RightInCall(f: File, codes: seq<seq<int>>, turns: seq<Turn>, tasks: seq<Task>, recs: seq<File>, table: seq<seq<int>>)
    requires TurnsOk(turns, |codes|) && turns != [] && |tasks| == |codes| && Unspilt(tasks)
    requires BookOk(recs, table, |codes|) && recs[0] == f
    ensures AllRight(InCall(f, codes, turns, tasks), recs, table, codes)
  {
  }

  lemma RightAtGate(f: File, codes: seq<seq<int>>, turns: seq<Turn>, recs: seq<File>, table: seq<seq<int>>)
    requires TurnsOk(turns, |codes|) && BookOk(recs, table, |codes|) && recs[0] == f
    ensures AllRight(Gate(f, codes, turns), recs, table, codes)
  {
  }

  lemma RightOneLater(p: Proc, i: nat, recs: seq<File>, table: seq<seq<int>>, codes: seq<seq<int>>, codes': seq<seq<int>>)
    requires BookOk(recs, table, |codes|) && table != [] && |codes'| == |codes| && i < |codes|
    requires codes'[i] == codes[i] + [table[0][i]]
    requires Right(p, i, recs[1..], table[1..], codes')
    ensures Right(p, i, recs, table, codes)
  {
    var m := |codes[i]|;
    assert p.codes[..m] == p.codes[..m + 1][..m] == codes[i];
    forall k: nat | k < |p.codes| - m ensures p.codes[m + k] == table[k][i] {
      if k == 0 {
        assert p.codes[m] == p.codes[..m + 1][m];
      } else {
        assert p.codes[m + 1 + (k - 1)] == table[1..][k - 1][i];
      }
    }
  }

  lemma RightLater(ps: seq<Proc>, recs: seq<File>, table: seq<seq<int>>, codes: seq<seq<int>>, codes': seq<seq<int>>)
    requires BookOk(recs, table, |codes|) && table != [] && |codes'| == |codes|
    requires forall i :: 0 <= i < |codes| ==> codes'[i] == codes[i] + [table[0][i]]
    requires AllRight(ps, recs[1..], table[1..], codes')
    ensures AllRight(ps, recs, table, codes)
  {
    forall i | 0 <= i < |ps| ensures Right(ps[i], i, recs, table, codes) {
      RightOneLater(ps[i], i, recs, table, codes, codes');
    }
  }

  /** Every state of a trace but the last is right. */
  predicate TraceRight(tr: seq<seq<Proc>>, recs: seq<File>, table: seq<seq<int>>, codes: seq<seq<int>>)
    requires BookOk(recs, table, |codes|)
  {
    forall k :: 0 <= k < |tr| - 1 ==> AllRight(tr[k], recs, table, codes)
  }

  /** Nothing is ever taken back that has been written past a buffer. */
  lemma {:induction false} UnspiltBefore(tr: seq<seq<Task>>, w: seq<Task>, k: nat)
    requires IsTrace(Tasks(), tr, w) && k < |tr| && Unspilt(tr[|tr| - 1])
    ensures Unspilt(tr[k])
    decreases |tr| - k
  {
    if k < |tr| - 1 {
      UnspiltBefore(tr, w, k + 1);
      forall i | 0 <= i < |w| ensures !tr[k][i].spilt {
        assert !tr[k + 1][i].spilt && tr[k + 1][i] == StepOf(tr[k][i], Answered(Tasks(), tr[k]));
      }
    }
  }

  /** The rounds of a call, from the k-th on, in front of what follows it. */
  lemma {:induction false} CallInFront(f: File, codes: seq<seq<int>>, turns: seq<Turn>, ctr: seq<seq<Task>>, k: nat,
                                       rest: seq<seq<Proc>>, recs: seq<File>, table: seq<seq<int>>)
    returns (tr: seq<seq<Proc>>)
    requires TurnsOk(turns, |codes|) && turns != [] && BookOk(recs, table, |codes|) && recs[0] == f
    requires ctr != [] && |ctr[0]| == |codes| && IsTrace(Tasks(), ctr, ctr[0]) && k < |ctr|
    requires Unspilt(ctr[|ctr| - 1])
    requires IsTrace(Procs(), rest, Settled(InCall(f, codes, turns, ctr[|ctr| - 1]))) && TraceRight(rest, recs, table, codes)
    ensures IsTrace(Procs(), tr, Settled(InCall(f, codes, turns, ctr[k]))) && TraceRight(tr, recs, table, codes)
    ensures tr[|tr| - 1] == rest[|rest| - 1]
    decreases |ctr| - k
  {
    if k == |ctr| - 1 {
      tr := rest;
    } else {
      var later := CallInFront(f, codes, turns, ctr, k + 1, rest, recs, table);
      UnspiltBefore(ctr, ctr[0], k);
      tr := RoundInFront(f, codes, turns, ctr[k], later, recs, table);
    }
  }

  /** One round of a call, in front of what follows it. */
  lemma RoundInFront(f: File, codes: seq<seq<int>>, turns: seq<Turn>, tasks: seq<Task>, later: seq<seq<Proc>>,
                     recs: seq<File>, table: seq<seq<int>>) returns (tr: seq<seq<Proc>>)
    requires TurnsOk(turns, |codes|) && turns != [] && BookOk(recs, table, |codes|) && recs[0] == f
    requires |tasks| == |codes| && Matched(Tasks(), tasks) && Unspilt(tasks)
    requires IsTrace(Procs(), later, Settled(InCall(f, codes, turns, Round(Tasks(), tasks)))) && TraceRight(later, recs, table, codes)
    ensures IsTrace(Procs(), tr, Settled(InCall(f, codes, turns, tasks))) && TraceRight(tr, recs, table, codes)
    ensures tr[|tr| - 1] == later[|later| - 1]
  {
    var ps := InCall(f, codes, turns, tasks);
    assert With(ps, tasks) == ps && With(ps, Round(Tasks(), tasks)) == InCall(f, codes, turns, Round(Tasks(), tasks));
    StaysInCall(ps, tasks);
    RoundInCall(ps, tasks);
    RightInCall(f, codes, turns, tasks, recs, table);
    Prepend(Procs(), ps, later);
    tr := [ps] + later;
    assert tr[|tr| - 1] == later[|later| - 1];
  }

  /** The first k calls run in lockstep up to the next one; at every moment before, everybody's
      record and codes are those of the program at the call the process has come to. */
  lemma {:induction false} UpToCall(f: File, codes: seq<seq<int>>, turns: seq<Turn>, k: nat, recs: seq<File>, table: seq<seq<int>>)
    returns (tr: seq<seq<Proc>>, later: seq<seq<int>>)
    requires Consistent(f) && f.flags.safe && TurnsOk(turns, |codes|) && k <= |turns|
    requires SmoothProgram(f, turns[..k], |codes|)
    requires recs == Records(f, turns, |codes|) && table == Codes(f, turns, |codes|)
    ensures GoesTo(tr, later, f, codes, turns, k, recs, table)
    decreases k
  {
    if k == 0 {
      AtFirst(f, codes, turns, recs, table);
      tr, later := [Settled(Gate(f, codes, turns))], codes;
    } else {
      var g, codes' := FirstStep(f, codes, turns, k, recs, table);
      var rest;
      rest, later := UpToCall(g, codes', turns[1..], k - 1, recs[1..], table[1..]);
      assert SomeGoesTo(later, f, codes, turns, k, recs, table);
      tr :| GoesTo(tr, later, f, codes, turns, k, recs, table);
    }
  }

  /** The trace leads to the k-th call, and everything before it is right. */
  ghost predicate GoesTo(tr: seq<seq<Proc>>, later: seq<seq<int>>, f: File, codes: seq<seq<int>>, turns: seq<Turn>, k: nat,
                         recs: seq<File>, table: seq<seq<int>>)
    requires TurnsOk(turns, |codes|) && k <= |turns| == |table| && BookOk(recs, table, |codes|)
  {
    && |later| == |codes| && (forall i :: 0 <= i < |codes| ==> |later[i]| == |codes[i]| + k)
    && IsTrace(Procs(), tr, Settled(Gate(f, codes, turns))) && TraceRight(tr, recs, table, codes)
    && tr[|tr| - 1] == Settled(Gate(recs[k], later, turns[k..]))
    && AllRight(Gate(recs[k], later, turns[k..]), recs, table, codes)
  }

  ghost predicate SomeGoesTo(later: seq<seq<int>>, f: File, codes: seq<seq<int>>, turns: seq<Turn>, k: nat,
                             recs: seq<File>, table: seq<seq<int>>)
    requires TurnsOk(turns, |codes|) && k <= |turns| == |table| && BookOk(recs, table, |codes|)
  {
    exists tr :: GoesTo(tr, later, f, codes, turns, k, recs, table)
  }

  /** A trace of the one program extends to one of the other. */
  ghost predicate GoesOn(g: File, codes': seq<seq<int>>, turns': seq<Turn>, k': nat, recs': seq<File>, table': seq<seq<int>>,
                         f: File, codes: seq<seq<int>>, turns: seq<Turn>, k: nat, recs: seq<File>, table: seq<seq<int>>)
    requires TurnsOk(turns', |codes'|) && k' <= |turns'| == |table'| && BookOk(recs', table', |codes'|)
    requires TurnsOk(turns, |codes|) && k <= |turns| == |table| && BookOk(recs, table, |codes|)
  {
    forall rest, later :: GoesTo(rest, later, g, codes', turns', k', recs', table') ==>
      SomeGoesTo(later, f, codes, turns, k, recs, table)
  }

  /** What the program is after its first call, and that a trace from there extends to one from
      before it. */
  lemma FirstStep(f: File, codes: seq<seq<int>>, turns: seq<Turn>, k: nat, recs: seq<File>, table: seq<seq<int>>)
    returns (g: File, codes': seq<seq<int>>)
    requires Consistent(f) && f.flags.safe && TurnsOk(turns, |codes|) && 0 < k <= |turns|
    requires SmoothProgram(f, turns[..k], |codes|)
    requires recs == Records(f, turns, |codes|) && table == Codes(f, turns, |codes|)
    ensures Consistent(g) && g.flags.safe && |codes'| == |codes| && SmoothProgram(g, turns[1..][..k - 1], |codes|)
    ensures recs[1..] == Records(g, turns[1..], |codes|) && table[1..] == Codes(g, turns[1..], |codes|)
    ensures GoesOn(g, codes', turns[1..], k - 1, recs[1..], table[1..], f, codes, turns, k, recs, table)
  {
    FirstOfSmooth(f, turns, |codes|, k);
    OneLater(f, turns, |codes|);
    g, codes' := NextRecord(f, turns[0]), MoreCodes(f, codes, turns[0]);
    var turns', k', recs', table' := turns[1..], k - 1, recs[1..], table[1..];
    forall rest, later | GoesTo(rest, later, g, codes', turns', k', recs', table')
      ensures SomeGoesTo(later, f, codes, turns, k, recs, table)
    {
      var tr := OneCallMore(f, codes, turns, k, recs, table, rest, later);
    }
  }

  lemma AtFirst(f: File, codes: seq<seq<int>>, turns: seq<Turn>, recs: seq<File>, table: seq<seq<int>>)
    requires TurnsOk(turns, |codes|) && |turns| == |table| && BookOk(recs, table, |codes|) && recs[0] == f
    ensures GoesTo([Settled(Gate(f, codes, turns))], codes, f, codes, turns, 0, recs, table)
  {
    assert turns[0..] == turns;
    RightAtGate(f, codes, turns, recs, table);
  }

  lemma OneCallMore(f: File, codes: seq<seq<int>>, turns: seq<Turn>, k: nat, recs: seq<File>, table: seq<seq<int>>,
                    rest: seq<seq<Proc>>, later: seq<seq<int>>) returns (tr: seq<seq<Proc>>)
    requires Consistent(f) && f.flags.safe && TurnsOk(turns, |codes|) && BookOk(recs, table, |codes|)
    requires 0 < k <= |turns| == |table| && TurnReady(f, turns[0]) && Smooth(f, turns[0].cs) && recs[0] == f
    requires forall i :: 0 <= i < |codes| ==> table[0][i] == CodeOf(f, turns[0], i)
    requires GoesTo(rest, later, NextRecord(f, turns[0]), MoreCodes(f, codes, turns[0]), turns[1..], k - 1, recs[1..], table[1..])
    ensures GoesTo(tr, later, f, codes, turns, k, recs, table)
  {
    var codes' := MoreCodes(f, codes, turns[0]);
    assert turns[1..][k - 1..] == turns[k..];
    RightLater(Gate(recs[k], later, turns[k..]), recs, table, codes, codes');
    tr := OneCallInFront(f, codes, turns, rest, recs, table);
  }

  /** A program that goes well up to its k-th call does so in the first call and from there. */
  lemma FirstOfSmooth(f: File, turns: seq<Turn>, n: nat, k: nat)
    requires Consistent(f) && f.flags.safe && TurnsOk(turns, n) && 0 < k <= |turns| && SmoothProgram(f, turns[..k], n)
    ensures TurnReady(f, turns[0]) && Smooth(f, turns[0].cs)
    ensures var g := NextRecord(f, turns[0]);
      Consistent(g) && g.flags.safe && SmoothProgram(g, turns[1..][..k - 1], n)
  {
    assert turns[..k][0] == turns[0] && turns[..k][1..] == turns[1..][..k - 1];
    TurnIsReady(f, turns[0], n);
    NextRecordKeeps(f, turns[0]);
  }

  lemma OneCallInFront(f: File, codes: seq<seq<int>>, turns: seq<Turn>, rest: seq<seq<Proc>>, recs: seq<File>, table: seq<seq<int>>)
    returns (tr: seq<seq<Proc>>)
    requires Consistent(f) && f.flags.safe && TurnsOk(turns, |codes|) && turns != [] && BookOk(recs, table, |codes|)
    requires TurnReady(f, turns[0]) && Smooth(f, turns[0].cs) && recs[0] == f && table != []
    requires forall i :: 0 <= i < |codes| ==> table[0][i] == CodeOf(f, turns[0], i)
    requires IsTrace(Procs(), rest, Settled(Gate(NextRecord(f, turns[0]), MoreCodes(f, codes, turns[0]), turns[1..])))
    requires TraceRight(rest, recs[1..], table[1..], MoreCodes(f, codes, turns[0]))
    ensures IsTrace(Procs(), tr, Settled(Gate(f, codes, turns))) && TraceRight(tr, recs, table, codes)
    ensures tr[|tr| - 1] == rest[|rest| - 1]
  {
    var r := turns[0];
    var ctr := CallCompletes(f, r.cs, r.io);
    var last := ctr[|ctr| - 1];
    forall i | 0 <= i < |last| ensures !last[i].spilt { assert last[i] in last; }
    GateOpens(f, codes, turns);
    GateCloses(f, codes, turns, last);
    forall k | 0 <= k < |rest| - 1 ensures AllRight(rest[k], recs, table, codes) {
      RightLater(rest[k], recs, table, codes, MoreCodes(f, codes, r));
    }
    tr := CallInFront(f, codes, turns, ctr, 0, rest, recs, table);
  }

  /** A program that goes well runs to its end. */
  lemma ProgramCompletes(f: File, codes: seq<seq<int>>, turns: seq<Turn>) returns (tr: seq<seq<Proc>>)
    requires Consistent(f) && f.flags.safe && TurnsOk(turns, |codes|) && SmoothProgram(f, turns, |codes|)
    ensures IsComplete(Procs(), tr, Settled(Gate(f, codes, turns)))
    ensures forall k :: 0 <= k < |tr| ==> AllRight(tr[k], Records(f, turns, |codes|), Codes(f, turns, |codes|), codes)
    ensures LastCounts(tr[|tr| - 1], codes, |turns|)
  {
    var later;
    assert turns[..|turns|] == turns;
    var recs := Records(f, turns, |codes|);
    tr, later := UpToCall(f, codes, turns, |turns|, recs, Codes(f, turns, |codes|));
    AtTheEnd(recs[|turns|], later, turns[|turns|..]);
  }

  /** With no calls left, everybody is home. */
  lemma AtTheEnd(f: File, codes: seq<seq<int>>, turns: seq<Turn>)
    requires TurnsOk(turns, |codes|) && turns == []
    ensures Settled(Gate(f, codes, turns)) == Gate(f, codes, turns) && AllHome(Procs(), Gate(f, codes, turns))
  {
  }

  ghost predicate LastCounts(ps: seq<Proc>, codes: seq<seq<int>>, calls: nat) {
    |ps| == |codes| && forall i :: 0 <= i < |ps| ==> |ps[i].codes| == |codes[i]| + calls
  }

  /* ---------------- every interleaving of the programs ---------------- */

  /** Every process is right about the call it has come to. */
  ghost predicate InStep(m: Net<Proc>, f: File, turns: seq<Turn>, n: nat)
    requires Consistent(f) && f.flags.safe && TurnsOk(turns, n)
  {
    |m.procs| == n && AllRight(m.procs, Records(f, turns, n), Codes(f, turns, n), seq(n, _ => []))
  }

  /** Whole programs with arbitrary arguments, in any interleaving, with processes in different
      calls at once: no mismatched collectives, nobody stuck, a bound on the moves; and at every
      moment, for every process, as many calls as it has made, its record and its codes are those
      that the program determines. */
  lemma EveryInterleaving(f: File, turns: seq<Turn>, n: nat, run: seq<Net<Proc>>)
    requires Consistent(f) && f.flags.safe && TurnsOk(turns, n) && SmoothProgram(f, turns, n)
    requires IsRun(Procs(), run, Launch(f, turns, n))
    ensures !Mismatch(Last(run)) && InStep(Last(run), f, turns, n)
    ensures AllHome(Procs(), Last(run).procs) || CanMove(Procs(), Last(run))
    ensures AllHome(Procs(), Last(run).procs) ==> forall i :: 0 <= i < n ==> |Last(run).procs[i].codes| == |turns|
    ensures |run| - 1 <= n * (2 * (10 * |turns|))
  {
    var none: seq<seq<int>> := seq(n, _ => []);
    var w := Launch(f, turns, n);
    var tr := ProgramCompletes(f, none, turns);
    var m := Last(run);
    RunFollows(Procs(), tr, w, run);
    NoMismatch(Procs(), tr, w, run);
    Progress(Procs(), tr, w, run);
    RightAnywhere(tr, w, run, Records(f, turns, n), Codes(f, turns, n), none);
    if AllHome(Procs(), m.procs) { FinalIsLockstep(Procs(), tr, w, run); }
    ProcsDwindle();
    LaunchLoad(f, turns, n);
    RunsEnd(Procs(), run, w, 10 * |turns|);
  }

  /** What holds all along the lockstep execution holds at every moment of every interleaving. */
  lemma RightAnywhere(tr: seq<seq<Proc>>, w: seq<Proc>, run: seq<Net<Proc>>, recs: seq<File>, table: seq<seq<int>>,
                      codes: seq<seq<int>>)
    requires IsComplete(Procs(), tr, w) && IsRun(Procs(), run, w) && |w| == |codes| && BookOk(recs, table, |codes|)
    requires forall k :: 0 <= k < |tr| ==> AllRight(tr[k], recs, table, codes)
    ensures AllRight(Last(run).procs, recs, table, codes)
  {
    var m := Last(run);
    RunFollows(Procs(), tr, w, run);
    forall i | 0 <= i < |m.procs| ensures Right(m.procs[i], i, recs, table, codes) {
      RoundsBounded(Procs(), tr, w, m, i);
      assert AllRight(tr[m.round[i]], recs, table, codes);
    }
  }

  lemma LaunchLoad(f: File, turns: seq<Turn>, n: nat)
    requires TurnsOk(turns, n)
    ensures forall i :: 0 <= i < n ==> Procs().weight(Launch(f, turns, n)[i]) <= 10 * |turns|
  {
    forall i | 0 <= i < n ensures Load(Launch(f, turns, n)[i]) <= 10 * |turns| {
      SettleLoad(Waiting(f, seq(n, _ => []), turns, i));
    }
  }

  /** Processes that have made equally many calls have equal records, however far apart the others
      are. */
  lemma EqualCallsEqualRecords(f: File, turns: seq<Turn>, n: nat, m: Net<Proc>, i: nat, j: nat)
    requires Consistent(f) && f.flags.safe && TurnsOk(turns, n) && InStep(m, f, turns, n) && i < n && j < n
    ensures |m.procs[i].codes| == |m.procs[j].codes| ==> m.procs[i].rec == m.procs[j].rec
    ensures |m.procs[i].codes| <= |turns| && m.procs[i].rec == RecordAt(f, turns, n, |m.procs[i].codes|)
  {
    RightRecord(m.procs[i], i, Records(f, turns, n), Codes(f, turns, n), seq(n, _ => []));
    RightRecord(m.procs[j], j, Records(f, turns, n), Codes(f, turns, n), seq(n, _ => []));
  }

  lemma RightRecord(p: Proc, i: nat, recs: seq<File>, table: seq<seq<int>>, none: seq<seq<int>>)
    requires BookOk(recs, table, |none|) && i < |none| && none[i] == [] && Right(p, i, recs, table, none)
    ensures |p.codes| <= |table| && p.rec == recs[|p.codes|]
  {
  }

  lemma CodeInStep(f: File, turns: seq<Turn>, n: nat, m: Net<Proc>, i: nat, k: nat)
    requires Consistent(f) && f.flags.safe && TurnsOk(turns, n) && InStep(m, f, turns, n) && i < n
    requires k < |m.procs[i].codes|
    ensures k < |turns| && TurnReady(RecordAt(f, turns, n, k), turns[k])
    ensures m.procs[i].codes[k] == CodeOf(RecordAt(f, turns, n, k), turns[k], i)
  {
    RightCode(m.procs[i], i, Records(f, turns, n), Codes(f, turns, n), seq(n, _ => []), k);
    TurnIsReady(RecordAt(f, turns, n, k), turns[k], n);
  }

  lemma RightCode(p: Proc, i: nat, recs: seq<File>, table: seq<seq<int>>, none: seq<seq<int>>, k: nat)
    requires BookOk(recs, table, |none|) && i < |none| && none[i] == [] && k < |p.codes| && Right(p, i, recs, table, none)
    ensures k < |table| && p.codes[k] == table[k][i]
  {
    assert p.codes[0 + k] == table[k][i];
  }

  /** Two processes that have made a call have the same code from it, if it is one that has one
      code for everybody. */
  lemma EqualCodes(f: File, turns: seq<Turn>, n: nat, m: Net<Proc>, i: nat, j: nat, k: nat)
    requires Consistent(f) && f.flags.safe && TurnsOk(turns, n) && InStep(m, f, turns, n) && i < n && j < n
    requires k < |m.procs[i].codes| && k < |m.procs[j].codes|
    ensures k < |turns| && TurnReady(RecordAt(f, turns, n, k), turns[k])
    ensures OneCode(RecordAt(f, turns, n, k), turns[k]) ==> m.procs[i].codes[k] == m.procs[j].codes[k]
  {
    CodeInStep(f, turns, n, m, i, k);
    CodeInStep(f, turns, n, m, j, k);
    var g, r := RecordAt(f, turns, n, k), turns[k];
    if OneCode(g, r) { assert CodeOf(g, r, i) == CodeOf(g, r, 0) && CodeOf(g, r, j) == CodeOf(g, r, 0); }
  }

  /* ---------------- what the program keeps ---------------- */

  /** What a file keeps for life. */
  ghost predicate Faithful(g: File, birth: File) {
    && Consistent(g) && ReadOnlySafe(g)
    && g.flags.rdonly == birth.flags.rdonly
    && (birth.unlimdimid != -1 ==> g.unlimdimid == birth.unlimdimid)
    && g.nrecVars - CountRec(g.vars) == birth.nrecVars - CountRec(birth.vars)
  }

  lemma NextRecordFaithful(f: File, birth: File, r: Turn)
    requires TurnReady(f, r) && Faithful(f, birth)
    ensures Faithful(NextRecord(f, r), birth)
  {
    NextRecordKeeps(f, r);
    if AllPass(f, r.cs) && Unanimous(f, r.cs) {
      ReadOnlyKept(f, r.cs[0], r.io);
      RecordCounterDrift(f, r.cs[0], r.io);
      if f.unlimdimid != -1 { UnlimitedDimensionStays(f, r.cs[0], r.io); }
    }
  }

  /** After every call the record agrees with the driver, is never in define mode if read-only,
      keeps its unlimited dimension and the distance of the record counter. */
  lemma {:induction false} RecordsFaithful(f: File, birth: File, turns: seq<Turn>, n: nat, k: nat)
    requires Consistent(f) && f.flags.safe && TurnsOk(turns, n) && k <= |turns| && Faithful(f, birth)
    ensures Faithful(RecordAt(f, turns, n, k), birth)
    decreases k
  {
    if k > 0 {
      TurnIsReady(f, turns[0], n);
      NextRecordKeeps(f, turns[0]);
      NextRecordFaithful(f, birth, turns[0]);
      RecordsFaithful(NextRecord(f, turns[0]), birth, turns[1..], n, k - 1);
    }
  }

  /** Nothing but the independent-mode bits differs. */
  ghost predicate SameMetadata(g: File, f: File) {
    g == f.(flags := f.flags.(indep := g.flags.indep), driver := f.driver.(inIndep := g.driver.inIndep))
  }

  /** No program changes a read-only file's dimensions, variables, attributes or define mode. */
  lemma {:induction false} ReadOnlyUnchanged(f: File, turns: seq<Turn>, n: nat, k: nat)
    requires Consistent(f) && f.flags.safe && TurnsOk(turns, n) && k <= |turns| && f.flags.rdonly && ReadOnlySafe(f)
    ensures SameMetadata(RecordAt(f, turns, n, k), f)
    decreases k
  {
    if k > 0 {
      TurnIsReady(f, turns[0], n);
      NextRecordKeeps(f, turns[0]);
      ReadOnlyTurn(f, turns[0]);
      ReadOnlyUnchanged(NextRecord(f, turns[0]), turns[1..], n, k - 1);
    }
  }

  lemma ReadOnlyTurn(f: File, r: Turn)
    requires TurnReady(f, r) && f.flags.rdonly && ReadOnlySafe(f)
    ensures SameMetadata(NextRecord(f, r), f)
  {
    if AllPass(f, r.cs) { ReadOnlyNeverDefined(f, r.cs[0]); }
  }

  /** Call number k leaves the dispatchers' modes and the drivers' apart. */
  ghost predicate PartsAt(f: File, turns: seq<Turn>, n: nat, k: nat)
    requires Consistent(f) && f.flags.safe && TurnsOk(turns, n) && k < |turns|
  {
    var g, r := RecordAt(f, turns, n, k), turns[k];
    AllPass(g, r.cs) && Unanimous(g, r.cs) && CallOk(r.cs[0]) && Parts(g, r.cs[0], r.io)
  }

  ghost predicate AgreeAt(f: File, turns: seq<Turn>, n: nat, k: nat)
    requires Consistent(f) && f.flags.safe && TurnsOk(turns, n) && k <= |turns|
  {
    ModesAgree(RecordAt(f, turns, n, k))
  }

  lemma TurnParts(f: File, r: Turn)
    requires TurnReady(f, r) && ModesAgree(f)
    ensures ModesAgree(NextRecord(f, r)) <==> !(AllPass(f, r.cs) && Unanimous(f, r.cs) && Parts(f, r.cs[0], r.io))
  {
    if AllPass(f, r.cs) && Unanimous(f, r.cs) { ModesAgreeIff(f, r.cs[0], r.io); }
  }

  /** The modes agree throughout the first k calls if and only if none of them parts them. */
  lemma {:induction false} AgreeWhileIff(f: File, turns: seq<Turn>, n: nat, k: nat)
    requires Consistent(f) && f.flags.safe && TurnsOk(turns, n) && k <= |turns| && ModesAgree(f)
    ensures (forall j: nat :: j <= k ==> AgreeAt(f, turns, n, j)) <==> (forall j: nat :: j < k ==> !PartsAt(f, turns, n, j))
    decreases k
  {
    if k > 0 {
      TurnIsReady(f, turns[0], n);
      NextRecordKeeps(f, turns[0]);
      TurnParts(f, turns[0]);
      var g, turns' := NextRecord(f, turns[0]), turns[1..];
      assert AgreeAt(f, turns, n, 0);
      assert AgreeAt(f, turns, n, 1) <==> ModesAgree(g);
      forall j: nat | j < k ensures AgreeAt(f, turns, n, j + 1) <==> AgreeAt(g, turns', n, j) {}
      forall j: nat | j < k - 1 ensures PartsAt(f, turns, n, j + 1) <==> PartsAt(g, turns', n, j) {}
      if ModesAgree(g) {
        AgreeWhileIff(g, turns', n, k - 1);
        ShiftedIff(f, turns, n, k, g, turns');
      } else {
        assert PartsAt(f, turns, n, 0);
      }
    }
  }

  lemma ShiftedIff(f: File, turns: seq<Turn>, n: nat, k: nat, g: File, turns': seq<Turn>)
    requires Consistent(f) && f.flags.safe && TurnsOk(turns, n) && 0 < k <= |turns|
    requires Consistent(g) && g.flags.safe && TurnsOk(turns', n) && |turns'| == |turns| - 1
    requires AgreeAt(f, turns, n, 0) && !PartsAt(f, turns, n, 0)
    requires forall j: nat :: j < k ==> (AgreeAt(f, turns, n, j + 1) <==> AgreeAt(g, turns', n, j))
    requires forall j: nat :: j < k - 1 ==> (PartsAt(f, turns, n, j + 1) <==> PartsAt(g, turns', n, j))
    requires (forall j: nat :: j <= k - 1 ==> AgreeAt(g, turns', n, j)) <==> (forall j: nat :: j < k - 1 ==> !PartsAt(g, turns', n, j))
    ensures (forall j: nat :: j <= k ==> AgreeAt(f, turns, n, j)) <==> (forall j: nat :: j < k ==> !PartsAt(f, turns, n, j))
  {
    if forall j: nat :: j <= k ==> AgreeAt(f, turns, n, j) {
      forall j: nat | j <= k - 1 ensures AgreeAt(g, turns', n, j) { assert AgreeAt(f, turns, n, j + 1); }
      forall j: nat | j < k ensures !PartsAt(f, turns, n, j) {
        if j > 0 { assert !PartsAt(g, turns', n, j - 1); }
      }
    }
    if forall j: nat :: j < k ==> !PartsAt(f, turns, n, j) {
      forall j: nat | j < k - 1 ensures !PartsAt(g, turns', n, j) { assert !PartsAt(f, turns, n, j + 1); }
      forall j: nat | j <= k ensures AgreeAt(f, turns, n, j) {
        if j > 0 { assert AgreeAt(g, turns', n, j - 1); }
      }
    }
  }

  /** In a program of which no call so far has parted the modes, an ncmpi_def_var_fill that all
      processes ask for alike fails on all of them if it gives a value to a variable from before the
      last redef, and succeeds on all of them otherwise. */
  lemma FillCodeAt(f: File, turns: seq<Turn>, n: nat, k: nat, i: nat)
    requires Consistent(f) && f.flags.safe && TurnsOk(turns, n) && k < |turns| && i < n && ModesAgree(f)
    requires forall j: nat :: j < k ==> !PartsAt(f, turns, n, j)
    requires var g, cs := RecordAt(f, turns, n, k), turns[k].cs; cs[0].DefVarFill? && AllPass(g, cs) && Unanimous(g, cs)
    ensures var g, c := RecordAt(f, turns, n, k), turns[k].cs[0];
      CodeAt(f, turns, n, k, i) == if c.fill.Some? && c.noFill == 0 && IsOld(g.driver, c.varid) then NC_ELATEFILL else NC_NOERR
  {
    AgreeWhileIff(f, turns, n, k);
    assert AgreeAt(f, turns, n, k);
    TurnIsReady(RecordAt(f, turns, n, k), turns[k], n);
    FillWhileAgreed(RecordAt(f, turns, n, k), turns[k].cs[0], turns[k].io);
  }

  /** A program goes well if and only if every call does, on the record it finds. */
  lemma {:induction false} SmoothIff(f: File, turns: seq<Turn>, n: nat)
    requires Consistent(f) && f.flags.safe && TurnsOk(turns, n)
    ensures SmoothProgram(f, turns, n) <==> forall k: nat :: k < |turns| ==> SmoothAt(f, turns, n, k)
    decreases |turns|
  {
    if turns != [] {
      TurnIsReady(f, turns[0], n);
      NextRecordKeeps(f, turns[0]);
      var g := NextRecord(f, turns[0]);
      SmoothIff(g, turns[1..], n);
      assert forall k: nat :: k < |turns| - 1 ==> (SmoothAt(g, turns[1..], n, k) <==> SmoothAt(f, turns, n, k + 1));
      assert SmoothAt(f, turns, n, 0) <==> Smooth(f, turns[0].cs);
      forall k: nat | k < |turns| && SmoothProgram(f, turns, n) ensures SmoothAt(f, turns, n, k) {
        if k > 0 { assert SmoothAt(g, turns[1..], n, k - 1); }
      }
    }
  }

  ghost predicate SmoothAt(f: File, turns: seq<Turn>, n: nat, k: nat)
    requires Consistent(f) && f.flags.safe && TurnsOk(turns, n) && k < |turns|
  {
    Smooth(RecordAt(f, turns, n, k), turns[k].cs)
  }
}
