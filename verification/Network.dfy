/** Processes that meet in MPI collectives, in any interleaving.

    What a process is does not matter here: it has a next collective until it is done, and goes on
    with what the collective answers. Processes enter and leave collectives one at a time, in any
    order. A broadcast releases the root at once and every other process once the root has entered;
    an allreduce releases nobody until everybody has entered. The second half is the lockstep
    execution that every interleaving is proved to compute. */
module Network {

  datatype DType = INT | CHAR | OFFSET | BYTE

  datatype Data = Ints(xs: seq<int>) | Text(s: string)

  /** One process's call of a collective, with what it contributes. */
  datatype Coll = Allreduce(v: int) | Bcast(count: int, dtype: DType, data: Data)

  predicate Match(a: Coll, b: Coll) {
    || (a.Allreduce? && b.Allreduce?)
    || (a.Bcast? && b.Bcast? && a.count == b.count && a.dtype == b.dtype)
  }

  datatype Reply = MinE(minE: int) | Got(data: Data)

  predicate Fits(c: Coll, r: Reply) {
    c.Allreduce? == r.MinE?
  }

  /** A kind of process. `weight` bounds the collectives that are still ahead of it. */
  datatype Machine<!P> = Machine(done: P -> bool, act: P -> Coll, adv: (P, Reply) -> P, weight: P -> nat)

  ghost predicate Dwindles<P(!new)>(mc: Machine<P>) {
    forall p: P, r: Reply :: !mc.done(p) && Fits(mc.act(p), r) ==> mc.weight(mc.adv(p, r)) < mc.weight(p)
  }

  function MinOf(s: seq<int>): (m: int)
    requires s != []
    ensures m in s
    ensures forall v :: v in s ==> m <= v
  {
    if |s| == 1 then s[0]
    else
      var m := MinOf(s[1..]);
      assert s == [s[0]] + s[1..];
      if s[0] < m then s[0] else m
  }

  /* ---------------- interleavings ---------------- */

  /** `round[i]` collectives are behind process i; `posted[i]`: it is inside the next one.
      The log keeps every contribution by (round, process). */
  datatype Net<P> = Net(procs: seq<P>, round: seq<nat>, posted: seq<bool>, log: map<(nat, nat), Coll>)

  ghost predicate NetOk<P>(m: Net<P>) {
    |m.procs| == |m.round| == |m.posted| > 0
  }

  function Start<P>(w: seq<P>): Net<P> {
    Net(w, seq(|w|, _ => 0), seq(|w|, _ => false), map[])
  }

  ghost predicate AllIn<P>(m: Net<P>, k: nat) {
    forall j: nat :: j < |m.procs| ==> (k, j) in m.log && m.log[(k, j)].Allreduce?
  }

  ghost predicate Released<P>(m: Net<P>, i: nat)
    requires i < |m.round|
  {
    var k := m.round[i];
    && (k, i) in m.log
    && (m.log[(k, i)].Bcast? ==> (k, 0) in m.log && m.log[(k, 0)].Bcast?)
    && (m.log[(k, i)].Allreduce? ==> AllIn(m, k))
  }

  ghost function Answer<P>(m: Net<P>, i: nat): Reply
    requires NetOk(m) && i < |m.procs| && Released(m, i)
  {
    var k := m.round[i];
    if m.log[(k, i)].Bcast? then Got(m.log[(k, 0)].data)
    else MinE(MinOf(seq(|m.procs|, j requires 0 <= j < |m.procs| && AllIn(m, k) => m.log[(k, j)].v)))
  }

  /** Process i can move: it enters its next collective, or leaves the one it is in. */
  ghost predicate Enabled<P>(mc: Machine<P>, m: Net<P>, i: nat) {
    && NetOk(m) && i < |m.procs|
    && (if m.posted[i] then Released(m, i) else !mc.done(m.procs[i]))
  }

  ghost predicate CanMove<P>(mc: Machine<P>, m: Net<P>) {
    exists i: nat :: Enabled(mc, m, i)
  }

  ghost function Enter<P>(mc: Machine<P>, m: Net<P>, i: nat): Net<P>
    requires Enabled(mc, m, i) && !m.posted[i]
  {
    m.(posted := m.posted[i := true], log := m.log[(m.round[i], i) := mc.act(m.procs[i])])
  }

  ghost function Leave<P>(mc: Machine<P>, m: Net<P>, i: nat): Net<P>
    requires Enabled(mc, m, i) && m.posted[i]
  {
    m.(procs := m.procs[i := mc.adv(m.procs[i], Answer(m, i))],
       round := m.round[i := m.round[i] + 1],
       posted := m.posted[i := false])
  }

  ghost predicate Move<P(!new)>(mc: Machine<P>, m: Net<P>, m': Net<P>, i: nat) {
    Enabled(mc, m, i) && m' == if m.posted[i] then Leave(mc, m, i) else Enter(mc, m, i)
  }

  ghost predicate Next<P(!new)>(mc: Machine<P>, m: Net<P>, m': Net<P>) {
    exists i: nat :: Move(mc, m, m', i)
  }

  ghost predicate IsRun<P(!new)>(mc: Machine<P>, run: seq<Net<P>>, w: seq<P>) {
    && run != [] && run[0] == Start(w)
    && (forall n :: 0 <= n < |run| - 1 ==> Next(mc, run[n], run[n + 1]))
  }

  function Last<P>(run: seq<Net<P>>): Net<P>
    requires run != []
  {
    run[|run| - 1]
  }

  /** A run that cannot go on. */
  ghost predicate IsMaximal<P(!new)>(mc: Machine<P>, run: seq<Net<P>>, w: seq<P>) {
    IsRun(mc, run, w) && !CanMove(mc, Last(run))
  }

  /** Two processes are in the same round of the communicator with calls that do not match:
      an erroneous MPI program. */
  ghost predicate Mismatch<P>(m: Net<P>) {
    exists k: nat, i: nat, j: nat ::
      (k, i) in m.log && (k, j) in m.log && !Match(m.log[(k, i)], m.log[(k, j)])
  }

  /** And that in one of the first r rounds. */
  ghost predicate MismatchBefore<P>(m: Net<P>, r: nat) {
    exists k: nat, i: nat, j: nat ::
      k < r && (k, i) in m.log && (k, j) in m.log && !Match(m.log[(k, i)], m.log[(k, j)])
  }

  ghost predicate AllHome<P>(mc: Machine<P>, w: seq<P>) {
    forall i :: 0 <= i < |w| ==> mc.done(w[i])
  }

  /* ---------------- the lockstep execution ---------------- */

  /** Nobody is done, and everybody enters the same collective. */
  ghost predicate Matched<P>(mc: Machine<P>, w: seq<P>) {
    && w != []
    && (forall i :: 0 <= i < |w| ==> !mc.done(w[i]))
    && (forall i :: 0 <= i < |w| ==> Match(mc.act(w[0]), mc.act(w[i])))
  }

  ghost function Offer<P>(mc: Machine<P>, p: P): int {
    if !mc.done(p) && mc.act(p).Allreduce? then mc.act(p).v else 0
  }

  ghost function Answered<P>(mc: Machine<P>, w: seq<P>): Reply
    requires w != []
  {
    if !mc.done(w[0]) && mc.act(w[0]).Bcast? then Got(mc.act(w[0]).data)
    else MinE(MinOf(seq(|w|, i requires 0 <= i < |w| => Offer(mc, w[i]))))
  }

  ghost function Round<P>(mc: Machine<P>, w: seq<P>): (w': seq<P>)
    requires w != []
    ensures |w'| == |w|
  {
    var r := Answered(mc, w);
    seq(|w|, i requires 0 <= i < |w| => mc.adv(w[i], r))
  }

  /** Every state follows from the one before by a round; all but the last are matched. */
  ghost predicate IsTrace<P(!new)>(mc: Machine<P>, tr: seq<seq<P>>, w: seq<P>) {
    && tr != [] && tr[0] == w && w != []
    && (forall k :: 0 <= k < |tr| ==> |tr[k]| == |w|)
    && (forall k :: 0 <= k < |tr| - 1 ==> Matched(mc, tr[k]) && tr[k + 1] == Round(mc, tr[k]))
  }

  lemma Prepend<P(!new)>(mc: Machine<P>, w: seq<P>, rest: seq<seq<P>>)
    requires Matched(mc, w) && IsTrace(mc, rest, Round(mc, w))
    ensures IsTrace(mc, [w] + rest, w)
  {
    var tr := [w] + rest;
    forall k | 0 <= k < |tr| - 1 ensures Matched(mc, tr[k]) && tr[k + 1] == Round(mc, tr[k]) {
      if k > 0 { assert tr[k] == rest[k - 1] && tr[k + 1] == rest[k]; }
    }
  }

  /** One trace, and another from where it ends. */
  lemma Longer<P(!new)>(mc: Machine<P>, a: seq<seq<P>>, b: seq<seq<P>>, w: seq<P>) returns (tr: seq<seq<P>>)
    requires IsTrace(mc, a, w) && b != [] && IsTrace(mc, b, a[|a| - 1])
    ensures IsTrace(mc, tr, w) && |tr| == |a| + |b| - 1 && tr[|a| - 1] == a[|a| - 1] && tr[|tr| - 1] == b[|b| - 1]
  {
    tr := a + b[1..];
    forall k | 0 <= k < |tr| - 1 ensures Matched(mc, tr[k]) && tr[k + 1] == Round(mc, tr[k]) {
      if k < |a| - 1 {
        assert tr[k] == a[k] && tr[k + 1] == a[k + 1];
      } else {
        assert tr[k] == b[k - (|a| - 1)] && tr[k + 1] == b[k + 1 - (|a| - 1)];
      }
    }
  }

  /** A lockstep execution that brings everybody home. */
  ghost predicate IsComplete<P(!new)>(mc: Machine<P>, tr: seq<seq<P>>, w: seq<P>) {
    IsTrace(mc, tr, w) && AllHome(mc, tr[|tr| - 1])
  }

  /* ---------------- every interleaving computes the lockstep execution ---------------- */

  /** Processes are where the lockstep execution puts them after as many rounds. */
  ghost predicate OnTrack<P(!new)>(tr: seq<seq<P>>, m: Net<P>) {
    forall i: nat :: i < |m.procs| && i < |m.round| && m.round[i] < |tr| ==>
      i < |tr[m.round[i]]| && m.procs[i] == tr[m.round[i]][i]
  }

  /** The log holds what processes have contributed, and nothing else. */
  ghost predicate LogExact<P>(m: Net<P>) {
    forall k: nat, i: nat :: (k, i) in m.log <==>
      i < |m.round| && i < |m.posted| && (k < m.round[i] || (k == m.round[i] && m.posted[i]))
  }

  ghost predicate LogTrue<P(!new)>(mc: Machine<P>, tr: seq<seq<P>>, m: Net<P>) {
    forall k: nat, i: nat :: (k, i) in m.log && k < |tr| ==>
      i < |tr[k]| && !mc.done(tr[k][i]) && m.log[(k, i)] == mc.act(tr[k][i])
  }

  ghost predicate Follows<P(!new)>(mc: Machine<P>, tr: seq<seq<P>>, m: Net<P>) {
    && NetOk(m) && tr != [] && |m.procs| == |tr[0]|
    && OnTrack(tr, m) && LogExact(m) && LogTrue(mc, tr, m)
  }

  lemma FollowsEnter<P(!new)>(mc: Machine<P>, tr: seq<seq<P>>, w: seq<P>, m: Net<P>, i: nat)
    requires IsTrace(mc, tr, w) && Follows(mc, tr, m) && Enabled(mc, m, i) && !m.posted[i]
    ensures Follows(mc, tr, Enter(mc, m, i))
  {
  }

  lemma AnswerIsAnswered<P(!new)>(mc: Machine<P>, t: seq<P>, m: Net<P>, i: nat)
    requires NetOk(m) && i < |m.procs| == |t| && Released(m, i) && Matched(mc, t)
    requires forall j: nat :: (m.round[i], j) in m.log ==>
      j < |t| && !mc.done(t[j]) && m.log[(m.round[i], j)] == mc.act(t[j])
    ensures Answer(m, i) == Answered(mc, t)
  {
    var k := m.round[i];
    assert (k, i) in m.log && !mc.done(t[i]);
    assert Match(mc.act(t[0]), mc.act(t[i]));
    if m.log[(k, i)].Allreduce? {
      forall j: nat | j < |t| ensures m.log[(k, j)].v == Offer(mc, t[j]) {
        assert (k, j) in m.log;
      }
      assert seq(|m.procs|, j requires 0 <= j < |m.procs| && AllIn(m, k) => m.log[(k, j)].v)
          == seq(|t|, j requires 0 <= j < |t| => Offer(mc, t[j]));
    }
  }

  lemma FollowsLeave<P(!new)>(mc: Machine<P>, tr: seq<seq<P>>, w: seq<P>, m: Net<P>, i: nat)
    requires IsTrace(mc, tr, w) && Follows(mc, tr, m) && Enabled(mc, m, i) && m.posted[i]
    ensures Follows(mc, tr, Leave(mc, m, i))
  {
    var k := m.round[i];
    if k + 1 < |tr| {
      AnswerIsAnswered(mc, tr[k], m, i);
      assert tr[k + 1] == Round(mc, tr[k]);
    }
  }

  lemma LastMove<P(!new)>(mc: Machine<P>, run: seq<Net<P>>, w: seq<P>) returns (prev: seq<Net<P>>, i: nat)
    requires IsRun(mc, run, w) && |run| > 1
    ensures prev == run[..|run| - 1] && IsRun(mc, prev, w) && Move(mc, Last(prev), Last(run), i)
  {
    prev := run[..|run| - 1];
    assert Next(mc, run[|run| - 2], run[|run| - 1]);
    i :| Move(mc, run[|run| - 2], run[|run| - 1], i);
  }

  /** At every moment of every interleaving, a process that has r collectives behind it is in the
      state that the lockstep execution gives it after r rounds. */
  lemma {:induction false} RunFollows<P(!new)>(mc: Machine<P>, tr: seq<seq<P>>, w: seq<P>, run: seq<Net<P>>)
    requires IsTrace(mc, tr, w) && IsRun(mc, run, w)
    ensures Follows(mc, tr, Last(run))
    decreases |run|
  {
    if |run| > 1 {
      var prev, i := LastMove(mc, run, w);
      RunFollows(mc, tr, w, prev);
      var m := Last(prev);
      if m.posted[i] { FollowsLeave(mc, tr, w, m, i); } else { FollowsEnter(mc, tr, w, m, i); }
    }
  }

  /** Whoever has left an allreduce has done so when all were in it. */
  ghost predicate Waited<P>(m: Net<P>) {
    forall k: nat, i: nat :: i < |m.round| && k < m.round[i] && (k, i) in m.log && m.log[(k, i)].Allreduce? ==> AllIn(m, k)
  }

  /** A process that is inside a collective is not done, and has contributed what it would. */
  ghost predicate Inside<P>(mc: Machine<P>, m: Net<P>) {
    forall i: nat :: i < |m.procs| && i < |m.posted| && i < |m.round| && m.posted[i] ==>
      !mc.done(m.procs[i]) && (m.round[i], i) in m.log && m.log[(m.round[i], i)] == mc.act(m.procs[i])
  }

  lemma {:induction false} RunWaited<P(!new)>(mc: Machine<P>, run: seq<Net<P>>, w: seq<P>)
    requires IsRun(mc, run, w) && w != []
    ensures NetOk(Last(run)) && |Last(run).procs| == |w|
    ensures LogExact(Last(run)) && Waited(Last(run)) && Inside(mc, Last(run))
    decreases |run|
  {
    if |run| > 1 {
      var prev, i := LastMove(mc, run, w);
      RunWaited(mc, prev, w);
      if Last(prev).posted[i] { LeaveWaited(mc, Last(prev), i); } else { EnterWaited(mc, Last(prev), i); }
    }
  }

  lemma EnterWaited<P(!new)>(mc: Machine<P>, m: Net<P>, i: nat)
    requires LogExact(m) && Waited(m) && Inside(mc, m) && Enabled(mc, m, i) && !m.posted[i]
    ensures LogExact(Enter(mc, m, i)) && Waited(Enter(mc, m, i)) && Inside(mc, Enter(mc, m, i))
  {
    var m' := Enter(mc, m, i);
    forall k: nat, j: nat | j < |m'.round| && k < m'.round[j] && (k, j) in m'.log && m'.log[(k, j)].Allreduce?
      ensures AllIn(m', k)
    {
      assert (k, j) in m.log && m.log[(k, j)].Allreduce?;
      assert AllIn(m, k);
    }
  }

  lemma LeaveWaited<P(!new)>(mc: Machine<P>, m: Net<P>, i: nat)
    requires LogExact(m) && Waited(m) && Inside(mc, m) && Enabled(mc, m, i) && m.posted[i]
    ensures LogExact(Leave(mc, m, i)) && Waited(Leave(mc, m, i)) && Inside(mc, Leave(mc, m, i))
  {
    var m' := Leave(mc, m, i);
    forall k: nat, j: nat | j < |m'.round| && k < m'.round[j] && (k, j) in m'.log && m'.log[(k, j)].Allreduce?
      ensures AllIn(m', k)
    {
      assert AllIn(m, k);
    }
  }

  /* ---------------- every interleaving ends ---------------- */

  /** Number of moves that led to a state. */
  function Work(round: seq<nat>, posted: seq<bool>): nat
    requires |round| == |posted|
  {
    if round == [] then 0
    else 2 * round[0] + (if posted[0] then 1 else 0) + Work(round[1..], posted[1..])
  }

  lemma {:induction false} WorkUpdate(round: seq<nat>, posted: seq<bool>, i: nat, r: nat, p: bool)
    requires i < |round| == |posted|
    ensures Work(round[i := r], posted[i := p])
         == Work(round, posted) - (2 * round[i] + (if posted[i] then 1 else 0)) + 2 * r + (if p then 1 else 0)
  {
    if i > 0 {
      WorkUpdate(round[1..], posted[1..], i - 1, r, p);
      assert round[i := r][1..] == round[1..][i - 1 := r];
      assert posted[i := p][1..] == posted[1..][i - 1 := p];
    } else {
      assert round[i := r][1..] == round[1..] && posted[i := p][1..] == posted[1..];
    }
  }

  lemma {:induction false} WorkOfStart(n: nat)
    ensures Work(seq(n, _ => 0), seq(n, _ => false)) == 0
  {
    if n > 0 {
      WorkOfStart(n - 1);
      assert seq(n, _ => 0)[1..] == seq(n - 1, _ => 0);
      assert seq(n, _ => false)[1..] == seq(n - 1, _ => false);
    }
  }

  lemma {:induction false} WorkBound(round: seq<nat>, posted: seq<bool>, b: nat)
    requires |round| == |posted|
    requires forall i :: 0 <= i < |round| ==> 2 * round[i] + (if posted[i] then 1 else 0) <= b
    ensures Work(round, posted) <= |round| * b
  {
    if round != [] {
      assert forall i :: 0 <= i < |round[1..]| ==> round[1..][i] == round[i + 1] && posted[1..][i] == posted[i + 1];
      WorkBound(round[1..], posted[1..], b);
      assert |round| * b == |round[1..]| * b + b;
    }
  }

  lemma {:induction false} WorkOfRun<P(!new)>(mc: Machine<P>, run: seq<Net<P>>, w: seq<P>)
    requires IsRun(mc, run, w) && w != []
    ensures NetOk(Last(run)) && Work(Last(run).round, Last(run).posted) == |run| - 1
    decreases |run|
  {
    if |run| == 1 {
      WorkOfStart(|w|);
    } else {
      var prev, i := LastMove(mc, run, w);
      WorkOfRun(mc, prev, w);
      var m, m' := Last(prev), Last(run);
      WorkUpdate(m.round, m.posted, i, m'.round[i], m'.posted[i]);
      assert m'.round == m.round[i := m'.round[i]] && m'.posted == m.posted[i := m'.posted[i]];
    }
  }

  /** The collectives behind a process and those ahead of it are bounded by its weight at the
      start. */
  lemma {:induction false} WeightLeft<P(!new)>(mc: Machine<P>, run: seq<Net<P>>, w: seq<P>, i: nat)
    requires IsRun(mc, run, w) && Dwindles(mc) && i < |w|
    ensures NetOk(Last(run)) && |Last(run).procs| == |w|
    ensures Last(run).round[i] + mc.weight(Last(run).procs[i]) <= mc.weight(w[i])
    decreases |run|
  {
    if |run| > 1 {
      var prev, j := LastMove(mc, run, w);
      WeightLeft(mc, prev, w, i);
      RunWaited(mc, prev, w);
      var m := Last(prev);
      if i == j && m.posted[i] {
        assert Fits(mc.act(m.procs[i]), Answer(m, i));
      }
    }
  }

  lemma RunsEnd<P(!new)>(mc: Machine<P>, run: seq<Net<P>>, w: seq<P>, b: nat)
    requires IsRun(mc, run, w) && Dwindles(mc) && w != [] && forall i :: 0 <= i < |w| ==> mc.weight(w[i]) <= b
    ensures |run| - 1 <= |w| * (2 * b)
  {
    var m := Last(run);
    WorkOfRun(mc, run, w);
    RunWaited(mc, run, w);
    forall i: nat | i < |w| ensures 2 * m.round[i] + (if m.posted[i] then 1 else 0) <= 2 * b {
      WeightLeft(mc, run, w, i);
      if m.posted[i] {
        var r := if mc.act(m.procs[i]).Allreduce? then MinE(0) else Got(Ints([]));
        assert Fits(mc.act(m.procs[i]), r);
        assert mc.weight(mc.adv(m.procs[i], r)) < mc.weight(m.procs[i]);
      }
    }
    WorkBound(m.round, m.posted, 2 * b);
  }

  lemma ExtendBy<P(!new)>(mc: Machine<P>, run: seq<Net<P>>, w: seq<P>, i: nat) returns (longer: seq<Net<P>>)
    requires IsRun(mc, run, w) && Enabled(mc, Last(run), i)
    ensures IsRun(mc, longer, w) && |longer| == |run| + 1 && Move(mc, Last(run), Last(longer), i)
  {
    var m := if Last(run).posted[i] then Leave(mc, Last(run), i) else Enter(mc, Last(run), i);
    longer := run + [m];
    assert Move(mc, Last(run), m, i);
    forall n | 0 <= n < |longer| - 1 ensures Next(mc, longer[n], longer[n + 1]) {
      if n < |run| - 1 { assert Next(mc, run[n], run[n + 1]); }
    }
  }

  /** Every run goes on to a maximal one. */
  lemma {:induction false} Exhaust<P(!new)>(mc: Machine<P>, run: seq<Net<P>>, w: seq<P>, b: nat) returns (longer: seq<Net<P>>)
    requires IsRun(mc, run, w) && Dwindles(mc) && w != [] && forall i :: 0 <= i < |w| ==> mc.weight(w[i]) <= b
    ensures IsMaximal(mc, longer, w) && |longer| >= |run|
    decreases |w| * (2 * b) + 1 - |run|
  {
    RunsEnd(mc, run, w, b);
    if CanMove(mc, Last(run)) {
      var i: nat :| Enabled(mc, Last(run), i);
      longer := ExtendBy(mc, run, w, i);
      RunsEnd(mc, longer, w, b);
      longer := Exhaust(mc, longer, w, b);
    } else {
      longer := run;
    }
  }

  lemma StartIsRun<P(!new)>(mc: Machine<P>, w: seq<P>)
    ensures IsRun(mc, [Start(w)], w)
  {
  }

  /* ---------------- along a lockstep execution ---------------- */

  function ArgMin(s: seq<nat>): (i: nat)
    requires s != []
    ensures i < |s| && forall j :: 0 <= j < |s| ==> s[i] <= s[j]
  {
    if |s| == 1 then 0
    else
      var i := ArgMin(s[..|s| - 1]);
      assert forall j :: 0 <= j < |s| - 1 ==> s[j] == s[..|s| - 1][j];
      if s[|s| - 1] < s[i] then |s| - 1 else i
  }

  /** Of those that are furthest behind on a lockstep execution somebody can move. */
  lemma SlowestCanMove<P(!new)>(mc: Machine<P>, tr: seq<seq<P>>, w: seq<P>, run: seq<Net<P>>) returns (i: nat)
    requires IsTrace(mc, tr, w) && IsRun(mc, run, w)
    ensures i < |w| == |Last(run).round| && forall j :: 0 <= j < |w| ==> Last(run).round[i] <= Last(run).round[j]
    ensures Last(run).round[i] < |tr| - 1 ==> Enabled(mc, Last(run), i)
  {
    var m := Last(run);
    RunFollows(mc, tr, w, run);
    i := ArgMin(m.round);
    var k := m.round[i];
    if k < |tr| - 1 {
      if j: nat :| j < |w| && m.round[j] == k && !m.posted[j] {
        assert !mc.done(tr[k][j]);
        i := j;
      } else {
        forall j: nat | j < |w| ensures (k, j) in m.log && Match(mc.act(tr[k][0]), m.log[(k, j)]) {
          assert m.round[i] <= m.round[j];
          assert Match(mc.act(tr[k][0]), mc.act(tr[k][j]));
        }
        assert (k, 0) in m.log && (k, i) in m.log;
      }
    }
  }

  /** As long as somebody is behind the end of a lockstep execution, somebody can move. */
  lemma BehindCanMove<P(!new)>(mc: Machine<P>, tr: seq<seq<P>>, w: seq<P>, run: seq<Net<P>>, x: nat)
    requires IsTrace(mc, tr, w) && IsRun(mc, run, w) && x < |w|
    ensures |Last(run).round| == |w|
    ensures Last(run).round[x] < |tr| - 1 ==> CanMove(mc, Last(run))
  {
    var i := SlowestCanMove(mc, tr, w, run);
  }

  /** Nobody is beyond the end of the lockstep execution, or inside its last collective. */
  ghost predicate UpTo<P(!new)>(tr: seq<seq<P>>, m: Net<P>) {
    forall i: nat :: i < |m.round| && i < |m.posted| ==> m.round[i] < |tr| && (m.posted[i] ==> m.round[i] < |tr| - 1)
  }

  /** Some run takes everybody to the end of a lockstep execution, and nobody further. */
  lemma {:induction false} RunAlong<P(!new)>(mc: Machine<P>, tr: seq<seq<P>>, w: seq<P>, run: seq<Net<P>>)
    returns (end: seq<Net<P>>)
    requires IsTrace(mc, tr, w) && IsRun(mc, run, w) && UpTo(tr, Last(run))
    ensures IsRun(mc, end, w) && Last(end).procs == tr[|tr| - 1] && !Mismatch(Last(end))
    ensures |Last(end).round| == |w| && forall i :: 0 <= i < |w| ==> Last(end).round[i] == |tr| - 1
    decreases |w| * (2 * |tr|) + 1 - |run|
  {
    var i := SlowestCanMove(mc, tr, w, run);
    UpToBound(mc, tr, w, run);
    if Last(run).round[i] < |tr| - 1 {
      var longer := ExtendBy(mc, run, w, i);
      UpToBound(mc, tr, w, longer);
      end := RunAlong(mc, tr, w, longer);
    } else {
      end := run;
      RunFollows(mc, tr, w, run);
      NoMismatchYet(mc, tr, w, run);
    }
  }

  lemma UpToBound<P(!new)>(mc: Machine<P>, tr: seq<seq<P>>, w: seq<P>, run: seq<Net<P>>)
    requires IsTrace(mc, tr, w) && IsRun(mc, run, w) && UpTo(tr, Last(run))
    ensures |run| - 1 <= |w| * (2 * |tr|)
  {
    WorkOfRun(mc, run, w);
    RunWaited(mc, run, w);
    WorkBound(Last(run).round, Last(run).posted, 2 * |tr|);
  }

  /** Up to the end of a lockstep execution all collectives are matched. */
  lemma NoMismatchYet<P(!new)>(mc: Machine<P>, tr: seq<seq<P>>, w: seq<P>, run: seq<Net<P>>)
    requires IsTrace(mc, tr, w) && IsRun(mc, run, w) && UpTo(tr, Last(run))
    ensures !Mismatch(Last(run))
  {
    var m := Last(run);
    RunFollows(mc, tr, w, run);
    forall k: nat, i: nat, j: nat | (k, i) in m.log && (k, j) in m.log
      ensures Match(m.log[(k, i)], m.log[(k, j)])
    {
      assert m.round[i] < |tr|;
      assert k < |tr| - 1;
      assert Match(mc.act(tr[k][0]), mc.act(tr[k][i])) && Match(mc.act(tr[k][0]), mc.act(tr[k][j]));
    }
  }

  lemma RoundsBounded<P(!new)>(mc: Machine<P>, tr: seq<seq<P>>, w: seq<P>, m: Net<P>, i: nat)
    requires IsComplete(mc, tr, w) && Follows(mc, tr, m) && i < |m.procs|
    ensures m.round[i] < |tr| && (m.posted[i] ==> m.round[i] < |tr| - 1)
  {
    assert m.round[i] >= |tr| ==> (|tr| - 1, i) in m.log;
    assert m.posted[i] ==> (m.round[i], i) in m.log;
  }

  /** If a lockstep execution brings everybody home, no interleaving ever pairs two different
      collectives. */
  lemma NoMismatch<P(!new)>(mc: Machine<P>, tr: seq<seq<P>>, w: seq<P>, run: seq<Net<P>>)
    requires IsComplete(mc, tr, w) && IsRun(mc, run, w)
    ensures !Mismatch(Last(run))
  {
    RunFollows(mc, tr, w, run);
    forall i: nat | i < |w| ensures Last(run).round[i] < |tr| && (Last(run).posted[i] ==> Last(run).round[i] < |tr| - 1) {
      RoundsBounded(mc, tr, w, Last(run), i);
    }
    NoMismatchYet(mc, tr, w, run);
  }

  /** When everybody is home, they are as the lockstep execution leaves them. */
  lemma FinalIsLockstep<P(!new)>(mc: Machine<P>, tr: seq<seq<P>>, w: seq<P>, run: seq<Net<P>>)
    requires IsComplete(mc, tr, w) && IsRun(mc, run, w) && AllHome(mc, Last(run).procs)
    ensures Last(run).procs == tr[|tr| - 1]
  {
    var m := Last(run);
    RunFollows(mc, tr, w, run);
    forall i: nat | i < |w| ensures m.procs[i] == tr[|tr| - 1][i] {
      RoundsBounded(mc, tr, w, m, i);
    }
  }

  /** Nobody waits forever: as long as somebody is not home, somebody can move. */
  lemma Progress<P(!new)>(mc: Machine<P>, tr: seq<seq<P>>, w: seq<P>, run: seq<Net<P>>)
    requires IsComplete(mc, tr, w) && IsRun(mc, run, w)
    ensures AllHome(mc, Last(run).procs) || CanMove(mc, Last(run))
  {
    var m := Last(run);
    RunFollows(mc, tr, w, run);
    if x: nat :| x < |w| && !mc.done(m.procs[x]) {
      RoundsBounded(mc, tr, w, m, x);
      BehindCanMove(mc, tr, w, run, x);
    }
  }

  /** In every run the rounds of a lockstep execution are matched, whatever comes behind them. */
  lemma MatchedBefore<P(!new)>(mc: Machine<P>, tr: seq<seq<P>>, w: seq<P>, run: seq<Net<P>>)
    requires IsTrace(mc, tr, w) && IsRun(mc, run, w)
    ensures !MismatchBefore(Last(run), |tr| - 1)
  {
    var m := Last(run);
    RunFollows(mc, tr, w, run);
    forall k: nat, i: nat, j: nat | k < |tr| - 1 && (k, i) in m.log && (k, j) in m.log
      ensures Match(m.log[(k, i)], m.log[(k, j)])
    {
      assert Match(mc.act(tr[k][0]), mc.act(tr[k][i])) && Match(mc.act(tr[k][0]), mc.act(tr[k][j]));
    }
  }

  lemma PrefixIsRun<P(!new)>(mc: Machine<P>, run: seq<Net<P>>, w: seq<P>, k: nat)
    requires IsRun(mc, run, w) && k < |run|
    ensures IsRun(mc, run[..k + 1], w) && Last(run[..k + 1]) == run[k]
  {
    var prefix := run[..k + 1];
    forall n | 0 <= n < |prefix| - 1 ensures Next(mc, prefix[n], prefix[n + 1]) {
      assert prefix[n] == run[n] && prefix[n + 1] == run[n + 1];
    }
  }

  /** Who has r collectives behind it, or more, has had exactly r at some moment. */
  lemma {:induction false} PassesRound<P(!new)>(mc: Machine<P>, run: seq<Net<P>>, w: seq<P>, i: nat, r: nat) returns (k: nat)
    requires IsRun(mc, run, w) && i < |w| == |Last(run).round| && r <= Last(run).round[i]
    ensures k < |run| && i < |run[k].round| && run[k].round[i] == r
    decreases |run|
  {
    if Last(run).round[i] == r {
      k := |run| - 1;
    } else {
      var prev, j := LastMove(mc, run, w);
      RunWaited(mc, prev, w);
      k := PassesRound(mc, prev, w, i, r);
    }
  }

  /** Nobody goes back. */
  lemma {:induction false} RoundsGrow<P(!new)>(mc: Machine<P>, run: seq<Net<P>>, w: seq<P>, k: nat, i: nat)
    requires IsRun(mc, run, w) && k < |run| && i < |w|
    ensures |run[k].round| == |Last(run).round| == |w| && run[k].round[i] <= Last(run).round[i]
    decreases |run|
  {
    RunWaited(mc, run, w);
    if k < |run| - 1 {
      var prev, j := LastMove(mc, run, w);
      RoundsGrow(mc, prev, w, k, i);
    }
  }

  /** The log only grows. */
  ghost predicate LogWithin<P(!new)>(m: Net<P>, m': Net<P>) {
    forall k: nat, i: nat :: (k, i) in m.log ==> (k, i) in m'.log && m'.log[(k, i)] == m.log[(k, i)]
  }

  lemma {:induction false} LogGrows<P(!new)>(mc: Machine<P>, run: seq<Net<P>>, w: seq<P>, k: nat)
    requires IsRun(mc, run, w) && w != [] && k < |run|
    ensures LogWithin(run[k], Last(run))
    decreases |run|
  {
    if k < |run| - 1 {
      var prev, j := LastMove(mc, run, w);
      LogGrows(mc, prev, w, k);
      RunWaited(mc, prev, w);
      assert LogWithin(Last(prev), Last(run));
    }
  }

  lemma MismatchStays<P(!new)>(mc: Machine<P>, run: seq<Net<P>>, w: seq<P>, k: nat, r: nat)
    requires IsRun(mc, run, w) && w != [] && k < |run| && MismatchBefore(run[k], r)
    ensures MismatchBefore(Last(run), r)
  {
    LogGrows(mc, run, w, k);
  }

  /* ---------------- where a lockstep execution ends badly ---------------- */

  /** If after matched rounds two processes enter collectives that do not match, no run takes both
      past them without pairing them. */
  lemma UnequalRoundMismatches<P(!new)>(mc: Machine<P>, tr: seq<seq<P>>, w: seq<P>, run: seq<Net<P>>, i: nat, j: nat)
    requires IsTrace(mc, tr, w) && IsRun(mc, run, w) && i < |w| && j < |w|
    requires !Match(mc.act(tr[|tr| - 1][i]), mc.act(tr[|tr| - 1][j]))
    ensures |Last(run).round| == |w|
    ensures Last(run).round[i] >= |tr| && Last(run).round[j] >= |tr| ==> MismatchBefore(Last(run), |tr|)
  {
    var m := Last(run);
    var k: nat := |tr| - 1;
    RunFollows(mc, tr, w, run);
    if m.round[i] > k && m.round[j] > k {
      assert (k, i) in m.log && (k, j) in m.log;
    }
  }

  /** If after matched rounds somebody is done, nobody who waits in an allreduce is ever released. */
  lemma DoneStrands<P(!new)>(mc: Machine<P>, tr: seq<seq<P>>, w: seq<P>, run: seq<Net<P>>, i: nat, j: nat)
    requires IsTrace(mc, tr, w) && IsRun(mc, run, w) && i < |w| && j < |w|
    requires !mc.done(tr[|tr| - 1][i]) && mc.act(tr[|tr| - 1][i]).Allreduce? && mc.done(tr[|tr| - 1][j])
    ensures |Last(run).round| == |w| && Last(run).round[i] < |tr|
    ensures |Last(run).procs| == |w| && !mc.done(Last(run).procs[i])
  {
    var m := Last(run);
    var k: nat := |tr| - 1;
    RunFollows(mc, tr, w, run);
    RunWaited(mc, run, w);
    assert m.round[i] > k ==> (k, i) in m.log;
    assert m.round[i] > k ==> AllIn(m, k);
  }

  /** Nobody leaves an allreduce of the lockstep execution before all have entered theirs. */
  lemma NobodyLeavesAlone<P(!new)>(mc: Machine<P>, tr: seq<seq<P>>, w: seq<P>, run: seq<Net<P>>, i: nat, j: nat)
    requires IsTrace(mc, tr, w) && IsRun(mc, run, w) && i < |w| && j < |w|
    requires mc.act(tr[|tr| - 1][i]).Allreduce?
    ensures |Last(run).round| == |w|
    ensures Last(run).round[i] >= |tr| ==> (|tr| - 1, j) in Last(run).log
  {
    RunFollows(mc, tr, w, run);
    RunWaited(mc, run, w);
    if Last(run).round[i] >= |tr| {
      assert (|tr| - 1, i) in Last(run).log;
      assert AllIn(Last(run), |tr| - 1);
    }
  }

  /** Whoever is not done at the end of a trace, and is in the end, has got past it. */
  lemma FinishedIsPast<P(!new)>(mc: Machine<P>, tr: seq<seq<P>>, w: seq<P>, run: seq<Net<P>>, i: nat)
    requires IsTrace(mc, tr, w) && IsRun(mc, run, w) && i < |w|
    requires !mc.done(tr[|tr| - 1][i]) && AllHome(mc, Last(run).procs)
    ensures |Last(run).round| == |w| && Last(run).round[i] >= |tr|
  {
    RunFollows(mc, tr, w, run);
    var k := Last(run).round[i];
    assert k < |tr| - 1 ==> Matched(mc, tr[k]);
  }
}
