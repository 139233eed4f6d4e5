/** A process inside one collective call of the library: a first agreement on the error code, a
    chain of comparisons with the root's arguments, a second agreement, the driver call. */
module Collective {
  import opened NetCDF
  import opened Network

  /** One argument that is compared with the root's: a first broadcast (the head), and for some
      kinds a second one (the body) that depends on what the first delivered. The buffer for a
      string is as long as the head says; the root copies its string there before the body, and
      if `each` is set so does everybody else. */
  datatype Item =
    | Str(s: string, each: bool, code: int)
    | Scalars(dtype: DType, xs: seq<int>, code: int)
    | Vec(n: int, list: seq<int>, ncode: int, code: int)
    | Fill(ids: seq<int>, size: int, bytes: seq<int>, idcode: int, code: int)

  function HeadColl(it: Item): (c: Coll)
    ensures c.Bcast?
  {
    match it
    case Str(s, _, _) => Bcast(1, INT, Ints([|s| + 1]))
    case Scalars(dtype, xs, _) => Bcast(|xs|, dtype, Ints(xs))
    case Vec(n, _, _, _) => Bcast(1, INT, Ints([n]))
    case Fill(ids, _, _, _, _) => Bcast(|ids|, INT, Ints(ids))
  }

  /** The value a one-word head delivered. */
  function Word(head: Data): int {
    if head.Ints? && head.xs != [] then head.xs[0] else 0
  }

  /** Whether a fill-value head says that the root passed a fill value. */
  predicate RootHasFill(head: Data) {
    head.Ints? && |head.xs| == 3 && head.xs[2] == 0
  }

  predicate HasBody(it: Item, head: Data) {
    match it
    case Str(_, _, _) => true
    case Scalars(_, _, _) => false
    case Vec(_, _, _, _) => Word(head) > 0
    case Fill(_, _, _, _, _) => RootHasFill(head)
  }

  function BodyColl(it: Item, head: Data): (c: Coll)
    ensures c.Bcast?
  {
    match it
    case Str(s, _, _) => Bcast(Word(head), CHAR, Text(s))
    case Scalars(dtype, xs, _) => Bcast(|xs|, dtype, Ints(xs))
    case Vec(_, list, _, _) => Bcast(Word(head), INT, Ints(Padded(list, Word(head))))
    case Fill(_, size, bytes, _, _) => Bcast(size, BYTE, Ints(bytes))
  }

  function HeadErr(it: Item, head: Data): int {
    match it
    case Str(_, _, _) => 0
    case Scalars(_, xs, code) => if head == Ints(xs) then 0 else code
    case Vec(n, _, ncode, _) => if Word(head) == n then 0 else ncode
    case Fill(ids, _, _, idcode, _) => if head == Ints(ids) then 0 else idcode
  }

  function BodyErr(it: Item, head: Data, body: Data): int {
    match it
    case Str(s, _, code) => if body == Text(s) then 0 else code
    case Scalars(_, _, _) => 0
    case Vec(_, list, _, code) => if body == Ints(Padded(list, Word(head))) then 0 else code
    case Fill(ids, _, bytes, _, code) =>
      // a process that passed no fill value compares nothing
      if (|ids| == 3 && ids[2] != 0) || body == Ints(bytes) then 0 else code
  }

  /** Bytes that a process copies into the buffer for a string, and whether they fit. */
  function Copied(it: Item, root: bool): nat {
    if it.Str? && (root || it.each) then |it.s| + 1 else 0
  }

  predicate Fit(it: Item, root: bool, head: Data) {
    it.Str? ==> Copied(it, root) <= Word(head)
  }

  datatype Pc = First | Head(k: nat) | Body(k: nat, head: Data) | Second | Driver
              | Done(code: int, reached: bool)

  /** A process inside a call. `strict` tells whether the second agreement returns the minimum
      to everybody or lets a process with an error of its own return that; `drv` is what the
      driver will answer this process, `drvReduce` whether the driver agrees on it first.
      `reached` in a finished process: it has called the driver. `spilt`: it has written past the
      end of a buffer. */
  datatype Task = Task(
    items: seq<Item>, strict: bool, drv: int, drvReduce: bool, root: bool, pc: Pc, err: int, spilt: bool)

  predicate PcOk(t: Task) {
    && (t.pc.Head? ==> t.pc.k < |t.items|)
    && (t.pc.Body? ==> t.pc.k < |t.items|)
  }

  /** The collective a process is about to enter. */
  function Act(t: Task): Coll
    requires PcOk(t) && !t.pc.Done?
  {
    match t.pc
    case First => Allreduce(t.err)
    case Head(k) => HeadColl(t.items[k])
    case Body(k, head) => BodyColl(t.items[k], head)
    case Second => Allreduce(t.err)
    case Driver => Allreduce(t.drv)
  }

  function ToDriver(t: Task): Task {
    if t.drvReduce then t.(pc := Driver) else t.(pc := Done(t.drv, true))
  }

  function ToItem(t: Task, k: nat): Task {
    t.(pc := if k < |t.items| then Head(k) else Second)
  }

  function Note(t: Task, code: int): Task {
    if t.err == 0 then t.(err := code) else t
  }

  /** What the head of an argument leads to: a buffer for a string, of the length that the root
      has sent, is filled in before its body is broadcast. */
  function AfterHead(t: Task, head: Data): (t': Task)
    requires t.pc.Head? && t.pc.k < |t.items|
    ensures PcOk(t')
  {
    var it := t.items[t.pc.k];
    var t1 := Note(t, HeadErr(it, head)).(spilt := t.spilt || !Fit(it, t.root, head));
    if HasBody(it, head) then t1.(pc := Body(t.pc.k, head)) else ToItem(t1, t.pc.k + 1)
  }

  /** What a process does with the answer of a collective, up to its next one. */
  function Advance(t: Task, r: Reply): (t': Task)
    requires PcOk(t)
    ensures PcOk(t')
    ensures t'.items == t.items && t'.strict == t.strict && t'.drv == t.drv && t'.drvReduce == t.drvReduce
    ensures t'.root == t.root
  {
    if t.pc.Done? then t
    else if (t.pc.First? || t.pc.Second? || t.pc.Driver?) != r.MinE? then t
    else match t.pc
      case First =>
        if r.minE != 0 then t.(pc := Done(r.minE, false))
        else if t.items != [] then ToItem(t, 0)
        else ToDriver(t)
      case Head(k) =>
        AfterHead(t, r.data)
      case Body(k, head) =>
        ToItem(Note(t, BodyErr(t.items[k], head, r.data)), k + 1)
      case Second =>
        var own := if !t.strict && t.err != 0 then t.err else r.minE;
        if own != 0 then t.(pc := Done(own, false)) else ToDriver(t)
      case Driver =>
        t.(pc := Done(if r.minE != 0 then r.minE else t.drv, true))
      case Done(_, _) => t
  }

  /** Rounds left, at most. */
  function Weight(t: Task): nat
    requires PcOk(t)
  {
    match t.pc
    case First => 2 * |t.items| + 4
    case Head(k) => 2 * (|t.items| - k) + 3
    case Body(k, _) => 2 * (|t.items| - k) + 2
    case Second => 2
    case Driver => 1
    case Done(_, _) => 0
  }

  predicate AllDone(w: seq<Task>) {
    forall i :: 0 <= i < |w| ==> w[i].pc.Done?
  }

  /* ---------------- tasks as processes of the network ---------------- */

  predicate Finished(t: Task) {
    t.pc.Done? || !PcOk(t)
  }

  function ActOf(t: Task): Coll {
    if PcOk(t) && !t.pc.Done? then Act(t) else Allreduce(0)
  }

  function StepOf(t: Task, r: Reply): Task {
    if PcOk(t) then Advance(t, r) else t
  }

  function WeightOf(t: Task): nat {
    if PcOk(t) then Weight(t) else 0
  }

  /** Processes that are inside one call, and done when they have returned from it. */
  function Tasks(): Machine<Task> {
    Machine((t: Task) => Finished(t), (t: Task) => ActOf(t), (t: Task, r: Reply) => StepOf(t, r),
            (t: Task) => WeightOf(t))
  }

  lemma WeightDrops(t: Task, r: Reply)
    requires PcOk(t) && !t.pc.Done? && Fits(Act(t), r)
    ensures Weight(Advance(t, r)) < Weight(t)
  {
  }

  lemma TasksDwindle()
    ensures Dwindles(Tasks())
  {
    forall t: Task, r: Reply | !Tasks().done(t) && Fits(Tasks().act(t), r)
      ensures Tasks().weight(Tasks().adv(t, r)) < Tasks().weight(t)
    {
      WeightDrops(t, r);
    }
  }

  /* ---------------- one round of everybody ---------------- */

  ghost predicate WorldOk(w: seq<Task>) {
    && w != []
    && (forall i :: 0 <= i < |w| ==> PcOk(w[i]))
  }

  /** Nobody is done, and everybody enters the same collective. */
  ghost predicate Uniform(w: seq<Task>) {
    && WorldOk(w)
    && (forall i :: 0 <= i < |w| ==> !w[i].pc.Done?)
    && (forall i :: 0 <= i < |w| ==> Match(Act(w[0]), Act(w[i])))
  }

  function Contribution(t: Task): int
    requires PcOk(t)
  {
    if !t.pc.Done? && Act(t).Allreduce? then Act(t).v else 0
  }

  function Outcome(w: seq<Task>): Reply
    requires w != [] && (forall i :: 0 <= i < |w| ==> PcOk(w[i]))
  {
    if !w[0].pc.Done? && Act(w[0]).Bcast? then Got(Act(w[0]).data)
    else MinE(MinOf(seq(|w|, i requires 0 <= i < |w| => Contribution(w[i]))))
  }

  function Lockstep(w: seq<Task>): (w': seq<Task>)
    requires w != [] && (forall i :: 0 <= i < |w| ==> PcOk(w[i]))
    ensures |w'| == |w| && (forall i :: 0 <= i < |w'| ==> PcOk(w'[i]))
  {
    var r := Outcome(w);
    seq(|w|, i requires 0 <= i < |w| => Advance(w[i], r))
  }

  lemma LockstepIsRound(w: seq<Task>)
    requires WorldOk(w)
    ensures Round(Tasks(), w) == Lockstep(w)
    ensures Uniform(w) ==> Matched(Tasks(), w)
    ensures AllDone(w) <==> AllHome(Tasks(), w)
  {
    assert seq(|w|, i requires 0 <= i < |w| => Offer(Tasks(), w[i])) == seq(|w|, i requires 0 <= i < |w| => Contribution(w[i]));
    assert Answered(Tasks(), w) == Outcome(w);
  }
}
