/** Processes that meet in the collectives of two different calls: some are in ncmpi_del_att, and
    others, which have left it early, in the call that follows. */
module TwoCalls {
  import opened NetCDF
  import opened NcmpioDriver
  import opened Dispatch
  import opened Network
  import opened Collective
  import opened Agreement
  import opened SafeMode
  import opened CallEnds

  /** A call that a process has come to, and its record of the file. */
  datatype Meet = Meet(f: File, c: Call, io: Io)

  ghost predicate MeetOk(m: Meet) {
    Consistent(m.f) && m.f.flags.safe && IoOk(m.io) && CallOk(m.c) && !Unchecked(m.c) && !ReturnsEarly(m.f, m.c)
  }

  /** Somebody waits in ncmpi_del_att; everybody else waits in one other call, at its first
      agreement like the others. */
  ghost predicate Mixed(ms: seq<Meet>) {
    && ms != [] && (forall i :: 0 <= i < |ms| ==> MeetOk(ms[i]))
    && (exists i :: 0 <= i < |ms| && ms[i].c.DelAtt?)
    && (forall i, j :: 0 <= i < |ms| && 0 <= j < |ms| && !ms[i].c.DelAtt? && !ms[j].c.DelAtt? ==> Api(ms[i].c) == Api(ms[j].c))
  }

  ghost function Tasking(ms: seq<Meet>): (w: seq<Task>)
    requires Mixed(ms)
    ensures |w| == |ms| && forall i :: 0 <= i < |w| ==> PcOk(w[i]) && w[i].pc.First? && w[i].err == LocalCheck(ms[i].f, ms[i].c)
  {
    seq(|ms|, i requires 0 <= i < |ms| => TaskOf(ms[i].f, ms[i].c, ms[i].io, i == 0))
  }

  predicate AllClear(ms: seq<Meet>) {
    forall i :: 0 <= i < |ms| ==> LocalCheck(ms[i].f, ms[i].c) == NC_NOERR
  }

  /** Calls whose comparisons are those of ncmpi_del_att: a name, and one id. */
  predicate LikeDelAtt(c: Call) {
    c.DelAtt? || c.RenameVar? || c.RenameDim?
  }

  predicate AllLike(ms: seq<Meet>) {
    forall i :: 0 <= i < |ms| ==> LikeDelAtt(ms[i].c)
  }

  function NameOf(c: Call): string {
    if c.DelAtt? then Chars(c.name) else if c.RenameVar? || c.RenameDim? then Chars(c.newname) else ""
  }

  function IdOf(c: Call): int {
    match c
    case DelAtt(varid, _) => varid
    case RenameVar(varid, _) => varid
    case RenameDim(dimid, _) => dimid
    case _ => 0
  }

  /** By accident of the names and ids, nobody has anything to object. */
  predicate Coincide(ms: seq<Meet>) {
    forall i :: 0 <= i < |ms| ==> NameOf(ms[i].c) == NameOf(ms[0].c) && IdOf(ms[i].c) == IdOf(ms[0].c)
  }

  /** The two calls have the same collectives up to their end. */
  predicate Compatible(ms: seq<Meet>) {
    AllLike(ms) && (Coincide(ms) ==> forall i :: 0 <= i < |ms| ==> DriverReduces(ms[i].f, ms[i].c))
  }

  /* ---------------- when the calls have the same collectives ---------------- */

  lemma RefusedRound(w: seq<Task>, x: nat)
    requires WorldOk(w) && forall i :: 0 <= i < |w| ==> w[i].pc.First? && w[i].err <= 0
    requires x < |w| && w[x].err != 0
    ensures Uniform(w) && AllDone(Lockstep(w))
  {
    var offers := seq(|w|, i requires 0 <= i < |w| => Contribution(w[i]));
    assert offers[x] in offers;
    assert MinOf(offers) < 0;
  }

  lemma RefusedTrace(w: seq<Task>, x: nat) returns (tr: seq<seq<Task>>)
    requires WorldOk(w) && forall i :: 0 <= i < |w| ==> w[i].pc.First? && w[i].err <= 0
    requires x < |w| && w[x].err != 0
    ensures IsComplete(Tasks(), tr, w)
  {
    RefusedRound(w, x);
    LockstepIsRound(w);
    LockstepIsRound(Lockstep(w));
    Prepend(Tasks(), w, [Lockstep(w)]);
    tr := [w] + [Lockstep(w)];
  }

  lemma RefusedTogether(ms: seq<Meet>) returns (tr: seq<seq<Task>>)
    requires Mixed(ms) && !AllClear(ms)
    ensures IsComplete(Tasks(), tr, Tasking(ms))
  {
    var x :| 0 <= x < |ms| && LocalCheck(ms[x].f, ms[x].c) != NC_NOERR;
    tr := RefusedTrace(Tasking(ms), x);
  }

  lemma LikeItems(f: File, c: Call)
    requires LikeDelAtt(c)
    ensures |ItemsOf(f, c)| == 2
    ensures ItemsOf(f, c)[0].Str? && ItemsOf(f, c)[0].s == NameOf(c) && !ItemsOf(f, c)[0].each && ItemsOf(f, c)[0].code < 0
    ensures ItemsOf(f, c)[1].Scalars? && ItemsOf(f, c)[1].dtype == INT && ItemsOf(f, c)[1].xs == [IdOf(c)]
    ensures ItemsOf(f, c)[1].code < 0
  {
  }

  lemma LikeTask(ms: seq<Meet>, i: nat)
    requires Mixed(ms) && AllClear(ms) && AllLike(ms) && i < |ms|
    ensures var w := Tasking(ms);
      && SameCall(w[i], w[0]) && SamePlace(w[i], w[0])
      && Owed(w[i], w[0].items) == FirstErr(ItemsOf(ms[i].f, ms[i].c), ItemsOf(ms[0].f, ms[0].c), 0)
  {
    LikeItems(ms[i].f, ms[i].c);
    LikeItems(ms[0].f, ms[0].c);
    TaskSigns(ms[i].f, ms[i].c, ms[i].io);
  }

  lemma LikeComplaint(m: Meet, root: Meet)
    requires LikeDelAtt(m.c) && LikeDelAtt(root.c)
    ensures |ItemsOf(m.f, m.c)| == |ItemsOf(root.f, root.c)|
    ensures FirstErr(ItemsOf(m.f, m.c), ItemsOf(root.f, root.c), 0) == 0 <==>
      NameOf(m.c) == NameOf(root.c) && IdOf(m.c) == IdOf(root.c)
  {
    LikeItems(m.f, m.c);
    LikeItems(root.f, root.c);
    var a, b := ItemsOf(m.f, m.c), ItemsOf(root.f, root.c);
    FirstErrZero(a, b, 0);
    assert ItemErr(a[1], b[1]) == 0 <==> IdOf(m.c) == IdOf(root.c) by {
      assert [IdOf(m.c)][0] == IdOf(m.c) && [IdOf(root.c)][0] == IdOf(root.c);
    }
    assert ItemErr(a[0], b[0]) == 0 <==> NameOf(m.c) == NameOf(root.c);
  }

  lemma LikeOwes(ms: seq<Meet>, i: nat)
    requires Mixed(ms) && AllClear(ms) && AllLike(ms) && i < |ms|
    ensures var w := Tasking(ms);
      && SameCall(w[i], w[0]) && SamePlace(w[i], w[0]) && w[i].drvReduce == DriverReduces(ms[i].f, ms[i].c)
      && (Owed(w[i], w[0].items) == 0 <==> NameOf(ms[i].c) == NameOf(ms[0].c) && IdOf(ms[i].c) == IdOf(ms[0].c))
  {
    LikeTask(ms, i);
    LikeComplaint(ms[i], ms[0]);
  }

  lemma SyncOf(w: seq<Task>)
    requires Aligned(w) && ((forall i :: 0 <= i < |w| ==> Owing(w)[i] == 0) ==> forall i :: 0 <= i < |w| ==> w[i].drvReduce)
    ensures Sync(w)
  {
    OwingSigns(w);
    MinZero(Owing(w));
  }

  lemma LikeIsAligned(ms: seq<Meet>)
    requires Mixed(ms) && AllClear(ms) && AllLike(ms)
    ensures Aligned(Tasking(ms))
  {
    var w := Tasking(ms);
    forall i | 0 <= i < |w| ensures SameCall(w[i], w[0]) && SamePlace(w[i], w[0]) { LikeOwes(ms, i); }
  }

  lemma CompatibleIsSync(ms: seq<Meet>)
    requires Mixed(ms) && AllClear(ms) && Compatible(ms)
    ensures Sync(Tasking(ms))
  {
    var w := Tasking(ms);
    LikeIsAligned(ms);
    var owing := Owing(w);
    forall i | 0 <= i < |w|
      ensures w[i].drvReduce == DriverReduces(ms[i].f, ms[i].c)
      ensures owing[i] == 0 <==> NameOf(ms[i].c) == NameOf(ms[0].c) && IdOf(ms[i].c) == IdOf(ms[0].c)
    {
      LikeOwes(ms, i);
    }
    SyncOf(w);
  }

  /* ---------------- when they have not ---------------- */

  /** A process behind the first agreement, which nobody has objected in. */
  ghost predicate Joined(m: Meet, t: Task) {
    && PcOk(t) && t.items == ItemsOf(m.f, m.c) && t.err == 0 && t.drvReduce == DriverReduces(m.f, m.c)
    && t.pc == if m.c.Enddef? then Done(t.drv, true) else Head(0)
  }

  lemma JointTask(m: Meet, root: bool)
    requires MeetOk(m) && LocalCheck(m.f, m.c) == NC_NOERR
    ensures var t := TaskOf(m.f, m.c, m.io, root); Contribution(t) == 0 && Joined(m, Advance(t, MinE(0)))
  {
  }

  /** All pass the joint agreement. */
  lemma JointAgreement(ms: seq<Meet>) returns (w1: seq<Task>)
    requires Mixed(ms) && AllClear(ms)
    ensures IsTrace(Tasks(), [Tasking(ms), w1], Tasking(ms)) && |w1| == |ms|
    ensures forall i :: 0 <= i < |ms| ==> Joined(ms[i], w1[i])
  {
    var w := Tasking(ms);
    forall i | 0 <= i < |ms| ensures Contribution(w[i]) == 0 && Joined(ms[i], Advance(w[i], MinE(0))) { JointTask(ms[i], i == 0); }
    w1 := Calm(w);
  }

  lemma Calm(w: seq<Task>) returns (w1: seq<Task>)
    requires w != [] && forall i :: 0 <= i < |w| ==> PcOk(w[i]) && w[i].pc.First? && Contribution(w[i]) == 0
    ensures IsTrace(Tasks(), [w, w1], w) && |w1| == |w|
    ensures forall i :: 0 <= i < |w| ==> w1[i] == Advance(w[i], MinE(0))
  {
    CalmRound(w);
    w1 := Lockstep(w);
  }

  /** Everybody compares a string, and comes to its next argument. */
  ghost predicate AtString(w: seq<Task>) {
    w != [] && forall i :: 0 <= i < |w| ==>
      PcOk(w[i]) && w[i].pc == Head(0) && |w[i].items| > 1 && w[i].items[0].Str? && w[i].err == 0
  }

  /** Everybody has a buffer of the length of the root's string. */
  ghost predicate AtBody(w: seq<Task>, head: Data) {
    w != [] && forall i :: 0 <= i < |w| ==>
      PcOk(w[i]) && w[i].pc == Body(0, head) && |w[i].items| > 1 && w[i].items[0].Str? && w[i].err == 0
  }

  ghost predicate SameFields(w: seq<Task>, w': seq<Task>) {
    |w'| == |w| && forall i :: 0 <= i < |w| ==> w'[i].items == w[i].items && w'[i].drvReduce == w[i].drvReduce
  }

  lemma StringHead(w: seq<Task>) returns (head: Data, w2: seq<Task>)
    requires AtString(w)
    ensures IsTrace(Tasks(), [w, w2], w) && AtBody(w2, head) && SameFields(w, w2)
  {
    head := Ints([|w[0].items[0].s| + 1]);
    HeadRound(w, head);
    w2 := Lockstep(w);
    forall i | 0 <= i < |w| ensures w2[i].pc == Body(0, head) && w2[i].err == 0 && PcOk(w2[i]) { HeadStep(w[i], head); }
  }

  lemma StringBody(w: seq<Task>, head: Data) returns (w': seq<Task>)
    requires AtBody(w, head)
    ensures IsTrace(Tasks(), [w, w'], w) && SameFields(w, w')
    ensures forall i :: 0 <= i < |w| ==> PcOk(w'[i]) && w'[i].pc == Head(1)
    ensures forall i :: 0 <= i < |w| && w[i].items[0].s == w[0].items[0].s ==> w'[i].err == 0
  {
    LockstepIsRound(w);
    var body := Text(w[0].items[0].s);
    assert Outcome(w) == Got(body);
    w' := Lockstep(w);
    assert forall i :: 0 <= i < |w| ==> w'[i] == Advance(w[i], Got(body));
  }

  lemma StringRounds(w: seq<Task>) returns (tr: seq<seq<Task>>)
    requires AtString(w)
    ensures IsTrace(Tasks(), tr, w) && SameFields(w, tr[|tr| - 1])
    ensures var w3 := tr[|tr| - 1];
      && (forall i :: 0 <= i < |w| ==> PcOk(w3[i]) && w3[i].pc == Head(1))
      && (forall i :: 0 <= i < |w| && w[i].items[0].s == w[0].items[0].s ==> w3[i].err == 0)
  {
    var head, w2 := StringHead(w);
    var w3 := StringBody(w2, head);
    tr := Longer(Tasks(), [w, w2], [w2, w3], w);
  }

  /** A broadcast for the second argument. */
  lemma SecondHead(w: seq<Task>, head: Data) returns (w': seq<Task>)
    requires w != [] && forall i :: 0 <= i < |w| ==> PcOk(w[i]) && w[i].pc == Head(1)
    requires forall i :: 0 <= i < |w| ==> Match(Act(w[0]), Act(w[i]))
    requires Act(w[0]).data == head
    ensures IsTrace(Tasks(), [w, w'], w) && SameFields(w, w')
    ensures forall i :: 0 <= i < |w| ==> PcOk(w'[i]) && w'[i] == Advance(w[i], Got(head))
  {
    LockstepIsRound(w);
    assert Outcome(w) == Got(head);
    w' := Lockstep(w);
  }

  /** The other call has two arguments or more, the first of them a name. */
  predicate NameFirst(c: Call) {
    c.DefDim? || c.CopyAtt? || c.DefVar? || c.RenameAtt? || LikeDelAtt(c)
  }

  lemma NameItems(f: File, c: Call)
    requires NameFirst(c)
    ensures |ItemsOf(f, c)| > 1 && ItemsOf(f, c)[0].Str?
  {
  }

  ghost predicate AtSecondHead(ms: seq<Meet>, t: Task, i: nat)
    requires i < |ms|
  {
    && PcOk(t) && t.pc == Head(1) && t.items == ItemsOf(ms[i].f, ms[i].c) && t.drvReduce == DriverReduces(ms[i].f, ms[i].c)
    && (LikeDelAtt(ms[i].c) && LikeDelAtt(ms[0].c) && NameOf(ms[i].c) == NameOf(ms[0].c) ==> t.err == 0)
  }

  ghost predicate AllAtSecondHead(ms: seq<Meet>, w: seq<Task>) {
    |w| == |ms| && forall i :: 0 <= i < |ms| ==> AtSecondHead(ms, w[i], i)
  }

  lemma UpToSecond(ms: seq<Meet>) returns (tr: seq<seq<Task>>)
    requires Mixed(ms) && AllClear(ms) && forall i :: 0 <= i < |ms| ==> NameFirst(ms[i].c)
    ensures IsTrace(Tasks(), tr, Tasking(ms))
    ensures AllAtSecondHead(ms, tr[|tr| - 1])
  {
    var w := Tasking(ms);
    var w1 := JointAgreement(ms);
    forall i | 0 <= i < |ms| ensures |w1[i].items| > 1 && w1[i].items[0].Str? { NameItems(ms[i].f, ms[i].c); }
    var more := StringRounds(w1);
    tr := Longer(Tasks(), [w, w1], more, w);
    var w3 := tr[|tr| - 1];
    forall i | 0 <= i < |ms| ensures AtSecondHead(ms, w3[i], i) {
      if LikeDelAtt(ms[i].c) && LikeDelAtt(ms[0].c) {
        LikeItems(ms[i].f, ms[i].c);
        LikeItems(ms[0].f, ms[0].c);
      }
    }
  }

  /** Two processes that part at the second argument's head, or behind it. */
  predicate PartHere(c: Call) {
    c.DefDim? || c.CopyAtt?
  }

  /** A trace that ends with two processes before different collectives. */
  ghost predicate Clashes(tr: seq<seq<Task>>, w: seq<Task>, i: nat, j: nat) {
    && IsTrace(Tasks(), tr, w) && i < |w| && j < |w|
    && !Tasks().done(tr[|tr| - 1][i]) && !Tasks().done(tr[|tr| - 1][j])
    && !Match(Tasks().act(tr[|tr| - 1][i]), Tasks().act(tr[|tr| - 1][j]))
  }

  lemma HeadsDiffer(m: Meet, x: Meet)
    requires m.c.DelAtt? && (x.c.EnddefAlign? || x.c.DefVarFill?)
    ensures !Match(HeadColl(ItemsOf(x.f, x.c)[0]), HeadColl(ItemsOf(m.f, m.c)[0]))
  {
  }

  lemma ClashAtHead(ms: seq<Meet>, d: nat, x: nat) returns (tr: seq<seq<Task>>)
    requires Mixed(ms) && AllClear(ms) && d < |ms| && x < |ms| && ms[d].c.DelAtt?
    requires ms[x].c.EnddefAlign? || ms[x].c.DefVarFill?
    ensures Clashes(tr, Tasking(ms), x, d)
  {
    var w1 := JointAgreement(ms);
    HeadsDiffer(ms[d], ms[x]);
    AtHead(w1[d], 0);
    AtHead(w1[x], 0);
    tr := [Tasking(ms), w1];
  }

  lemma AtHead(t: Task, k: nat)
    requires t.pc == Head(k) && k < |t.items|
    ensures !Tasks().done(t) && Tasks().act(t) == HeadColl(t.items[k])
  {
  }

  lemma SecondHeadsDiffer(m: Meet, x: Meet)
    requires m.c.DelAtt? && PartHere(x.c)
    ensures |ItemsOf(x.f, x.c)| > 1 && |ItemsOf(m.f, m.c)| > 1
    ensures !Match(HeadColl(ItemsOf(x.f, x.c)[1]), HeadColl(ItemsOf(m.f, m.c)[1]))
  {
  }

  lemma ClashAtSecond(ms: seq<Meet>, d: nat, x: nat) returns (tr: seq<seq<Task>>)
    requires Mixed(ms) && AllClear(ms) && d < |ms| && x < |ms| && ms[d].c.DelAtt?
    requires PartHere(ms[x].c) && forall i :: 0 <= i < |ms| ==> NameFirst(ms[i].c)
    ensures Clashes(tr, Tasking(ms), x, d)
  {
    tr := UpToSecond(ms);
    var w3 := tr[|tr| - 1];
    SecondHeadsDiffer(ms[d], ms[x]);
    AtHead(w3[d], 1);
    AtHead(w3[x], 1);
  }

  predicate OneWordNext(c: Call) {
    LikeDelAtt(c) || c.DefVar? || c.RenameAtt?
  }

  lemma OneWordHead(f: File, c: Call)
    requires OneWordNext(c)
    ensures |ItemsOf(f, c)| > 1 && HeadColl(ItemsOf(f, c)[1]).Bcast?
    ensures HeadColl(ItemsOf(f, c)[1]).count == 1 && HeadColl(ItemsOf(f, c)[1]).dtype == INT
  {
  }

  lemma AfterSecond(f: File, t: Task, c: Call, head: Data)
    requires PcOk(t) && t.pc == Head(1) && t.items == ItemsOf(f, c) && OneWordNext(c)
    ensures var t' := Advance(t, Got(head));
      && (LikeDelAtt(c) ==> t'.pc == Second)
      && (c.DefVar? || c.RenameAtt? ==> !t'.pc.Done? && Act(t').Bcast?)
  {
    HeadStep(t, head);
    if LikeDelAtt(c) { LikeItems(f, c); }
  }

  /** The second argument's head is one word for everybody. */
  lemma PastSecondHead(ms: seq<Meet>, w: seq<Task>) returns (w': seq<Task>)
    requires w != [] && |w| == |ms| && forall i :: 0 <= i < |ms| ==> OneWordNext(ms[i].c)
    requires forall i :: 0 <= i < |ms| ==> PcOk(w[i]) && w[i].pc == Head(1) && w[i].items == ItemsOf(ms[i].f, ms[i].c)
    ensures IsTrace(Tasks(), [w, w'], w) && SameFields(w, w') && PcOk(w[0])
    ensures forall i :: 0 <= i < |w| ==> PcOk(w'[i]) && w'[i] == Advance(w[i], Got(Act(w[0]).data))
    ensures forall i :: 0 <= i < |ms| && LikeDelAtt(ms[i].c) ==> w'[i].pc == Second
    ensures forall i :: 0 <= i < |ms| && (ms[i].c.DefVar? || ms[i].c.RenameAtt?) ==> !w'[i].pc.Done? && Act(w'[i]).Bcast?
  {
    forall i | 0 <= i < |w| ensures Match(Act(w[0]), Act(w[i])) {
      OneWordHead(ms[i].f, ms[i].c);
      OneWordHead(ms[0].f, ms[0].c);
    }
    w' := SecondHead(w, Act(w[0]).data);
    forall i | 0 <= i < |ms|
      ensures LikeDelAtt(ms[i].c) ==> w'[i].pc == Second
      ensures ms[i].c.DefVar? || ms[i].c.RenameAtt? ==> !w'[i].pc.Done? && Act(w'[i]).Bcast?
    {
      AfterSecond(ms[i].f, w[i], ms[i].c, Act(w[0]).data);
    }
  }

  /** Behind the second argument's head. */
  ghost predicate BehindSecond(ms: seq<Meet>, w: seq<Task>) {
    |w| == |ms| && forall i :: 0 <= i < |ms| ==> IsBehind(ms, w[i], i)
  }

  ghost predicate IsBehind(ms: seq<Meet>, t: Task, i: nat)
    requires i < |ms|
  {
    && PcOk(t) && t.drvReduce == DriverReduces(ms[i].f, ms[i].c)
    && (LikeDelAtt(ms[i].c) ==> t.pc == Second)
    && (ms[i].c.DefVar? || ms[i].c.RenameAtt? ==> !t.pc.Done? && Act(t).Bcast?)
    && (AllLike(ms) && Coincide(ms) ==> t.err == 0)
  }

  lemma UpToThird(ms: seq<Meet>) returns (tr: seq<seq<Task>>)
    requires Mixed(ms) && AllClear(ms) && forall i :: 0 <= i < |ms| ==> OneWordNext(ms[i].c)
    ensures IsTrace(Tasks(), tr, Tasking(ms)) && BehindSecond(ms, tr[|tr| - 1])
  {
    var upTo := UpToSecond(ms);
    var w3 := upTo[|upTo| - 1];
    var w4 := PastSecondHead(ms, w3);
    forall i | 0 <= i < |ms| ensures IsBehind(ms, w4[i], i) {
      if AllLike(ms) && Coincide(ms) { NothingToObject(ms, w3, i); }
    }
    tr := Longer(Tasks(), upTo, [w3, w4], Tasking(ms));
  }

  lemma NothingToObject(ms: seq<Meet>, w: seq<Task>, i: nat)
    requires AllLike(ms) && Coincide(ms) && AllAtSecondHead(ms, w) && i < |ms|
    ensures Advance(w[i], Got(Act(w[0]).data)).err == 0
  {
    LikeItems(ms[i].f, ms[i].c);
    LikeItems(ms[0].f, ms[0].c);
    HeadStep(w[i], Act(w[0]).data);
  }

  lemma ClashBehindSecond(ms: seq<Meet>, d: nat, x: nat) returns (tr: seq<seq<Task>>)
    requires Mixed(ms) && AllClear(ms) && d < |ms| && x < |ms| && ms[d].c.DelAtt?
    requires (ms[x].c.DefVar? || ms[x].c.RenameAtt?) && forall i :: 0 <= i < |ms| ==> OneWordNext(ms[i].c)
    ensures Clashes(tr, Tasking(ms), x, d)
  {
    tr := UpToThird(ms);
    assert IsBehind(ms, tr[|tr| - 1][d], d) && IsBehind(ms, tr[|tr| - 1][x], x);
  }

  lemma OthersAreOneCall(ms: seq<Meet>, x: nat, i: nat)
    requires Mixed(ms) && x < |ms| && i < |ms| && !ms[x].c.DelAtt?
    ensures ms[i].c.DelAtt? || Api(ms[i].c) == Api(ms[x].c)
  {
  }

  /** A call that is not like ncmpi_del_att comes to another collective than it, unless it is an
      enddef, of which none is modelled behind the first agreement. (Those that the driver has there
      do not match either: agreements, where ncmpi_del_att is at a broadcast.) */
  lemma OtherCallParts(ms: seq<Meet>, d: nat, x: nat) returns (tr: seq<seq<Task>>)
    requires Mixed(ms) && AllClear(ms) && d < |ms| && x < |ms| && ms[d].c.DelAtt?
    requires !LikeDelAtt(ms[x].c) && !ms[x].c.Enddef?
    ensures Clashes(tr, Tasking(ms), x, d)
  {
    forall i | 0 <= i < |ms| ensures ms[i].c.DelAtt? || Api(ms[i].c) == Api(ms[x].c) { OthersAreOneCall(ms, x, i); }
    if ms[x].c.EnddefAlign? || ms[x].c.DefVarFill? {
      tr := ClashAtHead(ms, d, x);
    } else if PartHere(ms[x].c) {
      tr := ClashAtSecond(ms, d, x);
    } else {
      tr := ClashBehindSecond(ms, d, x);
    }
  }

  /** If nobody objects to anything, those whom the driver is not asked for return, and the others
      wait in the driver. */
  ghost predicate Splits(tr: seq<seq<Task>>, ms: seq<Meet>) {
    Mixed(ms) && IsTrace(Tasks(), tr, Tasking(ms)) &&
    var last := tr[|tr| - 1];
    forall i :: 0 <= i < |ms| ==>
      PcOk(last[i]) && if DriverReduces(ms[i].f, ms[i].c) then last[i].pc == Driver else last[i].pc.Done?
  }

  lemma DriverParts(ms: seq<Meet>) returns (tr: seq<seq<Task>>)
    requires Mixed(ms) && AllClear(ms) && AllLike(ms) && Coincide(ms)
    ensures Splits(tr, ms)
  {
    var upTo := UpToThird(ms);
    var w := upTo[|upTo| - 1];
    forall i | 0 <= i < |w| ensures w[i].pc == Second && w[i].err == 0 && w[i].drvReduce == DriverReduces(ms[i].f, ms[i].c) {
      assert IsBehind(ms, w[i], i);
    }
    var w' := LastAgreement(w);
    tr := Longer(Tasks(), upTo, [w, w'], Tasking(ms));
  }

  lemma LastAgreement(w: seq<Task>) returns (w': seq<Task>)
    requires w != [] && forall i :: 0 <= i < |w| ==> w[i].pc == Second && w[i].err == 0
    ensures IsTrace(Tasks(), [w, w'], w) && |w'| == |w|
    ensures forall i :: 0 <= i < |w| ==> w'[i] == ToDriver(w[i])
  {
    assert seq(|w|, i requires 0 <= i < |w| => Contribution(w[i])) == seq(|w|, _ => 0);
    LockstepIsRound(w);
    assert Outcome(w) == MinE(0);
    w' := Lockstep(w);
  }

  /** All come to the ends of their calls. */
  lemma AllEnd(ms: seq<Meet>) returns (tr: seq<seq<Task>>)
    requires Mixed(ms) && (!AllClear(ms) || Compatible(ms))
    ensures IsComplete(Tasks(), tr, Tasking(ms))
  {
    if AllClear(ms) {
      CompatibleIsSync(ms);
      tr := SyncCompletes(Tasking(ms));
    } else {
      tr := RefusedTogether(ms);
    }
  }
}
