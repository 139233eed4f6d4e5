/** What the safe-mode protocol decides, for any number of processes and any arguments: a verdict
    read off the start, kept by every lockstep round, and delivered at the end. */
module Agreement {
  import opened NetCDF
  import opened Network
  import opened Collective

  /** What comparing one argument with the root's yields. */
  function ItemErr(mine: Item, root: Item): int {
    match mine
    case Str(s, _, code) => if root.Str? && root.s == s then 0 else code
    case Scalars(_, xs, code) => if root.Scalars? && root.xs == xs then 0 else code
    case Vec(n, list, ncode, code) =>
      if !root.Vec? || root.n != n then ncode
      else if Padded(root.list, n) == Padded(list, n) then 0 else code
    case Fill(ids, _, bytes, idcode, code) =>
      if !root.Fill? || root.ids != ids then idcode
      else if RootHasFill(Ints(root.ids)) && root.bytes != bytes then code else 0
  }

  /** The first complaint about the arguments from the k-th on. */
  function FirstErr(mine: seq<Item>, root: seq<Item>, k: nat): int
    requires |mine| == |root|
    decreases |mine| - k
  {
    if k >= |mine| then 0
    else if ItemErr(mine[k], root[k]) != 0 then ItemErr(mine[k], root[k])
    else FirstErr(mine, root, k + 1)
  }

  /** Two processes make the same call: same kinds of arguments in the same order. A fill value
      is broadcast in the size of each process's own variable, so those sizes must be the same. */
  predicate SameKind(a: Item, b: Item) {
    match a
    case Str(_, _, c) => b.Str? && c < 0
    case Scalars(t, xs, c) => b.Scalars? && b.dtype == t && |b.xs| == |xs| && c < 0
    case Vec(_, _, nc, c) => b.Vec? && nc < 0 && c < 0
    case Fill(ids, size, _, ic, c) =>
      b.Fill? && |ids| == |b.ids| == 3 && ic < 0 && c < 0 &&
      (RootHasFill(Ints(b.ids)) ==> size == b.size)
  }

  predicate SameCall(t: Task, root: Task) {
    && |t.items| == |root.items|
    && (forall k :: 0 <= k < |t.items| ==> SameKind(t.items[k], root.items[k]))
    && t.strict == root.strict
    && t.err <= 0 && t.drv <= 0
  }

  predicate SamePlace(t: Task, root: Task) {
    && PcOk(t) && PcOk(root)
    && (t.pc.Done? <==> root.pc.Done?)
    && (!t.pc.Done? ==> t.pc == root.pc)
    && (t.pc.Driver? ==> t.drvReduce)
    && (root.pc.Body? ==>
          root.pc.head == HeadColl(root.items[root.pc.k]).data && HasBody(root.items[root.pc.k], root.pc.head))
  }

  /** The complaint a process will have when it comes to the second agreement. */
  function Owed(t: Task, roots: seq<Item>): int
    requires |t.items| == |roots| && PcOk(t)
  {
    if t.err != 0 then t.err
    else match t.pc
      case First => FirstErr(t.items, roots, 0)
      case Head(k) => FirstErr(t.items, roots, k)
      case Body(k, head) =>
        var e := BodyErr(t.items[k], head, BodyColl(roots[k], head).data);
        if e != 0 then e else FirstErr(t.items, roots, k + 1)
      case _ => 0
  }

  ghost predicate Aligned(w: seq<Task>) {
    && WorldOk(w)
    && (forall i :: 0 <= i < |w| ==> SameCall(w[i], w[0]) && SamePlace(w[i], w[0]))
  }

  function Owing(w: seq<Task>): seq<int>
    requires w != [] && forall i :: 0 <= i < |w| ==> |w[i].items| == |w[0].items| && PcOk(w[i])
  {
    seq(|w|, i requires 0 <= i < |w| => Owed(w[i], w[0].items))
  }

  function Errs(w: seq<Task>): seq<int> {
    seq(|w|, i requires 0 <= i < |w| => w[i].err)
  }

  function Drvs(w: seq<Task>): seq<int> {
    seq(|w|, i requires 0 <= i < |w| => w[i].drv)
  }

  /** The driver of everybody agrees first, or of nobody; only asked of processes that will get
      as far as the driver. */
  ghost predicate DriversAlike(w: seq<Task>)
    requires Aligned(w)
  {
    MinOf(Owing(w)) == 0 ==> forall i :: 0 <= i < |w| ==> w[i].drvReduce == w[0].drvReduce
  }

  ghost predicate Sync(w: seq<Task>) {
    Aligned(w) && DriversAlike(w)
  }

  function DriverVerdict(w: seq<Task>, i: nat): Pc
    requires i < |w|
  {
    if w[i].drvReduce && MinOf(Drvs(w)) != 0 then Done(MinOf(Drvs(w)), true)
    else Done(w[i].drv, true)
  }

  /** What process i will return, and whether it will have called the driver. */
  function Verdict(w: seq<Task>, i: nat): Pc
    requires i < |w| && forall j :: 0 <= j < |w| ==> |w[j].items| == |w[0].items| && PcOk(w[j])
  {
    if w[i].pc.Done? then w[i].pc
    else if w[i].pc.Driver? then DriverVerdict(w, i)
    else if w[i].pc.First? && MinOf(Errs(w)) != 0 then Done(MinOf(Errs(w)), false)
    else
      var owed := Owing(w);
      if w[i].strict || owed[i] == 0 then
        if MinOf(owed) != 0 then Done(MinOf(owed), false) else DriverVerdict(w, i)
      else Done(owed[i], false)
  }

  /* ---------------- one round ---------------- */

  lemma SameKindMatch(a: Item, b: Item, head: Data)
    requires SameKind(a, b)
    ensures Match(HeadColl(b), HeadColl(a))
    ensures head == HeadColl(b).data && HasBody(b, head) ==> Match(BodyColl(b, head), BodyColl(a, head)) && HasBody(a, head)
    ensures HasBody(b, head) == HasBody(a, head)
  {
  }

  /** In safe mode everybody enters the same collective with the same count. */
  lemma SyncUniform(w: seq<Task>)
    requires Sync(w) && !AllDone(w)
    ensures Uniform(w)
  {
  }

  /** The two rounds of one argument complain exactly when comparing the arguments does. */
  lemma HeadThenBody(a: Item, b: Item)
    requires SameKind(a, b)
    ensures var head := HeadColl(b).data;
      ItemErr(a, b) ==
        if HeadErr(a, head) != 0 then HeadErr(a, head)
        else if HasBody(b, head) then BodyErr(a, head, BodyColl(b, head).data) else 0
  {
  }

  lemma CodesNegative(a: Item, b: Item, head: Data, body: Data)
    requires SameKind(a, b)
    ensures HeadErr(a, head) <= 0 && BodyErr(a, head, body) <= 0 && ItemErr(a, b) <= 0
  {
  }

  lemma HeadStep(t: Task, head: Data)
    requires PcOk(t) && t.pc.Head?
    ensures var t', it := Advance(t, Got(head)), t.items[t.pc.k];
      && t'.err == (if t.err == 0 then HeadErr(it, head) else t.err)
      && t'.pc == (if HasBody(it, head) then Body(t.pc.k, head) else if t.pc.k + 1 < |t.items| then Head(t.pc.k + 1) else Second)
      && t'.spilt == (t.spilt || !Fit(it, t.root, head))
  {
  }

  lemma HeadRoundKeepsOwed(t: Task, root: Task)
    requires SameCall(t, root) && SamePlace(t, root) && root.pc.Head?
    ensures var r := Got(Act(root).data);
      && SameCall(Advance(t, r), Advance(root, r))
      && SamePlace(Advance(t, r), Advance(root, r))
      && Owed(Advance(t, r), root.items) == Owed(t, root.items)
  {
    var k := root.pc.k;
    var a, b := t.items[k], root.items[k];
    var head := HeadColl(b).data;
    HeadThenBody(a, b);
    SameKindMatch(a, b, head);
    CodesNegative(a, b, head, BodyColl(b, head).data);
    HeadStep(t, head);
    HeadStep(root, head);
    assert FirstErr(t.items, root.items, k)
        == if ItemErr(a, b) != 0 then ItemErr(a, b) else FirstErr(t.items, root.items, k + 1);
  }

  lemma BodyRoundKeepsOwed(t: Task, root: Task)
    requires SameCall(t, root) && SamePlace(t, root) && root.pc.Body?
    ensures var r := Got(Act(root).data);
      && SameCall(Advance(t, r), Advance(root, r))
      && SamePlace(Advance(t, r), Advance(root, r))
      && Owed(Advance(t, r), root.items) == Owed(t, root.items)
  {
  }

  lemma MinZero(s: seq<int>)
    requires s != [] && forall i :: 0 <= i < |s| ==> s[i] <= 0
    ensures MinOf(s) <= 0
    ensures MinOf(s) == 0 <==> forall i :: 0 <= i < |s| ==> s[i] == 0
  {
  }

  lemma {:induction false} FirstErrSign(a: Task, b: Task, k: nat)
    requires SameCall(a, b)
    ensures FirstErr(a.items, b.items, k) <= 0
    decreases |a.items| - k
  {
    if k < |a.items| {
      CodesNegative(a.items[k], b.items[k], Ints([]), Ints([]));
      FirstErrSign(a, b, k + 1);
    }
  }

  lemma OwedSign(t: Task, root: Task)
    requires SameCall(t, root) && PcOk(t)
    ensures Owed(t, root.items) <= 0
  {
    FirstErrSign(t, root, if t.pc.Head? then t.pc.k else if t.pc.Body? then t.pc.k + 1 else 0);
    if t.pc.Body? {
      CodesNegative(t.items[t.pc.k], root.items[t.pc.k], t.pc.head, BodyColl(root.items[t.pc.k], t.pc.head).data);
    }
  }

  lemma OwingSigns(w: seq<Task>)
    requires Aligned(w)
    ensures forall i :: 0 <= i < |w| ==> Owing(w)[i] <= 0
  {
    forall i | 0 <= i < |w| ensures Owing(w)[i] <= 0 { OwedSign(w[i], w[0]); }
  }

  lemma CompareTask(t: Task, root: Task)
    requires SameCall(t, root) && SamePlace(t, root) && (root.pc.Head? || root.pc.Body?)
    ensures var r := Got(Act(root).data);
      && SameCall(Advance(t, r), Advance(root, r)) && SamePlace(Advance(t, r), Advance(root, r))
      && Owed(Advance(t, r), root.items) == Owed(t, root.items)
      && (Advance(root, r).pc.Head? || Advance(root, r).pc.Body? || Advance(root, r).pc.Second?)
  {
    if root.pc.Head? { HeadRoundKeepsOwed(t, root); } else { BodyRoundKeepsOwed(t, root); }
  }

  /** After a comparison round the verdict stands. */
  lemma CompareRound(w: seq<Task>)
    requires Sync(w) && (w[0].pc.Head? || w[0].pc.Body?)
    ensures Sync(Lockstep(w))
    ensures forall i :: 0 <= i < |w| ==> Verdict(Lockstep(w), i) == Verdict(w, i)
  {
    var w' := Lockstep(w);
    var r := Got(Act(w[0]).data);
    assert Outcome(w) == r;
    forall i | 0 <= i < |w|
      ensures SameCall(w'[i], w'[0]) && SamePlace(w'[i], w'[0]) && Owed(w'[i], w'[0].items) == Owed(w[i], w[0].items)
      ensures w'[0].pc.Head? || w'[0].pc.Body? || w'[0].pc.Second?
    {
      assert SameCall(w[i], w[0]) && SamePlace(w[i], w[0]);
      assert w'[i] == Advance(w[i], r) && w'[0] == Advance(w[0], r);
      CompareTask(w[i], w[0]);
    }
    assert Owing(w') == Owing(w);
    assert Drvs(w') == Drvs(w);
  }

  lemma ErrsAgreed(w: seq<Task>)
    requires Sync(w) && (w[0].pc.First? || w[0].pc.Second?)
    ensures Outcome(w) == MinE(MinOf(Errs(w)))
    ensures MinOf(Errs(w)) == 0 <==> forall i :: 0 <= i < |w| ==> w[i].err == 0
    ensures MinOf(Errs(w)) <= 0
  {
    assert seq(|w|, i requires 0 <= i < |w| => Contribution(w[i])) == Errs(w);
    assert forall i :: 0 <= i < |w| ==> Errs(w)[i] == w[i].err;
    MinZero(Errs(w));
  }

  /** Everybody is done. */
  lemma EndedSync(w: seq<Task>)
    requires WorldOk(w) && forall i :: 0 <= i < |w| ==> SameCall(w[i], w[0]) && w[i].pc.Done?
    requires MinOf(Errs(w)) == 0 ==> forall i :: 0 <= i < |w| ==> w[i].drvReduce == w[0].drvReduce
    ensures Sync(w)
    ensures forall i :: 0 <= i < |w| ==> Verdict(w, i) == w[i].pc
  {
    assert Owing(w) == Errs(w);
  }

  /** The first agreement, when somebody has an error: everybody returns the smallest. */
  lemma FirstFails(w: seq<Task>)
    requires Sync(w) && w[0].pc.First? && MinOf(Errs(w)) != 0
    ensures Sync(Lockstep(w))
    ensures forall i :: 0 <= i < |w| ==> Verdict(Lockstep(w), i) == Verdict(w, i)
  {
    var w' := Lockstep(w);
    ErrsAgreed(w);
    forall i | 0 <= i < |w| ensures w'[i] == w[i].(pc := Done(MinOf(Errs(w)), false)) {
      assert SamePlace(w[i], w[0]);
    }
    assert Errs(w') == Errs(w);
    EndedSync(w');
  }

  lemma FirstTask(t: Task, root: Task)
    requires SameCall(t, root) && SamePlace(t, root) && root.pc.First? && t.err == root.err == 0
    requires t.items == [] ==> t.drvReduce == root.drvReduce
    ensures SameCall(Advance(t, MinE(0)), Advance(root, MinE(0)))
    ensures SamePlace(Advance(t, MinE(0)), Advance(root, MinE(0)))
    ensures Owed(Advance(t, MinE(0)), root.items) == Owed(t, root.items)
    ensures Advance(t, MinE(0)).pc == if t.items != [] then Head(0) else if t.drvReduce then Driver else Done(t.drv, true)
  {
  }

  lemma OwedOfNoItems(w: seq<Task>)
    requires Aligned(w) && w[0].items == [] && forall i :: 0 <= i < |w| ==> w[i].err == 0
    ensures Owing(w) == Errs(w)
  {
  }

  /** The first agreement, when nobody has an error. */
  lemma FirstPasses(w: seq<Task>)
    requires Sync(w) && w[0].pc.First? && MinOf(Errs(w)) == 0
    ensures Sync(Lockstep(w))
    ensures forall i :: 0 <= i < |w| ==> Verdict(Lockstep(w), i) == Verdict(w, i)
  {
    var w' := Lockstep(w);
    ErrsAgreed(w);
    if w[0].items == [] { OwedOfNoItems(w); }
    forall i | 0 <= i < |w|
      ensures SameCall(w'[i], w'[0]) && SamePlace(w'[i], w'[0]) && Owed(w'[i], w'[0].items) == Owed(w[i], w[0].items)
      ensures w'[i].pc == if w[i].items != [] then Head(0) else if w[i].drvReduce then Driver else Done(w[i].drv, true)
    {
      assert SameCall(w[i], w[0]) && SamePlace(w[i], w[0]);
      FirstTask(w[i], w[0]);
    }
    assert Owing(w') == Owing(w);
    assert Drvs(w') == Drvs(w);
  }

  /** The second agreement, when somebody complains about an argument. */
  lemma SecondFails(w: seq<Task>)
    requires Sync(w) && w[0].pc.Second? && MinOf(Errs(w)) != 0
    ensures Sync(Lockstep(w))
    ensures forall i :: 0 <= i < |w| ==> Verdict(Lockstep(w), i) == Verdict(w, i)
  {
    var w' := Lockstep(w);
    var m := MinOf(Errs(w));
    ErrsAgreed(w);
    assert Owing(w) == Errs(w);
    forall i | 0 <= i < |w|
      ensures w'[i] == w[i].(pc := Done(if !w[i].strict && w[i].err != 0 then w[i].err else m, false))
    {
      assert SamePlace(w[i], w[0]);
    }
    assert Errs(w') == Errs(w);
    EndedSync(w');
  }

  lemma ToDriverTask(t: Task, root: Task)
    requires SameCall(t, root) && SamePlace(t, root) && root.pc.Second? && t.err == 0 && t.drvReduce == root.drvReduce
    ensures SameCall(ToDriver(t), ToDriver(root)) && SamePlace(ToDriver(t), ToDriver(root))
    ensures Owed(ToDriver(t), root.items) == 0
  {
  }

  /** The second agreement, when nobody does. */
  lemma SecondPasses(w: seq<Task>)
    requires Sync(w) && w[0].pc.Second? && MinOf(Errs(w)) == 0
    ensures Sync(Lockstep(w))
    ensures forall i :: 0 <= i < |w| ==> Verdict(Lockstep(w), i) == Verdict(w, i)
  {
    var w' := Lockstep(w);
    ErrsAgreed(w);
    assert Owing(w) == Errs(w);
    forall i | 0 <= i < |w|
      ensures w'[i] == ToDriver(w[i]) && SameCall(w'[i], w'[0]) && SamePlace(w'[i], w'[0])
      ensures Owed(w'[i], w'[0].items) == 0
    {
      assert SameCall(w[i], w[0]) && SamePlace(w[i], w[0]);
      assert w'[0] == ToDriver(w[0]);
      ToDriverTask(w[i], w[0]);
    }
    assert Owing(w') == Errs(w);
    assert Drvs(w') == Drvs(w);
  }

  /** The driver's agreement. */
  lemma DriverRound(w: seq<Task>)
    requires Sync(w) && w[0].pc.Driver?
    ensures Sync(Lockstep(w))
    ensures forall i :: 0 <= i < |w| ==> Verdict(Lockstep(w), i) == Verdict(w, i)
  {
    var w' := Lockstep(w);
    assert seq(|w|, i requires 0 <= i < |w| => Contribution(w[i])) == Drvs(w);
    forall i | 0 <= i < |w| ensures w'[i].pc.Done? && SameCall(w'[i], w'[0]) && w'[i].drvReduce {
      assert SameCall(w[i], w[0]) && SamePlace(w[i], w[0]);
    }
    EndedSync(w');
  }

  lemma RoundKeepsVerdict(w: seq<Task>)
    requires Sync(w) && !AllDone(w)
    ensures Sync(Lockstep(w))
    ensures forall i :: 0 <= i < |w| ==> Verdict(Lockstep(w), i) == Verdict(w, i)
  {
    var i :| 0 <= i < |w| && !w[i].pc.Done?;
    assert SamePlace(w[i], w[0]);
    match w[0].pc
    case First => if MinOf(Errs(w)) != 0 { FirstFails(w); } else { FirstPasses(w); }
    case Second => if MinOf(Errs(w)) != 0 { SecondFails(w); } else { SecondPasses(w); }
    case Driver => DriverRound(w);
    case _ => CompareRound(w);
  }

  lemma RoundDropsWeight(w: seq<Task>)
    requires Sync(w) && !AllDone(w)
    ensures Weight(Lockstep(w)[0]) < Weight(w[0])
  {
    var i :| 0 <= i < |w| && !w[i].pc.Done?;
    assert SamePlace(w[i], w[0]);
    WeightDrops(w[0], Outcome(w));
  }

  /* ---------------- writing past a buffer ---------------- */

  /** Some string from the k-th argument on does not fit into the buffer that the root's needs. */
  predicate SpillsFrom(mine: seq<Item>, roots: seq<Item>, k: nat, root: bool)
    requires |mine| == |roots|
  {
    exists x :: k <= x < |mine| && !Fit(mine[x], root, HeadColl(roots[x]).data)
  }

  /** A process has written past a buffer, or will if the comparisons go on. */
  predicate SpillDue(t: Task, roots: seq<Item>)
    requires |t.items| == |roots| && PcOk(t)
  {
    t.spilt ||
    match t.pc
    case First => SpillsFrom(t.items, roots, 0, t.root)
    case Head(k) => SpillsFrom(t.items, roots, k, t.root)
    case Body(k, _) => SpillsFrom(t.items, roots, k + 1, t.root)
    case _ => false
  }

  lemma SpillStep(t: Task, root: Task, r: Reply)
    requires SameCall(t, root) && SamePlace(t, root) && !root.pc.Done? && Fits(Act(root), r)
    requires root.pc.First? ==> r.minE == 0
    requires root.pc.Head? ==> r == Got(HeadColl(root.items[root.pc.k]).data)
    ensures SpillDue(Advance(t, r), root.items) == SpillDue(t, root.items)
  {
    if root.pc.Head? {
      var k := root.pc.k;
      HeadStep(t, r.data);
      assert SpillsFrom(t.items, root.items, k, t.root)
        <==> !Fit(t.items[k], t.root, r.data) || SpillsFrom(t.items, root.items, k + 1, t.root);
    }
  }

  lemma OutcomeFits(w: seq<Task>)
    requires Sync(w) && !AllDone(w)
    ensures !w[0].pc.Done? && Fits(Act(w[0]), Outcome(w))
    ensures w[0].pc.Head? ==> Outcome(w) == Got(HeadColl(w[0].items[w[0].pc.k]).data)
    ensures w[0].pc.First? ==> Outcome(w) == MinE(MinOf(Errs(w)))
  {
    var i :| 0 <= i < |w| && !w[i].pc.Done?;
    assert SamePlace(w[i], w[0]);
    if w[0].pc.First? { ErrsAgreed(w); }
  }

  lemma RoundKeepsSpill(w: seq<Task>)
    requires Sync(w) && !AllDone(w) && (w[0].pc.First? ==> MinOf(Errs(w)) == 0)
    ensures forall i :: 0 <= i < |w| ==> SpillDue(Lockstep(w)[i], w[0].items) == SpillDue(w[i], w[0].items)
  {
    OutcomeFits(w);
    forall i | 0 <= i < |w| ensures SpillDue(Lockstep(w)[i], w[0].items) == SpillDue(w[i], w[0].items) {
      assert SameCall(w[i], w[0]) && SamePlace(w[i], w[0]);
      SpillStep(w[i], w[0], Outcome(w));
    }
  }

  /** Whether process i will have written past a buffer when the call is over. */
  predicate WillSpill(w: seq<Task>, i: nat)
    requires i < |w| && forall j :: 0 <= j < |w| ==> |w[j].items| == |w[0].items| && PcOk(w[j])
  {
    if w[0].pc.First? && MinOf(Errs(w)) != 0 then w[i].spilt else SpillDue(w[i], w[0].items)
  }

  lemma RoundKeepsWillSpill(w: seq<Task>)
    requires Sync(w) && !AllDone(w) && Sync(Lockstep(w))
    ensures forall i :: 0 <= i < |w| ==> WillSpill(Lockstep(w), i) == WillSpill(w, i)
  {
    OutcomeFits(w);
    if w[0].pc.First? && MinOf(Errs(w)) != 0 {
      forall i | 0 <= i < |w| ensures Lockstep(w)[i] == w[i].(pc := Done(MinOf(Errs(w)), false)) {
        assert SamePlace(w[i], w[0]);
      }
    } else {
      RoundKeepsSpill(w);
      assert !Lockstep(w)[0].pc.First?;
    }
  }

  /* ---------------- a whole call ---------------- */

  /** Everybody is at the first agreement and somebody has an error: what the arguments are no
      longer matters. */
  ghost predicate Doomed(w: seq<Task>) {
    && WorldOk(w)
    && (forall i :: 0 <= i < |w| ==> w[i].pc.First? && w[i].err <= 0 && |w[i].items| == |w[0].items|)
    && MinOf(Errs(w)) != 0
  }

  ghost predicate Orderly(w: seq<Task>) {
    Sync(w) || Doomed(w)
  }

  /** A call has gone its way in lockstep: everybody returns the verdict. */
  ghost predicate Delivered(w: seq<Task>, w': seq<Task>)
    requires Orderly(w)
  {
    |w'| == |w| && AllDone(w') && forall i :: 0 <= i < |w| ==>
      w'[i].pc == Verdict(w, i) && w'[i].spilt == WillSpill(w, i) && w'[i].root == w[i].root
  }

  lemma DoomedRound(w: seq<Task>)
    requires Doomed(w)
    ensures Uniform(w) && Delivered(w, Lockstep(w))
  {
    assert seq(|w|, i requires 0 <= i < |w| => Contribution(w[i])) == Errs(w);
  }

  lemma DoomedCompletes(w: seq<Task>) returns (tr: seq<seq<Task>>)
    requires Doomed(w)
    ensures IsComplete(Tasks(), tr, w) && Delivered(w, tr[|tr| - 1])
  {
    DoomedRound(w);
    LockstepIsRound(w);
    LockstepIsRound(Lockstep(w));
    Prepend(Tasks(), w, [Lockstep(w)]);
    tr := [w] + [Lockstep(w)];
  }

  lemma DeliveredBack(w: seq<Task>, last: seq<Task>)
    requires Sync(w) && !AllDone(w) && Sync(Lockstep(w)) && Delivered(Lockstep(w), last)
    requires forall i :: 0 <= i < |w| ==> Verdict(Lockstep(w), i) == Verdict(w, i)
    ensures Delivered(w, last)
  {
    RoundKeepsWillSpill(w);
  }

  lemma {:induction false} SyncCompletes(w: seq<Task>) returns (tr: seq<seq<Task>>)
    requires Sync(w)
    ensures IsComplete(Tasks(), tr, w) && Delivered(w, tr[|tr| - 1])
    decreases Weight(w[0])
  {
    LockstepIsRound(w);
    if AllDone(w) {
      tr := [w];
    } else {
      SyncUniform(w);
      RoundKeepsVerdict(w);
      RoundDropsWeight(w);
      var rest := SyncCompletes(Lockstep(w));
      DeliveredBack(w, rest[|rest| - 1]);
      Prepend(Tasks(), w, rest);
      tr := [w] + rest;
      assert tr[|tr| - 1] == rest[|rest| - 1];
    }
  }

  /** A call runs to its end in lockstep, and everybody returns the verdict. */
  lemma Completes(w: seq<Task>) returns (tr: seq<seq<Task>>)
    requires Orderly(w)
    ensures IsComplete(Tasks(), tr, w) && Delivered(w, tr[|tr| - 1])
  {
    if Sync(w) { tr := SyncCompletes(w); } else { tr := DoomedCompletes(w); }
  }

  /** The decision, under every interleaving: no mismatched collectives, nobody stuck, and when
      everybody has returned, everybody has returned the verdict. */
  lemma EveryRunDecides(w: seq<Task>, run: seq<Net<Task>>)
    requires Orderly(w) && IsRun(Tasks(), run, w)
    ensures !Mismatch(Last(run))
    ensures AllHome(Tasks(), Last(run).procs) || CanMove(Tasks(), Last(run))
    ensures AllHome(Tasks(), Last(run).procs) ==> Delivered(w, Last(run).procs)
  {
    var tr := Completes(w);
    NoMismatch(Tasks(), tr, w, run);
    Progress(Tasks(), tr, w, run);
    if AllHome(Tasks(), Last(run).procs) { FinalIsLockstep(Tasks(), tr, w, run); }
  }
}
