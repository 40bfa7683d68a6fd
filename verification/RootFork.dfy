/** A fork from before the first block, with a second block that throws: the smallest run in which a
    failed switch leaves the node half way. */
module RootFork {
  import opened UndoLog
  import opened UndoMachine
  import opened Options
  import opened Blocks
  import opened Replay
  import opened ForkDatabase
  import opened Switching
  import opened SwitchOutcomes
  import opened Anchoring

  const HEAD_KIND: Kind := Kind(2, 1)
  const HEAD_ID: ObjectId := ObjectId(HEAD_KIND, 0)

  /** The one object of this store is the head block. */
  function HeadOf(s: Store<Block>): Block {
    if HEAD_ID in s.objects then s.objects[HEAD_ID] else Root
  }

  const BAD: nat := 2

  /** A block applies after its predecessor unless its content is `BAD`. */
  function Act(s: Store<Block>, b: Block): Script<Block> {
    if b.Block? && HEAD_ID in s.objects && HeadOf(s) == b.previous && b.content != BAD then
      Script([Modify(HEAD_ID, b)], true, Some(b.Num() + 1))
    else Script([], false, None)
  }

  function SmallRules(): Rules<Block> {
    Rules(Act, HeadOf, Store(map[HEAD_ID := Root], map[HEAD_KIND := 1]))
  }

  lemma SmallRulesAreLawful()
    ensures Lawful(SmallRules())
  {
    var r := SmallRules();
    forall s, b ensures LawfulScript(r, s, b) {
      if r.apply(s, b).ok {
        var edits := [Modify(HEAD_ID, b)];
        assert r.apply(s, b).edits == edits && edits[..0] == [];
        assert EditAll(s, edits) == EditStore(s, edits[0]);
      }
    }
  }

  function NothingIrreversible(s: Store<Block>): nat {
    0
  }

  /** Nothing is irreversible under these rules, and every block sets its undo bound by that. */
  lemma SmallRulesFollowBounds()
    requires Lawful(SmallRules())
    ensures BoundsFollow(SmallRules(), NothingIrreversible)
  {
    var r := SmallRules();
    forall h, b | Replayed(r, h).Some? ensures BoundFollows(r, NothingIrreversible, Replayed(r, h).value, b) {
      assert LawfulScript(r, Replayed(r, h).value, b);
    }
  }

  const B1: Block := Block(Root, 0)
  const A1: Block := Block(Root, 1)
  const A2: Block := Block(A1, BAD)

  function StoreWith(b: Block): Store<Block> {
    Store(map[HEAD_ID := b], map[HEAD_KIND := 1])
  }

  lemma SmallReplays()
    requires Lawful(SmallRules())
    ensures var r := SmallRules();
      && Replayed(r, Root) == Some(StoreWith(Root))
      && Replayed(r, B1) == Some(StoreWith(B1)) && Replayed(r, A1) == Some(StoreWith(A1)) && Replayed(r, A2).None?
  {
    var r := SmallRules();
    assert Replayed(r, Root) == Some(StoreWith(Root));
    OneEdit(Root, B1);
    OneEdit(Root, A1);
    assert Replayed(r, A2.previous) == Some(StoreWith(A1));
  }

  lemma OneEdit(p: Block, b: Block)
    requires Lawful(SmallRules()) && Parent(p, b) && b.content != BAD && Replayed(SmallRules(), p) == Some(StoreWith(p))
    ensures SmallRules().apply(StoreWith(p), b) == Script([Modify(HEAD_ID, b)], true, Some(b.Num() + 1))
    ensures Replayed(SmallRules(), b) == Some(StoreWith(b))
  {
    var r, edits := SmallRules(), [Modify(HEAD_ID, b)];
    assert r.apply(StoreWith(p), b) == Script(edits, true, Some(b.Num() + 1));
    assert edits[..0] == [];
    assert EditAll(StoreWith(p), edits) == EditStore(StoreWith(p), edits[0]) == StoreWith(b);
  }

  function AfterB1(): View {
    View(B1, [Root], 2, Forks(map[B1 := Item(B1, 0, None)], Some(Item(B1, 0, None)), 2, 1))
  }

  function AfterA1(): View {
    AfterB1().(forks := Forks(map[B1 := Item(B1, 0, None), A1 := Item(A1, 1, None)], Some(Item(B1, 0, None)), 2, 2))
  }

  lemma {:induction false} FirstPush()
    requires Lawful(SmallRules())
    ensures Sensible(SmallRules(), Fresh())
    ensures PushResult(SmallRules(), Fresh(), B1, false) == Result(Extended, AfterB1())
  {
    var r, v := SmallRules(), Fresh();
    SmallReplays();
    OneEdit(Root, B1);
    assert Pushed(v.forks, B1) == Forks(map[B1 := Item(B1, 0, None)], Some(Item(B1, 0, None)), 1024, 1);
  }

  lemma {:induction false} SecondPush()
    requires Lawful(SmallRules())
    ensures Sensible(SmallRules(), AfterB1())
    ensures PushResult(SmallRules(), AfterB1(), A1, false) == Result(Ignored, AfterA1())
  {
    SmallReplays();
  }

  function WithA2(): View {
    var top := Item(A2, 2, Some(1));
    AfterA1().(forks := Forks(
      map[B1 := Item(B1, 0, None), A1 := Item(A1, 1, None), A2 := top], Some(top), 2, 3))
  }

  lemma {:induction false} SmallHeights()
    ensures A2.Num() == 2 && A1.Num() == 1 && B1.Num() == 1
    ensures SplitHeight(A2, B1) == 1 && Ancestor(B1, 0) == B1 && Ancestor(B1, 1) == Root
  {
    assert SplitHeight(A1, B1) == 1;
    assert Ancestor(Root, 0) == Root;
  }

  lemma {:induction false} SmallPaths()
    ensures var f := WithA2().forks; Reaches(f, f.index[A2], 1) && Reaches(f, f.index[B1], 0)
  {
    var f := WithA2().forks;
    assert f.index[A2] == Item(A2, 2, Some(1)) && f.index[A1] == Item(A1, 1, None);
    assert Lock(f, [], f.index[A2]) == Some(f.index[A1]);
    assert Reaches(f, f.index[A1], 0);
  }

  /** Two branches of these heights meet at `Root`. */
  lemma {:induction false} ShortFork(f: Forks, a: Block, b: Block)
    requires a.Num() == 2 && b.Num() == 1 && SplitHeight(a, b) == 1 && Ancestor(b, 0) == b && b.previous == Root
    requires a in f.index && b in f.index && Reaches(f, f.index[a], 1) && Reaches(f, f.index[b], 0)
    ensures Length(a, a, b) == 2 && Length(b, a, b) == 1 && Split(a, b) == Root && Fetchable(f, a, b)
  {
  }

  lemma {:induction false} SmallFork()
    ensures Fetchable(WithA2().forks, A2, B1) && Split(A2, B1) == Root
    ensures SplitHeight(A2, B1) == 1
  {
    SmallHeights();
    SmallPaths();
    ShortFork(WithA2().forks, A2, B1);
  }

  lemma {:induction false} SmallForkIsInGoodOrder()
    requires Lawful(SmallRules())
    ensures InGoodOrder(SmallRules(), WithA2(), A2) && BranchKeepsHistory(SmallRules(), Root, A2)
  {
    var r := SmallRules();
    SmallReplays();
    SmallFork();
    SmallHeights();
    OneEdit(Root, A1);
    forall k | 0 <= k <= A2.Num() && Ancestor(A2, k).Num() > Root.Num()
      ensures BoundCovers(r, Root, Ancestor(A2, k))
    {
      if k == 1 {
        assert Ancestor(A2, 1) == A1;
      } else {
        assert Ancestor(A2, 0) == A2;
      }
    }
  }

  lemma {:induction false} ThirdPush()
    requires Lawful(SmallRules())
    ensures Sensible(SmallRules(), AfterA1()) && Sensible(SmallRules(), WithA2())
    ensures PushResult(SmallRules(), AfterA1(), A2, false) == SwitchResult(SmallRules(), WithA2(), A2)
  {
    SmallReplays();
    assert Pushed(AfterA1().forks, A2) == WithA2().forks;
  }

  lemma {:induction false} SmallCase(r: Rules<Block>, v: View, top: Block)
    requires Lawful(r) && r == SmallRules() && v == WithA2() && top == A2
    ensures RootCase(r, v, top)
  {
    SmallReplays();
    SmallForkIsInGoodOrder();
    SmallFork();
    SmallHeights();
  }

  /** B1 is the head, A1 is ignored, and A2 throws on top of A1: the node had B1 as its head before the
      last push and is left at A1 by it. */
  lemma {:induction false} RootForkStopsHalfWay()
    ensures Lawful(SmallRules()) && Sensible(SmallRules(), Fresh()) && Sensible(SmallRules(), AfterB1())
    ensures Sensible(SmallRules(), AfterA1())
    ensures PushResult(SmallRules(), Fresh(), B1, false) == Result(Extended, AfterB1())
    ensures PushResult(SmallRules(), AfterB1(), A1, false) == Result(Ignored, AfterA1())
    ensures var t := PushResult(SmallRules(), AfterA1(), A2, false);
      AfterA1().head == B1 && t.outcome == Interrupted(LostParent) && t.view.head == A1
  {
    SmallRulesAreLawful();
    FirstPush();
    SecondPush();
    ThirdPush();
    SmallCase(SmallRules(), WithA2(), A2);
    RootSplitStops(SmallRules(), WithA2(), A2);
  }

  /** A roll-back from an old head without a parent moves nothing. */
  lemma {:induction false} ParentlessRollBack<O(!new)>(
    r: Rules<O>, t: View, a: seq<Item>, b: seq<Item>, i: nat, oldHead: Block)
    requires Lawful(r) && Sensible(r, t) && i < |a| && 1 <= |b| <= oldHead.Num()
    requires b[0].parent.None? && t.head != Ancestor(oldHead, |b|)
    ensures RollBackResult(r, t, a, b, i, oldHead).view.head == t.head
  {
    var start := t.(forks := Discarded(t.forks, a[..i + 1], b[0]));
    assert PopOne(start, a + b) == Stuck(start, LostParent);
  }

  /** A failed switch from an old head without a parent stops below the lowest block that throws. */
  lemma {:induction false} ParentlessSwitch<O(!new)>(r: Rules<O>, v: View, newHead: Block)
    requires Lawful(r) && InGoodOrder(r, v, newHead) && Replayed(r, newHead).None?
    requires v.forks.index[v.head].parent.None?
    requires Ancestor(newHead, LowestFailing(r, newHead) + 1) != Split(newHead, v.head)
    ensures SwitchResult(r, v, newHead).view.head == Ancestor(newHead, LowestFailing(r, newHead) + 1)
  {
    FailedSwitchRollsBack(r, v, newHead);
    BranchesAreIndexed(r, v, newHead);
    SplitIsBelowBoth(newHead, v.head);
    ParentlessRollBack(
      r, TriedView(r, v, newHead), NewBranch(v, newHead), OldBranch(v, newHead), LowestFailing(r, newHead), v.head);
  }

  /** ... which is the predecessor of the new head when nothing below it throws. */
  lemma {:induction false} LeftAtPredecessor<O(!new)>(r: Rules<O>, v: View, newHead: Block)
    requires Lawful(r) && InGoodOrder(r, v, newHead) && Replayed(r, newHead).None?
    requires Replayed(r, newHead.previous).Some? && newHead.previous != Split(newHead, v.head)
    requires v.forks.index[v.head].parent.None?
    ensures SwitchResult(r, v, newHead).view.head == newHead.previous
  {
    assert Ancestor(newHead, 0) == newHead && Ancestor(newHead, 1) == newHead.previous;
    FailingIsUnique(r, newHead, 0);
    ParentlessSwitch(r, v, newHead);
  }

  /** A switch in good order between two forks from before the first block, of which only the new head,
      one above the old, throws. */
  ghost predicate RootCase<O(!new)>(r: Rules<O>, v: View, newHead: Block)
    requires Lawful(r)
  {
    && InGoodOrder(r, v, newHead) && Replayed(r, newHead).None? && Replayed(r, newHead.previous).Some?
    && BranchKeepsHistory(r, Root, newHead) && newHead.Num() == v.head.Num() + 1
    && Split(newHead, v.head) == Root && newHead.previous != Root && v.forks.index[v.head].parent.None?
  }

  lemma {:induction false} RootSplitStops<O(!new)>(r: Rules<O>, v: View, newHead: Block)
    requires Lawful(r) && RootCase(r, v, newHead)
    ensures SwitchResult(r, v, newHead).outcome == Interrupted(LostParent)
    ensures SwitchResult(r, v, newHead).view.head == newHead.previous
  {
    SplitAtRootIsInterrupted(r, v, newHead);
    LeftAtPredecessor(r, v, newHead);
  }
}
