/** When a switch to another branch goes through, when a failed one puts the old branch back, and when
    it is left half way. */
module SwitchOutcomes {
  import opened UndoLog
  import opened UndoMachine
  import opened Options
  import opened Blocks
  import opened Replay
  import opened ForkDatabase
  import opened Switching

  // ---------------------------------------------------------------- the undo stack while trying a branch

  /** The undo stack reaches back to `base`, and the bound lets it keep doing so. */
  ghost predicate Covered(heads: seq<Block>, head: Block, max: nat, base: Block) {
    ReachesBack(heads, head, base) && head.Num() - base.Num() <= max
  }

  ghost predicate ReachesBack(heads: seq<Block>, head: Block, base: Block) {
    head.Num() >= base.Num() && UndoReaches(heads, head, head.Num() - base.Num())
  }

  lemma {:induction false} TriedKeepsReach<O(!new)>(r: Rules<O>, v: View, b: Block, base: Block)
    requires Lawful(r) && Sensible(r, v) && Parent(v.head, b)
    requires Covered(v.heads, v.head, v.max, base) && BoundCovers(r, base, b)
    ensures var w := Tried(r, v, b);
      && (Applies(r, v, b) ==> Covered(w.heads, w.head, w.max, base))
      && (!Applies(r, v, b) ==> ReachesBack(w.heads, w.head, base))
  {
    AppliesIffReplays(r, v, b);
    assert LawfulScript(r, Replayed(r, v.head).value, b);
    ReachAfterBlock(v.heads, b, v.head.Num() - base.Num(), v.max);
  }

  lemma {:induction false} BranchBoundCovers<O(!new)>(r: Rules<O>, base: Block, top: Block, k: nat)
    requires Lawful(r) && BranchKeepsHistory(r, base, top) && k <= top.Num() && top.Num() - k > base.Num()
    ensures BoundCovers(r, base, Ancestor(top, k))
  {
  }

  /** A branch that does not move irreversibility past `base` leaves the way back to `base` open. */
  lemma {:induction false} TriedBranchKeepsReach<O(!new)>(r: Rules<O>, v: View, top: Block, n: nat, base: Block)
    requires Lawful(r) && Sensible(r, v) && n <= top.Num() && v.head == Ancestor(top, n)
    requires Covered(v.heads, v.head, v.max, base) && BranchKeepsHistory(r, base, top)
    ensures var w := TriedBranch(r, v, top, n); ReachesBack(w.heads, w.head, base)
    decreases n
  {
    if n > 0 {
      var b := Ancestor(top, n - 1);
      AncestorStep(top, n - 1);
      BranchBoundCovers(r, base, top, n - 1);
      AppliesIffReplays(r, v, b);
      TriedKeepsReach(r, v, b, base);
      TriedIsSensible(r, v, b);
      if Applies(r, v, b) {
        TriedBranchKeepsReach(r, Tried(r, v, b), top, n - 1, base);
      }
    }
  }

  // ---------------------------------------------------------------- the fork tree while trying a branch

  /** `f` is what is left of the tree `f0`. */
  ghost predicate Remains(f: Forks, f0: Forks) {
    forall b <- f.index :: b in f0.index && f.index[b] == f0.index[b]
  }

  /** Blocks from just below the fork head up are never trimmed. */
  ghost predicate KeepsTop(f: Forks, f0: Forks) {
    forall b <- f0.index :: f0.head.Some? && b.Num() + 1 >= f0.head.value.block.Num() ==> b in f.index
  }

  ghost predicate TrimmedFrom(f: Forks, f0: Forks) {
    f.head == f0.head && Remains(f, f0) && KeepsTop(f, f0)
  }

  lemma {:induction false} TriedTrims<O(!new)>(r: Rules<O>, v: View, b: Block)
    requires Lawful(r) && Sensible(r, v)
    ensures TrimmedFrom(Tried(r, v, b).forks, v.forks)
  {
    assert LawfulScript(r, Replayed(r, v.head).value, b);
  }

  lemma {:induction false} TriedBranchTrims<O(!new)>(r: Rules<O>, v: View, top: Block, n: nat)
    requires Lawful(r) && Sensible(r, v) && n <= top.Num() && v.head == Ancestor(top, n)
    ensures TrimmedFrom(TriedBranch(r, v, top, n).forks, v.forks)
    decreases n
  {
    if n > 0 {
      var b := Ancestor(top, n - 1);
      AncestorStep(top, n - 1);
      AppliesIffReplays(r, v, b);
      TriedTrims(r, v, b);
      TriedIsSensible(r, v, b);
      if Applies(r, v, b) {
        TriedBranchTrims(r, Tried(r, v, b), top, n - 1);
      }
    }
  }

  // ---------------------------------------------------------------- moving the fork head

  /** All items are indexed in `f`. */
  ghost predicate Indexed(f: Forks, items: seq<Item>) {
    forall k :: 0 <= k < |items| ==> items[k].block in f.index && f.index[items[k].block] == items[k]
  }

  ghost predicate HeadIndexed(f: Forks, b: Block) {
    b in f.index && f.head == Some(f.index[b])
  }

  /** The parent that `it` was linked to is still in the index. */
  predicate ParentIndexed(f: Forks, it: Item) {
    && it.block.Block? && it.parent.Some?
    && it.block.previous in f.index && f.index[it.block.previous].serial == it.parent.value
  }

  /** Each item links to the next one as its parent. */
  ghost predicate ParentLinked(b: seq<Item>) {
    forall i :: 0 <= i < |b| - 1 ==> b[i].parent == Some(b[i + 1].serial) && Parent(b[i + 1].block, b[i].block)
  }

  lemma {:induction false} PathIsIndexed(f: Forks, path: seq<Item>)
    requires Filed(f) && Linked(f, path) && |path| >= 1
    requires f.head.Some? ==> HeadIndexed(f, f.head.value.block)
    requires path[0].block in f.index && f.index[path[0].block] == path[0]
    ensures Indexed(f, path) && ParentLinked(path)
  {
    forall k | 0 <= k < |path|
      ensures path[k].block in f.index && f.index[path[k].block] == path[k]
    {
      if k > 0 {
        assert Lock(f, [], path[k - 1]) == Some(path[k]);
      }
    }
    forall k | 0 <= k < |path| - 1
      ensures path[k].parent == Some(path[k + 1].serial) && Parent(path[k + 1].block, path[k].block)
    {
      assert Lock(f, [], path[k]) == Some(path[k + 1]);
    }
  }

  lemma {:induction false} PinnedIsFound(f0: Forks, pinned: seq<Item>, it: Item, k: nat)
    requires Indexed(f0, pinned) && k < |pinned| && pinned[k] == it
    ensures FindPinned(pinned, it.block, it.serial) == Some(it)
    decreases |pinned|
  {
    if k > 0 && !(pinned[0].block == it.block && pinned[0].serial == it.serial) {
      assert forall j :: 0 <= j < |pinned| - 1 ==> pinned[1..][j] == pinned[j + 1];
      PinnedIsFound(f0, pinned[1..], it, k - 1);
    } else {
      assert pinned[0].block in f0.index;
    }
  }

  lemma {:induction false} NothingPinned(pinned: seq<Item>, b: Block, serial: nat)
    requires forall k :: 0 <= k < |pinned| ==> pinned[k].block != b
    ensures FindPinned(pinned, b, serial).None?
    decreases |pinned|
  {
    if pinned != [] {
      assert forall j :: 0 <= j < |pinned| - 1 ==> pinned[1..][j] == pinned[j + 1];
      NothingPinned(pinned[1..], b, serial);
    }
  }

  /** From an item of a pinned branch the head moves to the next one, whatever was trimmed. */
  lemma {:induction false} MovesAlongPinned(f: Forks, f0: Forks, pinned: seq<Item>, it: Item, next: Item, k: nat)
    requires Filed(f0) && Remains(f, f0) && Indexed(f0, pinned) && k < |pinned| && pinned[k] == next
    requires Parent(next.block, it.block) && it.parent == Some(next.serial) && f.head == Some(it)
    ensures Lock(f, pinned, it) == Some(next)
  {
    assert next.block in f0.index && f0.index[next.block] == next;
    PinnedIsFound(f0, pinned, next, k);
    assert it.block != next.block;
  }

  /** Along a pinned branch the pops go through; beyond its end they are those of its last item. */
  lemma {:induction false} PopsAlongPinned(
    f: Forks, f0: Forks, pinned: seq<Item>, b: seq<Item>, at: nat, j: nat, k: nat)
    requires Filed(f0) && Remains(f, f0) && Indexed(f0, pinned)
    requires at + |b| <= |pinned| && pinned[at..at + |b|] == b && j < |b| && f.head == Some(b[j])
    requires ParentLinked(b)
    ensures ForkPops(f, pinned, k) <==>
      k < |b| - j || ForkPops(f.(head := Some(b[|b| - 1])), pinned, k - (|b| - j) + 1)
    decreases |b| - j
  {
    if j < |b| - 1 {
      assert pinned[at + (j + 1)] == b[j + 1];
      MovesAlongPinned(f, f0, pinned, b[j], b[j + 1], at + (j + 1));
      if k > 0 {
        PopsAlongPinned(f.(head := Some(b[j + 1])), f0, pinned, b, at, j + 1, k - 1);
        assert f.(head := Some(b[j + 1])).(head := Some(b[|b| - 1])) == f.(head := Some(b[|b| - 1]));
      }
    } else {
      assert f.(head := Some(b[|b| - 1])) == f;
    }
  }

  // ---------------------------------------------------------------- the switch

  /** The items of the two branches that a switch works on. */
  function NewBranch(v: View, newHead: Block): seq<Item>
    requires newHead.Block? && v.head.Block? && Fetchable(v.forks, newHead, v.head)
  {
    Branch(v.forks, newHead, newHead, v.head)
  }

  function OldBranch(v: View, newHead: Block): seq<Item>
    requires newHead.Block? && v.head.Block? && Fetchable(v.forks, newHead, v.head)
  {
    Branch(v.forks, v.head, newHead, v.head)
  }

  /** The old branch can be popped down to the split. */
  ghost predicate ReachesSplit(v: View, newHead: Block)
    requires newHead.Block? && v.head.Block? && Fetchable(v.forks, newHead, v.head)
  {
    var d := Distance(v.heads, v.head, Split(newHead, v.head));
    d.Some? && ForkPops(v.forks, NewBranch(v, newHead) + OldBranch(v, newHead), d.value)
  }

  /** A switch that cannot be started is refused; one that cannot pop the old branch is interrupted; and
      it goes through exactly when neither happens and the new head replays. */
  lemma {:induction false} SwitchedIff<O(!new)>(r: Rules<O>, v: View, newHead: Block)
    requires Lawful(r) && Sensible(r, v) && newHead.Block? && v.head.Block?
    ensures var t := SwitchResult(r, v, newHead); var found := Fetchable(v.forks, newHead, v.head);
      && (!found ==> t == Result(Rejected, v))
      && (found && !ReachesSplit(v, newHead) ==> t.outcome.Interrupted?)
      && (t.outcome.Switched? <==> found && ReachesSplit(v, newHead) && Replayed(r, newHead).Some?)
      && (t.outcome.Switched? ==> t.view.head == newHead)
      && (t.outcome.Rejected? ==> t.view.head == v.head)
      && (t.outcome.Switched? || t.outcome.Rejected? || t.outcome.Interrupted?)
  {
    if Fetchable(v.forks, newHead, v.head) {
      var a, b := NewBranch(v, newHead), OldBranch(v, newHead);
      var base := Split(newHead, v.head);
      PopAllIff(v, base, a + b);
      PopAllIsSensible(r, v, base, a + b);
      SplitIsBelowBoth(newHead, v.head);
      if PopAll(v, base, a + b).Popped? {
        var w := PopAll(v, base, a + b).view;
        TriedBranchEnds(r, w, newHead, |a|);
        if Replayed(r, newHead).None? {
          RolledBackHead(r, TriedBranch(r, w, newHead, |a|), a, b, LowestFailing(r, newHead), v.head);
        }
      }
    }
  }

  /** A roll-back that ends well ends at the old head. */
  lemma {:induction false} RolledBackHead<O(!new)>(
    r: Rules<O>, v: View, a: seq<Item>, b: seq<Item>, i: nat, oldHead: Block)
    requires Lawful(r) && Sensible(r, v) && i < |a| && 1 <= |b| <= oldHead.Num() && Replayed(r, oldHead).Some?
    ensures var t := RollBackResult(r, v, a, b, i, oldHead);
      && (t.outcome.Rejected? || t.outcome.Interrupted?)
      && (t.outcome.Rejected? ==> t.view.head == oldHead)
  {
    var start := v.(forks := Discarded(v.forks, a[..i + 1], b[0]));
    var base := Ancestor(oldHead, |b|);
    PopAllIsSensible(r, start, base, a + b);
    if PopAll(start, base, a + b).Popped? {
      TriedBranchEnds(r, PopAll(start, base, a + b).view, oldHead, |b|);
    }
  }

  /** A roll-back succeeds exactly when the undo stack still holds the split and the fork head can be
      moved down as often: along the old branch it always can, beyond it only while parents are held. */
  lemma {:induction false} RollBackIff<O(!new)>(
    r: Rules<O>, v: View, a: seq<Item>, b: seq<Item>, i: nat, oldHead: Block, f0: Forks)
    requires Lawful(r) && Sensible(r, v) && i < |a| && 1 <= |b| <= oldHead.Num()
    requires Filed(f0) && Remains(v.forks, f0) && Indexed(f0, a + b) && ParentLinked(b)
    ensures var t := RollBackResult(r, v, a, b, i, oldHead); var d := Distance(v.heads, v.head, Ancestor(oldHead, |b|));
      t.outcome.Rejected? <==>
        d.Some? && (d.value < |b| ||
          ForkPops(Discarded(v.forks, a[..i + 1], b[|b| - 1]), a + b, d.value - |b| + 1))
    ensures var t := RollBackResult(r, v, a, b, i, oldHead); var d := Distance(v.heads, v.head, Ancestor(oldHead, |b|));
      d.Some? ==> t.outcome in {Rejected, Interrupted(LostParent)}
  {
    PopsBackIff(v, a, b, i, Ancestor(oldHead, |b|), f0);
    PopAllIsSensible(r, v.(forks := Discarded(v.forks, a[..i + 1], b[0])), Ancestor(oldHead, |b|), a + b);
  }

  /** The pops of a roll-back. */
  lemma {:induction false} PopsBackIff(v: View, a: seq<Item>, b: seq<Item>, i: nat, base: Block, f0: Forks)
    requires i < |a| && |b| >= 1
    requires Filed(f0) && Remains(v.forks, f0) && Indexed(f0, a + b) && ParentLinked(b)
    ensures var p := PopAll(v.(forks := Discarded(v.forks, a[..i + 1], b[0])), base, a + b);
      var d := Distance(v.heads, v.head, base);
      && (p.Popped? <==>
          d.Some? && (d.value < |b| ||
            ForkPops(Discarded(v.forks, a[..i + 1], b[|b| - 1]), a + b, d.value - |b| + 1)))
      && (d.Some? && p.Stuck? ==> p.cause == LostParent)
  {
    var g := Discarded(v.forks, a[..i + 1], b[0]);
    PopAllIff(v.(forks := g), base, a + b);
    var d := Distance(v.heads, v.head, base);
    if d.Some? {
      assert (a + b)[|a|..|a| + |b|] == b;
      PopsAlongPinned(g, f0, a + b, b, |a|, 0, d.value);
      assert g.(head := Some(b[|b| - 1])) == Discarded(v.forks, a[..i + 1], b[|b| - 1]);
    }
  }

  // ---------------------------------------------------------------- given enough history

  /** A switch in good order: the fork head is indexed, both branches are in the tree, and the undo
      stack holds the old branch down to the split. */
  ghost predicate InGoodOrder<O(!new)>(r: Rules<O>, v: View, newHead: Block)
    requires Lawful(r)
  {
    && Sensible(r, v) && Filed(v.forks) && newHead.Block? && v.head.Block? && newHead.Num() > v.head.Num()
    && HeadIndexed(v.forks, newHead) && Fetchable(v.forks, newHead, v.head)
    && Leads(v.heads, v.head, Length(v.head, newHead, v.head), Split(newHead, v.head))
  }

  lemma {:induction false} BranchesAreIndexed<O(!new)>(r: Rules<O>, v: View, newHead: Block)
    requires Lawful(r) && InGoodOrder(r, v, newHead)
    ensures var a, b := NewBranch(v, newHead), OldBranch(v, newHead);
      && |a| == Length(newHead, newHead, v.head) && |b| == Length(v.head, newHead, v.head) && |b| < |a|
      && |b| <= v.head.Num() && a[0] == v.forks.index[newHead] && b[0] == v.forks.index[v.head]
      && Indexed(v.forks, a + b) && ParentLinked(a) && ParentLinked(b)
  {
    var a, b := NewBranch(v, newHead), OldBranch(v, newHead);
    PathIsIndexed(v.forks, a);
    PathIsIndexed(v.forks, b);
  }

  /** Such a switch always gets down to the split, with the fork head on the new branch. */
  lemma {:induction false} HistoryReachesSplit<O(!new)>(r: Rules<O>, v: View, newHead: Block)
    requires Lawful(r) && InGoodOrder(r, v, newHead)
    ensures ReachesSplit(v, newHead)
    ensures var a, b := NewBranch(v, newHead), OldBranch(v, newHead); var base := Split(newHead, v.head);
      && |b| < |a| && |b| <= |v.heads|
      && PopAll(v, base, a + b)
        == Popped(View(base, v.heads[..|v.heads| - |b|], v.max, v.forks.(head := Some(a[|b|]))))
  {
    var a, b, base := NewBranch(v, newHead), OldBranch(v, newHead), Split(newHead, v.head);
    BranchesAreIndexed(r, v, newHead);
    LeadsDistance(v.heads, v.head, |b|, base);
    PopAllIff(v, base, a + b);
    assert (a + b)[0..0 + |a|] == a;
    PopsAlongPinned(v.forks, v.forks, a + b, a, 0, 0, |b|);
    PoppedAlongPinned(v.forks, a + b, a, 0, |b|);
  }

  lemma {:induction false} PoppedAlongPinned(f: Forks, pinned: seq<Item>, a: seq<Item>, j: nat, k: nat)
    requires Filed(f) && Indexed(f, pinned) && |a| <= |pinned| && pinned[..|a|] == a && ParentLinked(a)
    requires j + k < |a| && f.head == Some(a[j])
    ensures ForkPops(f, pinned, k) && ForkPopped(f, pinned, k) == f.(head := Some(a[j + k]))
    decreases k
  {
    if k > 0 {
      assert pinned[j + 1] == a[j + 1];
      MovesAlongPinned(f, f, pinned, a[j], a[j + 1], j + 1);
      PoppedAlongPinned(f.(head := Some(a[j + 1])), pinned, a, j + 1, k - 1);
    } else {
      assert f == f.(head := Some(a[j]));
    }
  }

  /** The view with the old branch popped. */
  ghost function AtSplit<O(!new)>(r: Rules<O>, v: View, newHead: Block): (w: View)
    requires Lawful(r) && InGoodOrder(r, v, newHead)
    ensures Sensible(r, w) && w.head == Split(newHead, v.head)
    ensures |NewBranch(v, newHead)| <= newHead.Num() && w.head == Ancestor(newHead, |NewBranch(v, newHead)|)
  {
    HistoryReachesSplit(r, v, newHead);
    SplitIsBelowBoth(newHead, v.head);
    var pinned := NewBranch(v, newHead) + OldBranch(v, newHead);
    PopAllIsSensible(r, v, Split(newHead, v.head), pinned);
    PopAll(v, Split(newHead, v.head), pinned).view
  }

  /** The view once the new branch has been tried. */
  ghost function TriedView<O(!new)>(r: Rules<O>, v: View, newHead: Block): View
    requires Lawful(r) && InGoodOrder(r, v, newHead)
  {
    TriedBranch(r, AtSplit(r, v, newHead), newHead, |NewBranch(v, newHead)|)
  }

  /** A failed switch is the roll-back from that view, whose fork tree is only trimmed. */
  lemma {:induction false} FailedSwitchRollsBack<O(!new)>(r: Rules<O>, v: View, newHead: Block)
    requires Lawful(r) && InGoodOrder(r, v, newHead) && Replayed(r, newHead).None?
    ensures var a, b := NewBranch(v, newHead), OldBranch(v, newHead);
      var i, t := LowestFailing(r, newHead), TriedView(r, v, newHead);
      && Sensible(r, t) && i < |a| && 1 <= |b| < |a| && |b| <= v.head.Num() && t.head == Ancestor(newHead, i + 1)
      && SwitchResult(r, v, newHead) == RollBackResult(r, t, a, b, i, v.head)
      && TrimmedFrom(t.forks, v.forks.(head := Some(a[|b|])))
  {
    var a, b, base := NewBranch(v, newHead), OldBranch(v, newHead), Split(newHead, v.head);
    HistoryReachesSplit(r, v, newHead);
    PopAllIsSensible(r, v, base, a + b);
    SplitIsBelowBoth(newHead, v.head);
    var w := PopAll(v, base, a + b).view;
    TriedBranchEnds(r, w, newHead, |a|);
    TriedBranchTrims(r, w, newHead, |a|);
  }

  /** If no block tried moved irreversibility past the split, the undo stack leads back to it. */
  lemma {:induction false} FailedBranchLeadsBack<O(!new)>(r: Rules<O>, w: View, top: Block, n: nat)
    requires Lawful(r) && Sensible(r, w) && n <= top.Num() && w.head == Ancestor(top, n)
    requires BranchKeepsHistory(r, w.head, top) && Replayed(r, top).None?
    ensures var t, i := TriedBranch(r, w, top, n), LowestFailing(r, top);
      i < n && Leads(t.heads, t.head, n - i - 1, w.head)
  {
    TriedBranchEnds(r, w, top, n);
    TriedBranchKeepsReach(r, w, top, n, w.head);
    AncestorCompose(top, LowestFailing(r, top) + 1, n - LowestFailing(r, top) - 1);
  }

  lemma {:induction false} TriedLeadsBack<O(!new)>(r: Rules<O>, v: View, newHead: Block)
    requires Lawful(r) && InGoodOrder(r, v, newHead) && Replayed(r, newHead).None?
    requires BranchKeepsHistory(r, Split(newHead, v.head), newHead)
    ensures var t, i, n := TriedView(r, v, newHead), LowestFailing(r, newHead), |NewBranch(v, newHead)|;
      i < n && Leads(t.heads, t.head, n - i - 1, Split(newHead, v.head))
  {
    FailedBranchLeadsBack(r, AtSplit(r, v, newHead), newHead, |NewBranch(v, newHead)|);
  }

  /** That stack, and the fork items, when a switch in good order has failed. */
  ghost predicate RollBackReady<O(!new)>(
    r: Rules<O>, t: View, a: seq<Item>, b: seq<Item>, i: nat, oldHead: Block, f0: Forks)
    requires Lawful(r)
  {
    && Sensible(r, t) && i < |a| && 1 <= |b| <= oldHead.Num()
    && Filed(f0) && Remains(t.forks, f0) && Indexed(f0, a + b) && ParentLinked(b)
    && Leads(t.heads, t.head, |a| - i - 1, Ancestor(oldHead, |b|))
  }

  lemma {:induction false} FailedSwitchIsReady<O(!new)>(r: Rules<O>, v: View, newHead: Block)
    requires Lawful(r) && InGoodOrder(r, v, newHead) && Replayed(r, newHead).None?
    requires BranchKeepsHistory(r, Split(newHead, v.head), newHead)
    ensures RollBackReady(r, TriedView(r, v, newHead), NewBranch(v, newHead), OldBranch(v, newHead),
      LowestFailing(r, newHead), v.head, v.forks)
  {
    BranchesAreIndexed(r, v, newHead);
    FailedSwitchRollsBack(r, v, newHead);
    TriedLeadsBack(r, v, newHead);
    SplitIsBelowBoth(newHead, v.head);
  }

  /** The fork head can follow a roll-back of the applied part of `a`: it is shorter than the old branch,
      or the fork items below the split are still held. */
  ghost predicate ForkFollows(f: Forks, a: seq<Item>, b: seq<Item>, i: nat)
    requires i < |a| && |b| >= 1
  {
    |a| - i - 1 < |b| || ForkPops(Discarded(f, a[..i + 1], b[|b| - 1]), a + b, |a| - i - |b|)
  }

  /** `RollBackIff` for an undo stack that leads down to the split. */
  lemma {:induction false} RollBackFromIff<O(!new)>(
    r: Rules<O>, t: View, a: seq<Item>, b: seq<Item>, i: nat, oldHead: Block, f0: Forks)
    requires Lawful(r) && RollBackReady(r, t, a, b, i, oldHead, f0)
    ensures RollBackResult(r, t, a, b, i, oldHead).outcome.Rejected? <==> ForkFollows(t.forks, a, b, i)
    ensures RollBackResult(r, t, a, b, i, oldHead).outcome in {Rejected, Interrupted(LostParent)}
  {
    LeadsDistance(t.heads, t.head, |a| - i - 1, Ancestor(oldHead, |b|));
    RollBackIff(r, t, a, b, i, oldHead, f0);
  }

  /** A switch in good order to a branch that holds a block that throws: unless that branch moves
      irreversibility past the split, the old head comes back exactly when the applied part of the new
      branch is shorter than the old branch, or the fork items below the split are still held. If not,
      the node stops half way for want of a fork item. */
  lemma {:induction false} FailedSwitchIff<O(!new)>(r: Rules<O>, v: View, newHead: Block)
    requires Lawful(r) && InGoodOrder(r, v, newHead) && Replayed(r, newHead).None?
    requires BranchKeepsHistory(r, Split(newHead, v.head), newHead)
    ensures var a, b, i := NewBranch(v, newHead), OldBranch(v, newHead), LowestFailing(r, newHead);
      && i < |a| && |b| >= 1
      && (SwitchResult(r, v, newHead).outcome.Rejected? <==> ForkFollows(TriedView(r, v, newHead).forks, a, b, i))
    ensures SwitchResult(r, v, newHead).outcome in {Rejected, Interrupted(LostParent)}
  {
    var a, b := NewBranch(v, newHead), OldBranch(v, newHead);
    var i, t := LowestFailing(r, newHead), TriedView(r, v, newHead);
    FailedSwitchRollsBack(r, v, newHead);
    FailedSwitchIsReady(r, v, newHead);
    RollBackFromIff(r, t, a, b, i, v.head, v.forks);
  }

  // ---------------------------------------------------------------- a fork head one above the chain head

  lemma {:induction false} PathBlocks(path: seq<Item>, top: Block, j: nat)
    requires ParentLinked(path) && j < |path| <= top.Num() && path[0].block == top
    ensures path[j].block == Ancestor(top, j)
    decreases j
  {
    if j > 0 {
      PathBlocks(path, top, j - 1);
      AncestorStep(top, j - 1);
    }
  }

  /** No item of the two branches is the block they split from. */
  lemma {:induction false} SplitIsNotPinned<O(!new)>(r: Rules<O>, v: View, newHead: Block)
    requires Lawful(r) && InGoodOrder(r, v, newHead)
    ensures var a, b, base := NewBranch(v, newHead), OldBranch(v, newHead), Split(newHead, v.head);
      && (forall k :: 0 <= k < |a + b| ==> (a + b)[k].block.Num() > base.Num())
      && |b| >= 1 && Parent(base, b[|b| - 1].block) && base.Num() == v.head.Num() - |b|
  {
    var a, b, base := NewBranch(v, newHead), OldBranch(v, newHead), Split(newHead, v.head);
    BranchesAreIndexed(r, v, newHead);
    SplitIsBelowBoth(newHead, v.head);
    var pinned: seq<Item> := a + b;
    forall k | 0 <= k < |pinned|
      ensures pinned[k].block.Num() > base.Num()
    {
      if k < |a| {
        PathBlocks(a, newHead, k);
      } else {
        PathBlocks(b, v.head, k - |a|);
      }
    }
    PathBlocks(b, v.head, |b| - 1);
    AncestorStep(v.head, |b| - 1);
  }

  /** One pop from the last item of the old branch needs the split item in the index. */
  lemma {:induction false} OnePopIff(f: Forks, pinned: seq<Item>, it: Item, base: Block)
    requires (forall b <- f.index :: f.index[b].block == b) && Parent(base, it.block) && f.head == Some(it)
    requires forall k :: 0 <= k < |pinned| ==> pinned[k].block != base
    ensures ForkPops(f, pinned, 1) <==> ParentIndexed(f, it)
  {
    if it.parent.Some? {
      NothingPinned(pinned, base, it.parent.value);
    }
    assert it.block.Num() == base.Num() + 1;
    if Lock(f, pinned, it).Some? {
      assert ForkPops(f.(head := Lock(f, pinned, it)), pinned, 0);
    }
  }

  /** The split item survives the trial of a branch whose lowest item is the fork head. */
  lemma {:induction false} SplitSurvives(f: Forks, f0: Forks, dropped: seq<Item>, it: Item, base: Block)
    requires Filed(f0) && TrimmedFrom(f, f0) && Parent(base, it.block)
    requires f0.head.Some? && f0.head.value.block.Num() == base.Num() + 1
    requires forall k :: 0 <= k < |dropped| ==> dropped[k].block != base
    ensures ParentIndexed(Discarded(f, dropped, it), it) <==> ParentIndexed(f0, it)
  {
    var g := Discarded(f, dropped, it);
    assert base !in BlocksOf(dropped);
    assert base in g.index <==> base in f.index;
    assert base in f.index <==> base in f0.index;
  }

  lemma {:induction false} LastForkPop<O(!new)>(r: Rules<O>, v: View, newHead: Block)
    requires Lawful(r) && InGoodOrder(r, v, newHead) && Replayed(r, newHead).None?
    requires newHead.Num() == v.head.Num() + 1
    ensures var a, b, t := NewBranch(v, newHead), OldBranch(v, newHead), TriedView(r, v, newHead);
      && |a| == |b| + 1 && |b| >= 1
      && (ForkPops(Discarded(t.forks, a[..1], b[|b| - 1]), a + b, 1) <==> ParentIndexed(v.forks, b[|b| - 1]))
  {
    var a, b, t := NewBranch(v, newHead), OldBranch(v, newHead), TriedView(r, v, newHead);
    OneHigher(r, v, newHead);
    SplitIsNotPinned(r, v, newHead);
    FailedSwitchRollsBack(r, v, newHead);
    LastPopIff(t.forks, v.forks.(head := Some(a[|b|])), a, b, Split(newHead, v.head));
  }

  lemma {:induction false} OneHigher<O(!new)>(r: Rules<O>, v: View, newHead: Block)
    requires Lawful(r) && InGoodOrder(r, v, newHead) && newHead.Num() == v.head.Num() + 1
    ensures var a, b := NewBranch(v, newHead), OldBranch(v, newHead);
      |a| == |b| + 1 && |b| >= 1 && a[|b|].block.Num() == Split(newHead, v.head).Num() + 1
  {
    var a, b := NewBranch(v, newHead), OldBranch(v, newHead);
    BranchesAreIndexed(r, v, newHead);
    SplitIsBelowBoth(newHead, v.head);
    PathBlocks(a, newHead, |b|);
  }

  /** The one pop past the end of the old branch. */
  lemma {:induction false} LastPopIff(f: Forks, f0: Forks, a: seq<Item>, b: seq<Item>, base: Block)
    requires Filed(f0) && TrimmedFrom(f, f0) && |a| >= 1 && |b| >= 1 && Parent(base, b[|b| - 1].block)
    requires f0.head.Some? && f0.head.value.block.Num() == base.Num() + 1
    requires forall k :: 0 <= k < |a + b| ==> (a + b)[k].block.Num() > base.Num()
    ensures ForkPops(Discarded(f, a[..1], b[|b| - 1]), a + b, 1) <==> ParentIndexed(f0, b[|b| - 1])
  {
    assert a[..1][0] == (a + b)[0];
    SplitSurvives(f, f0, a[..1], b[|b| - 1], base);
    OnePopIff(Discarded(f, a[..1], b[|b| - 1]), a + b, b[|b| - 1], base);
  }

  /** When the new head is one above the old one, a failed switch puts the old head back exactly when
      more than the topmost block fails, or the split item is still in the fork tree. */
  lemma {:induction false} FailedSwitchOneHigherIff<O(!new)>(r: Rules<O>, v: View, newHead: Block)
    requires Lawful(r) && InGoodOrder(r, v, newHead) && Replayed(r, newHead).None?
    requires BranchKeepsHistory(r, Split(newHead, v.head), newHead) && newHead.Num() == v.head.Num() + 1
    ensures var b := OldBranch(v, newHead);
      && |b| >= 1
      && (SwitchResult(r, v, newHead).outcome.Rejected? <==>
          Replayed(r, newHead.previous).None? || ParentIndexed(v.forks, b[|b| - 1]))
    ensures SwitchResult(r, v, newHead).outcome in {Rejected, Interrupted(LostParent)}
  {
    FailedSwitchIff(r, v, newHead);
    LastForkPop(r, v, newHead);
    assert LowestFailing(r, newHead) == 0 <==> Replayed(r, newHead.previous).Some?;
  }

  /** So a fork from before the first block is never rolled back once only its top fails. */
  lemma {:induction false} SplitAtRootIsInterrupted<O(!new)>(r: Rules<O>, v: View, newHead: Block)
    requires Lawful(r) && InGoodOrder(r, v, newHead)
    requires Replayed(r, newHead).None? && Replayed(r, newHead.previous).Some?
    requires BranchKeepsHistory(r, Root, newHead) && newHead.Num() == v.head.Num() + 1
    requires Split(newHead, v.head) == Root
    ensures SwitchResult(r, v, newHead).outcome == Interrupted(LostParent)
  {
    FailedSwitchOneHigherIff(r, v, newHead);
    SplitIsNotPinned(r, v, newHead);
    assert Root !in v.forks.index;
  }

  // ---------------------------------------------------------------- pushing a block

  /** What the fork tree answers to an accepted block. */
  function ForkHead(f: Forks, b: Block): Block
    requires Accepts(f, b)
  {
    Pushed(f, b).head.value.block
  }

  /** Both branches are found, the old one can be popped, and the new head replays. */
  ghost predicate SwitchGoesThrough<O(!new)>(r: Rules<O>, v: View, newHead: Block)
    requires Lawful(r) && newHead.Block? && v.head.Block?
  {
    Fetchable(v.forks, newHead, v.head) && ReachesSplit(v, newHead) && Replayed(r, newHead).Some?
  }

  /** Which outcome a push has, in terms of what replays and what the undo stack and the fork tree hold. */
  lemma {:induction false} PushOutcomeIff<O(!new)>(r: Rules<O>, v: View, b: Block, skipForkDb: bool)
    requires Lawful(r) && Sensible(r, v) && b.Block?
    ensures var t := PushResult(r, v, b, skipForkDb);
      var direct := skipForkDb || (Accepts(v.forks, b) && Parent(v.head, ForkHead(v.forks, b)));
      && (t.outcome.Extended? <==> direct && Parent(v.head, b) && Replayed(r, b).Some?)
      && (t.outcome.Ignored? <==> !direct && Accepts(v.forks, b) && ForkHead(v.forks, b).Num() <= v.head.Num())
      && (t.outcome.Switched? <==>
          && !direct && Accepts(v.forks, b) && ForkHead(v.forks, b).Num() > v.head.Num() && v.head.Block?
          && SwitchGoesThrough(r, v.(forks := Pushed(v.forks, b)), ForkHead(v.forks, b)))
      && (t.outcome.Extended? ==> t.view.head == b)
      && (t.outcome.Switched? ==> t.view.head == ForkHead(v.forks, b))
      && (t.outcome.Ignored? || t.outcome.Rejected? ==> t.view.head == v.head)
  {
    AppliesIffReplays(r, v, b);
    if !skipForkDb && Accepts(v.forks, b) {
      var w := v.(forks := Pushed(v.forks, b));
      AppliesIffReplays(r, w, b);
      if ForkHead(v.forks, b).Block? && v.head.Block? {
        SwitchedIff(r, w, ForkHead(v.forks, b));
      }
    }
  }

  /** Chain and fork tree are in step: the fork head is as high as the chain head and the first seen of
      the highest blocks. */
  ghost predicate InStep(v: View) {
    && v.forks.head.Some? && v.forks.head.value.block.Num() == v.head.Num()
    && Filed(v.forks) && HeadIsFirstHighest(v.forks)
  }

  lemma {:induction false} PushedInStep(v: View, b: Block)
    requires InStep(v) && Accepts(v.forks, b) && b.Num() > v.head.Num() && v.head.Block?
    ensures HeadIndexed(Pushed(v.forks, b), b) && Filed(Pushed(v.forks, b)) && b.Num() == v.head.Num() + 1
  {
    assert b !in v.forks.index;
    assert b.previous == Root || b.previous in v.forks.index;
  }

  /** A block one above the head that does not follow it, on a branch that does not replay: given the
      undo history, the push leaves the head as it was exactly when more than the pushed block fails or
      the item of the split block is still in the fork tree; otherwise the node stops half way. */
  lemma {:induction false} FailedPushIff<O(!new)>(r: Rules<O>, v: View, b: Block)
    requires Lawful(r) && Sensible(r, v) && InStep(v) && Accepts(v.forks, b) && v.head.Block?
    requires b.Num() > v.head.Num() && b.previous != v.head && Replayed(r, b).None?
    requires Fetchable(Pushed(v.forks, b), b, v.head)
    requires Leads(v.heads, v.head, Length(v.head, b, v.head), Split(b, v.head))
    requires BranchKeepsHistory(r, Split(b, v.head), b)
    ensures var t, w := PushResult(r, v, b, false), v.(forks := Pushed(v.forks, b)); var left := OldBranch(w, b);
      && |left| >= 1
      && (t.outcome.Rejected? <==> Replayed(r, b.previous).None? || ParentIndexed(w.forks, left[|left| - 1]))
      && (t.outcome.Rejected? ==> t.view.head == v.head)
      && t.outcome in {Rejected, Interrupted(LostParent)}
  {
    var w := v.(forks := Pushed(v.forks, b));
    PushedInStep(v, b);
    assert Sensible(r, w);
    assert InGoodOrder(r, w, b);
    FailedSwitchOneHigherIff(r, w, b);
    SwitchedIff(r, w, b);
    assert PushResult(r, v, b, false) == SwitchResult(r, w, b);
  }
}
