/** What a push leaves in the fork tree: the blocks it found and the pushed one, less those it refused
    and those trimmed at the bottom. */
module PushedTree {
  import opened UndoLog
  import opened UndoMachine
  import opened Options
  import opened Blocks
  import opened Replay
  import opened ForkDatabase
  import opened Switching
  import opened SwitchOutcomes

  /** `f` is `f0` without the blocks `gone` and without everything below height `h`. */
  ghost predicate CutAt(f: Forks, f0: Forks, gone: set<Block>, h: nat) {
    && (forall x :: x in f.index <==> x in f0.index && x !in gone && x.Num() >= h)
    && Remains(f, f0)
  }

  /** The fork head is no higher than `n`. */
  predicate HeadAtMost(f: Forks, n: nat) {
    f.head.Some? ==> f.head.value.block.Num() <= n
  }

  function Highest(a: nat, b: nat): nat {
    if a < b then b else a
  }

  lemma CutTwice(f: Forks, g: Forks, k: Forks, gone1: set<Block>, h1: nat, gone2: set<Block>, h2: nat)
    requires CutAt(g, f, gone1, h1) && CutAt(k, g, gone2, h2)
    ensures CutAt(k, f, gone1 + gone2, Highest(h1, h2))
  {
  }

  lemma TrimThenCut(f: Forks, g: Forks, k: Forks, h1: nat, gone: set<Block>, h2: nat)
    requires CutAt(g, f, {}, h1) && CutAt(k, g, gone, h2)
    ensures CutAt(k, f, gone, Highest(h1, h2))
  {
    CutTwice(f, g, k, {}, h1, gone, h2);
    assert {} + gone == gone;
  }

  // ---------------------------------------------------------------- trying and popping

  lemma {:induction false} TriedCuts<O(!new)>(r: Rules<O>, v: View, b: Block, n: nat) returns (h: nat)
    requires Lawful(r) && Sensible(r, v) && HeadAtMost(v.forks, n)
    ensures CutAt(Tried(r, v, b).forks, v.forks, {}, h) && h <= n && Tried(r, v, b).forks.head == v.forks.head
  {
    var script := r.apply(Replayed(r, v.head).value, b);
    h := if script.bound.Some? && v.forks.head.Some? then Oldest(v.forks.(maxSize := script.bound.value)) else 0;
  }

  lemma {:induction false} TriedBranchCuts<O(!new)>(r: Rules<O>, v: View, top: Block, n: nat, high: nat)
    returns (h: nat)
    requires Lawful(r) && Sensible(r, v) && n <= top.Num() && v.head == Ancestor(top, n) && HeadAtMost(v.forks, high)
    ensures CutAt(TriedBranch(r, v, top, n).forks, v.forks, {}, h) && h <= high
    decreases n
  {
    h := 0;
    if n > 0 {
      var b := Ancestor(top, n - 1);
      AncestorStep(top, n - 1);
      AppliesIffReplays(r, v, b);
      TriedIsSensible(r, v, b);
      h := TriedCuts(r, v, b, high);
      if Applies(r, v, b) {
        var h2 := TriedBranchCuts(r, Tried(r, v, b), top, n - 1, high);
        TrimThenCut(v.forks, Tried(r, v, b).forks, TriedBranch(r, Tried(r, v, b), top, n - 1).forks, h, {}, h2);
        h := Highest(h, h2);
      }
    }
  }

  /** Popping leaves the tree alone and moves its head down. */
  lemma {:induction false} PopAllKeepsIndex(v: View, target: Block, pinned: seq<Item>, high: nat)
    requires HeadAtMost(v.forks, high)
    ensures var f := PopAll(v, target, pinned).view.forks; f.index == v.forks.index && HeadAtMost(f, high)
    decreases |v.heads|
  {
    if v.head != target && PopOne(v, pinned).Popped? {
      PopAllKeepsIndex(PopOne(v, pinned).view, target, pinned, high);
    }
  }

  /** A roll-back takes out the failed block and those above it, and trims. */
  lemma {:induction false} RollBackCuts<O(!new)>(
    r: Rules<O>, v: View, a: seq<Item>, b: seq<Item>, i: nat, oldHead: Block, high: nat) returns (h: nat)
    requires Lawful(r) && Sensible(r, v) && i < |a| && 1 <= |b| <= oldHead.Num() && b[0].block.Num() <= high
    ensures CutAt(RollBackResult(r, v, a, b, i, oldHead).view.forks, v.forks, BlocksOf(a[..i + 1]), h) && h <= high
  {
    var base, gone := Ancestor(oldHead, |b|), BlocksOf(a[..i + 1]);
    var start := v.(forks := Discarded(v.forks, a[..i + 1], b[0]));
    assert CutAt(start.forks, v.forks, gone, 0);
    PopAllIsSensible(r, start, base, a + b);
    PopAllKeepsIndex(start, base, a + b, high);
    h := 0;
    if PopAll(start, base, a + b).Popped? {
      var w := PopAll(start, base, a + b).view;
      h := TriedBranchCuts(r, w, oldHead, |b|, high);
      CutTwice(v.forks, w.forks, TriedBranch(r, w, oldHead, |b|).forks, gone, 0, {}, h);
    }
  }

  // ---------------------------------------------------------------- a switch

  /** The blocks of a branch from the lowest one that does not replay up. */
  ghost function Failed<O(!new)>(r: Rules<O>, top: Block): set<Block>
    requires Lawful(r)
  {
    if Replayed(r, top).Some? then {} else set k | 0 <= k <= LowestFailing(r, top) :: Ancestor(top, k)
  }

  lemma {:induction false} PathIsLinked(f: Forks, path: seq<Item>)
    requires Linked(f, path) && |path| >= 1 && path[0].block.Block?
    ensures ParentLinked(path)
  {
    forall i | 0 <= i < |path| - 1 ensures Lock(f, [], path[i]) == Some(path[i + 1]) {
    }
  }

  lemma {:induction false} FailedItems<O(!new)>(r: Rules<O>, a: seq<Item>, top: Block)
    requires Lawful(r) && Replayed(r, top).None? && LowestFailing(r, top) < |a| <= top.Num()
    requires ParentLinked(a) && a[0].block == top
    ensures BlocksOf(a[..LowestFailing(r, top) + 1]) == Failed(r, top)
  {
    var i := LowestFailing(r, top);
    var low := a[..i + 1];
    forall k | 0 <= k <= i ensures low[k].block == Ancestor(top, k) {
      PathBlocks(a, top, k);
    }
    forall x | x in BlocksOf(low) ensures x in Failed(r, top) {
      var k :| 0 <= k < |low| && low[k].block == x;
    }
    forall k | 0 <= k <= i ensures Ancestor(top, k) in BlocksOf(low) {
      assert low[k].block == Ancestor(top, k);
    }
  }

  /** A switch that was begun takes out exactly the blocks of the new branch that failed, and trims. */
  lemma {:induction false} SwitchCuts<O(!new)>(r: Rules<O>, v: View, newHead: Block) returns (h: nat)
    requires Lawful(r) && Sensible(r, v) && newHead.Block? && v.head.Block? && Filed(v.forks)
    requires newHead.Num() > v.head.Num() && HeadAtMost(v.forks, newHead.Num())
    ensures var begun := Fetchable(v.forks, newHead, v.head) && ReachesSplit(v, newHead);
      CutAt(SwitchResult(r, v, newHead).view.forks, v.forks, if begun then Failed(r, newHead) else {}, h)
    ensures h <= newHead.Num()
  {
    h := 0;
    if Fetchable(v.forks, newHead, v.head) {
      var a, b, base := NewBranch(v, newHead), OldBranch(v, newHead), Split(newHead, v.head);
      SplitIsBelowBoth(newHead, v.head);
      PopAllIsSensible(r, v, base, a + b);
      PopAllIff(v, base, a + b);
      PopAllKeepsIndex(v, base, a + b, newHead.Num());
      if PopAll(v, base, a + b).Popped? {
        PathIsLinked(v.forks, a);
        h := PoppedSwitchCuts(r, v.forks, PopAll(v, base, a + b).view, a, b, newHead, v.head);
      }
    }
  }

  /** A switch from the view `w` at the split. */
  lemma {:induction false} PoppedSwitchCuts<O(!new)>(
    r: Rules<O>, f: Forks, w: View, a: seq<Item>, b: seq<Item>, newHead: Block, oldHead: Block) returns (h: nat)
    requires Lawful(r) && Sensible(r, w) && 1 <= |a| <= newHead.Num() && w.head == Ancestor(newHead, |a|)
    requires 1 <= |b| <= oldHead.Num() <= newHead.Num() && a[0].block == newHead && b[0].block == oldHead
    requires ParentLinked(a) && w.forks.index == f.index && HeadAtMost(w.forks, newHead.Num())
    ensures var t := TriedBranch(r, w, newHead, |a|);
      && Sensible(r, t)
      && (Replayed(r, newHead).Some? ==> CutAt(t.forks, f, {}, h))
      && (Replayed(r, newHead).None? ==>
          && LowestFailing(r, newHead) < |a|
          && var u := RollBackResult(r, t, a, b, LowestFailing(r, newHead), oldHead);
            CutAt(u.view.forks, f, Failed(r, newHead), h))
    ensures h <= newHead.Num()
  {
    h := TriedBranchCuts(r, w, newHead, |a|, newHead.Num());
    TriedBranchEnds(r, w, newHead, |a|);
    assert CutAt(TriedBranch(r, w, newHead, |a|).forks, f, {}, h);
    if Replayed(r, newHead).None? {
      h := FailedSwitchCuts(r, f, TriedBranch(r, w, newHead, |a|), a, b, newHead, oldHead, h);
    }
  }

  /** The roll-back of a switch, from the view `t` at which its branch failed. */
  lemma {:induction false} FailedSwitchCuts<O(!new)>(
    r: Rules<O>, f: Forks, t: View, a: seq<Item>, b: seq<Item>, newHead: Block, oldHead: Block, h1: nat)
    returns (h: nat)
    requires Lawful(r) && Sensible(r, t)
    requires Replayed(r, newHead).None? && LowestFailing(r, newHead) < |a| <= newHead.Num()
    requires 1 <= |b| <= oldHead.Num() <= newHead.Num() && a[0].block == newHead && b[0].block == oldHead
    requires ParentLinked(a) && CutAt(t.forks, f, {}, h1) && h1 <= newHead.Num()
    ensures CutAt(RollBackResult(r, t, a, b, LowestFailing(r, newHead), oldHead).view.forks, f, Failed(r, newHead), h)
    ensures h <= newHead.Num()
  {
    var i := LowestFailing(r, newHead);
    FailedItems(r, a, newHead);
    h := RollBackCuts(r, t, a, b, i, oldHead, newHead.Num());
    TrimThenCut(f, t.forks, RollBackResult(r, t, a, b, i, oldHead).view.forks, h1, Failed(r, newHead), h);
    h := Highest(h1, h);
  }

  // ---------------------------------------------------------------- a push

  /** The block is tried straight on the head. */
  predicate Direct(v: View, b: Block, skipForkDb: bool) {
    skipForkDb || (Accepts(v.forks, b) && Parent(v.head, ForkHead(v.forks, b)))
  }

  /** A switch to the fork head is begun: both branches are found and the old one is popped. */
  ghost predicate Begun(v: View, b: Block, skipForkDb: bool) {
    && !Direct(v, b, skipForkDb) && Accepts(v.forks, b)
    && v.head.Block? && ForkHead(v.forks, b).Num() > v.head.Num()
    && var w := v.(forks := Pushed(v.forks, b));
      Fetchable(w.forks, ForkHead(v.forks, b), v.head) && ReachesSplit(w, ForkHead(v.forks, b))
  }

  /** The blocks a push takes out: the block itself when it was tried on the head and does not replay
      there, and of a branch switched to all from the lowest that does not replay. */
  ghost function Refused<O(!new)>(r: Rules<O>, v: View, b: Block, skipForkDb: bool): set<Block>
    requires Lawful(r)
  {
    if Direct(v, b, skipForkDb) then if Parent(v.head, b) && Replayed(r, b).Some? then {} else {b}
    else if Begun(v, b, skipForkDb) then Failed(r, ForkHead(v.forks, b))
    else {}
  }

  /** `f` holds what `f0` held and `added`, less `gone` and everything below height `h`. */
  ghost predicate Leaves(f: Forks, f0: Forks, added: set<Block>, gone: set<Block>, h: nat) {
    && (forall x :: x in f.index <==> (x in f0.index || x in added) && x !in gone && x.Num() >= h)
    && (forall x <- f.index :: x in f0.index ==> f.index[x] == f0.index[x])
  }

  lemma CutLeaves(f: Forks, g: Forks, f0: Forks, added: set<Block>, h1: nat, gone: set<Block>, h2: nat)
    requires Leaves(g, f0, added, {}, h1) && CutAt(f, g, gone, h2)
    ensures Leaves(f, f0, added, gone, Highest(h1, h2))
  {
  }

  lemma PushedLeaves(f: Forks, b: Block) returns (h: nat)
    requires Accepts(f, b)
    ensures Leaves(Pushed(f, b), f, {b}, {}, h) && h <= ForkHead(f, b).Num()
  {
    h := if f.head.Some? && b.Num() > f.head.value.block.Num() then Oldest(Pushed(f, b)) else 0;
  }

  lemma {:induction false} ExtendCuts<O(!new)>(r: Rules<O>, v: View, b: Block, high: nat) returns (h: nat)
    requires Lawful(r) && Sensible(r, v) && HeadAtMost(v.forks, high)
    ensures var gone := if Parent(v.head, b) && Replayed(r, b).Some? then {} else {b};
      CutAt(ExtendResult(r, v, b).view.forks, v.forks, gone, h)
    ensures h <= high
  {
    AppliesIffReplays(r, v, b);
    h := TriedCuts(r, v, b, high);
  }

  lemma {:induction false} AcceptedCuts<O(!new)>(r: Rules<O>, v: View, b: Block) returns (h: nat)
    requires Lawful(r) && Sensible(r, v) && b.Block? && Filed(v.forks) && Accepts(v.forks, b)
    ensures CutAt(PushResult(r, v, b, false).view.forks, Pushed(v.forks, b), Refused(r, v, b, false), h)
    ensures h <= ForkHead(v.forks, b).Num()
  {
    var w, newHead := v.(forks := Pushed(v.forks, b)), ForkHead(v.forks, b);
    h := 0;
    assert HeadAtMost(w.forks, newHead.Num());
    if Parent(v.head, newHead) {
      h := ExtendCuts(r, w, b, newHead.Num());
    } else if newHead.Num() > v.head.Num() && v.head.Block? {
      assert Filed(w.forks);
      h := SwitchCuts(r, w, newHead);
    }
  }

  /** Whatever a push does, the tree afterwards holds what it held before and the pushed block, less what
      the push refused and what lies below some height, which is at most that of the fork head; items
      stay as they were. */
  lemma {:induction false} PushLeaves<O(!new)>(r: Rules<O>, v: View, b: Block) returns (h: nat)
    requires Lawful(r) && Sensible(r, v) && b.Block? && Filed(v.forks) && Accepts(v.forks, b)
    ensures Leaves(PushResult(r, v, b, false).view.forks, v.forks, {b}, Refused(r, v, b, false), h)
    ensures h <= ForkHead(v.forks, b).Num()
  {
    h := PushedLeaves(v.forks, b);
    var h2 := AcceptedCuts(r, v, b);
    CutLeaves(PushResult(r, v, b, false).view.forks, Pushed(v.forks, b), v.forks, {b}, h, Refused(r, v, b, false), h2);
    h := Highest(h, h2);
  }

  /** A block tried straight on the head that does not replay there is refused and out of the tree. */
  lemma {:induction false} RefusedBlockIsGone<O(!new)>(r: Rules<O>, v: View, b: Block, skipForkDb: bool)
    requires Lawful(r) && Sensible(r, v) && b.Block? && Filed(v.forks) && Direct(v, b, skipForkDb)
    requires !(Parent(v.head, b) && Replayed(r, b).Some?)
    ensures var t := PushResult(r, v, b, skipForkDb); t.outcome.Rejected? && b !in t.view.forks.index
  {
    PushOutcomeIff(r, v, b, skipForkDb);
    if skipForkDb {
      var h := ExtendCuts(r, v, b, if v.forks.head.Some? then v.forks.head.value.block.Num() else 0);
    } else {
      var h := PushLeaves(r, v, b);
    }
    AppliesIffReplays(r, v, b);
    AppliesIffReplays(r, v.(forks := if skipForkDb then v.forks else Pushed(v.forks, b)), b);
  }

  /** So its children are not linkable: pushing one is refused and changes nothing. */
  lemma {:induction false} ChildOfRefusedIsRefused<O(!new)>(r: Rules<O>, v: View, b: Block, child: Block)
    requires Lawful(r) && Sensible(r, v) && b.Block? && Filed(v.forks) && Direct(v, b, false) && Parent(b, child)
    requires !(Parent(v.head, b) && Replayed(r, b).Some?)
    ensures var w := PushResult(r, v, b, false).view;
      Sensible(r, w) && PushResult(r, w, child, false) == Result(Rejected, w)
  {
    RefusedBlockIsGone(r, v, b, false);
    AppliesIffReplays(r, v.(forks := Pushed(v.forks, b)), b);
  }

  // ---------------------------------------------------------------- the undo stack after a push

  lemma {:induction false} PrunedTwice(heads: seq<Block>, head: Block, max: nat, bound: nat)
    ensures Prune(Prune(heads, max) + [head], bound)
      == Prune(heads + [head], if max + 1 < bound then max + 1 else bound)
  {
  }

  /** A block tried on the head: if it applies, the undo stack holds the newest states up to the old head that both
      bounds allow, under the bound the block sets; if it throws, the newest that the old bound allows, at least the
      head's own. The fork head stays. */
  lemma {:induction false} ExtendUndo<O(!new)>(r: Rules<O>, v: View, b: Block)
    requires Lawful(r) && Sensible(r, v)
    ensures var t, script := ExtendResult(r, v, b).view, r.apply(Replayed(r, v.head).value, b);
      && t.forks.head == v.forks.head && t.max == (if script.bound.Some? then script.bound.value else v.max)
      && (script.ok ==> t.heads == Prune(v.heads + [v.head], if v.max + 1 < t.max then v.max + 1 else t.max))
      && (!script.ok ==> t.heads == if Prune(v.heads, v.max) == [] then [v.head] else Prune(v.heads, v.max))
      && (script.ok <==> Parent(v.head, b) && Replayed(r, b).Some?)
  {
    PrunedTwice(v.heads, v.head, v.max, ExtendResult(r, v, b).view.max);
    AppliesIffReplays(r, v, b);
  }

  /** A direct push is that, on the tree with the block added. */
  lemma {:induction false} DirectIsExtend<O(!new)>(r: Rules<O>, v: View, b: Block, skipForkDb: bool)
    requires Lawful(r) && Sensible(r, v) && b.Block? && Direct(v, b, skipForkDb)
    ensures var w := if skipForkDb then v else v.(forks := Pushed(v.forks, b));
      Sensible(r, w) && PushResult(r, v, b, skipForkDb) == ExtendResult(r, w, b)
  {
  }
}
