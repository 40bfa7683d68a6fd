/** The undo bound follows the last irreversible block, so a switch whose split is not below it never
    lacks an undo entry. */
module Anchoring {
  import opened UndoLog
  import opened UndoMachine
  import opened Options
  import opened Blocks
  import opened Replay
  import opened ForkDatabase
  import opened Switching
  import opened SwitchOutcomes

  /** A block sets the bound to its number less the irreversible number it finds, plus one, and leaves an
      irreversible number that is no smaller and at most its own. */
  ghost predicate BoundFollows<O(!new)>(r: Rules<O>, lib: Store<O> -> nat, s: Store<O>, b: Block) {
    var script := r.apply(s, b);
    && (forall c <- script.edits :: IsEdit(c))
    && (script.bound.Some? ==> Parent(r.head(s), b) && script.bound.value == b.Num() - lib(s) + 1)
    && (script.ok ==> script.bound.Some? && lib(s) <= lib(EditAll(s, script.edits)) <= b.Num())
  }

  /** Every block does so on every state that blocks lead to. */
  ghost predicate BoundsFollow<O(!new)>(r: Rules<O>, lib: Store<O> -> nat)
    requires Lawful(r)
  {
    && lib(r.genesis) == 0
    && (forall h, b :: Replayed(r, h).Some? ==> BoundFollows(r, lib, Replayed(r, h).value, b))
  }

  ghost function IrreversibleAt<O(!new)>(r: Rules<O>, lib: Store<O> -> nat, b: Block): nat
    requires Lawful(r) && Replayed(r, b).Some?
  {
    lib(Replayed(r, b).value)
  }

  /** The undo stack reaches back to height `low`, no irreversible number exceeds it, and the bound lets
      the next block keep that. */
  ghost predicate Anchored<O(!new)>(r: Rules<O>, lib: Store<O> -> nat, v: View, low: nat)
    requires Lawful(r) && Sensible(r, v)
  {
    && IrreversibleAt(r, lib, v.head) <= low <= v.head.Num() && UndoReaches(v.heads, v.head, v.head.Num() - low)
    && v.max >= v.head.Num() - low + 1
  }

  function Higher(a: nat, b: nat): nat {
    if a < b then b else a
  }

  lemma {:induction false} ShorterReach(heads: seq<Block>, head: Block, k: nat, n: nat)
    requires UndoReaches(heads, head, k) && n <= k
    ensures UndoReaches(heads, head, n)
  {
  }

  /** Applying a block keeps the anchor or moves it up to the new irreversible number. */
  lemma {:induction false} AppliedKeepsAnchor<O(!new)>(r: Rules<O>, lib: Store<O> -> nat, v: View, b: Block, low: nat)
    requires Lawful(r) && BoundsFollow(r, lib) && Sensible(r, v) && Anchored(r, lib, v, low) && Applies(r, v, b)
    ensures Sensible(r, Tried(r, v, b)) && Replayed(r, b).Some?
    ensures Anchored(r, lib, Tried(r, v, b), Higher(low, IrreversibleAt(r, lib, b)))
  {
    var s, w := Replayed(r, v.head).value, Tried(r, v, b);
    TriedIsSensible(r, v, b);
    AppliesIffReplays(r, v, b);
    assert BoundFollows(r, lib, Replayed(r, v.head).value, b);
    ReachAfterBlock(v.heads, b, v.head.Num() - low, v.max);
    ShorterReach(w.heads, b, b.Num() - low, b.Num() - Higher(low, IrreversibleAt(r, lib, b)));
  }

  /** A block that throws leaves it in place. */
  lemma {:induction false} ThrownKeepsAnchor<O(!new)>(r: Rules<O>, lib: Store<O> -> nat, v: View, b: Block, low: nat)
    requires Lawful(r) && BoundsFollow(r, lib) && Sensible(r, v) && Anchored(r, lib, v, low) && !Applies(r, v, b)
    ensures Sensible(r, Tried(r, v, b)) && Anchored(r, lib, Tried(r, v, b), low)
  {
    AnchoredIsNear(r, lib, v, low, low);
    ThrownStaysNear(r, lib, v, b, low);
    NearIsAnchored(r, lib, Tried(r, v, b), low);
  }

  lemma {:induction false} PruneKeepsReach(heads: seq<Block>, head: Block, k: nat, max: nat)
    requires UndoReaches(heads, head, k) && k <= max
    ensures UndoReaches(Prune(heads, max), head, k)
  {
    var p := Prune(heads, max);
    forall j | 1 <= j <= k ensures p[|p| - j] == Ancestor(head, j) {
      assert heads[|heads| - j] == Ancestor(head, j);
    }
  }

  /** So does a push that extends the head or is refused without a switch. */
  lemma {:induction false} ExtendKeepsAnchor<O(!new)>(r: Rules<O>, lib: Store<O> -> nat, v: View, b: Block, low: nat)
    requires Lawful(r) && BoundsFollow(r, lib) && Sensible(r, v) && Anchored(r, lib, v, low)
    ensures var t := ExtendResult(r, v, b);
      && Sensible(r, t.view)
      && Anchored(r, lib, t.view, if t.outcome.Extended? then Higher(low, IrreversibleAt(r, lib, t.view.head)) else low)
  {
    var w := Tried(r, v, b);
    if Applies(r, v, b) {
      AppliedKeepsAnchor(r, lib, v, b, low);
      PruneKeepsReach(w.heads, b, b.Num() - Higher(low, IrreversibleAt(r, lib, b)), w.max);
    } else {
      ThrownKeepsAnchor(r, lib, v, b, low);
    }
  }

  /** The new branch does not make anything above the split irreversible before its last block. */
  ghost predicate KeepsSplitOpen<O(!new)>(r: Rules<O>, lib: Store<O> -> nat, base: Block, top: Block)
    requires Lawful(r)
  {
    forall k :: 1 <= k <= top.Num() && Ancestor(top, k).Num() >= base.Num() && Replayed(r, Ancestor(top, k)).Some? ==>
      IrreversibleAt(r, lib, Ancestor(top, k)) <= base.Num() + 1
  }

  lemma {:induction false} OpenSplitKeepsHistory<O(!new)>(r: Rules<O>, lib: Store<O> -> nat, base: Block, top: Block)
    requires Lawful(r) && BoundsFollow(r, lib) && KeepsSplitOpen(r, lib, base, top)
    ensures BranchKeepsHistory(r, base, top)
  {
    forall k | 0 <= k <= top.Num() && Ancestor(top, k).Num() > base.Num()
      ensures BoundCovers(r, base, Ancestor(top, k))
    {
      var b := Ancestor(top, k);
      if Replayed(r, b).Some? {
        AncestorStep(top, k);
        var s := Replayed(r, b.previous).value;
        assert BoundFollows(r, lib, Replayed(r, b.previous).value, b) && LawfulScript(r, s, b);
        assert IrreversibleAt(r, lib, Ancestor(top, k + 1)) <= base.Num() + 1;
      }
    }
  }

  /** A switch whose split is at or above the anchor, to a branch that keeps the split open, never stops
      for want of an undo entry. */
  lemma {:induction false} SwitchIsNeverShort<O(!new)>(
    r: Rules<O>, lib: Store<O> -> nat, v: View, newHead: Block, low: nat)
    requires Lawful(r) && BoundsFollow(r, lib) && Sensible(r, v) && Anchored(r, lib, v, low)
    requires newHead.Block? && v.head.Block? && Split(newHead, v.head).Num() >= low
    requires Replayed(r, newHead).None? ==> KeepsSplitOpen(r, lib, Split(newHead, v.head), newHead)
    ensures SwitchResult(r, v, newHead).outcome != Interrupted(ShortUndo)
  {
    if Fetchable(v.forks, newHead, v.head) {
      var a, b, base := NewBranch(v, newHead), OldBranch(v, newHead), Split(newHead, v.head);
      SplitIsBelowBoth(newHead, v.head);
      ShorterReach(v.heads, v.head, v.head.Num() - low, |b|);
      LeadsDistance(v.heads, v.head, |b|, base);
      PopAllIff(v, base, a + b);
      PopAllIsSensible(r, v, base, a + b);
      if PopAll(v, base, a + b).Popped? && Replayed(r, newHead).None? {
        OpenSplitKeepsHistory(r, lib, base, newHead);
        RollBackIsNeverShort(r, PopAll(v, base, a + b).view, newHead, a, b, v.head);
      }
    }
  }

  lemma {:induction false} RollBackIsNeverShort<O(!new)>(
    r: Rules<O>, w: View, top: Block, a: seq<Item>, b: seq<Item>, oldHead: Block)
    requires Lawful(r) && Sensible(r, w) && |a| <= top.Num() && w.head == Ancestor(top, |a|)
    requires 1 <= |b| <= oldHead.Num() && w.head == Ancestor(oldHead, |b|)
    requires BranchKeepsHistory(r, w.head, top) && Replayed(r, top).None?
    ensures var t, i := TriedBranch(r, w, top, |a|), LowestFailing(r, top);
      Sensible(r, t) && i < |a| && RollBackResult(r, t, a, b, i, oldHead).outcome != Interrupted(ShortUndo)
  {
    var t, i := TriedBranch(r, w, top, |a|), LowestFailing(r, top);
    TriedBranchEnds(r, w, top, |a|);
    FailedBranchLeadsBack(r, w, top, |a|);
    LeadsDistance(t.heads, t.head, |a| - i - 1, w.head);
    PopAllIff(t.(forks := Discarded(t.forks, a[..i + 1], b[0])), w.head, a + b);
  }

  // ---------------------------------------------------------------- the anchor through a switch

  lemma {:induction false} IrreversibleGrows<O(!new)>(r: Rules<O>, lib: Store<O> -> nat, b: Block, k: nat)
    requires Lawful(r) && BoundsFollow(r, lib) && Replayed(r, b).Some? && k <= b.Num()
    ensures Replayed(r, Ancestor(b, k)).Some?
    ensures IrreversibleAt(r, lib, Ancestor(b, k)) <= IrreversibleAt(r, lib, b) <= b.Num()
    decreases b.Num()
  {
    AncestorsReplay(r, b, k);
    if b.Block? {
      var s := Replayed(r, b.previous).value;
      assert BoundFollows(r, lib, Replayed(r, b.previous).value, b);
      IrreversibleGrows(r, lib, b.previous, if k == 0 then 0 else k - 1);
    }
  }

  /** The undo stack reaches back to height `floor`, and the bound keeps it reaching back to there or to
      the irreversible block, whichever is higher. */
  ghost predicate Near<O(!new)>(r: Rules<O>, lib: Store<O> -> nat, v: View, floor: nat)
    requires Lawful(r) && Sensible(r, v)
  {
    && floor <= v.head.Num() && UndoReaches(v.heads, v.head, v.head.Num() - floor)
    && v.max + Higher(floor, IrreversibleAt(r, lib, v.head)) >= v.head.Num() + 1
  }

  /** Nothing from just above `floor` on is irreversible at the head. */
  ghost predicate OpenAt<O(!new)>(r: Rules<O>, lib: Store<O> -> nat, b: Block, floor: nat)
    requires Lawful(r) && Replayed(r, b).Some?
  {
    IrreversibleAt(r, lib, b) <= floor + 1
  }

  lemma {:induction false} AnchoredIsNear<O(!new)>(r: Rules<O>, lib: Store<O> -> nat, v: View, low: nat, floor: nat)
    requires Lawful(r) && Sensible(r, v) && Anchored(r, lib, v, low) && low <= floor <= v.head.Num()
    ensures Near(r, lib, v, floor) && OpenAt(r, lib, v.head, floor)
  {
    ShorterReach(v.heads, v.head, v.head.Num() - low, v.head.Num() - floor);
  }

  lemma {:induction false} NearIsAnchored<O(!new)>(r: Rules<O>, lib: Store<O> -> nat, v: View, floor: nat)
    requires Lawful(r) && BoundsFollow(r, lib) && Sensible(r, v) && Near(r, lib, v, floor)
    ensures Anchored(r, lib, v, Higher(floor, IrreversibleAt(r, lib, v.head)))
  {
    IrreversibleGrows(r, lib, v.head, 0);
    ShorterReach(v.heads, v.head, v.head.Num() - floor,
      v.head.Num() - Higher(floor, IrreversibleAt(r, lib, v.head)));
  }

  lemma {:induction false} AppliedStaysNear<O(!new)>(r: Rules<O>, lib: Store<O> -> nat, v: View, b: Block, floor: nat)
    requires Lawful(r) && BoundsFollow(r, lib) && Sensible(r, v) && Near(r, lib, v, floor) && Applies(r, v, b)
    requires OpenAt(r, lib, v.head, floor)
    ensures Sensible(r, Tried(r, v, b)) && Near(r, lib, Tried(r, v, b), floor)
  {
    TriedIsSensible(r, v, b);
    AppliesIffReplays(r, v, b);
    assert BoundFollows(r, lib, Replayed(r, v.head).value, b);
    ReachAfterBlock(v.heads, b, v.head.Num() - floor, v.max);
  }

  lemma {:induction false} ThrownStaysNear<O(!new)>(r: Rules<O>, lib: Store<O> -> nat, v: View, b: Block, floor: nat)
    requires Lawful(r) && BoundsFollow(r, lib) && Sensible(r, v) && Near(r, lib, v, floor) && !Applies(r, v, b)
    requires OpenAt(r, lib, v.head, floor)
    ensures Sensible(r, Tried(r, v, b)) && Near(r, lib, Tried(r, v, b), floor)
  {
    TriedIsSensible(r, v, b);
    ReplayHead(r, v.head);
    IrreversibleGrows(r, lib, v.head, 0);
    assert BoundFollows(r, lib, Replayed(r, v.head).value, b);
    PruneKeepsReach(v.heads, v.head, v.head.Num() - floor, v.max);
  }

  /** All states of the branch up to `top` that the tries pass through are open at `floor`. */
  ghost predicate BranchOpen<O(!new)>(r: Rules<O>, lib: Store<O> -> nat, top: Block, n: nat, floor: nat)
    requires Lawful(r) && n <= top.Num()
  {
    forall k :: 1 <= k <= n && Replayed(r, Ancestor(top, k)).Some? ==> OpenAt(r, lib, Ancestor(top, k), floor)
  }

  lemma {:induction false} TriedBranchStaysNear<O(!new)>(
    r: Rules<O>, lib: Store<O> -> nat, v: View, top: Block, n: nat, floor: nat)
    requires Lawful(r) && BoundsFollow(r, lib) && Sensible(r, v) && n <= top.Num() && v.head == Ancestor(top, n)
    requires Near(r, lib, v, floor) && BranchOpen(r, lib, top, n, floor)
    ensures Sensible(r, TriedBranch(r, v, top, n)) && Near(r, lib, TriedBranch(r, v, top, n), floor)
    decreases n
  {
    if n > 0 {
      var b := Ancestor(top, n - 1);
      AncestorStep(top, n - 1);
      AppliesIffReplays(r, v, b);
      assert OpenAt(r, lib, Ancestor(top, n), floor);
      if Applies(r, v, b) {
        AppliedStaysNear(r, lib, v, b, floor);
        TriedBranchStaysNear(r, lib, Tried(r, v, b), top, n - 1, floor);
      } else {
        ThrownStaysNear(r, lib, v, b, floor);
      }
    }
  }

  lemma {:induction false} PoppedStaysNear<O(!new)>(
    r: Rules<O>, lib: Store<O> -> nat, v: View, pinned: seq<Item>, floor: nat)
    requires Lawful(r) && BoundsFollow(r, lib) && Sensible(r, v) && Near(r, lib, v, floor)
    requires OpenAt(r, lib, v.head, floor) && v.head.Num() > floor && PopOne(v, pinned).Popped?
    ensures var w := PopOne(v, pinned).view;
      && Sensible(r, w) && w.head == v.head.previous && Near(r, lib, w, floor) && OpenAt(r, lib, w.head, floor)
  {
    ReachAfterPop(v.heads, v.head, v.head.Num() - floor);
    assert Ancestor(v.head, 1) == Ancestor(v.head.previous, 0) == v.head.previous;
    IrreversibleGrows(r, lib, v.head, 1);
  }

  /** Popping down to a block at or above `floor` stays near it, wherever it gets stuck. */
  lemma {:induction false} PopAllStaysNear<O(!new)>(
    r: Rules<O>, lib: Store<O> -> nat, v: View, target: Block, pinned: seq<Item>, floor: nat, k: nat)
    requires Lawful(r) && BoundsFollow(r, lib) && Sensible(r, v) && Near(r, lib, v, floor)
    requires OpenAt(r, lib, v.head, floor)
    requires k <= v.head.Num() && Ancestor(v.head, k) == target && target.Num() >= floor
    ensures var w := PopAll(v, target, pinned).view;
      Sensible(r, w) && Near(r, lib, w, floor) && OpenAt(r, lib, w.head, floor)
    decreases k
  {
    if k > 0 {
      ReachAfterPop(v.heads, v.head, v.head.Num() - floor);
      if PopOne(v, pinned).Popped? {
        PoppedStaysNear(r, lib, v, pinned, floor);
        PopAllStaysNear(r, lib, PopOne(v, pinned).view, target, pinned, floor, k - 1);
      }
    }
  }

  /** The lowest of `n` blocks up to a block that replays applies, and the anchor stays within reach. */
  lemma {:induction false} BranchStepKeepsAnchor<O(!new)>(
    r: Rules<O>, lib: Store<O> -> nat, v: View, top: Block, n: nat, low: nat)
    requires Lawful(r) && BoundsFollow(r, lib) && Sensible(r, v) && 1 <= n <= top.Num() && v.head == Ancestor(top, n)
    requires Anchored(r, lib, v, low) && Replayed(r, top).Some?
    ensures var b := Ancestor(top, n - 1);
      && Applies(r, v, b) && Replayed(r, b).Some? && IrreversibleAt(r, lib, b) <= IrreversibleAt(r, lib, top)
      && Sensible(r, Tried(r, v, b)) && Tried(r, v, b).head == b
      && Anchored(r, lib, Tried(r, v, b), Higher(low, IrreversibleAt(r, lib, b)))
  {
    var b := Ancestor(top, n - 1);
    AncestorStep(top, n - 1);
    IrreversibleGrows(r, lib, top, n - 1);
    AppliesIffReplays(r, v, b);
    AppliedKeepsAnchor(r, lib, v, b, low);
  }

  /** Applying a whole branch that replays keeps the anchor or moves it up to the new irreversible number. */
  lemma {:induction false} TriedBranchKeepsAnchor<O(!new)>(
    r: Rules<O>, lib: Store<O> -> nat, v: View, top: Block, n: nat, low: nat)
    requires Lawful(r) && BoundsFollow(r, lib) && Sensible(r, v) && n <= top.Num() && v.head == Ancestor(top, n)
    requires Anchored(r, lib, v, low) && Replayed(r, top).Some?
    ensures var t := TriedBranch(r, v, top, n);
      && Sensible(r, t) && t.head == top
      && Anchored(r, lib, t, Higher(low, IrreversibleAt(r, lib, top)))
    decreases n
  {
    if n > 0 {
      var b := Ancestor(top, n - 1);
      BranchStepKeepsAnchor(r, lib, v, top, n, low);
      TriedBranchKeepsAnchor(r, lib, Tried(r, v, b), top, n - 1, Higher(low, IrreversibleAt(r, lib, b)));
    }
  }

  /** Popping down to a block at or above the anchor keeps it. */
  lemma {:induction false} PopAllKeepsAnchor<O(!new)>(
    r: Rules<O>, lib: Store<O> -> nat, v: View, target: Block, pinned: seq<Item>, low: nat, k: nat)
    requires Lawful(r) && BoundsFollow(r, lib) && Sensible(r, v) && Anchored(r, lib, v, low)
    requires k <= v.head.Num() && Ancestor(v.head, k) == target && target.Num() >= low
    requires PopAll(v, target, pinned).Popped?
    ensures var w := PopAll(v, target, pinned).view;
      Sensible(r, w) && w.head == target && Anchored(r, lib, w, low)
  {
    var w := PopAll(v, target, pinned).view;
    AnchoredIsNear(r, lib, v, low, low);
    PopAllStaysNear(r, lib, v, target, pinned, low, k);
    PopAllIsSensible(r, v, target, pinned);
    IrreversibleGrows(r, lib, v.head, k);
    NearIsAnchored(r, lib, w, low);
  }

  /** Rolling back stays near the split, also when it stops half way. */
  lemma {:induction false} RollBackStaysNear<O(!new)>(
    r: Rules<O>, lib: Store<O> -> nat, t: View, a: seq<Item>, b: seq<Item>, i: nat, n: nat, oldHead: Block)
    requires Lawful(r) && BoundsFollow(r, lib) && Sensible(r, t) && i < |a| && 1 <= |b| <= oldHead.Num()
    requires n <= t.head.Num() && Ancestor(t.head, n) == Ancestor(oldHead, |b|)
    requires var floor := Ancestor(oldHead, |b|).Num();
      Near(r, lib, t, floor) && OpenAt(r, lib, t.head, floor) && BranchOpen(r, lib, oldHead, |b|, floor)
    ensures var w := RollBackResult(r, t, a, b, i, oldHead).view;
      Sensible(r, w) && Near(r, lib, w, Ancestor(oldHead, |b|).Num())
  {
    var base := Ancestor(oldHead, |b|);
    var start := t.(forks := Discarded(t.forks, a[..i + 1], b[0]));
    PopAllIsSensible(r, start, base, a + b);
    PopAllStaysNear(r, lib, start, base, a + b, base.Num(), n);
    if PopAll(start, base, a + b).Popped? {
      TriedBranchStaysNear(r, lib, PopAll(start, base, a + b).view, oldHead, |b|, base.Num());
    }
  }

  lemma {:induction false} BranchRollBackStaysNear<O(!new)>(
    r: Rules<O>, lib: Store<O> -> nat, t: View, a: seq<Item>, b: seq<Item>, i: nat, top: Block, oldHead: Block)
    requires Lawful(r) && BoundsFollow(r, lib) && Sensible(r, t) && i < |a| <= top.Num() && 1 <= |b| <= oldHead.Num()
    requires t.head == Ancestor(top, i + 1) && Ancestor(top, |a|) == Ancestor(oldHead, |b|)
    requires var floor := Ancestor(oldHead, |b|).Num();
      Near(r, lib, t, floor) && OpenAt(r, lib, t.head, floor) && BranchOpen(r, lib, oldHead, |b|, floor)
    ensures var w := RollBackResult(r, t, a, b, i, oldHead).view;
      Sensible(r, w) && Near(r, lib, w, Ancestor(oldHead, |b|).Num())
  {
    AncestorCompose(top, i + 1, |a| - i - 1);
    RollBackStaysNear(r, lib, t, a, b, i, |a| - i - 1, oldHead);
  }

  lemma {:induction false} OldBranchIsOpen<O(!new)>(
    r: Rules<O>, lib: Store<O> -> nat, head: Block, n: nat, low: nat, floor: nat)
    requires Lawful(r) && BoundsFollow(r, lib) && Replayed(r, head).Some? && n <= head.Num()
    requires IrreversibleAt(r, lib, head) <= low <= floor
    ensures BranchOpen(r, lib, head, n, floor)
  {
    forall k | 1 <= k <= n && Replayed(r, Ancestor(head, k)).Some? ensures OpenAt(r, lib, Ancestor(head, k), floor) {
      IrreversibleGrows(r, lib, head, k);
    }
  }

  lemma {:induction false} NewBranchIsOpen<O(!new)>(
    r: Rules<O>, lib: Store<O> -> nat, base: Block, top: Block, n: nat)
    requires Lawful(r) && n <= top.Num() && Ancestor(top, n) == base && KeepsSplitOpen(r, lib, base, top)
    ensures BranchOpen(r, lib, top, n, base.Num())
  {
    forall k | 1 <= k <= n && Replayed(r, Ancestor(top, k)).Some?
      ensures OpenAt(r, lib, Ancestor(top, k), base.Num())
    {
      assert Ancestor(top, k).Num() >= base.Num();
    }
  }

  /** Where a branch that leaves the split open stops, the split is still near. */
  lemma {:induction false} FailingStaysNear<O(!new)>(r: Rules<O>, lib: Store<O> -> nat, w: View, top: Block, n: nat)
    requires Lawful(r) && BoundsFollow(r, lib) && Sensible(r, w) && n <= top.Num() && w.head == Ancestor(top, n)
    requires Replayed(r, top).None? && Near(r, lib, w, w.head.Num()) && KeepsSplitOpen(r, lib, w.head, top)
    ensures var t, i := TriedBranch(r, w, top, n), LowestFailing(r, top);
      && Sensible(r, t) && i < n && t.head == Ancestor(top, i + 1)
      && Near(r, lib, t, w.head.Num()) && OpenAt(r, lib, t.head, w.head.Num())
  {
    TriedBranchEnds(r, w, top, n);
    NewBranchIsOpen(r, lib, w.head, top, n);
    TriedBranchStaysNear(r, lib, w, top, n, w.head.Num());
    assert OpenAt(r, lib, Ancestor(top, LowestFailing(r, top) + 1), w.head.Num());
  }

  /** The split is not below the anchor, and a branch that fails has left it open. */
  ghost predicate SplitAllowed<O(!new)>(r: Rules<O>, lib: Store<O> -> nat, v: View, newHead: Block, low: nat)
    requires Lawful(r) && newHead.Block? && v.head.Block?
  {
    && Split(newHead, v.head).Num() >= low
    && (Replayed(r, newHead).None? ==> KeepsSplitOpen(r, lib, Split(newHead, v.head), newHead))
  }

  /** A switch that goes through keeps the anchor or moves it up to the new irreversible number; one that
      is rolled back or interrupted leaves it at the split or the irreversible number. */
  lemma {:induction false} SwitchKeepsAnchor<O(!new)>(
    r: Rules<O>, lib: Store<O> -> nat, v: View, newHead: Block, low: nat)
    requires Lawful(r) && BoundsFollow(r, lib) && Sensible(r, v) && Anchored(r, lib, v, low)
    requires newHead.Block? && v.head.Block? && SplitAllowed(r, lib, v, newHead, low)
    ensures var t := SwitchResult(r, v, newHead);
      && Sensible(r, t.view)
      && Anchored(r, lib, t.view, Higher(
           if t.outcome.Switched? then low else Split(newHead, v.head).Num(), IrreversibleAt(r, lib, t.view.head)))
  {
    var base, t := Split(newHead, v.head), SwitchResult(r, v, newHead);
    SplitIsBelowBoth(newHead, v.head);
    AnchoredIsNear(r, lib, v, low, base.Num());
    if !Fetchable(v.forks, newHead, v.head) {
      NearIsAnchored(r, lib, v, base.Num());
    } else {
      var a, b := NewBranch(v, newHead), OldBranch(v, newHead);
      PopAllIsSensible(r, v, base, a + b);
      PopAllStaysNear(r, lib, v, base, a + b, base.Num(), |b|);
      var p := PopAll(v, base, a + b);
      if p.Stuck? {
        NearIsAnchored(r, lib, p.view, base.Num());
      } else if Replayed(r, newHead).Some? {
        PopAllKeepsAnchor(r, lib, v, base, a + b, low, |b|);
        TriedBranchKeepsAnchor(r, lib, p.view, newHead, |a|, low);
      } else {
        OldBranchIsOpen(r, lib, v.head, |b|, low, base.Num());
        FailingStaysNear(r, lib, p.view, newHead, |a|);
        BranchRollBackStaysNear(
          r, lib, TriedBranch(r, p.view, newHead, |a|), a, b, LowestFailing(r, newHead), newHead, v.head);
        SwitchedIff(r, v, newHead);
        NearIsAnchored(r, lib, t.view, base.Num());
      }
    }
  }

  // ---------------------------------------------------------------- runs of pushes

  datatype Push = Push(block: Block, skipForkDb: bool)

  /** The block a push tries to switch to. */
  function SwitchTarget(v: View, p: Push): Option<Block> {
    if p.skipForkDb || !Accepts(v.forks, p.block) then None
    else
      var newHead := ForkHead(v.forks, p.block);
      if Parent(v.head, newHead) || newHead.Num() <= v.head.Num() || v.head.Root? then None else Some(newHead)
  }

  /** A push that tries a switch splits at or above the anchor, and if its branch fails it has left the
      split open. */
  ghost predicate Allowed<O(!new)>(r: Rules<O>, lib: Store<O> -> nat, v: View, p: Push, low: nat)
    requires Lawful(r)
  {
    SwitchTarget(v, p).Some? ==> SplitAllowed(r, lib, v, SwitchTarget(v, p).value, low)
  }

  lemma {:induction false} SwitchIsSensible<O(!new)>(r: Rules<O>, v: View, newHead: Block)
    requires Lawful(r) && Sensible(r, v) && newHead.Block? && v.head.Block?
    ensures Sensible(r, SwitchResult(r, v, newHead).view)
  {
    if Fetchable(v.forks, newHead, v.head) {
      var a, b, base := NewBranch(v, newHead), OldBranch(v, newHead), Split(newHead, v.head);
      SplitIsBelowBoth(newHead, v.head);
      PopAllIsSensible(r, v, base, a + b);
      if PopAll(v, base, a + b).Popped? {
        var t := TriedBranch(r, PopAll(v, base, a + b).view, newHead, |a|);
        TriedBranchEnds(r, PopAll(v, base, a + b).view, newHead, |a|);
        if Replayed(r, newHead).None? {
          RollBackIsSensible(r, t, a, b, LowestFailing(r, newHead), v.head);
        }
      }
    }
  }

  lemma {:induction false} RollBackIsSensible<O(!new)>(
    r: Rules<O>, t: View, a: seq<Item>, b: seq<Item>, i: nat, oldHead: Block)
    requires Lawful(r) && Sensible(r, t) && i < |a| && 1 <= |b| <= oldHead.Num()
    ensures Sensible(r, RollBackResult(r, t, a, b, i, oldHead).view)
  {
    var base := Ancestor(oldHead, |b|);
    var start := t.(forks := Discarded(t.forks, a[..i + 1], b[0]));
    PopAllIsSensible(r, start, base, a + b);
    if PopAll(start, base, a + b).Popped? {
      TriedBranchEnds(r, PopAll(start, base, a + b).view, oldHead, |b|);
    }
  }

  lemma {:induction false} PushIsSensible<O(!new)>(r: Rules<O>, v: View, b: Block, skipForkDb: bool)
    requires Lawful(r) && Sensible(r, v) && b.Block?
    ensures Sensible(r, PushResult(r, v, b, skipForkDb).view)
  {
    TriedIsSensible(r, v, b);
    if !skipForkDb && Accepts(v.forks, b) {
      var w, newHead := v.(forks := Pushed(v.forks, b)), ForkHead(v.forks, b);
      TriedIsSensible(r, w, b);
      if newHead.Block? && v.head.Block? {
        SwitchIsSensible(r, w, newHead);
      }
    }
  }

  ghost function After<O(!new)>(r: Rules<O>, v: View, p: Push): (t: Result)
    requires Lawful(r) && Sensible(r, v) && p.block.Block?
    ensures Sensible(r, t.view)
  {
    PushIsSensible(r, v, p.block, p.skipForkDb);
    PushResult(r, v, p.block, p.skipForkDb)
  }

  /** The anchor after a push: the higher of the irreversible number and the anchor before, or the split
      of a switch that failed. */
  ghost function NextAnchor<O(!new)>(r: Rules<O>, lib: Store<O> -> nat, v: View, p: Push, low: nat): nat
    requires Lawful(r) && Sensible(r, v) && p.block.Block?
  {
    var t := After(r, v, p);
    if SwitchTarget(v, p).Some? && !t.outcome.Switched? then
      Higher(Split(SwitchTarget(v, p).value, v.head).Num(), IrreversibleAt(r, lib, t.view.head))
    else Higher(low, IrreversibleAt(r, lib, t.view.head))
  }

  /** An allowed push never lacks an undo entry, and it keeps the anchor. */
  lemma {:induction false} PushKeepsAnchor<O(!new)>(r: Rules<O>, lib: Store<O> -> nat, v: View, p: Push, low: nat)
    requires Lawful(r) && BoundsFollow(r, lib) && Sensible(r, v) && Anchored(r, lib, v, low) && p.block.Block?
    requires Allowed(r, lib, v, p, low)
    ensures After(r, v, p).outcome != Interrupted(ShortUndo)
    ensures Anchored(r, lib, After(r, v, p).view, NextAnchor(r, lib, v, p, low))
  {
    if p.skipForkDb {
      ExtendKeepsAnchor(r, lib, v, p.block, low);
    } else if Accepts(v.forks, p.block) {
      var w := v.(forks := Pushed(v.forks, p.block));
      if SwitchTarget(v, p).Some? {
        SwitchIsNeverShort(r, lib, w, SwitchTarget(v, p).value, low);
        SwitchKeepsAnchor(r, lib, w, SwitchTarget(v, p).value, low);
      } else {
        ExtendKeepsAnchor(r, lib, w, p.block, low);
      }
    }
  }

  ghost predicate AllBlocks(ps: seq<Push>) {
    forall p <- ps :: p.block.Block?
  }

  /** Every push of the run is allowed at the anchor it finds. */
  ghost predicate AllowedRun<O(!new)>(r: Rules<O>, lib: Store<O> -> nat, v: View, ps: seq<Push>, low: nat)
    requires Lawful(r) && Sensible(r, v) && AllBlocks(ps)
    decreases |ps|
  {
    ps == [] ||
    (Allowed(r, lib, v, ps[0], low) &&
     AllowedRun(r, lib, After(r, v, ps[0]).view, ps[1..], NextAnchor(r, lib, v, ps[0], low)))
  }

  /** The view after the first `k` pushes. */
  ghost function ViewAfter<O(!new)>(r: Rules<O>, v: View, ps: seq<Push>, k: nat): (w: View)
    requires Lawful(r) && Sensible(r, v) && AllBlocks(ps) && k <= |ps|
    ensures Sensible(r, w)
    decreases k
  {
    if k == 0 then v else ViewAfter(r, After(r, v, ps[0]).view, ps[1..], k - 1)
  }

  /** No push of an allowed run lacks an undo entry. */
  lemma {:induction false} AllowedRunIsNeverShort<O(!new)>(
    r: Rules<O>, lib: Store<O> -> nat, v: View, ps: seq<Push>, low: nat, k: nat)
    requires Lawful(r) && BoundsFollow(r, lib) && Sensible(r, v) && Anchored(r, lib, v, low)
    requires AllBlocks(ps) && AllowedRun(r, lib, v, ps, low) && k < |ps|
    ensures After(r, ViewAfter(r, v, ps, k), ps[k]).outcome != Interrupted(ShortUndo)
    decreases k
  {
    PushKeepsAnchor(r, lib, v, ps[0], low);
    if k > 0 {
      AllowedRunIsNeverShort(r, lib, After(r, v, ps[0]).view, ps[1..], NextAnchor(r, lib, v, ps[0], low), k - 1);
    }
  }

  /** From the fresh node on, no push whose switch splits at or above the anchor ever stops half way for
      want of an undo entry. */
  lemma {:induction false} PushesAreNeverShort<O(!new)>(r: Rules<O>, lib: Store<O> -> nat, ps: seq<Push>, k: nat)
    requires Lawful(r) && BoundsFollow(r, lib) && AllBlocks(ps) && k < |ps|
    ensures Sensible(r, Fresh())
    ensures AllowedRun(r, lib, Fresh(), ps, 0) ==>
      After(r, ViewAfter(r, Fresh(), ps, k), ps[k]).outcome != Interrupted(ShortUndo)
  {
    assert Replayed(r, Root) == Some(r.genesis);
    if AllowedRun(r, lib, Fresh(), ps, 0) {
      AllowedRunIsNeverShort(r, lib, Fresh(), ps, 0, k);
    }
  }
}
