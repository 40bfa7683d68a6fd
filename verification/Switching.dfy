/** What pushing a block does to the chain head, the undo stack and the fork tree, as functions of
    these alone, and when a switch to another branch succeeds, fails cleanly or stops half way. */
module Switching {
  import opened UndoLog
  import opened UndoMachine
  import opened Options
  import opened Blocks
  import opened Replay
  import opened ForkDatabase

  /** Why a pop stopped half way through a switch. */
  datatype Cause = ShortUndo | LostParent

  datatype Outcome =
    | Extended
    | Switched
    | Ignored
    | Rejected
    | Interrupted(cause: Cause)

  /** The head block, the head blocks of the states on the undo stack, the bound of that stack, and
      the fork tree. The objects themselves are the replay of the head block. */
  datatype View = View(head: Block, heads: seq<Block>, max: nat, forks: Forks)

  /** The node as it starts: nothing above genesis, an empty undo stack and an empty fork tree. */
  function Fresh(): View {
    View(Root, [], 256, Forks(map[], None, 1024, 0))
  }

  datatype Result = Result(outcome: Outcome, view: View)

  datatype Popping = Popped(view: View) | Stuck(view: View, cause: Cause)

  // ---------------------------------------------------------------- steps

  ghost predicate Applies<O(!new)>(r: Rules<O>, v: View, b: Block)
    requires Lawful(r) && Replayed(r, v.head).Some?
  {
    r.apply(Replayed(r, v.head).value, b).ok
  }

  /** A block tried on the head: it is committed, or undone when it throws. The bounds it set stay. */
  ghost function Tried<O(!new)>(r: Rules<O>, v: View, b: Block): View
    requires Lawful(r) && Replayed(r, v.head).Some?
  {
    var script := r.apply(Replayed(r, v.head).value, b);
    var kept := Prune(v.heads, v.max);
    var forks := if script.bound.Some? then Resized(v.forks, script.bound.value) else v.forks;
    var max := if script.bound.Some? then script.bound.value else v.max;
    if script.ok then View(b, kept + [v.head], max, forks)
    else View(v.head, if kept == [] then [v.head] else kept, max, forks)
  }

  /** `pop_block`: first the fork head moves down, then the undo entry goes. */
  ghost function PopOne(v: View, pinned: seq<Item>): (p: Popping)
    ensures p.Popped? ==> |p.view.heads| == |v.heads| - 1
  {
    if v.forks.head.None? || Lock(v.forks, pinned, v.forks.head.value).None? then Stuck(v, LostParent)
    else
      var f := v.forks.(head := Lock(v.forks, pinned, v.forks.head.value));
      var n := |v.heads|;
      if n == 0 then Stuck(v.(forks := f), ShortUndo)
      else Popped(v.(head := v.heads[n - 1], heads := v.heads[..n - 1], forks := f))
  }

  /** Pops blocks until the head is `target`. */
  ghost function PopAll(v: View, target: Block, pinned: seq<Item>): Popping
    decreases |v.heads|
  {
    if v.head == target then Popped(v)
    else
      match PopOne(v, pinned)
      case Stuck(w, cause) => Stuck(w, cause)
      case Popped(w) => PopAll(w, target, pinned)
  }

  /** Tries the `n` blocks up to `top` from the lowest, stopping at the first that throws. */
  ghost function TriedBranch<O(!new)>(r: Rules<O>, v: View, top: Block, n: nat): View
    requires Lawful(r) && n <= top.Num() && Replayed(r, v.head).Some? && v.head == Ancestor(top, n)
    decreases n
  {
    if n == 0 then v
    else
      AncestorStep(top, n - 1);
      AppliesIffReplays(r, v, Ancestor(top, n - 1));
      var v' := Tried(r, v, Ancestor(top, n - 1));
      if Applies(r, v, Ancestor(top, n - 1)) then TriedBranch(r, v', top, n - 1) else v'
  }

  /** A block applies exactly when it follows the head and replays. */
  lemma {:induction false} AppliesIffReplays<O(!new)>(r: Rules<O>, v: View, b: Block)
    requires Lawful(r) && Replayed(r, v.head).Some?
    ensures Applies(r, v, b) <==> Parent(v.head, b) && Replayed(r, b).Some?
  {
    ReplayHead(r, v.head);
    assert LawfulScript(r, Replayed(r, v.head).value, b);
  }

  /** How many blocks above it the lowest block that does not replay has on the way to `top`. */
  ghost function LowestFailing<O(!new)>(r: Rules<O>, top: Block): (i: nat)
    requires Lawful(r) && Replayed(r, top).None?
    ensures i < top.Num() && Replayed(r, Ancestor(top, i)).None? && Replayed(r, Ancestor(top, i + 1)).Some?
  {
    if Replayed(r, top.previous).Some? then 0 else LowestFailing(r, top.previous) + 1
  }

  /** The branch of the fork tree from the item `it` down `n` parents. */
  function Path(f: Forks, it: Item, n: nat): (path: seq<Item>)
    requires Reaches(f, it, n)
    ensures |path| == n + 1 && path[0] == it && Linked(f, path)
    decreases n
  {
    if n == 0 then [it] else
    var rest := Path(f, Lock(f, [], it).value, n - 1);
    assert forall i :: 0 <= i < n - 1 ==> Lock(f, [], rest[i]) == Some(rest[i + 1]);
    [it] + rest
  }

  lemma {:induction false} LinkedIsPath(f: Forks, path: seq<Item>, n: nat)
    requires |path| == n + 1 && Linked(f, path)
    ensures Reaches(f, path[0], n) && Path(f, path[0], n) == path
    decreases n
  {
    if n > 0 {
      assert Lock(f, [], path[0]) == Some(path[1]);
      forall i | 0 <= i < n - 1
        ensures Lock(f, [], path[1..][i]) == Some(path[1..][i + 1])
      {
        assert Lock(f, [], path[i + 1]) == Some(path[i + 2]);
      }
      LinkedIsPath(f, path[1..], n - 1);
    }
  }

  // ---------------------------------------------------------------- the switch

  /** Every state the node may come back to is the replay of its block. */
  ghost predicate Sensible<O(!new)>(r: Rules<O>, v: View)
    requires Lawful(r)
  {
    && Replayed(r, v.head).Some?
    && (forall i :: 0 <= i < |v.heads| ==> Replayed(r, v.heads[i]).Some?)
  }

  lemma {:induction false} TriedIsSensible<O(!new)>(r: Rules<O>, v: View, b: Block)
    requires Lawful(r) && Sensible(r, v)
    ensures Sensible(r, Tried(r, v, b))
  {
    AppliesIffReplays(r, v, b);
  }

  lemma {:induction false} PopAllIsSensible<O(!new)>(r: Rules<O>, v: View, target: Block, pinned: seq<Item>)
    requires Lawful(r) && Sensible(r, v)
    ensures var p := PopAll(v, target, pinned); Sensible(r, p.view) && (p.Popped? ==> p.view.head == target)
    decreases |v.heads|
  {
    if v.head != target && PopOne(v, pinned).Popped? {
      PopAllIsSensible(r, PopOne(v, pinned).view, target, pinned);
    }
  }

  /** Trying a branch ends at its top, or below the lowest block that does not replay. */
  lemma {:induction false} TriedBranchEnds<O(!new)>(r: Rules<O>, v: View, top: Block, n: nat)
    requires Lawful(r) && n <= top.Num() && Sensible(r, v) && v.head == Ancestor(top, n)
    ensures Sensible(r, TriedBranch(r, v, top, n))
    ensures Replayed(r, top).Some? ==> TriedBranch(r, v, top, n).head == top
    ensures Replayed(r, top).None? ==> LowestFailing(r, top) < n
    ensures Replayed(r, top).None? ==> TriedBranch(r, v, top, n).head == Ancestor(top, LowestFailing(r, top) + 1)
    decreases n
  {
    if n > 0 {
      var b := Ancestor(top, n - 1);
      AncestorStep(top, n - 1);
      AppliesIffReplays(r, v, b);
      TriedIsSensible(r, v, b);
      if Applies(r, v, b) {
        TriedBranchEnds(r, Tried(r, v, b), top, n - 1);
      } else {
        if Replayed(r, top).Some? {
          AncestorsReplay(r, top, n - 1);
        }
        FailingIsUnique(r, top, n - 1);
      }
    }
  }

  lemma {:induction false} FailingIsUnique<O(!new)>(r: Rules<O>, top: Block, i: nat)
    requires Lawful(r) && i < top.Num()
    requires Replayed(r, Ancestor(top, i)).None? && Replayed(r, Ancestor(top, i + 1)).Some?
    ensures Replayed(r, top).None? && LowestFailing(r, top) == i
    decreases i
  {
    if i > 0 {
      FailingIsUnique(r, top.previous, i - 1);
    }
  }

  /** The common predecessor of two branches. */
  function Split(a: Block, b: Block): Block
    requires a.Block? && b.Block?
  {
    assert AtHeight(b, SplitHeight(a, b)).Num() >= 1;
    AtHeight(b, SplitHeight(a, b)).previous
  }

  /** How many blocks `x` has above the split of `a` and `b`. */
  function Length(x: Block, a: Block, b: Block): nat
    requires a.Block? && b.Block? && x.Num() >= SplitHeight(a, b)
  {
    x.Num() - SplitHeight(a, b) + 1
  }

  lemma {:induction false} PredecessorAt(b: Block, h: nat)
    requires 1 <= h <= b.Num()
    ensures AtHeight(b, h).Block? && AtHeight(b, h).previous == Ancestor(b, b.Num() - h + 1)
  {
    AncestorStep(b, b.Num() - h);
  }

  lemma {:induction false} MeetBelow(a: Block, b: Block, h: nat)
    requires 1 <= h <= a.Num() && h <= b.Num() && AtHeight(a, h).previous == AtHeight(b, h).previous
    ensures AtHeight(b, h).Num() >= 1
    ensures AtHeight(b, h).previous == Ancestor(a, a.Num() - h + 1) == Ancestor(b, b.Num() - h + 1)
  {
    PredecessorAt(a, h);
    PredecessorAt(b, h);
  }

  lemma {:induction false} SplitIsBelowBoth(a: Block, b: Block)
    requires a.Block? && b.Block?
    ensures Length(a, a, b) <= a.Num() && Length(b, a, b) <= b.Num()
    ensures Split(a, b) == Ancestor(a, Length(a, a, b)) == Ancestor(b, Length(b, a, b))
  {
    SplitHasOnePredecessor(a, b);
    MeetBelow(a, b, SplitHeight(a, b));
  }

  /** Both branches can be walked down to the split. */
  predicate Fetchable(f: Forks, a: Block, b: Block)
    requires a.Block? && b.Block?
  {
    && a in f.index && b in f.index
    && Reaches(f, f.index[a], Length(a, a, b) - 1) && Reaches(f, f.index[b], Length(b, a, b) - 1)
  }

  function Branch(f: Forks, x: Block, a: Block, b: Block): (path: seq<Item>)
    requires a.Block? && b.Block? && x in f.index && x.Num() >= SplitHeight(a, b)
    requires Reaches(f, f.index[x], Length(x, a, b) - 1)
    ensures |path| == Length(x, a, b) && path[0] == f.index[x] && Linked(f, path)
  {
    Path(f, f.index[x], Length(x, a, b) - 1)
  }

  function BlocksOf(items: seq<Item>): set<Block> {
    set k | 0 <= k < |items| :: items[k].block
  }

  /** The fork tree when a roll-back begins: the failed block and those above it are gone, and the old
      head is the fork head. */
  function Discarded(f: Forks, failed: seq<Item>, oldHead: Item): Forks {
    f.(index := f.index - BlocksOf(failed), head := Some(oldHead))
  }

  /** The applied part of the new branch is popped and the old branch is applied again. */
  ghost function RollBackResult<O(!new)>(
    r: Rules<O>, v: View, a: seq<Item>, b: seq<Item>, i: nat, oldHead: Block): Result
    requires Lawful(r) && Sensible(r, v) && i < |a| && 1 <= |b| <= oldHead.Num()
  {
    var base := Ancestor(oldHead, |b|);
    var start := v.(forks := Discarded(v.forks, a[..i + 1], b[0]));
    PopAllIsSensible(r, start, base, a + b);
    match PopAll(start, base, a + b)
    case Stuck(w, cause) => Result(Interrupted(cause), w)
    case Popped(w) => Result(Rejected, TriedBranch(r, w, oldHead, |b|))
  }

  /** `_push_block` from the point where the fork head does not follow the chain head. */
  ghost function SwitchResult<O(!new)>(r: Rules<O>, v: View, newHead: Block): Result
    requires Lawful(r) && Sensible(r, v) && newHead.Block? && v.head.Block?
  {
    if !Fetchable(v.forks, newHead, v.head) then Result(Rejected, v)
    else
      var a, b := Branch(v.forks, newHead, newHead, v.head), Branch(v.forks, v.head, newHead, v.head);
      var base := Split(newHead, v.head);
      PopAllIsSensible(r, v, base, a + b);
      SplitIsBelowBoth(newHead, v.head);
      match PopAll(v, base, a + b)
      case Stuck(w, cause) => Result(Interrupted(cause), w)
      case Popped(w) =>
        TriedBranchEnds(r, w, newHead, |a|);
        var tried := TriedBranch(r, w, newHead, |a|);
        if Replayed(r, newHead).Some? then Result(Switched, tried)
        else RollBackResult(r, tried, a, b, LowestFailing(r, newHead), v.head)
  }

  /** A block tried straight on the head: listeners are told in a session of their own that merges
      into the block; a block that throws leaves the fork tree. */
  ghost function ExtendResult<O(!new)>(r: Rules<O>, v: View, b: Block): Result
    requires Lawful(r) && Sensible(r, v)
  {
    var w := Tried(r, v, b);
    if Applies(r, v, b) then Result(Extended, w.(heads := Prune(w.heads, w.max)))
    else Result(Rejected, w.(forks := w.forks.(index := w.forks.index - {b})))
  }

  /** `_push_block`. */
  ghost function PushResult<O(!new)>(r: Rules<O>, v: View, b: Block, skipForkDb: bool): Result
    requires Lawful(r) && Sensible(r, v) && b.Block?
  {
    if skipForkDb then ExtendResult(r, v, b)
    else if !Accepts(v.forks, b) then Result(Rejected, v)
    else
      var w := v.(forks := Pushed(v.forks, b));
      var newHead := w.forks.head.value.block;
      if Parent(v.head, newHead) then ExtendResult(r, w, b)
      else if newHead.Num() <= v.head.Num() then Result(Ignored, w)
      else if v.head.Root? then Result(Rejected, w)
      else SwitchResult(r, w, newHead)
  }

  // ---------------------------------------------------------------- popping

  /** How many entries the undo stack pops from `head` down to `target`. */
  function Distance(heads: seq<Block>, head: Block, target: Block): Option<nat> {
    if head == target then Some(0)
    else if heads == [] then None
    else
      var d :- Distance(heads[..|heads| - 1], heads[|heads| - 1], target);
      Some(d + 1)
  }

  /** The fork head can be moved to its parent `k` times. */
  predicate ForkPops(f: Forks, pinned: seq<Item>, k: nat)
    decreases k
  {
    k == 0 ||
    (f.head.Some? && Lock(f, pinned, f.head.value).Some? &&
     ForkPops(f.(head := Lock(f, pinned, f.head.value)), pinned, k - 1))
  }

  function ForkPopped(f: Forks, pinned: seq<Item>, k: nat): (g: Forks)
    requires ForkPops(f, pinned, k)
    ensures g == f.(head := g.head)
    decreases k
  {
    if k == 0 then f else ForkPopped(f.(head := Lock(f, pinned, f.head.value)), pinned, k - 1)
  }

  lemma {:induction false} DistanceBound(heads: seq<Block>, head: Block, target: Block)
    ensures Distance(heads, head, target).Some? ==> Distance(heads, head, target).value <= |heads|
    decreases |heads|
  {
    if head != target && heads != [] {
      DistanceBound(heads[..|heads| - 1], heads[|heads| - 1], target);
    }
  }

  /** Popping reaches its target exactly when the undo stack holds it and the fork head can follow; it
      stops for want of an undo entry exactly when only the fork head could have gone on. */
  lemma {:induction false} PopAllIff(v: View, target: Block, pinned: seq<Item>)
    ensures var d := Distance(v.heads, v.head, target); var p := PopAll(v, target, pinned);
      && (p.Popped? <==> d.Some? && ForkPops(v.forks, pinned, d.value))
      && (p.Stuck? && p.cause == ShortUndo <==> d.None? && ForkPops(v.forks, pinned, |v.heads| + 1))
    ensures var d := Distance(v.heads, v.head, target); var p := PopAll(v, target, pinned);
      p.Popped? ==>
        && d.value <= |v.heads|
        && p.view == View(target, v.heads[..|v.heads| - d.value], v.max, ForkPopped(v.forks, pinned, d.value))
    decreases |v.heads|
  {
    var n := |v.heads|;
    DistanceBound(v.heads, v.head, target);
    if v.head == target {
      assert v.heads[..n] == v.heads;
    } else if PopOne(v, pinned).Popped? {
      PopAllIff(PopOne(v, pinned).view, target, pinned);
    }
  }

  /** The view `k` pops down. */
  function PoppedView(v: View, pinned: seq<Item>, k: nat): View
    requires k <= |v.heads| && ForkPops(v.forks, pinned, k)
  {
    var n := |v.heads| - k;
    View(if k == 0 then v.head else v.heads[n], v.heads[..n], v.max, ForkPopped(v.forks, pinned, k))
  }

  /** Where popping stops half way: at the first block whose fork item has lost its parent, or with the undo stack
      used up and the fork head already one further down. */
  lemma {:induction false} PopAllStops(v: View, target: Block, pinned: seq<Item>) returns (k: nat)
    requires PopAll(v, target, pinned).Stuck?
    ensures k <= |v.heads| && ForkPops(v.forks, pinned, k)
    ensures var p, w := PopAll(v, target, pinned), PoppedView(v, pinned, k);
      if p.cause == LostParent then p.view == w && !ForkPops(v.forks, pinned, k + 1)
      else
        && k == |v.heads| && ForkPops(v.forks, pinned, k + 1)
        && p.view == w.(forks := ForkPopped(v.forks, pinned, k + 1))
    decreases |v.heads|
  {
    match PopOne(v, pinned)
    case Stuck(_, _) =>
      k := 0;
      assert v.heads[..|v.heads|] == v.heads;
    case Popped(w) =>
      k := PopAllStops(w, target, pinned);
      assert w.heads[..|w.heads| - k] == v.heads[..|v.heads| - (k + 1)];
      k := k + 1;
  }

  /** The undo stack leads from `head` down `k` blocks to `target`. */
  ghost predicate Leads(heads: seq<Block>, head: Block, k: nat, target: Block) {
    UndoReaches(heads, head, k) && Ancestor(head, k) == target
  }

  lemma {:induction false} LeadsDistance(heads: seq<Block>, head: Block, k: nat, target: Block)
    requires Leads(heads, head, k, target)
    ensures Distance(heads, head, target) == Some(k)
    decreases k
  {
    if k > 0 {
      ReachAfterPop(heads, head, k);
      LeadsDistance(heads[..|heads| - 1], head.previous, k - 1, target);
    }
  }
}
