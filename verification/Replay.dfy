/** What the chain state should be: the replay of the blocks on the path to the head. */
module Replay {
  import opened UndoLog
  import opened UndoMachine
  import opened Options
  import opened Blocks

  /** What `apply_block` does in a given state: the edits it makes until it returns or throws, and
      the undo bound (head number - last irreversible number + 1) it sets if it gets that far. */
  datatype Script<O> = Script(edits: seq<Command<O>>, ok: bool, bound: Option<nat>)

  /** The deterministic part of a node: how a block acts on a store, where the store keeps the
      head block, and the genesis store. */
  datatype Rules<!O> = Rules(apply: (Store<O>, Block) -> Script<O>, head: Store<O> -> Block, genesis: Store<O>)

  predicate IsEdit<O>(c: Command<O>) {
    c.Create? || c.Modify? || c.Remove?
  }

  function EditStore<O>(s: Store<O>, c: Command<O>): Store<O>
    requires IsEdit(c)
  {
    match c
    case Create(k, v) => if k in s.next then CreateObject(s, k, v) else s
    case Modify(id, v) => if id in s.objects then ModifyObject(s, id, v) else s
    case Remove(id) => RemoveObject(s, id)
  }

  function EditAll<O>(s: Store<O>, cs: seq<Command<O>>): Store<O>
    requires forall c <- cs :: IsEdit(c)
    decreases |cs|
  {
    if cs == [] then s else EditStore(EditAll(s, cs[..|cs| - 1]), cs[|cs| - 1])
  }

  /** A script makes edits only; it succeeds only on top of the block's predecessor, and then
      records the block as the head and sets a positive undo bound. */
  ghost predicate LawfulScript<O(!new)>(r: Rules<O>, s: Store<O>, b: Block) {
    var script := r.apply(s, b);
    && (forall c <- script.edits :: IsEdit(c))
    && (script.bound.Some? ==> script.bound.value >= 1)
    && (script.ok ==> b.Block? && r.head(s) == b.previous && script.bound.Some?)
    && (script.ok ==> r.head(EditAll(s, script.edits)) == b)
  }

  ghost predicate Lawful<O(!new)>(r: Rules<O>) {
    && WellFormed(r.genesis) && r.head(r.genesis) == Root
    && forall s, b :: LawfulScript(r, s, b)
  }

  /** The store after applying every block up to `b`, if they all apply. */
  ghost function Replayed<O(!new)>(r: Rules<O>, b: Block): Option<Store<O>>
    requires Lawful(r)
  {
    if b.Root? then Some(r.genesis)
    else
      match Replayed(r, b.previous)
      case None => None
      case Some(s) =>
        assert LawfulScript(r, s, b);
        var script := r.apply(s, b);
        if script.ok then Some(EditAll(s, script.edits)) else None
  }

  lemma {:induction false} EditsKeepWellFormed<O(!new)>(s: Store<O>, cs: seq<Command<O>>)
    requires WellFormed(s) && forall c <- cs :: IsEdit(c)
    ensures WellFormed(EditAll(s, cs))
    decreases |cs|
  {
    if cs != [] {
      EditsKeepWellFormed(s, cs[..|cs| - 1]);
    }
  }

  lemma {:induction false} ReplayHead<O(!new)>(r: Rules<O>, b: Block)
    requires Lawful(r) && Replayed(r, b).Some?
    ensures r.head(Replayed(r, b).value) == b && WellFormed(Replayed(r, b).value)
  {
    if b.Block? {
      ReplayHead(r, b.previous);
      var s := Replayed(r, b.previous).value;
      assert LawfulScript(r, s, b);
      EditsKeepWellFormed(s, r.apply(s, b).edits);
    }
  }

  lemma {:induction false} AncestorsReplay<O(!new)>(r: Rules<O>, b: Block, k: nat)
    requires Lawful(r) && Replayed(r, b).Some? && k <= b.Num()
    ensures Replayed(r, Ancestor(b, k)).Some?
    decreases k
  {
    if k > 0 {
      AncestorsReplay(r, b.previous, k - 1);
    }
  }

  // ---------------------------------------------------------------- the chain invariant

  /** The head after entry `i` of the undo stack. */
  ghost function HeadAfter(heads: seq<Block>, head: Block, i: nat): Block
    requires i < |heads|
  {
    if i + 1 < |heads| then heads[i + 1] else head
  }

  /** Entry `i` of the undo stack holds the state of `heads[i]`, and either one block or nothing
      happened between it and the next entry. */
  ghost predicate HoldsReplay<O(!new)>(r: Rules<O>, h: seq<Store<O>>, heads: seq<Block>, head: Block, i: nat)
    requires Lawful(r) && |heads| == |h| && i < |h|
  {
    && Replayed(r, heads[i]) == Some(h[i])
    && (heads[i] == HeadAfter(heads, head, i) || Parent(heads[i], HeadAfter(heads, head, i)))
  }

  predicate Parent(p: Block, b: Block) {
    b.Block? && b.previous == p
  }

  /** The object state is the replay of the blocks on the path to the chain head, and every entry
      of the undo stack leads back to such a state. */
  ghost predicate OnReplay<O(!new)>(r: Rules<O>, s: Store<O>, h: seq<Store<O>>, heads: seq<Block>)
    requires Lawful(r)
  {
    && Replayed(r, r.head(s)) == Some(s)
    && |heads| == |h|
    && forall i :: 0 <= i < |h| ==> HoldsReplay(r, h, heads, r.head(s), i)
  }

  /** Opening a session and committing a block, or pruning and giving up, keeps the invariant. */
  lemma PruneKeepsReplay<O(!new)>(r: Rules<O>, s: Store<O>, h: seq<Store<O>>, heads: seq<Block>, max: nat)
    requires Lawful(r) && OnReplay(r, s, h, heads)
    ensures OnReplay(r, s, Prune(h, max), Prune(heads, max))
  {
    var cut := if |h| > max then |h| - max else 0;
    forall i | 0 <= i < |Prune(h, max)|
      ensures HoldsReplay(r, Prune(h, max), Prune(heads, max), r.head(s), i)
    {
      assert HoldsReplay(r, h, heads, r.head(s), i + cut);
    }
  }

  lemma PushKeepsReplay<O(!new)>(r: Rules<O>, s: Store<O>, h: seq<Store<O>>, heads: seq<Block>, s': Store<O>)
    requires Lawful(r) && OnReplay(r, s, h, heads)
    requires Replayed(r, r.head(s')) == Some(s') && (s' == s || Parent(r.head(s), r.head(s')))
    ensures OnReplay(r, s', h + [s], heads + [r.head(s)])
  {
    var h', heads' := h + [s], heads + [r.head(s)];
    forall i | 0 <= i < |h'|
      ensures HoldsReplay(r, h', heads', r.head(s'), i)
    {
      if i < |h| {
        assert HoldsReplay(r, h, heads, r.head(s), i);
      }
    }
  }

  lemma PopKeepsReplay<O(!new)>(r: Rules<O>, s: Store<O>, h: seq<Store<O>>, heads: seq<Block>)
    requires Lawful(r) && OnReplay(r, s, h, heads) && |h| >= 1
    ensures var n := |h| - 1;
            && OnReplay(r, h[n], h[..n], heads[..n]) && r.head(h[n]) == heads[n]
            && (heads[n] == r.head(s) || Parent(heads[n], r.head(s)))
  {
    var n := |h| - 1;
    assert HoldsReplay(r, h, heads, r.head(s), n);
    ReplayHead(r, heads[n]);
    forall i | 0 <= i < n
      ensures HoldsReplay(r, h[..n], heads[..n], heads[n], i)
    {
      assert HoldsReplay(r, h, heads, r.head(s), i);
    }
  }

  lemma AppliedBlockReplays<O(!new)>(r: Rules<O>, s: Store<O>, b: Block)
    requires Lawful(r) && Replayed(r, r.head(s)) == Some(s) && r.apply(s, b).ok
    ensures LawfulScript(r, s, b)
    ensures Replayed(r, b) == Some(EditAll(s, r.apply(s, b).edits)) && Parent(r.head(s), b)
    ensures r.head(EditAll(s, r.apply(s, b).edits)) == b
  {
    assert LawfulScript(r, s, b);
  }

  // ---------------------------------------------------------------- how far back the stack goes

  /** The top `k` entries of the undo stack are the `k` states before the head. */
  ghost predicate UndoReaches(heads: seq<Block>, head: Block, k: nat) {
    && k <= |heads| && k <= head.Num()
    && forall j :: 1 <= j <= k ==> heads[|heads| - j] == Ancestor(head, j)
  }

  lemma ReachAfterBlock(heads: seq<Block>, b: Block, k: nat, max: nat)
    requires b.Block? && UndoReaches(heads, b.previous, k) && k <= max
    ensures UndoReaches(Prune(heads, max) + [b.previous], b, k + 1)
    ensures UndoReaches(Prune(heads, max), b.previous, k)
  {
    var p := Prune(heads, max);
    forall j | 1 <= j <= k
      ensures p[|p| - j] == Ancestor(b.previous, j)
    {
      assert heads[|heads| - j] == Ancestor(b.previous, j);
    }
    forall j | 1 <= j <= k + 1
      ensures (p + [b.previous])[|p| + 1 - j] == Ancestor(b, j)
    {
      if j > 1 {
        assert p[|p| - (j - 1)] == Ancestor(b.previous, j - 1);
      }
    }
  }

  lemma ReachAfterPop(heads: seq<Block>, head: Block, k: nat)
    requires k >= 1 && UndoReaches(heads, head, k)
    ensures heads[|heads| - 1] == head.previous && UndoReaches(heads[..|heads| - 1], head.previous, k - 1)
  {
    assert heads[|heads| - 1] == Ancestor(head, 1);
    forall j | 1 <= j <= k - 1
      ensures heads[..|heads| - 1][|heads| - 1 - j] == Ancestor(head.previous, j)
    {
      assert heads[|heads| - (j + 1)] == Ancestor(head, j + 1);
    }
  }

  /** The undo bound that applying `b` sets never cuts below `base`. */
  ghost predicate BoundCovers<O(!new)>(r: Rules<O>, base: Block, b: Block)
    requires Lawful(r)
  {
    b.Block? && Replayed(r, b).Some? ==>
      Replayed(r, b.previous).Some? && r.apply(Replayed(r, b.previous).value, b).bound.Some? &&
      r.apply(Replayed(r, b.previous).value, b).bound.value + base.Num() >= b.Num()
  }

  /** No block of the branch from `top` down to `base` moves irreversibility past `base`. */
  ghost predicate BranchKeepsHistory<O(!new)>(r: Rules<O>, base: Block, top: Block)
    requires Lawful(r)
  {
    forall k :: 0 <= k <= top.Num() ==> Ancestor(top, k).Num() > base.Num() ==> BoundCovers(r, base, Ancestor(top, k))
  }
}
