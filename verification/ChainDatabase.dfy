/** Pushing blocks: extending the head, ignoring a short fork, switching to a longer one, and
    rolling a failed switch back, on top of the undo and fork databases. */
module ChainDatabase {
  import opened UndoLog
  import opened UndoMachine
  import opened Options
  import opened Blocks
  import opened Replay
  import opened ForkDatabase
  import opened Switching
  import opened SwitchOutcomes
  import opened PushedTree
  import U = UndoDatabase

  class ChainDatabase<O(!new)> {
    const rules: Rules<O>
    const undo: U.UndoDatabase<O>
    const fork: ForkDatabase
    /** The head block of each state held by the undo stack. */
    ghost var heads: seq<Block>

    function Head(): Block
      reads undo
    {
      rules.head(undo.store)
    }

    /** Everything but the objects, which are the replay of the head. */
    ghost function Now(): View
      reads this, undo, fork
    {
      View(Head(), heads, undo.maxSize, fork.State())
    }

    ghost predicate Valid()
      reads this, undo, fork
    {
      && Lawful(rules)
      && undo.Valid() && undo.active == 0
      && Filed(fork.State())
      && OnReplay(rules, undo.store, undo.history, heads)
    }

    constructor (r: Rules<O>)
      requires Lawful(r)
      ensures Valid() && rules == r && Now() == Fresh() && undo.store == r.genesis
      ensures fresh(undo) && fresh(fork)
    {
      rules := r;
      undo := new U.UndoDatabase<O>(r.genesis);
      fork := new ForkDatabase();
      heads := [];
    }

    /** Carries out the edits of a script in the session just opened. */
    method Edit(edits: seq<Command<O>>)
      requires undo.Valid() && |undo.stack| >= 1 && forall c <- edits :: IsEdit(c)
      modifies undo
      ensures undo.Valid() && undo.store == EditAll(old(undo.store), edits)
      ensures undo.active == old(undo.active) && undo.maxSize == old(undo.maxSize) && undo.history == old(undo.history)
    {
      for i := 0 to |edits|
        invariant undo.Valid() && |undo.stack| >= 1 && undo.store == EditAll(old(undo.store), edits[..i])
        invariant undo.active == old(undo.active) && undo.maxSize == old(undo.maxSize)
        invariant undo.history == old(undo.history)
      {
        assert edits[..i + 1][..i] == edits[..i];
        assert |undo.history| >= 1;
        EditIsStep(undo.State(), edits[i]);
        match edits[i] {
          case Create(k, v) => var _ := undo.Create(k, v);
          case Modify(id, v) => var _ := undo.Modify(id, v);
          case Remove(id) => var _ := undo.Remove(id);
        }
      }
      assert edits[..|edits|] == edits;
    }

    /** Opens a session and runs a script in it, undo and fork bounds included. */
    method RunScript(script: Script<O>)
      requires Valid() && (forall c <- script.edits :: IsEdit(c))
      modifies undo, fork
      ensures undo.Valid() && undo.active == 1
      ensures undo.store == EditAll(old(undo.store), script.edits)
      ensures undo.history == Prune(old(undo.history), old(undo.maxSize)) + [old(undo.store)]
      ensures undo.maxSize == if script.bound.Some? then script.bound.value else old(undo.maxSize)
      ensures fork.State() ==
        if script.bound.Some? then Resized(old(fork.State()), script.bound.value) else old(fork.State())
    {
      undo.StartSession();
      Edit(script.edits);
      if script.bound.Some? {
        undo.SetMaxSize(script.bound.value);
        fork.SetMaxSize(script.bound.value);
      }
    }

    /** `start_undo_session`, `apply_block`, then `commit`, or `undo` from the session's destructor
        when the block throws. */
    method ApplyBlock(b: Block) returns (ok: bool)
      requires Valid()
      modifies this, undo, fork
      ensures Valid() && Now() == Tried(rules, old(Now()), b)
      ensures ok <==> Parent(old(Head()), b) && Replayed(rules, b).Some?
      ensures ok <==> Applies(rules, old(Now()), b)
    {
      AppliesIffReplays(rules, Now(), b);
      var script := rules.apply(undo.store, b);
      assert LawfulScript(rules, undo.store, b);
      ghost var s, h, hs := undo.store, Prune(undo.history, undo.maxSize), Prune(heads, undo.maxSize);
      PruneKeepsReplay(rules, s, undo.history, heads, undo.maxSize);
      RunScript(script);
      ok := script.ok;
      if ok {
        AppliedBlockReplays(rules, s, b);
        PushKeepsReplay(rules, s, h, hs, undo.store);
        var _ := undo.Commit();
        heads := hs + [rules.head(s)];
      } else {
        Abandon(s, h, hs);
      }
    }

    /** The destructor of a session that was not committed. */
    method Abandon(ghost s: Store<O>, ghost h: seq<Store<O>>, ghost hs: seq<Block>)
      requires Lawful(rules) && undo.Valid() && undo.active == 1 && Filed(fork.State())
      requires undo.history == h + [s] && OnReplay(rules, s, h, hs)
      modifies this, undo
      ensures Valid() && undo.store == s && undo.maxSize == old(undo.maxSize)
      ensures heads == if hs == [] then [rules.head(s)] else hs
    {
      if hs == [] {
        PushKeepsReplay(rules, s, h, hs, s);
      }
      assert undo.history[..|undo.history| - 1] == h;
      undo.DestroySession();
      heads := if hs == [] then [rules.head(s)] else hs;
    }

    /** Removes the head block: first the fork head moves down, then the undo entry is popped. */
    method PopBlock(pinned: seq<Item>) returns (ok: bool, cause: Cause)
      requires Valid()
      modifies this, undo, fork
      ensures Valid()
      ensures PopOne(old(Now()), pinned) == if ok then Popped(Now()) else Stuck(Now(), cause)
    {
      cause := LostParent;
      ok := fork.PopBlock(pinned);
      if ok {
        cause := ShortUndo;
        ok := PopUndo();
      }
    }

    /** `pop_undo`: the state becomes the one before the top entry. */
    method PopUndo() returns (ok: bool)
      requires Valid()
      modifies this, undo
      ensures Valid() && undo.maxSize == old(undo.maxSize)
      ensures ok <==> |old(heads)| >= 1
      ensures ok ==> Head() == old(heads)[|old(heads)| - 1] && heads == old(heads)[..|old(heads)| - 1]
      ensures !ok ==> Head() == old(Head()) && heads == old(heads)
    {
      if |undo.stack| >= 1 {
        PopKeepsReplay(rules, undo.store, undo.history, heads);
      }
      ok := undo.PopEntry();
      if ok {
        heads := heads[..|heads| - 1];
      }
    }

    /** Pops blocks until the head is `target`. */
    method PopTo(target: Block, pinned: seq<Item>) returns (ok: bool, cause: Cause)
      requires Valid()
      modifies this, undo, fork
      ensures Valid()
      ensures PopAll(old(Now()), target, pinned) == if ok then Popped(Now()) else Stuck(Now(), cause)
      ensures ok ==> Head() == target
    {
      cause := ShortUndo;
      while Head() != target
        invariant Valid() && PopAll(Now(), target, pinned) == PopAll(old(Now()), target, pinned)
        decreases |heads|
      {
        ok, cause := PopBlock(pinned);
        if !ok {
          return;
        }
      }
      ok := true;
    }

    /** Applies the blocks of a branch from its lowest up, stopping at the first that throws. */
    method ApplyBranch(a: seq<Item>, top: Block) returns (ok: bool, i: nat)
      requires Valid() && IsBranch(a, top) && Head() == Ancestor(top, |a|)
      modifies this, undo, fork
      ensures Valid() && Now() == TriedBranch(rules, old(Now()), top, |a|)
      ensures ok <==> Replayed(rules, top).Some?
      ensures !ok ==> i < |a| && i == LowestFailing(rules, top)
    {
      ghost var end := TriedBranch(rules, Now(), top, |a|);
      i, ok := |a|, true;
      while ok && i > 0
        invariant Valid() && i <= |a|
        invariant ok ==> Head() == Ancestor(top, i) && TriedBranch(rules, Now(), top, i) == end
        invariant !ok ==> Now() == end && i < |a| && Replayed(rules, top).None? && LowestFailing(rules, top) == i
      {
        i := i - 1;
        assert a[i].block == Ancestor(top, i);
        ok := ApplyNext(a[i].block, top, i);
      }
    }

    /** Tries block `i` of the branch up to `top`. */
    method ApplyNext(b: Block, ghost top: Block, ghost i: nat) returns (ok: bool)
      requires Valid() && i < top.Num() && Head() == Ancestor(top, i + 1) && b == Ancestor(top, i)
      modifies this, undo, fork
      ensures Valid()
      ensures ok ==> Head() == b && TriedBranch(rules, Now(), top, i) == TriedBranch(rules, old(Now()), top, i + 1)
      ensures !ok ==> Now() == TriedBranch(rules, old(Now()), top, i + 1)
      ensures !ok ==> Replayed(rules, top).None? && LowestFailing(rules, top) == i
    {
      TriedStep(rules, Now(), top, i);
      ok := ApplyBlock(b);
    }

    /** What follows a block of the new branch that throws: the rest of that branch is dropped, its
        applied part is popped, and the old branch is applied again. */
    method RollBack(a: seq<Item>, b: seq<Item>, i: nat, oldHead: Block) returns (r: Outcome)
      requires Valid() && i < |a| && |b| >= 1 && IsBranch(b, oldHead) && Replayed(rules, oldHead).Some?
      modifies this, undo, fork
      ensures Valid()
      ensures Sensible(rules, old(Now())) && Result(r, Now()) == RollBackResult(rules, old(Now()), a, b, i, oldHead)
    {
      NowIsSensible();
      DropBranch(a, i);
      fork.SetHead(b[0]);
      BranchEnd(oldHead, |b|);
      var ok, cause := PopTo(b[|b| - 1].block.previous, a + b);
      if !ok {
        return Interrupted(cause);
      }
      var _, _ := ApplyBranch(b, oldHead);
      return Rejected;
    }

    /** The branch switch of `_push_block`, with the roll-back when a block of the new branch throws. */
    method SwitchFork(newHead: Block) returns (r: Outcome)
      requires Valid() && newHead.Block? && Head().Block?
      modifies this, undo, fork
      ensures Valid()
      ensures Sensible(rules, old(Now())) && Result(r, Now()) == SwitchResult(rules, old(Now()), newHead)
    {
      NowIsSensible();
      var oldHead := Head();
      ghost var v := Now();
      var found, a, b := fork.FetchBranchFrom(newHead, oldHead);
      if !found {
        return Rejected;
      }
      FetchedIsBranch(v.forks, a, newHead, newHead, oldHead);
      FetchedIsBranch(v.forks, b, oldHead, newHead, oldHead);
      r := SwitchBetween(a, b, newHead);
    }

    /** The switch once both branches have been fetched. */
    method SwitchBetween(a: seq<Item>, b: seq<Item>, newHead: Block) returns (r: Outcome)
      requires Valid() && newHead.Block? && Head().Block? && Fetchable(fork.State(), newHead, Head())
      requires a == NewBranch(Now(), newHead) && b == OldBranch(Now(), newHead)
      requires IsBranch(a, newHead) && IsBranch(b, Head())
      modifies this, undo, fork
      ensures Valid()
      ensures Sensible(rules, old(Now())) && Result(r, Now()) == SwitchResult(rules, old(Now()), newHead)
    {
      NowIsSensible();
      var oldHead := Head();
      SplitIsBelowBoth(newHead, oldHead);
      BranchEnd(oldHead, |b|);
      var ok, cause := PopTo(b[|b| - 1].block.previous, a + b);
      if !ok {
        return Interrupted(cause);
      }
      var i: nat;
      ok, i := ApplyBranch(a, newHead);
      if ok {
        return Switched;
      }
      r := RollBack(a, b, i, oldHead);
    }

    lemma NowIsSensible()
      requires Valid()
      ensures Sensible(rules, Now())
    {
      forall i | 0 <= i < |heads| ensures Replayed(rules, heads[i]).Some? {
        assert HoldsReplay(rules, undo.history, heads, Head(), i);
      }
    }

    /** The session in which listeners are told: nothing is edited, and it merges into the block. */
    method Notify()
      requires Valid() && |heads| >= 1 && undo.maxSize >= 1
      modifies this, undo
      ensures Valid() && undo.store == old(undo.store) && undo.maxSize == old(undo.maxSize)
      ensures heads == Prune(old(heads), undo.maxSize)
    {
      PruneKeepsReplay(rules, undo.store, undo.history, heads, undo.maxSize);
      ghost var h := Prune(undo.history, undo.maxSize);
      ghost var hs := Prune(heads, undo.maxSize);
      undo.StartSession();
      assert undo.history == h + [undo.store];
      var _ := undo.Merge();
      heads := hs;
    }

    /** Removes the failed block and everything above it on its branch from the fork database. */
    method DropBranch(a: seq<Item>, i: nat)
      requires Valid() && i < |a|
      modifies fork
      ensures Valid() && fork.State() == old(fork.State()).(index := old(fork.index) - BlocksOf(a[..i + 1]))
    {
      var j: nat := i + 1;
      while j > 0
        invariant Valid() && j <= i + 1
        invariant fork.State() == old(fork.State()).(index := old(fork.index) - BlocksOf(a[j..i + 1]))
      {
        j := j - 1;
        OneMoreBlock(a, j, i + 1);
        fork.RemoveBlock(a[j].block);
      }
    }

    /** `_push_block`: a block that extends the head is applied, a fork head that is higher is switched
        to, and anything else is ignored or refused. */
    method PushOnto(b: Block, skipForkDb: bool) returns (r: Outcome)
      requires Valid() && b.Block?
      modifies this, undo, fork
      ensures Valid()
      ensures Sensible(rules, old(Now())) && Result(r, Now()) == PushResult(rules, old(Now()), b, skipForkDb)
    {
      NowIsSensible();
      if !skipForkDb {
        var it := fork.PushBlock(b);
        if it.None? {
          return Rejected;
        }
        if it.value.block.Root? || it.value.block.previous != Head() {
          if it.value.block.Num() <= Head().Num() {
            return Ignored;
          }
          if Head().Root? {
            return Rejected;
          }
          r := SwitchFork(it.value.block);
          return r;
        }
      }
      r := Extend(b);
    }

    /** `push_block`. Whatever happens the object state stays the replay of the path to the head; a block
        that is ignored or refused leaves head and objects as before, and the fork tree keeps what it
        held but for the blocks refused and those trimmed. */
    method PushBlock(b: Block, skipForkDb: bool) returns (r: Outcome)
      requires Valid() && b.Block?
      modifies this, undo, fork
      ensures Valid()
      ensures Sensible(rules, old(Now())) && Result(r, Now()) == PushResult(rules, old(Now()), b, skipForkDb)
      ensures r.Extended? ==> Head() == b && b.previous == old(Head())
      ensures r.Switched? ==> Head().Num() > old(Head()).Num()
      ensures r.Ignored? || r.Rejected? ==> Head() == old(Head()) && undo.store == old(undo.store)
      ensures skipForkDb ==> r.Extended? || r.Rejected?
      ensures Direct(old(Now()), b, skipForkDb) && r.Rejected? ==> b !in fork.index
      ensures !skipForkDb && !Accepts(old(fork.State()), b) ==> r.Rejected? && fork.State() == old(fork.State())
      ensures !skipForkDb && Accepts(old(fork.State()), b) ==>
        exists h :: Leaves(fork.State(), old(fork.State()), {b}, Refused(rules, old(Now()), b, false), h)
    {
      NowIsSensible();
      PushOutcomeIff(rules, Now(), b, skipForkDb);
      PushTree(b, skipForkDb);
      r := PushOnto(b, skipForkDb);
    }

    /** What the push is going to leave in the fork tree. */
    lemma PushTree(b: Block, skipForkDb: bool)
      requires Valid() && b.Block? && Sensible(rules, Now())
      ensures var t := PushResult(rules, Now(), b, skipForkDb);
        && (Direct(Now(), b, skipForkDb) && t.outcome.Rejected? ==> b !in t.view.forks.index)
        && (!skipForkDb && Accepts(fork.State(), b) ==>
            exists h :: Leaves(t.view.forks, fork.State(), {b}, Refused(rules, Now(), b, false), h))
    {
      PushOutcomeIff(rules, Now(), b, skipForkDb);
      if Direct(Now(), b, skipForkDb) && !(Parent(Head(), b) && Replayed(rules, b).Some?) {
        RefusedBlockIsGone(rules, Now(), b, skipForkDb);
      }
      if !skipForkDb && Accepts(fork.State(), b) {
        var h := PushLeaves(rules, Now(), b);
      }
    }

    /** A block that goes straight onto the head, or is refused. */
    method Extend(b: Block) returns (r: Outcome)
      requires Valid()
      modifies this, undo, fork
      ensures Valid()
      ensures Sensible(rules, old(Now())) && Result(r, Now()) == ExtendResult(rules, old(Now()), b)
    {
      NowIsSensible();
      assert LawfulScript(rules, undo.store, b);
      var ok := ApplyBlock(b);
      if !ok {
        fork.RemoveBlock(b);
        return Rejected;
      }
      Notify();
      return Extended;
    }
  }

  lemma {:induction false} FetchedIsBranch(f: Forks, path: seq<Item>, x: Block, a: Block, b: Block)
    requires a.Block? && b.Block? && x.Num() >= SplitHeight(a, b) && IsFetched(f, path, x, SplitHeight(a, b))
    ensures Reaches(f, f.index[x], Length(x, a, b) - 1) && Branch(f, x, a, b) == path
  {
    LinkedIsPath(f, path, Length(x, a, b) - 1);
  }

  lemma OneMoreBlock(a: seq<Item>, j: nat, n: nat)
    requires j < n <= |a|
    ensures BlocksOf(a[j..n]) == BlocksOf(a[j + 1..n]) + {a[j].block}
  {
    var rest := a[j + 1..n];
    assert a[j..n] == [a[j]] + rest;
    forall k | 0 <= k < |rest| ensures rest[k].block in BlocksOf(a[j..n]) {
      assert a[j..n][k + 1] == rest[k];
    }
    assert a[j..n][0] == a[j];
  }

  /** One block of a branch: the rest of the branch follows, or it is the lowest that throws. */
  lemma {:induction false} TriedStep<O(!new)>(r: Rules<O>, v: View, top: Block, i: nat)
    requires Lawful(r) && Replayed(r, v.head).Some? && i < top.Num() && v.head == Ancestor(top, i + 1)
    ensures var b, w := Ancestor(top, i), Tried(r, v, Ancestor(top, i));
      && Parent(v.head, b)
      && (Replayed(r, b).Some? ==> w.head == b && TriedBranch(r, v, top, i + 1) == TriedBranch(r, w, top, i))
      && (Replayed(r, b).None? ==>
          TriedBranch(r, v, top, i + 1) == w && Replayed(r, top).None? && LowestFailing(r, top) == i)
  {
    AncestorStep(top, i);
    AppliesIffReplays(r, v, Ancestor(top, i));
    if Replayed(r, Ancestor(top, i)).None? {
      FailingIsUnique(r, top, i);
    }
  }

  lemma {:induction false} BranchEnd(top: Block, n: nat)
    requires 1 <= n <= top.Num()
    ensures Ancestor(top, n - 1).Block? && Ancestor(top, n - 1).previous == Ancestor(top, n)
  {
    AncestorStep(top, n - 1);
  }

  /** Running an edit on the machine edits its store alike, and opens no entry on a non-empty stack. */
  lemma EditIsStep<O(!new)>(d: Db<O>, c: Command<O>)
    requires IsEdit(c) && |d.stack| >= 1
    ensures Step(d, c).store == EditStore(d.store, c)
    ensures |Step(d, c).stack| == |d.stack| && Step(d, c).active == d.active && Step(d, c).maxSize == d.maxSize
  {
    if c.Remove? && c.id !in d.store.objects {
      assert d.store.objects - {c.id} == d.store.objects;
    }
  }
}
