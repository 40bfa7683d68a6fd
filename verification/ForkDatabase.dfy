/** The fork database: a bounded tree of recent blocks, its head, and the walk that finds where
    two branches split. */
module ForkDatabase {
  import opened Options
  import opened Blocks

  /** A `fork_item`. The weak pointer to its parent is the serial number of the parent item, so a
      block that was erased and pushed again is not mistaken for the item first pointed to. */
  datatype Item = Item(block: Block, serial: nat, parent: Option<nat>)

  datatype Forks = Forks(index: map<Block, Item>, head: Option<Item>, maxSize: nat, serials: nat)

  /** `prev.lock()`: the parent item if the index, the head or a pinned item still holds it. */
  function Lock(f: Forks, pinned: seq<Item>, it: Item): (r: Option<Item>)
    ensures r.Some? ==> it.block.Block? && r.value.block == it.block.previous
  {
    if it.block.Root? || it.parent.None? then None
    else
      var p := it.block.previous;
      if p in f.index && f.index[p].block == p && f.index[p].serial == it.parent.value then Some(f.index[p])
      else if f.head.Some? && f.head.value.block == p && f.head.value.serial == it.parent.value then f.head
      else FindPinned(pinned, p, it.parent.value)
  }

  function FindPinned(pinned: seq<Item>, b: Block, serial: nat): (r: Option<Item>)
    ensures r.Some? ==> r.value.block == b
  {
    if pinned == [] then None
    else if pinned[0].block == b && pinned[0].serial == serial then Some(pinned[0])
    else FindPinned(pinned[1..], b, serial)
  }

  /** Every indexed item is filed under its own block. */
  ghost predicate Filed(f: Forks) {
    forall b <- f.index :: f.index[b].block == b && b.Block? && f.index[b].serial < f.serials
  }

  function Oldest(f: Forks): nat
    requires f.head.Some?
  {
    var n := f.head.value.block.Num();
    if n >= f.maxSize then n - f.maxSize else 0
  }

  /** Nothing indexed lies more than `max_size` below the head. */
  ghost predicate InRange(f: Forks) {
    f.head.Some? ==> forall b <- f.index :: b.Num() >= Oldest(f)
  }

  /** The head is the highest block, and among the highest the one seen first. */
  ghost predicate HeadIsFirstHighest(f: Forks) {
    f.head.Some? ==>
      && f.head.value.block in f.index && f.index[f.head.value.block] == f.head.value
      && forall b <- f.index ::
        && b.Num() <= f.head.value.block.Num()
        && (b.Num() == f.head.value.block.Num() ==> f.head.value.serial <= f.index[b].serial)
  }

  // ---------------------------------------------------------------- operations as functions

  function Trimmed(f: Forks): Forks {
    if f.head.None? then f else f.(index := map b | b in f.index && b.Num() >= Oldest(f) :: f.index[b])
  }

  predicate Accepts(f: Forks, b: Block) {
    && b.Block?
    && (f.head.Some? ==> b.Num() > Oldest(f) && (b.previous == Root || b.previous in f.index))
  }

  /** `_push_block` for a block that passes its two checks. */
  function Pushed(f: Forks, b: Block): Forks
    requires Accepts(f, b)
  {
    var parent := if f.head.Some? && b.previous != Root then Some(f.index[b.previous].serial) else None;
    var item := Item(b, f.serials, parent);
    var f1 := f.(index := if b in f.index then f.index else f.index[b := item], serials := f.serials + 1);
    if f.head.None? then f1.(head := Some(item))
    else if b.Num() > f.head.value.block.Num() then Trimmed(f1.(head := Some(item)))
    else f1
  }

  function Resized(f: Forks, n: nat): Forks {
    Trimmed(f.(maxSize := n))
  }

  /** The item is still alive: the index, the fork head or a pinned branch holds it. */
  ghost predicate Alive(f: Forks, pinned: seq<Item>, it: Item) {
    (it.block in f.index && f.index[it.block] == it) || f.head == Some(it) || it in pinned
  }

  /** A parent is locked exactly while it is alive: the item pointed to, not another one of the same block. */
  lemma LockFindsParent(f: Forks, pinned: seq<Item>, it: Item)
    ensures var p := Lock(f, pinned, it);
      p.Some? ==>
        && it.block.Block? && it.parent == Some(p.value.serial) && p.value.block == it.block.previous
        && Alive(f, pinned, p.value)
    ensures Lock(f, pinned, it).None? ==>
      forall p :: Alive(f, pinned, p) ==>
        !(it.block.Block? && it.parent == Some(p.serial) && p.block == it.block.previous)
  {
    if it.block.Block? && it.parent.Some? {
      PinnedFound(pinned, it.block.previous, it.parent.value);
    }
  }

  lemma {:induction false} PinnedFound(pinned: seq<Item>, b: Block, serial: nat)
    ensures var p := FindPinned(pinned, b, serial); p.Some? ==> p.value in pinned && p.value.serial == serial
    ensures FindPinned(pinned, b, serial).None? ==>
      forall p :: p in pinned ==> !(p.block == b && p.serial == serial)
  {
    if pinned != [] {
      PinnedFound(pinned[1..], b, serial);
      assert pinned == [pinned[0]] + pinned[1..];
    }
  }

  /** A block is accepted exactly when it is less than `max_size` below the head and follows the null id or an
      indexed block. */
  lemma AcceptsIff(f: Forks, b: Block)
    ensures Accepts(f, b) <==>
      && b.Block?
      && (f.head.Some? ==>
          b.Num() + f.maxSize > f.head.value.block.Num() && (b.previous == Root || b.previous in f.index))
  {
  }

  /** A push adds the block, unless it is indexed already, and moves the head only to a higher block, dropping then
      what lies more than `max_size` below it. */
  lemma PushedIs(f: Forks, b: Block)
    requires Accepts(f, b)
    ensures var g := Pushed(f, b); var higher := f.head.Some? && b.Num() > f.head.value.block.Num();
      && (forall x :: x in g.index <==> (x in f.index || x == b) && (higher ==> x.Num() + f.maxSize >= b.Num()))
      && (forall x <- g.index :: if x in f.index then g.index[x] == f.index[x] else g.index[x].serial == f.serials)
      && (f.head.None? || higher ==> g.head.Some? && g.head.value.block == b && g.head.value.serial == f.serials)
      && (f.head.Some? && !higher ==> g.head == f.head)
      && g.maxSize == f.maxSize && g.serials == f.serials + 1
  {
  }

  /** The new item points to its parent as it is indexed. */
  lemma PushedIsLinked(f: Forks, b: Block)
    requires Accepts(f, b) && Filed(f) && f.head.Some? && b !in f.index && b.previous != Root
    requires b in Pushed(f, b).index && b.previous in Pushed(f, b).index
    ensures Lock(Pushed(f, b), [], Pushed(f, b).index[b]) == Some(f.index[b.previous])
  {
  }

  /** A resize keeps exactly what lies at most the new bound below the head. */
  lemma ResizedIs(f: Forks, n: nat)
    ensures var g := Resized(f, n);
      && (forall x :: x in g.index <==> x in f.index && (f.head.Some? ==> x.Num() + n >= f.head.value.block.Num()))
      && (forall x <- g.index :: g.index[x] == f.index[x])
      && g.head == f.head && g.maxSize == n && g.serials == f.serials
  {
  }

  lemma PushKeepsInvariants(f: Forks, b: Block)
    requires Accepts(f, b) && Filed(f) && InRange(f) && (f.head.None? ==> f.index == map[])
    ensures Filed(Pushed(f, b)) && InRange(Pushed(f, b)) && Pushed(f, b).head.Some?
  {
  }

  lemma ResizeKeepsInvariants(f: Forks, n: nat)
    requires Filed(f)
    ensures Filed(Resized(f, n)) && InRange(Resized(f, n)) && Resized(f, n).head == f.head
    ensures HeadIsFirstHighest(f) ==> HeadIsFirstHighest(Resized(f, n))
  {
  }

  lemma PushKeepsFirstHighest(f: Forks, b: Block)
    requires Accepts(f, b) && Filed(f) && HeadIsFirstHighest(f) && (f.head.None? ==> f.index == map[])
    requires b !in f.index
    ensures HeadIsFirstHighest(Pushed(f, b))
  {
  }

  /** Runs of pushes and resizes only. */
  datatype Event = Push(block: Block) | Resize(size: nat)

  function StepForks(f: Forks, e: Event): Forks {
    match e
    case Push(b) => if Accepts(f, b) then Pushed(f, b) else f
    case Resize(n) => Resized(f, n)
  }

  function RunForks(f: Forks, es: seq<Event>): Forks
    decreases |es|
  {
    if es == [] then f else RunForks(StepForks(f, es[0]), es[1..])
  }

  ghost predicate Healthy(f: Forks) {
    && Filed(f) && InRange(f) && HeadIsFirstHighest(f)
    && (f.head.None? ==> f.index == map[])
  }

  lemma StepKeepsHealthy(f: Forks, e: Event)
    requires Healthy(f)
    ensures Healthy(StepForks(f, e))
  {
    match e {
      case Push(b) =>
        if Accepts(f, b) {
          PushKeepsInvariants(f, b);
          if b !in f.index {
            PushKeepsFirstHighest(f, b);
          }
        }
      case Resize(n) => ResizeKeepsInvariants(f, n);
    }
  }

  /** However blocks are pushed and the bound moved, every indexed block stays within `max_size` of
      the head, and the head is the first-seen highest block. */
  lemma {:induction false} PushesKeepTheForkTree(f: Forks, es: seq<Event>)
    requires Healthy(f)
    ensures Healthy(RunForks(f, es))
    decreases |es|
  {
    if es != [] {
      StepKeepsHealthy(f, es[0]);
      PushesKeepTheForkTree(StepForks(f, es[0]), es[1..]);
    }
  }

  // ---------------------------------------------------------------- branches

  /** Parent-linked items going down from `from`. */
  ghost predicate IsBranch(s: seq<Item>, from: Block) {
    && |s| <= from.Num()
    && forall i :: 0 <= i < |s| ==> s[i].block == Ancestor(from, i)
  }

  /** Each item of the path is the locked parent of the one before it. */
  ghost predicate Linked(f: Forks, s: seq<Item>) {
    forall i :: 0 <= i < |s| - 1 ==> Lock(f, [], s[i]) == Some(s[i + 1])
  }

  /** The parents of `it` can be locked `k` times over. */
  predicate Reaches(f: Forks, it: Item, k: nat)
    decreases k
  {
    k == 0 || (Lock(f, [], it).Some? && Reaches(f, Lock(f, [], it).value, k - 1))
  }

  class ForkDatabase {
    var index: map<Block, Item>
    var head: Option<Item>
    var maxSize: nat
    var serials: nat

    function State(): Forks
      reads this
    {
      Forks(index, head, maxSize, serials)
    }

    constructor ()
      ensures State() == Forks(map[], None, 1024, 0)
    {
      index, head, maxSize, serials := map[], None, 1024, 0;
    }

    /** Erases the lowest blocks while they lie below `min`. */
    method Trim(min: nat)
      modifies this`index
      ensures index == map b | b in old(index) && b.Num() >= min :: old(index)[b]
    {
      var todo := set b | b in index && b.Num() < min;
      assert index == map b | b in old(index) && (b.Num() >= min || b in todo) :: old(index)[b];
      while todo != {}
        invariant forall b <- todo :: b in old(index) && b.Num() < min
        invariant index == map b | b in old(index) && (b.Num() >= min || b in todo) :: old(index)[b]
      {
        var b :| b in todo;
        index := index - {b};
        todo := todo - {b};
      }
    }

    /** Pushing either throws and changes nothing, or does what `Pushed` says; it answers the head. */
    method PushBlock(b: Block) returns (r: Option<Item>)
      requires b.Block?
      modifies this
      ensures r.None? <==> !Accepts(old(State()), b)
      ensures r.None? ==> State() == old(State())
      ensures r.Some? ==> State() == Pushed(old(State()), b) && r == head
    {
      if head.Some? && b.Num() <= (if head.value.block.Num() >= maxSize then head.value.block.Num() - maxSize else 0) {
        return None;
      }
      var parent := None;
      if head.Some? && b.previous != Root {
        if b.previous !in index {
          return None;
        }
        parent := Some(index[b.previous].serial);
      }
      var item := Item(b, serials, parent);
      serials := serials + 1;
      if b !in index {
        index := index[b := item];
      }
      if head.None? {
        head := Some(item);
      } else if b.Num() > head.value.block.Num() {
        head := Some(item);
        var n := b.Num();
        Trim(n - (if maxSize < n then maxSize else n));
      }
      r := head;
    }

    method SetMaxSize(n: nat)
      modifies this
      ensures State() == Resized(old(State()), n)
    {
      maxSize := n;
      if head.Some? {
        var h := head.value.block.Num();
        Trim(if h >= n then h - n else 0);
      }
    }

    /** Moves the head to its parent; throws when the parent is gone. */
    method PopBlock(pinned: seq<Item>) returns (ok: bool)
      modifies this`head
      ensures ok <==> old(head).Some? && Lock(old(State()), pinned, old(head).value).Some?
      ensures ok ==> head == Lock(old(State()), pinned, old(head).value)
      ensures !ok ==> head == old(head)
    {
      if head.None? {
        return false;
      }
      var p := Lock(State(), pinned, head.value);
      ok := p.Some?;
      if ok {
        head := p;
      }
    }

    method RemoveBlock(b: Block)
      modifies this`index
      ensures index == old(index) - {b}
    {
      index := index - {b};
    }

    method SetHead(it: Item)
      modifies this`head
      ensures head == Some(it)
    {
      head := Some(it);
    }

    /** Walks both branches down to where they share a predecessor. It answers the two complete
        parent-linked paths down to the split height, and throws exactly when a block is not
        indexed or a parent on the way has been erased. */
    method FetchBranchFrom(first: Block, second: Block) returns (ok: bool, a: seq<Item>, b: seq<Item>)
      requires first.Block? && second.Block? && Filed(State())
      ensures ok <==>
        && first in index && second in index
        && Reaches(State(), index[first], first.Num() - SplitHeight(first, second))
        && Reaches(State(), index[second], second.Num() - SplitHeight(first, second))
      ensures ok ==> IsFetched(State(), a, first, SplitHeight(first, second))
      ensures ok ==> IsFetched(State(), b, second, SplitHeight(first, second))
    {
      ok, a, b := false, [], [];
      if first !in index || second !in index {
        return;
      }
      var x, y := index[first], index[second];
      ghost var h := SplitHeight(first, second);
      ok, a, x := Descend(first, second.Num(), h);
      if !ok {
        return;
      }
      ok, b, y := Descend(second, first.Num(), h);
      if ok {
        LoweredSplit(first, second, x.block, y.block);
        ok, a, b := DescendBoth(first, second, a, b, x, y, h);
      }
    }

    /** One of the two loops that bring the higher branch down to the height of the other. */
    method Descend(from: Block, level: nat, ghost h: nat) returns (ok: bool, path: seq<Item>, x: Item)
      requires Filed(State()) && from in index && level >= h && 1 <= h <= from.Num()
      ensures !ok ==> !Reaches(State(), index[from], from.Num() - h)
      ensures ok ==> Walking(State(), from, path, x, h)
      ensures ok ==> x.block.Num() == if from.Num() > level then level else from.Num()
    {
      ok, path, x := true, [], index[from];
      while x.block.Num() > level
        invariant Walking(State(), from, path, x, h)
        invariant from.Num() <= level ==> x.block.Num() == from.Num()
        invariant from.Num() > level ==> x.block.Num() >= level
        decreases x.block.Num()
      {
        path := path + [x];
        var p := Lock(State(), [], x);
        if p.None? {
          return false, path, x;
        }
        StepDown(State(), from, path, x, h);
        x := p.value;
      }
    }

    /** The loop that brings both branches down together until they share a predecessor. */
    method DescendBoth(first: Block, second: Block, a0: seq<Item>, b0: seq<Item>, x0: Item, y0: Item, ghost h: nat)
      returns (ok: bool, a: seq<Item>, b: seq<Item>)
      requires x0.block.Block? && y0.block.Block? && x0.block.Num() == y0.block.Num()
      requires SplitHeight(x0.block, y0.block) == h
      requires Walking(State(), first, a0, x0, h) && Walking(State(), second, b0, y0, h)
      ensures ok <==>
        Reaches(State(), index[first], first.Num() - h) && Reaches(State(), index[second], second.Num() - h)
      ensures ok ==> IsFetched(State(), a, first, h) && IsFetched(State(), b, second, h)
    {
      ghost var f := State();
      ok, a, b := false, a0, b0;
      var x, y := x0, y0;
      while x.block.previous != y.block.previous
        invariant Walking(f, first, a, x, h) && Walking(f, second, b, y, h)
        invariant x.block.Block? && y.block.Block?
        invariant SplitHeight(x.block, y.block) == h && x.block.Num() == y.block.Num()
        decreases y.block.Num()
      {
        a := a + [x];
        b := b + [y];
        var p, q := Lock(State(), [], x), Lock(State(), [], y);
        if p.None? || q.None? {
          return;
        }
        StepDown(f, first, a, x, h);
        StepDown(f, second, b, y, h);
        x, y := p.value, q.value;
      }
      EndOfWalk(f, first, a, x, h);
      EndOfWalk(f, second, b, y, h);
      ok, a, b := true, a + [x], b + [y];
    }
  }

  /** Bringing the higher of two blocks down to the other's height does not move the split. */
  lemma {:induction false} SplitOfLower(a: Block, b: Block)
    requires a.Block? && b.Block?
    ensures a.Num() >= b.Num() ==> SplitHeight(AtHeight(a, b.Num()), b) == SplitHeight(a, b)
    ensures b.Num() >= a.Num() ==> SplitHeight(a, AtHeight(b, a.Num())) == SplitHeight(a, b)
    decreases a.Num() + b.Num()
  {
    if a.Num() > b.Num() {
      SplitOfLower(a.previous, b);
    } else if b.Num() > a.Num() {
      SplitOfLower(a, b.previous);
    }
  }

  lemma {:induction false} LoweredSplit(a: Block, b: Block, x: Block, y: Block)
    requires a.Block? && b.Block? && x.Num() <= a.Num() && y.Num() <= b.Num()
    requires x.Num() == (if a.Num() > b.Num() then b.Num() else a.Num()) == y.Num()
    requires x == AtHeight(a, x.Num()) && y == AtHeight(b, y.Num())
    ensures x.Block? && y.Block? && SplitHeight(x, y) == SplitHeight(a, b)
  {
    SplitOfLower(a, b);
  }

  /** The complete path from the indexed item of `from` down to height `h`. */
  ghost predicate IsFetched(f: Forks, path: seq<Item>, from: Block, h: nat) {
    && from in f.index && 1 <= h <= from.Num()
    && IsBranch(path, from) && |path| == from.Num() - h + 1
    && Linked(f, path) && path[0] == f.index[from]
  }

  /** State of one side of the walk: `path` was pushed, `x` comes next. */
  ghost predicate Walking(f: Forks, from: Block, path: seq<Item>, x: Item, h: nat) {
    && from in f.index && 1 <= h <= x.block.Num()
    && |path| == from.Num() - x.block.Num()
    && IsBranch(path, from) && x.block == Ancestor(from, |path|)
    && Linked(f, path + [x]) && (path + [x])[0] == f.index[from]
    && (Reaches(f, f.index[from], from.Num() - h) <==> Reaches(f, x, x.block.Num() - h))
  }

  lemma StepDown(f: Forks, from: Block, path: seq<Item>, x: Item, h: nat)
    requires |path| >= 1 && path[|path| - 1] == x && Walking(f, from, path[..|path| - 1], x, h)
    requires Lock(f, [], x).Some? && h < x.block.Num()
    ensures Walking(f, from, path, Lock(f, [], x).value, h)
  {
    AncestorStep(from, |path| - 1);
    var next := Lock(f, [], x).value;
    assert path == path[..|path| - 1] + [x];
    forall i | 0 <= i < |path|
      ensures Lock(f, [], (path + [next])[i]) == Some((path + [next])[i + 1])
    {
      if i < |path| - 1 {
        assert Lock(f, [], (path[..|path| - 1] + [x])[i]) == Some((path[..|path| - 1] + [x])[i + 1]);
      }
    }
    forall i | 0 <= i < |path|
      ensures path[i].block == Ancestor(from, i)
    {
      if i < |path| - 1 {
        assert path[..|path| - 1][i].block == Ancestor(from, i);
      }
    }
  }

  lemma EndOfWalk(f: Forks, from: Block, path: seq<Item>, x: Item, h: nat)
    requires Walking(f, from, path, x, h) && x.block.Num() == h
    ensures IsFetched(f, path + [x], from, h)
    ensures Reaches(f, f.index[from], from.Num() - h)
  {
  }
}
