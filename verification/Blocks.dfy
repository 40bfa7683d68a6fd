/** Blocks, identified by what they hash: a block id commits to the previous id and to the content,
    and hash collisions are ruled out by taking that pair as the id itself. */
module Blocks {
  /** `Root` is the null id that the first block names as its predecessor. */
  datatype Block = Root | Block(previous: Block, content: nat) {
    /** `num_from_id`, and so `block_num()` of a proper block. */
    function Num(): (n: nat)
      ensures n == 0 <==> Root?
    {
      if Root? then 0 else previous.Num() + 1
    }
  }

  function Ancestor(b: Block, k: nat): (r: Block)
    requires k <= b.Num()
    ensures r.Num() == b.Num() - k
    decreases k
  {
    if k == 0 then b else Ancestor(b.previous, k - 1)
  }

  lemma {:induction false} AncestorStep(b: Block, k: nat)
    requires k < b.Num()
    ensures Ancestor(b, k).Block? && Ancestor(b, k).previous == Ancestor(b, k + 1)
    decreases k
  {
    if k > 0 {
      AncestorStep(b.previous, k - 1);
    }
  }

  lemma {:induction false} AncestorCompose(b: Block, j: nat, k: nat)
    requires j + k <= b.Num()
    ensures Ancestor(Ancestor(b, j), k) == Ancestor(b, j + k)
    decreases j
  {
    if j > 0 {
      AncestorCompose(b.previous, j - 1, k);
    }
  }

  /** The height at which two branches first share a predecessor, walking down from both. */
  function SplitHeight(a: Block, b: Block): (h: nat)
    requires a.Block? && b.Block?
    ensures 1 <= h <= a.Num() && h <= b.Num()
    decreases a.Num() + b.Num()
  {
    if a.Num() > b.Num() then SplitHeight(a.previous, b)
    else if b.Num() > a.Num() then SplitHeight(a, b.previous)
    else if a.previous == b.previous then a.Num()
    else SplitHeight(a.previous, b.previous)
  }

  function AtHeight(b: Block, h: nat): Block
    requires h <= b.Num()
  {
    Ancestor(b, b.Num() - h)
  }

  lemma BelowTop(b: Block, h: nat)
    requires h < b.Num()
    ensures b.Block? && AtHeight(b, h) == AtHeight(b.previous, h)
  {
  }

  lemma {:induction false} SplitHasOnePredecessor(a: Block, b: Block)
    requires a.Block? && b.Block?
    ensures var s := SplitHeight(a, b); AtHeight(a, s).previous == AtHeight(b, s).previous
    decreases a.Num() + b.Num()
  {
    var s := SplitHeight(a, b);
    if a.Num() > b.Num() {
      SplitHasOnePredecessor(a.previous, b);
      BelowTop(a, s);
    } else if b.Num() > a.Num() {
      SplitHasOnePredecessor(a, b.previous);
      BelowTop(b, s);
    } else if a.previous != b.previous {
      SplitHasOnePredecessor(a.previous, b.previous);
      BelowTop(a, s);
      BelowTop(b, s);
    }
  }

  lemma {:induction false} NoPredecessorAboveSplit(a: Block, b: Block, h: nat)
    requires a.Block? && b.Block? && SplitHeight(a, b) < h <= a.Num() && h <= b.Num()
    ensures AtHeight(a, h).previous != AtHeight(b, h).previous
    decreases a.Num() + b.Num()
  {
    if a.Num() > b.Num() {
      NoPredecessorAboveSplit(a.previous, b, h);
      BelowTop(a, h);
    } else if b.Num() > a.Num() {
      NoPredecessorAboveSplit(a, b.previous, h);
      BelowTop(b, h);
    } else if h < a.Num() {
      NoPredecessorAboveSplit(a.previous, b.previous, h);
      BelowTop(a, h);
      BelowTop(b, h);
    }
  }

  /** `SplitHeight` is the greatest height at which the two branches have the same predecessor. */
  lemma SplitHeightIsHighest(a: Block, b: Block, h: nat)
    requires a.Block? && b.Block? && 1 <= h <= a.Num() && h <= b.Num()
    ensures var s := SplitHeight(a, b); AtHeight(a, s).previous == AtHeight(b, s).previous
    ensures h > SplitHeight(a, b) ==> AtHeight(a, h).previous != AtHeight(b, h).previous
  {
    SplitHasOnePredecessor(a, b);
    if h > SplitHeight(a, b) {
      NoPredecessorAboveSplit(a, b, h);
    }
  }
}
