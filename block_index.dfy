module BlockIndex {

  /** The block that dense index `r` falls in when blocks have size `bs`
      (that is, `r / bs`), counted by repeated subtraction. */
  function BlockOf(r: nat, bs: nat): nat
    requires bs > 0
    decreases r
  {
    if r < bs then 0 else 1 + BlockOf(r - bs, bs)
  }

  /** The offset of dense index `r` inside its block (that is, `r % bs`). */
  function OffsetOf(r: nat, bs: nat): nat
    requires bs > 0
    decreases r
  {
    if r < bs then r else OffsetOf(r - bs, bs)
  }

  /** Index `i * bs + p` with `p < bs` is offset `p` of block `i`. */
  lemma {:induction false} Split(i: nat, p: nat, bs: nat)
    requires p < bs
    ensures BlockOf(i * bs + p, bs) == i && OffsetOf(i * bs + p, bs) == p
  {
    if i > 0 {
      assert i * bs + p - bs == (i - 1) * bs + p;
      Split(i - 1, p, bs);
    }
  }

  /** A dense index below `blocks * bs` lies in one of the first `blocks`
      blocks, and is recovered from its block and offset. */
  lemma {:induction false} Bound(r: nat, bs: nat, blocks: nat)
    requires r < blocks * bs
    ensures bs > 0 && BlockOf(r, bs) < blocks && OffsetOf(r, bs) < bs
    ensures r == BlockOf(r, bs) * bs + OffsetOf(r, bs)
    decreases r
  {
    if r >= bs {
      assert r - bs < (blocks - 1) * bs;
      Bound(r - bs, bs, blocks - 1);
    }
  }

  /** The bounds of `Bound` without the recomposition, for proofs that only
      need to index with the block and the offset. */
  lemma Locate(r: nat, bs: nat, blocks: nat)
    requires r < blocks * bs
    ensures bs > 0 && BlockOf(r, bs) < blocks && OffsetOf(r, bs) < bs
  {
    Bound(r, bs, blocks);
  }

  lemma MulAtLeast(x: int, bs: nat)
    requires x >= 1
    ensures x * bs >= bs
  {
  }

  /** The last index of block `i` is still inside the first `blocks` blocks. */
  lemma Inside(i: nat, p: nat, bs: nat, blocks: nat)
    requires i < blocks && p < bs
    ensures i * bs + p < blocks * bs
  {
    MulAtLeast(blocks - i, bs);
    assert blocks * bs == i * bs + (blocks - i) * bs;
  }

  /** Moving one dense index on either moves one offset on inside the block
      or starts the next block. */
  lemma {:induction false} Succ(t: nat, bs: nat)
    requires bs > 0
    ensures OffsetOf(t + 1, bs) == if OffsetOf(t, bs) + 1 < bs then OffsetOf(t, bs) + 1 else 0
    ensures BlockOf(t + 1, bs) == if OffsetOf(t, bs) + 1 < bs then BlockOf(t, bs) else BlockOf(t, bs) + 1
    decreases t
  {
    if t >= bs {
      Succ(t - bs, bs);
    }
  }

  /** The number of blocks `k` whose offset-`p` index `k * bs + p` lies below `t`. */
  function CountBefore(t: nat, p: nat, bs: nat): nat
    requires bs > 0
  {
    if OffsetOf(t, bs) > p then BlockOf(t, bs) + 1 else BlockOf(t, bs)
  }

  /** Index `t` adds one to the count exactly when it sits at offset `p`. */
  lemma CountSucc(t: nat, p: nat, bs: nat)
    requires p < bs
    ensures CountBefore(t + 1, p, bs) ==
      if OffsetOf(t, bs) == p then CountBefore(t, p, bs) + 1 else CountBefore(t, p, bs)
    ensures OffsetOf(t, bs) == p ==> CountBefore(t, p, bs) == BlockOf(t, bs)
  {
    Succ(t, bs);
    OffsetBound(t, bs);
  }

  lemma {:induction false} OffsetBound(t: nat, bs: nat)
    requires bs > 0
    ensures OffsetOf(t, bs) < bs
    decreases t
  {
    if t >= bs {
      OffsetBound(t - bs, bs);
    }
  }

  /** Below `blocks * bs`, the count never exceeds `blocks`; at `blocks * bs` it is `blocks`. */
  lemma CountBound(t: nat, p: nat, bs: nat, blocks: nat)
    requires bs > 0 && p < bs && t <= blocks * bs
    ensures CountBefore(t, p, bs) <= blocks
    ensures t == blocks * bs ==> CountBefore(t, p, bs) == blocks
  {
    if t < blocks * bs {
      Bound(t, bs, blocks);
    } else {
      Split(blocks, 0, bs);
    }
  }
}
