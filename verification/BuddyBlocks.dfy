/**
 Geometry of buddy blocks.  Offsets inside an area are counted in units of the
 smallest block, so an order-i block covers Pow2(i) consecutive units and an area
 with n orders has Pow2(n) units.  Nothing here depends on how many orders there are.
 */
module BuddyBlocks {

  datatype Block = Block(off: nat, order: nat)

  function Pow2(i: nat): (p: nat)
    ensures p >= 1
  {
    if i == 0 then 1 else 2 * Pow2(i - 1)
  }

  lemma {:induction false} Pow2Monotone(i: nat, j: nat)
    requires i <= j
    ensures Pow2(i) <= Pow2(j)
    decreases j
  {
    if i < j {
      Pow2Monotone(i, j - 1);
    }
  }

  /** `off` is a multiple of Pow2(order). */
  predicate Aligned(off: nat, order: nat)
    decreases order
  {
    order == 0 || (off % 2 == 0 && Aligned(off / 2, order - 1))
  }

  predicate Fits(b: Block, n: nat) {
    b.order < n && Aligned(b.off, b.order) && b.off + Pow2(b.order) <= Pow2(n)
  }

  predicate Covers(b: Block, x: nat) {
    b.off <= x < b.off + Pow2(b.order)
  }

  predicate Disjoint(b: Block, c: Block) {
    b.off + Pow2(b.order) <= c.off || c.off + Pow2(c.order) <= b.off
  }

  predicate Inside(b: Block, c: Block) {
    c.off <= b.off && b.off + Pow2(b.order) <= c.off + Pow2(c.order)
  }

  /** Aligned blocks never straddle each other. */
  lemma {:induction false} Laminar(b: Block, c: Block)
    requires Aligned(b.off, b.order) && Aligned(c.off, c.order)
    requires b.order <= c.order
    ensures Disjoint(b, c) || Inside(b, c)
    ensures b.order == c.order && !Disjoint(b, c) ==> b == c
    decreases c.order
  {
    if b.order > 0 {
      Laminar(Block(b.off / 2, b.order - 1), Block(c.off / 2, c.order - 1));
    }
  }

  /** The two halves of an aligned block are aligned. */
  lemma {:induction false} HalvesAligned(off: nat, order: nat)
    requires Aligned(off, order + 1)
    ensures Aligned(off, order) && Aligned(off + Pow2(order), order)
    ensures !Aligned(off + Pow2(order), order + 1)
    decreases order
  {
    if order > 0 {
      HalvesAligned(off / 2, order - 1);
      assert (off + Pow2(order)) / 2 == off / 2 + Pow2(order - 1);
    }
  }

  /** An aligned block that is not the left half of a larger one is the right half of one. */
  lemma {:induction false} RightHalf(off: nat, order: nat)
    requires Aligned(off, order) && !Aligned(off, order + 1)
    ensures off >= Pow2(order) && Aligned(off - Pow2(order), order + 1)
    decreases order
  {
    if order > 0 {
      RightHalf(off / 2, order - 1);
      assert (off - Pow2(order)) / 2 == off / 2 - Pow2(order - 1);
    }
  }

  function BuddyOff(off: nat, order: nat): (r: nat)
    requires Aligned(off, order)
  {
    if Aligned(off, order + 1) then off + Pow2(order) else RightHalf(off, order); off - Pow2(order)
  }

  function Min(a: nat, b: nat): nat { if a > b then b else a }

  function ParentOff(off: nat, order: nat): nat
    requires Aligned(off, order)
  {
    Min(off, BuddyOff(off, order))
  }

  /** A block and its buddy are exactly the two halves of the parent. */
  lemma BuddyFacts(off: nat, order: nat)
    requires Aligned(off, order)
    ensures Aligned(ParentOff(off, order), order + 1)
    ensures Aligned(BuddyOff(off, order), order)
    ensures BuddyOff(BuddyOff(off, order), order) == off
    ensures ParentOff(BuddyOff(off, order), order) == ParentOff(off, order)
    ensures {off, BuddyOff(off, order)} == {ParentOff(off, order), ParentOff(off, order) + Pow2(order)}
  {
    if Aligned(off, order + 1) {
      HalvesAligned(off, order);
    } else {
      RightHalf(off, order);
      HalvesAligned(off - Pow2(order), order);
    }
  }

  /** A block below the top order has its parent inside the area. */
  lemma ParentFits(b: Block, n: nat)
    requires Fits(b, n) && b.order + 1 < n
    ensures Fits(Block(ParentOff(b.off, b.order), b.order + 1), n)
  {
    BuddyFacts(b.off, b.order);
    var p := Block(ParentOff(b.off, b.order), b.order + 1);
    ZeroAligned(n);
    Laminar(p, Block(0, n));
  }

  lemma {:induction false} ZeroAligned(order: nat)
    ensures Aligned(0, order)
  {
    if order > 0 {
      ZeroAligned(order - 1);
    }
  }

  lemma {:induction false} Pow2Aligned(i: nat)
    ensures Aligned(Pow2(i), i) && !Aligned(Pow2(i), i + 1)
  {
    ZeroAligned(i + 1);
    HalvesAligned(0, i);
  }

  ghost predicate Covered(s: set<Block>, x: nat) {
    exists b :: b in s && Covers(b, x)
  }

  /** The blocks of `s` cover every unit of an area with n orders exactly once. */
  ghost predicate Tiles(s: set<Block>, n: nat) {
    && (forall b :: b in s ==> Fits(b, n))
    && (forall b, c :: b in s && c in s && b != c ==> Disjoint(b, c))
    && (forall x: nat :: x < Pow2(n) ==> Covered(s, x))
  }

  /** Splitting one block of a tiling into its halves gives a tiling. */
  lemma SplitTiles(s: set<Block>, n: nat, u: nat, order: nat)
    requires Tiles(s, n) && Block(u, order + 1) in s
    ensures Tiles(s - {Block(u, order + 1)} + {Block(u, order), Block(u + Pow2(order), order)}, n)
    ensures Block(u, order) !in s && Block(u + Pow2(order), order) !in s
  {
    var b, l, r := Block(u, order + 1), Block(u, order), Block(u + Pow2(order), order);
    var t := s - {b} + {l, r};
    HalvesAligned(u, order);
    assert Fits(b, n);
    forall x: nat | x < Pow2(n)
      ensures Covered(t, x)
    {
      assert Covered(s, x);
      var c :| c in s && Covers(c, x);
      if c == b {
        if x < u + Pow2(order) { assert l in t && Covers(l, x); } else { assert r in t && Covers(r, x); }
      } else {
        assert c in t && Covers(c, x);
      }
    }
  }

  /** Replacing the two halves of a block by the block itself gives a tiling. */
  lemma MergeTiles(s: set<Block>, n: nat, u: nat, order: nat)
    requires Tiles(s, n) && order + 1 < n && Aligned(u, order + 1)
    requires Block(u, order) in s && Block(u + Pow2(order), order) in s
    ensures Tiles(s - {Block(u, order), Block(u + Pow2(order), order)} + {Block(u, order + 1)}, n)
    ensures Block(u, order + 1) !in s
  {
    var b, l, r := Block(u, order + 1), Block(u, order), Block(u + Pow2(order), order);
    var t := s - {l, r} + {b};
    assert Fits(r, n);
    assert !Disjoint(b, l);
    forall c | c in s && c != l && c != r
      ensures Disjoint(c, b)
    {
      assert Disjoint(c, l) && Disjoint(c, r);
      assert Covers(c, c.off);
    }
    forall x: nat | x < Pow2(n)
      ensures Covered(t, x)
    {
      assert Covered(s, x);
      var c :| c in s && Covers(c, x);
      if c == l || c == r {
        assert b in t && Covers(b, x);
      } else {
        assert c in t && Covers(c, x);
      }
    }
  }

  /** The pieces left over, and the piece handed out, when a block of order i is split down to `index`. */
  ghost function Chain(u: nat, index: nat, i: nat): set<Block>
    requires index <= i
  {
    {Block(u, index)} + (set j | index <= j < i :: Block(u + Pow2(j), j))
  }

  lemma {:induction false} ChainTiles(s: set<Block>, n: nat, u: nat, index: nat, i: nat)
    requires Tiles(s, n) && index <= i && Block(u, i) in s
    ensures Tiles(s - {Block(u, i)} + Chain(u, index, i), n)
    ensures Chain(u, index, i) * (s - {Block(u, i)}) == {}
    decreases i
  {
    hide Tiles, Pow2;
    if index == i {
      assert s - {Block(u, i)} + Chain(u, index, i) == s;
    } else {
      SplitTiles(s, n, u, i - 1);
      var l, r := Block(u, i - 1), Block(u + Pow2(i - 1), i - 1);
      var t := s - {Block(u, i)} + {l, r};
      ChainTiles(t, n, u, index, i - 1);
      ChainStep(u, index, i);
      hide Chain;
      var c := Chain(u, index, i - 1);
      assert l != r;
      assert r in t - {l};
      assert t - {l} + c == s - {Block(u, i)} + (c + {r});
    }
  }

  lemma ChainStep(u: nat, index: nat, i: nat)
    requires index < i
    ensures Chain(u, index, i) == Chain(u, index, i - 1) + {Block(u + Pow2(i - 1), i - 1)}
  {
  }
}
