/**
 What every run of allocations and frees in one buddy area keeps, and what the
 free lists therefore are: the maximal aligned regions free of outstanding blocks.
 */
module BuddyInvariant {
  import opened BuddyBlocks
  import opened BuddyLists

  // ---------- one step keeps a strict state strict ----------

  /** In terms of blocks, an allocation replaces one free block by the chain it is split into. */
  lemma AllocBlocks(free: Lists, index: nat, i: nat)
    requires index < |free| && i == FirstNonEmpty(free, index) && i < |free|
    requires forall j :: 0 <= j < |free| ==> Ascending(free[j])
    ensures var r := Alloc(free, index);
            FreeBlocks(r.free) == FreeBlocks(free) - {Block(r.off, i)}
                                  + (Chain(r.off, index, i) - {Block(r.off, index)})
  {
    var r := Alloc(free, index);
    TailFacts(free[i]);
    forall c
      ensures c in FreeBlocks(r.free)
              <==> c in FreeBlocks(free) - {Block(r.off, i)} + (Chain(r.off, index, i) - {Block(r.off, index)})
    {
      if c.order < |free| {
        if index <= c.order < i {
          assert r.free[c.order] == [r.off + Pow2(c.order)] && free[c.order] == [];
        } else if c.order == i {
          assert r.free[i] == free[i][1..];
        } else {
          assert r.free[c.order] == free[c.order];
        }
      }
    }
  }

  lemma AllocKeepsLists(free: Lists, index: nat)
    requires index < |free| && AllAscending(free) && Coalesced(free) && Alloc(free, index).Taken?
    ensures AllAscending(Alloc(free, index).free) && Coalesced(Alloc(free, index).free)
  {
    var r, i := Alloc(free, index), FirstNonEmpty(free, index);
    TailFacts(free[i]);
    forall j | 0 <= j < |free| ensures Ascending(r.free[j]) {
      assert Ascending(free[j]);
    }
    forall j | 0 <= j && j + 1 < |free| ensures NoBuddies(r.free[j], j) {
      assert NoBuddies(free[j], j);
    }
  }

  lemma AllocStrict(free: Lists, out: set<Block>, index: nat)
    requires index < |free| && Strict(free, out) && Alloc(free, index).Taken?
    ensures var r := Alloc(free, index);
            && Block(r.off, index) !in out
            && Strict(r.free, out + {Block(r.off, index)})
  {
    var r, i := Alloc(free, index), FirstNonEmpty(free, index);
    var b, s := Block(r.off, index), FreeBlocks(free) + out;
    var chain := Chain(r.off, index, i);
    assert Block(r.off, i) in FreeBlocks(free);
    ChainTiles(s, |free|, r.off, index, i);
    AllocBlocks(free, index, i);
    AllocKeepsLists(free, index);
    assert b in chain;
    assert chain !! out;
    assert FreeBlocks(r.free) + (out + {b}) == s - {Block(r.off, i)} + chain;
  }

  lemma {:induction false} FreeStrict(free: Lists, out: set<Block>, off: nat, order: nat)
    requires Strict(free, out) && Block(off, order) in out
    ensures order < |free| && Aligned(off, order)
    ensures Strict(Free(free, off, order), out - {Block(off, order)})
    decreases |free| - order
  {
    var n, b, s := |free|, Block(off, order), FreeBlocks(free) + out;
    assert b in s;
    assert Fits(b, n);
    var buddy := BuddyOff(off, order);
    if order + 1 < n && buddy in free[order] {
      BuddyFacts(off, order);
      var p := Block(ParentOff(off, order), order + 1);
      assert Block(buddy, order) in s;
      MergeTiles(s, n, p.off, order);
      RemoveFacts(free[order], buddy);
      var free1, out1 := free[order := Remove(free[order], buddy)], out - {b} + {p};
      assert FreeBlocks(free1) == FreeBlocks(free) - {Block(buddy, order)};
      assert {b, Block(buddy, order)} == {Block(p.off, order), Block(p.off + Pow2(order), order)} by {
        assert off in {p.off, p.off + Pow2(order)} && buddy in {p.off, p.off + Pow2(order)};
      }
      assert FreeBlocks(free1) + out1 == s - {b, Block(buddy, order)} + {p};
      forall j | 0 <= j && j + 1 < n ensures NoBuddies(free1[j], j) {
        assert NoBuddies(free[j], j);
      }
      FreeStrict(free1, out1, p.off, order + 1);
      assert out1 - {p} == out - {b};
    } else {
      InsertFree(free, out, off, order);
    }
  }

  lemma InsertNoBuddies(s: seq<nat>, off: nat, order: nat)
    requires Ascending(s) && off !in s && NoBuddies(s, order) && Aligned(off, order)
    requires BuddyOff(off, order) !in s
    ensures NoBuddies(InsertSorted(s, off), order)
  {
    hide InsertSorted, Aligned, Ascending;
    InsertSortedFacts(s, off);
    var t := InsertSorted(s, off);
    forall u: nat | u in t && Aligned(u, order + 1)
      ensures u + Pow2(order) !in t
    {
      HalvesAligned(u, order);
      var v, w := u + Pow2(order), BuddyOff(off, order);
      assert u == off ==> v == w;
      assert v == off ==> u == w;
      assert u in s ==> v !in s;
    }
  }

  lemma InsertFree(free: Lists, out: set<Block>, off: nat, order: nat)
    requires Strict(free, out) && Block(off, order) in out
    requires order < |free| && Aligned(off, order)
    requires order + 1 < |free| ==> BuddyOff(off, order) !in free[order]
    ensures Strict(free[order := InsertSorted(free[order], off)], out - {Block(off, order)})
  {
    var b := Block(off, order);
    var free1 := free[order := InsertSorted(free[order], off)];
    assert b !in FreeBlocks(free);
    assert Ascending(free[order]);
    InsertSortedFacts(free[order], off);
    assert FreeBlocks(free1) == FreeBlocks(free) + {b};
    assert FreeBlocks(free1) + (out - {b}) == FreeBlocks(free) + out;
    forall j | 0 <= j && j + 1 < |free| ensures NoBuddies(free1[j], j) {
      assert NoBuddies(free[j], j);
      if j == order {
        InsertNoBuddies(free[j], off, j);
      }
    }
  }

  // ---------- the free lists are the maximal free regions ----------

  /** No outstanding block touches the region. */
  ghost predicate Untouched(b: Block, out: set<Block>) {
    forall c :: c in out ==> Disjoint(b, c)
  }

  /** `b` is free and, below the top order, its parent is not. */
  ghost predicate MaximalFree(b: Block, out: set<Block>, n: nat) {
    && Fits(b, n)
    && Untouched(b, out)
    && (b.order + 1 < n ==> !Untouched(Block(ParentOff(b.off, b.order), b.order + 1), out))
  }

  /** In a strict state an untouched aligned region lies inside a single free block. */
  lemma {:induction false} Compact(free: Lists, out: set<Block>, b: Block) returns (c: Block)
    requires Strict(free, out) && Fits(b, |free|) && Untouched(b, out)
    ensures c in FreeBlocks(free) && b.order <= c.order && Inside(b, c)
    decreases b.order
  {
    var n := |free|;
    if b.order == 0 {
      assert Covered(FreeBlocks(free) + out, b.off);
      c :| c in FreeBlocks(free) + out && Covers(c, b.off);
      assert !Disjoint(b, c);
    } else {
      var l := Block(b.off, b.order - 1);
      var r := Block(b.off + Pow2(l.order), l.order);
      HalvesAligned(b.off, l.order);
      assert Fits(l, n) && Fits(r, n);
      forall o | o in out ensures Disjoint(l, o) && Disjoint(r, o) {
        assert Disjoint(b, o);
      }
      c := Compact(free, out, l);
      var d := Compact(free, out, r);
      assert Fits(c, n) && Fits(d, n);
      if c.order >= b.order {
        Laminar(b, c);
      } else if d.order >= b.order {
        Laminar(b, d);
        c := d;
      } else {
        Laminar(l, c);
        Laminar(r, d);
        assert false;
      }
    }
  }

  lemma FreeBlockIsMaximal(free: Lists, out: set<Block>, b: Block)
    requires Strict(free, out) && b in FreeBlocks(free)
    ensures MaximalFree(b, out, |free|)
  {
    assert Fits(b, |free|);
    if b.order + 1 < |free| {
      var p := Block(ParentOff(b.off, b.order), b.order + 1);
      var v := Block(BuddyOff(b.off, b.order), b.order);
      ParentFits(b, |free|);
      BuddyFacts(b.off, b.order);
      if Untouched(p, out) {
        forall o | o in out ensures Disjoint(v, o) { assert Disjoint(p, o); }
        var c := Compact(free, out, v);
        FreeBlockAtBuddy(free, out, b, c);
      }
    }
  }

  /** A free block cannot swallow the buddy region of another free block. */
  lemma FreeBlockAtBuddy(free: Lists, out: set<Block>, b: Block, c: Block)
    requires Strict(free, out) && b in FreeBlocks(free) && c in FreeBlocks(free)
    requires Aligned(b.off, b.order) && b.order + 1 < |free| && b.order <= c.order
    ensures !Inside(Block(BuddyOff(b.off, b.order), b.order), c)
  {
    var p := Block(ParentOff(b.off, b.order), b.order + 1);
    var v := Block(BuddyOff(b.off, b.order), b.order);
    BuddyFacts(b.off, b.order);
    assert Fits(c, |free|);
    assert NoBuddies(free[b.order], b.order);
    assert c != b ==> Disjoint(c, b);
    Laminar(v, c);
    if c.order > b.order {
      Laminar(p, c);
    }
  }

  lemma InsideUntouched(p: Block, c: Block, out: set<Block>)
    requires Inside(p, c) && Untouched(c, out)
    ensures Untouched(p, out)
  {
    forall o | o in out ensures Disjoint(p, o) { assert Disjoint(c, o); }
  }

  lemma MaximalIsFreeBlock(free: Lists, out: set<Block>, b: Block)
    requires Strict(free, out) && MaximalFree(b, out, |free|)
    ensures b in FreeBlocks(free)
  {
    var c := Compact(free, out, b);
    assert Fits(c, |free|);
    Laminar(b, c);
    if c.order > b.order {
      var p := Block(ParentOff(b.off, b.order), b.order + 1);
      BuddyFacts(b.off, b.order);
      Laminar(p, c);
      assert Untouched(c, out) by {
        assert forall o :: o in out ==> o in FreeBlocks(free) + out;
      }
      InsideUntouched(p, c, out);
      assert false;
    }
  }

  /** Coalescing, exactly: a block is on a free list iff it is a maximal free region. */
  lemma FreeListsAreMaximalRegions(free: Lists, out: set<Block>, b: Block)
    requires Strict(free, out)
    ensures b in FreeBlocks(free) <==> MaximalFree(b, out, |free|)
  {
    if b in FreeBlocks(free) {
      FreeBlockIsMaximal(free, out, b);
    }
    if MaximalFree(b, out, |free|) {
      MaximalIsFreeBlock(free, out, b);
    }
  }

  /** Whatever the history, the lists of a strict state depend on the outstanding blocks alone. */
  lemma StrictIsCanonical(free1: Lists, free2: Lists, out: set<Block>)
    requires |free1| == |free2| && Strict(free1, out) && Strict(free2, out)
    ensures free1 == free2
  {
    forall i | 0 <= i < |free1|
      ensures free1[i] == free2[i]
    {
      forall u
        ensures u in free1[i] <==> u in free2[i]
      {
        FreeListsAreMaximalRegions(free1, out, Block(u, i));
        FreeListsAreMaximalRegions(free2, out, Block(u, i));
        assert Block(u, i) in FreeBlocks(free1) <==> u in free1[i];
        assert Block(u, i) in FreeBlocks(free2) <==> u in free2[i];
      }
      AscendingUnique(free1[i], free2[i]);
    }
  }
}
