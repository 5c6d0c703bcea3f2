/**
 Runs of one buddy area: every sequence of block allocations and frees that starts
 from the freshly built lists.
 */
module BuddyRuns {
  import opened BuddyBlocks
  import opened BuddyLists
  import opened BuddyInvariant

  datatype State = State(free: Lists, out: set<Block>)

  datatype Event = AllocBlock(index: nat) | FreeBlock(block: Block)

  /** A request asks for an order that exists; a free names a block that is outstanding, which
      by FreeStrict and FreePristine always has a valid order and is aligned. */
  ghost predicate Enabled(s: State, e: Event) {
    match e
    case AllocBlock(index) => index < |s.free|
    case FreeBlock(b) => b in s.out && b.order < |s.free| && Aligned(b.off, b.order)
  }

  ghost function Step(s: State, e: Event): State
    requires Enabled(s, e)
  {
    match e
    case AllocBlock(index) =>
      (match Alloc(s.free, index)
       case NoBlock => s
       case Taken(free, off) => State(free, s.out + {Block(off, index)}))
    case FreeBlock(b) => State(Free(s.free, b.off, b.order), s.out - {b})
  }

  ghost predicate ValidRun(s: State, es: seq<Event>)
    decreases |es|
  {
    es == [] || (Enabled(s, es[0]) && ValidRun(Step(s, es[0]), es[1..]))
  }

  ghost function Run(s: State, es: seq<Event>): State
    requires ValidRun(s, es)
    decreases |es|
  {
    if es == [] then s else Run(Step(s, es[0]), es[1..])
  }

  ghost function Initial(n: nat): State { State(InitialLists(n), {}) }

  // ---------- the initial state ----------

  lemma {:induction false} InitialCovered(n: nat, x: nat)
    requires n >= 1 && x < Pow2(n)
    ensures Covered(FreeBlocks(InitialLists(n)), x)
    decreases n
  {
    var free := InitialLists(n);
    if n == 1 {
      assert Block(x, 0) in FreeBlocks(free) && Covers(Block(x, 0), x);
    } else if x < Pow2(n - 1) {
      InitialCovered(n - 1, x);
      var b :| b in FreeBlocks(InitialLists(n - 1)) && Covers(b, x);
      assert b in FreeBlocks(free);
    } else {
      assert Block(Pow2(n - 1), n - 1) in FreeBlocks(free);
      assert Covers(Block(Pow2(n - 1), n - 1), x);
    }
  }

  lemma InitialBlock(n: nat, b: Block)
    requires n >= 1 && b in FreeBlocks(InitialLists(n))
    ensures b.order < n && (b.off == Pow2(b.order) || b == Block(0, 0))
  {
    assert b.order > 0 ==> b.off == Pow2(b.order);
  }

  lemma InitialIsPristine(n: nat)
    requires n >= 1
    ensures Pristine(InitialLists(n), {})
  {
    var free := InitialLists(n);
    var blocks := FreeBlocks(free);
    assert FreeBlocks(Hidden(free)) + ({} + HiddenPair()) == blocks;
    InitialTiles(n);
    hide Tiles, FreeBlocks;
  }

  lemma InitialTiles(n: nat)
    requires n >= 1
    ensures Tiles(FreeBlocks(InitialLists(n)), n)
  {
    hide FreeBlocks, InitialLists, Covered;
    var blocks := FreeBlocks(InitialLists(n));
    forall b | b in blocks ensures Fits(b, n) {
      InitialBlock(n, b);
      Pow2Aligned(b.order);
      Pow2Monotone(b.order + 1, n);
    }
    forall b, c | b in blocks && c in blocks && b != c ensures Disjoint(b, c) {
      InitialBlock(n, b);
      InitialBlock(n, c);
      if b.order < c.order {
        Pow2Monotone(b.order + 1, c.order);
      } else if c.order < b.order {
        Pow2Monotone(c.order + 1, b.order);
      }
    }
    forall x: nat | x < Pow2(n) ensures Covered(blocks, x) {
      InitialCovered(n, x);
    }
  }

  // ---------- one step ----------

  /** Allocation of order 1 or more treats the hidden pair as handed out. */
  lemma AllocPristine(free: Lists, out: set<Block>, index: nat)
    requires Pristine(free, out) && index < |free| && Alloc(free, index).Taken?
    ensures var r := Alloc(free, index);
            && Block(r.off, index) !in out
            && if index == 0 then Strict(r.free, out + {Block(r.off, 0)})
               else Pristine(r.free, out + {Block(r.off, index)})
  {
    var r := Alloc(free, index);
    if index == 0 {
      assert r.off == 0 && r.free == free[0 := [1]];
      FirstAllocation(free, out);
    } else {
      HiddenFirst(free, index);
      AllocStrict(Hidden(free), out + HiddenPair(), index);
      assert Alloc(Hidden(free), index) == Taken(Hidden(r.free), r.off) by {
        assert Alloc(Hidden(free), index).free == Hidden(r.free);
      }
      assert out + HiddenPair() + {Block(r.off, index)} == out + {Block(r.off, index)} + HiddenPair();
    }
  }

  lemma {:induction false} HiddenFirst(free: Lists, index: nat)
    requires 1 <= index <= |free|
    ensures FirstNonEmpty(Hidden(free), index) == FirstNonEmpty(free, index)
    decreases |free| - index
  {
    if index < |free| {
      HiddenFirst(free, index + 1);
    }
  }

  lemma FirstAllocation(free: Lists, out: set<Block>)
    requires Pristine(free, out)
    ensures Block(0, 0) !in out && Strict(free[0 := [1]], out + {Block(0, 0)})
  {
    var h, free1 := Hidden(free), free[0 := [1]];
    assert FreeBlocks(free1) == FreeBlocks(h) + {Block(1, 0)};
    assert FreeBlocks(free1) + (out + {Block(0, 0)}) == FreeBlocks(h) + (out + HiddenPair());
    assert AllAscending(free1) by {
      forall i | 0 <= i < |free1| ensures Ascending(free1[i]) { assert Ascending(h[i]); }
    }
    forall j | 0 <= j && j + 1 < |free1| ensures NoBuddies(free1[j], j) {
      assert NoBuddies(h[j], j);
    }
  }

  lemma FreePristine(free: Lists, out: set<Block>, b: Block)
    requires Pristine(free, out) && b in out
    ensures b.order < |free| && Aligned(b.off, b.order)
    ensures Pristine(Free(free, b.off, b.order), out - {b})
  {
    FreeStrict(Hidden(free), out + HiddenPair(), b.off, b.order);
    HiddenFree(free, b.off, b.order);
    assert out + HiddenPair() - {b} == out - {b} + HiddenPair();
  }

  lemma {:induction false} HiddenFree(free: Lists, off: nat, order: nat)
    requires 1 <= order < |free| && Aligned(off, order)
    ensures Free(Hidden(free), off, order) == Hidden(Free(free, off, order))
    ensures Free(free, off, order)[0] == free[0]
    decreases |free| - order
  {
    var v := BuddyOff(off, order);
    if order + 1 < |free| && v in free[order] {
      BuddyFacts(off, order);
      var free1 := free[order := Remove(free[order], v)];
      assert Hidden(free1) == Hidden(free)[order := Remove(free[order], v)];
      HiddenFree(free1, ParentOff(off, order), order + 1);
    }
  }

  lemma StepKeepsInv(s: State, e: Event)
    requires Enabled(s, e) && Inv(s.free, s.out)
    ensures Inv(Step(s, e).free, Step(s, e).out)
    ensures |Step(s, e).free| == |s.free|
    ensures Strict(s.free, s.out) ==> Strict(Step(s, e).free, Step(s, e).out)
    ensures Pristine(s.free, s.out) && e != AllocBlock(0) ==> Pristine(Step(s, e).free, Step(s, e).out)
    ensures Pristine(s.free, s.out) && e == AllocBlock(0) ==> Strict(Step(s, e).free, Step(s, e).out)
  {
    match e
    case AllocBlock(index) =>
      if Alloc(s.free, index).Taken? {
        if Strict(s.free, s.out) { AllocStrict(s.free, s.out, index); }
        if Pristine(s.free, s.out) { AllocPristine(s.free, s.out, index); }
      } else {
        assert FirstNonEmpty(s.free, index) == |s.free|;
      }
    case FreeBlock(b) =>
      if Strict(s.free, s.out) { FreeStrict(s.free, s.out, b.off, b.order); }
      if Pristine(s.free, s.out) { FreePristine(s.free, s.out, b); }
  }

  // ---------- whole runs ----------

  lemma {:induction false} StrictRun(s: State, es: seq<Event>)
    requires ValidRun(s, es) && Strict(s.free, s.out)
    ensures var t := Run(s, es); |t.free| == |s.free| && Strict(t.free, t.out)
    decreases |es|
  {
    if es != [] {
      StepKeepsInv(s, es[0]);
      StrictRun(Step(s, es[0]), es[1..]);
    }
  }

  lemma {:induction false} PristineRun(s: State, es: seq<Event>)
    requires ValidRun(s, es) && Pristine(s.free, s.out)
    ensures var t := Run(s, es);
            && |t.free| == |s.free|
            && (AllocBlock(0) in es ==> Strict(t.free, t.out))
            && (AllocBlock(0) !in es ==> Pristine(t.free, t.out))
    decreases |es|
  {
    if es != [] {
      StepKeepsInv(s, es[0]);
      assert es == [es[0]] + es[1..];
      if es[0] == AllocBlock(0) {
        StrictRun(Step(s, es[0]), es[1..]);
      } else {
        PristineRun(Step(s, es[0]), es[1..]);
      }
    }
  }

  /** After any run free and outstanding blocks tile the area and lists are ascending; the
      area is fully coalesced iff an order-0 block was ever asked for. */
  lemma EveryRun(n: nat, es: seq<Event>)
    requires n >= 2 && ValidRun(Initial(n), es)
    ensures var t := Run(Initial(n), es);
            && |t.free| == n
            && Tiles(FreeBlocks(t.free) + t.out, n)
            && FreeBlocks(t.free) !! t.out
            && AllAscending(t.free)
            && (Coalesced(t.free) <==> AllocBlock(0) in es)
            && (AllocBlock(0) !in es ==> t.free[0] == [0, 1] && Coalesced(t.free[0 := []]))
  {
    InitialIsPristine(n);
    PristineRun(Initial(n), es);
    var t := Run(Initial(n), es);
    if AllocBlock(0) !in es {
      var h := Hidden(t.free);
      assert FreeBlocks(h) + (t.out + HiddenPair()) == FreeBlocks(t.free) + t.out;
      assert FreeBlocks(t.free) == FreeBlocks(h) + HiddenPair();
      forall i | 0 <= i < n ensures Ascending(t.free[i]) { assert Ascending(h[i]); }
      assert !NoBuddies(t.free[0], 0) by { assert 0 in t.free[0] && 1 in t.free[0] && Aligned(0, 1); }
    }
  }

  /** Two free blocks of top order and nothing else. */
  function TopLists(n: nat): Lists
    requires n >= 1
  {
    seq(n, i requires 0 <= i => if i == n - 1 then [0, Pow2(n - 1)] else [])
  }

  lemma TopBlocks(n: nat)
    requires n >= 1
    ensures FreeBlocks(TopLists(n)) == {Block(0, n - 1), Block(Pow2(n - 1), n - 1)}
  {
    hide Pow2;
    assert TopLists(n)[n - 1] == [0, Pow2(n - 1)];
  }

  lemma HalvesTile(n: nat)
    requires n >= 1
    ensures Tiles({Block(0, n - 1), Block(Pow2(n - 1), n - 1)}, n)
  {
    var l, r := Block(0, n - 1), Block(Pow2(n - 1), n - 1);
    ZeroAligned(n - 1);
    Pow2Aligned(n - 1);
    hide Aligned;
    forall x: nat | x < Pow2(n) ensures Covered({l, r}, x) {
      assert Covers(if x < Pow2(n - 1) then l else r, x);
    }
  }

  lemma TopIsStrict(n: nat)
    requires n >= 1
    ensures Strict(TopLists(n), {})
  {
    TopBlocks(n);
    HalvesTile(n);
    hide Tiles, FreeBlocks, Aligned;
    assert FreeBlocks(TopLists(n)) + {} == FreeBlocks(TopLists(n));
  }

  /** When everything has been freed the lists are the initial layout or two top-order
      blocks, and which of the two is decided by whether order 0 was ever asked for. */
  lemma EverythingFreed(n: nat, es: seq<Event>)
    requires n >= 1 && ValidRun(Initial(n), es) && Run(Initial(n), es).out == {}
    ensures Run(Initial(n), es).free == if AllocBlock(0) in es then TopLists(n) else InitialLists(n)
  {
    InitialIsPristine(n);
    PristineRun(Initial(n), es);
    var t := Run(Initial(n), es);
    if AllocBlock(0) in es {
      TopIsStrict(n);
      StrictIsCanonical(t.free, TopLists(n), {});
    } else {
      PristineIsCanonical(t.free, InitialLists(n), {});
    }
  }

  lemma PristineIsCanonical(free1: Lists, free2: Lists, out: set<Block>)
    requires |free1| == |free2| && Pristine(free1, out) && Pristine(free2, out)
    ensures free1 == free2
  {
    StrictIsCanonical(Hidden(free1), Hidden(free2), out + HiddenPair());
    assert free1 == Hidden(free1)[0 := [0, 1]] && free2 == Hidden(free2)[0 := [0, 1]];
  }

  // ---------- allocation succeeds exactly when it can ----------

  /** `max_index >= index` is exactly the condition under which the allocation succeeds. */
  lemma MaxIndexDecides(free: Lists, index: nat)
    requires index < |free|
    ensures Alloc(free, index).Taken? <==> MaxIndex(free) >= index
  {
    var i := FirstNonEmpty(free, index);
    assert i < |free| ==> i <= MaxIndex(free);
  }

  /** The block handed out begins the lowest of the smallest free blocks that are big enough. */
  lemma AllocIsBestFit(free: Lists, out: set<Block>, index: nat)
    requires Inv(free, out) && index < |free| && Alloc(free, index).Taken?
    ensures var off := Alloc(free, index).off;
            exists i :: index <= i < |free| && Block(off, i) in FreeBlocks(free)
                        && forall b :: b in FreeBlocks(free) && b.order >= index ==>
                             i < b.order || (i == b.order && off <= b.off)
  {
    var i := FirstNonEmpty(free, index);
    var off := free[i][0];
    assert Ascending(free[i]) by {
      if !Strict(free, out) {
        assert Ascending(Hidden(free)[i]);
      }
    }
    hide Strict, Pristine;
    assert Block(off, i) in FreeBlocks(free);
    forall b | b in FreeBlocks(free) && b.order >= index ensures i < b.order || (i == b.order && off <= b.off) {
      var k :| 0 <= k < |free[b.order]| && free[b.order][k] == b.off;
    }
  }

  ghost predicate NoRegionLeft(order: nat, out: set<Block>, n: nat) {
    forall b :: Fits(b, n) && b.order == order ==> !Untouched(b, out)
  }

  /** An allocation fails exactly when no aligned region of that order is untouched, where
      a pristine area also counts its unmerged order-0 pair as taken for larger orders. */
  lemma AllocFailsExactly(s: State, index: nat)
    requires index < |s.free| && Inv(s.free, s.out)
    ensures var taken := if Pristine(s.free, s.out) && index > 0 then s.out + HiddenPair() else s.out;
            Alloc(s.free, index).NoBlock? <==> NoRegionLeft(index, taken, |s.free|)
  {
    if Pristine(s.free, s.out) && index == 0 {
      ZeroUntouched(s.free, s.out);
    } else if Pristine(s.free, s.out) {
      HiddenFirst(s.free, index);
      StrictAllocFails(Hidden(s.free), s.out + HiddenPair(), index);
    } else {
      StrictAllocFails(s.free, s.out, index);
    }
  }

  lemma ZeroUntouched(free: Lists, out: set<Block>)
    requires Pristine(free, out)
    ensures FirstNonEmpty(free, 0) == 0 && Fits(Block(0, 0), |free|) && Untouched(Block(0, 0), out)
  {
    var all := FreeBlocks(Hidden(free)) + (out + HiddenPair());
    assert Block(0, 0) in all;
    forall c | c in out ensures Disjoint(Block(0, 0), c) {
      assert c in all && c != Block(0, 0);
    }
  }

  lemma StrictAllocFails(free: Lists, out: set<Block>, index: nat)
    requires index < |free| && Strict(free, out)
    ensures Alloc(free, index).NoBlock? <==> NoRegionLeft(index, out, |free|)
  {
    if Alloc(free, index).Taken? {
      AllocStrict(free, out, index);
      var b := Block(Alloc(free, index).off, index);
      assert b in FreeBlocks(Alloc(free, index).free) + (out + {b});
      forall c | c in out ensures Disjoint(b, c) {
        assert c in FreeBlocks(Alloc(free, index).free) + (out + {b});
      }
      assert Fits(b, |free|) && Untouched(b, out);
    } else {
      forall b | Fits(b, |free|) && b.order == index ensures !Untouched(b, out) {
        if Untouched(b, out) {
          var c := Compact(free, out, b);
          assert false;
        }
      }
    }
  }

  // ---------- malloc then free ----------

  /** Freeing the block just allocated restores the lists themselves, not only the free
      bytes, except for the very first order-0 allocation, after which they stay merged. */
  lemma AllocThenFree(s: State, index: nat)
    requires |s.free| >= 2 && index < |s.free| && Inv(s.free, s.out) && Alloc(s.free, index).Taken?
    ensures var r := Alloc(s.free, index);
            && Aligned(r.off, index)
            && |r.free| == |s.free|
            && (Free(r.free, r.off, index) == s.free <==> !(Pristine(s.free, s.out) && index == 0))
  {
    var r := Alloc(s.free, index);
    var b, out1 := Block(r.off, index), s.out + {Block(r.off, index)};
    if Pristine(s.free, s.out) {
      AllocPristine(s.free, s.out, index);
      assert out1 - {b} == s.out;
      if index > 0 {
        FreePristine(r.free, out1, b);
        PristineIsCanonical(Free(r.free, r.off, index), s.free, s.out);
      } else {
        FreeStrict(r.free, out1, r.off, index);
        assert !NoBuddies(s.free[0], 0) by { assert 0 in s.free[0] && 1 in s.free[0] && Aligned(0, 1); }
      }
    } else {
      AllocStrict(s.free, s.out, index);
      assert out1 - {b} == s.out;
      FreeStrict(r.free, out1, r.off, index);
      StrictIsCanonical(Free(r.free, r.off, index), s.free, s.out);
    }
  }

  /** Free and outstanding blocks tile the area and none is both, the initial pair included. */
  lemma InvTiles(free: Lists, out: set<Block>)
    requires Inv(free, out)
    ensures Tiles(FreeBlocks(free) + out, |free|) && FreeBlocks(free) !! out
  {
    if !Strict(free, out) {
      var h := Hidden(free);
      assert FreeBlocks(free) == FreeBlocks(h) + HiddenPair();
      assert FreeBlocks(h) + (out + HiddenPair()) == FreeBlocks(free) + out;
    }
  }

  /** The free bytes are exactly those of the area that no outstanding block covers. */
  lemma FreeBytes(free: Lists, out: set<Block>, x: nat)
    requires Inv(free, out)
    ensures Covered(FreeBlocks(free), x) <==> x < Pow2(|free|) && !Covered(out, x)
  {
    InvTiles(free, out);
    hide Inv, FreeBlocks;
    var all := FreeBlocks(free) + out;
    if Covered(FreeBlocks(free), x) {
      var b :| b in FreeBlocks(free) && Covers(b, x);
      assert Fits(b, |free|);
      forall c | c in out ensures !Covers(c, x) {
        assert b in all && c in all && b != c;
      }
    }
    if x < Pow2(|free|) && !Covered(out, x) {
      assert Covered(all, x);
      var b :| b in all && Covers(b, x);
      assert b in FreeBlocks(free);
    }
  }

  /** Freeing the block just allocated restores the exact set of free bytes in every case,
      also in the one where the lists themselves come back coalesced differently. */
  lemma FreeBytesRestored(s: State, index: nat, x: nat)
    requires |s.free| >= 2 && index < |s.free| && Inv(s.free, s.out) && Alloc(s.free, index).Taken?
    ensures var r := Alloc(s.free, index);
            && Aligned(r.off, index) && |r.free| == |s.free|
            && (Covered(FreeBlocks(Free(r.free, r.off, index)), x) <==> Covered(FreeBlocks(s.free), x))
  {
    AllocThenFree(s, index);
    var r := Alloc(s.free, index);
    var b := Block(r.off, index);
    var t := Step(s, AllocBlock(index));
    StepKeepsInv(s, AllocBlock(index));
    AllocatedIsNew(s, index);
    StepKeepsInv(t, FreeBlock(b));
    assert t.out - {b} == s.out;
    hide Inv, Alloc, Free;
    FreeBytes(s.free, s.out, x);
    FreeBytes(Free(r.free, r.off, index), s.out, x);
  }

  lemma AllocatedIsNew(s: State, index: nat)
    requires index < |s.free| && Inv(s.free, s.out) && Alloc(s.free, index).Taken?
    ensures Block(Alloc(s.free, index).off, index) !in s.out
  {
    if Strict(s.free, s.out) {
      AllocStrict(s.free, s.out, index);
    } else {
      AllocPristine(s.free, s.out, index);
    }
  }
}
