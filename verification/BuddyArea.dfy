/**
 One registered NVM area with its buddy free lists, updated in place.
 Every method is proved to compute the corresponding function of module BuddyLists.
 */
module BuddyArea {
  import opened Wrappers
  import opened Arithmetic
  import opened BuddyBlocks
  import opened BuddyLists

  const MAX_ORDER: nat := 5
  const UNIT: nat := 65536
  const BUDDY_NUM: seq<nat> := [2, 1, 1, 1, 1]
  const BUDDY_SIZE: seq<nat> := [65536, 131072, 262144, 524288, 1048576]
  const SINGLE_AREA_SIZE: nat := 2097152

  /** The part of an ibv_mr the allocator looks at. */
  datatype MemRegion = MemRegion(addr: nat, length: nat, lkey: nat)

  datatype FreeBlk = FreeBlk(addr: nat, size: nat, lkey: nat)

  lemma BuddySizes(order: nat)
    requires order < MAX_ORDER
    ensures BUDDY_SIZE[order] == UNIT * Pow2(order)
    ensures forall j :: 0 <= j < MAX_ORDER && BUDDY_SIZE[j] == BUDDY_SIZE[order] ==> j == order
  {
    assert Pow2(0) == 1 && Pow2(1) == 2 && Pow2(2) == 4 && Pow2(3) == 8 && Pow2(4) == 16;
  }

  /** Halving both sides of a divisibility test. */
  lemma HalfDivides(off: nat, d: nat)
    requires d > 0
    ensures off % (2 * d) == 0 <==> off % 2 == 0 && off / 2 % d == 0
  {
    var h := off / 2;
    var q, r := h / d, h % d;
    assert h == q * d + r;
    assert off == q * (2 * d) + (2 * r + off % 2);
    ModUnique(off, 2 * d, q, 2 * r + off % 2);
  }

  lemma {:induction false} AlignedDivides(off: nat, order: nat)
    ensures Aligned(off, order) <==> off % Pow2(order) == 0
    decreases order
  {
    if order > 0 {
      AlignedDivides(off / 2, order - 1);
      HalfDivides(off, Pow2(order - 1));
    }
  }

  /** The modulus test of the free path decides which half of its parent a block is. */
  lemma AlignmentTest(off: nat, order: nat)
    requires order < MAX_ORDER
    ensures UNIT * off % BUDDY_SIZE[order] == 0 <==> Aligned(off, order)
  {
    BuddySizes(order);
    AlignedDivides(off, order);
    var d := Pow2(order);
    var q, r := off / d, off % d;
    assert off == q * d + r;
    assert UNIT * off == q * (UNIT * d) + UNIT * r;
    ModUnique(UNIT * off, UNIT * d, q, UNIT * r);
  }

  function AddrOf(mr: MemRegion, off: nat): nat { mr.addr + UNIT * off }

  /** The list of free block structures that represents a list of offsets. */
  function Blks(mr: MemRegion, order: nat, offs: seq<nat>): (r: seq<FreeBlk>)
    requires order < MAX_ORDER
    ensures |r| == |offs|
  {
    seq(|offs|, k requires 0 <= k < |offs| => FreeBlk(AddrOf(mr, offs[k]), BUDDY_SIZE[order], mr.lkey))
  }

  lemma {:induction false} InsertSortedAt(s: seq<nat>, u: nat, k: nat)
    requires k <= |s| && (forall j :: 0 <= j < k ==> s[j] <= u) && (k < |s| ==> u < s[k])
    ensures InsertSorted(s, u) == s[..k] + [u] + s[k..]
  {
    if k > 0 {
      InsertSortedAt(s[1..], u, k - 1);
      assert s[..k] == [s[0]] + s[1..][..k - 1];
    }
  }

  lemma {:induction false} RemoveAt(s: seq<nat>, u: nat, k: nat)
    requires k < |s| && s[k] == u && (forall j :: 0 <= j < k ==> s[j] != u)
    ensures Remove(s, u) == s[..k] + s[k + 1..]
  {
    if k > 0 {
      RemoveAt(s[1..], u, k - 1);
      assert s[..k] == [s[0]] + s[1..][..k - 1];
    }
  }

  /** The lists while block `u` of order i is being split: the split has reached order c. */
  ghost function Splitting(free: Lists, index: nat, i: nat, c: nat): Lists
    requires index <= c <= i < |free| && free[i] != []
  {
    if c == i then free
    else seq(|free|, j requires 0 <= j < |free| =>
               if j == c then [free[i][0], free[i][0] + Pow2(c)]
               else if c < j < i then [free[i][0] + Pow2(j)]
               else if j == i then free[i][1..] else free[j])
  }

  lemma SplittingAt(free: Lists, index: nat, i: nat, c: nat)
    requires index < c <= i < |free| && i == FirstNonEmpty(free, index)
    ensures var f := Splitting(free, index, i, c);
            && f[c] == [free[i][0]] + (if c < i then [free[i][0] + Pow2(c)] else free[i][1..])
            && f[c - 1] == []
  {
  }

  lemma SplittingStep(free: Lists, index: nat, i: nat, c: nat)
    requires index < c <= i < |free| && i == FirstNonEmpty(free, index)
    ensures var f := Splitting(free, index, i, c);
            && f[c] != []
            && Splitting(free, index, i, c - 1)
               == f[c := f[c][1..]][c - 1 := [f[c][0], f[c][0] + Pow2(c - 1)] + f[c - 1]]
  {
    hide Pow2, FirstNonEmpty;
    SplittingAt(free, index, i, c);
    var f, g := Splitting(free, index, i, c), Splitting(free, index, i, c - 1);
    var tail := if c < i then [free[i][0] + Pow2(c)] else free[i][1..];
    assert f[c][1..] == tail;
    var left := [f[c][0], f[c][0] + Pow2(c - 1)];
    assert left + f[c - 1] == left;
    assert g == f[c := tail][c - 1 := left] by {
      forall j | 0 <= j < |free| ensures g[j] == f[c := tail][c - 1 := left][j] {}
    }
  }

  lemma SplittingDone(free: Lists, index: nat)
    requires index < |free| && FirstNonEmpty(free, index) < |free|
    ensures var f, r := Splitting(free, index, FirstNonEmpty(free, index), index), Alloc(free, index);
            && f[index] != [] && f[index][0] == r.off
            && f[index := f[index][1..]] == r.free
            && -1 <= MaxIndex(free) < |r.free|
            && forall j :: MaxIndex(free) < j < |r.free| ==> r.free[j] == []
  {
    var i := FirstNonEmpty(free, index);
    var f, r := Splitting(free, index, i, index), Alloc(free, index);
    assert i <= MaxIndex(free);
    assert f[index := f[index][1..]] == r.free by {
      if index < i {
        assert f[index][1..] == [r.off + Pow2(index)] == r.free[index];
      }
    }
  }

  class Area {
    const mr: MemRegion
    var maxIndex: int
    const blockHead: array<seq<FreeBlk>>
    ghost var free: Lists

    /** The free lists hold exactly the blocks that `free` names. */
    ghost predicate Represents()
      reads this, blockHead
    {
      && blockHead.Length == MAX_ORDER == |free|
      && forall i :: 0 <= i < MAX_ORDER ==> blockHead[i] == Blks(mr, i, free[i])
    }

    /** The area carries a buddy system and `maxIndex` is exact. */
    ghost predicate Built()
      reads this, blockHead
    {
      Represents() && maxIndex == MaxIndex(free)
    }

    /** The allocation part of `dhmp_area_create`: a registered region without buddy lists. */
    constructor (mr: MemRegion)
      ensures this.mr == mr && fresh(blockHead) && blockHead.Length == MAX_ORDER && maxIndex == -2
    {
      this.mr := mr;
      maxIndex := -2;
      blockHead := new seq<FreeBlk>[MAX_ORDER](_ => []);
      free := [];
    }

    method BuildBuddySystem()
      requires blockHead.Length == MAX_ORDER
      modifies this`free, blockHead
      ensures Represents() && free == InitialLists(MAX_ORDER)
    {
      var size, total := BUDDY_SIZE[0], 0;
      for i := 0 to MAX_ORDER
        invariant size == UNIT * Pow2(i)
        invariant total == if i == 0 then 0 else UNIT * Pow2(i)
        invariant forall k :: 0 <= k < i ==> blockHead[k] == Blks(mr, k, InitialLists(MAX_ORDER)[k])
      {
        BuddySizes(i);
        blockHead[i] := [];
        for j := 0 to BUDDY_NUM[i]
          invariant total == UNIT * ((if i == 0 then 0 else Pow2(i)) + j * Pow2(i))
          invariant |blockHead[i]| == j
          invariant forall m :: 0 <= m < j ==>
              blockHead[i][m] == Blks(mr, i, InitialLists(MAX_ORDER)[i])[m]
          invariant forall k :: 0 <= k < i ==> blockHead[k] == Blks(mr, k, InitialLists(MAX_ORDER)[k])
        {
          blockHead[i] := blockHead[i] + [FreeBlk(mr.addr + total, size, mr.lkey)];
          total := total + size;
        }
        assert blockHead[i] == Blks(mr, i, InitialLists(MAX_ORDER)[i]);
        size := size * 2;
      }
      free := InitialLists(MAX_ORDER);
    }

    /** Upward scan for the first non-empty list. */
    method FirstServing(index: nat) returns (i: nat)
      requires Represents() && index <= MAX_ORDER
      ensures i == FirstNonEmpty(free, index)
    {
      i := index;
      while i < MAX_ORDER && blockHead[i] == []
        invariant index <= i <= MAX_ORDER
        invariant forall j :: index <= j < i ==> free[j] == []
      {
        i := i + 1;
      }
    }

    /** Split the first block of list i; both halves go to the front of list i-1. */
    method SplitHead(i: nat)
      requires Represents() && 1 <= i < MAX_ORDER && free[i] != []
      modifies this`free, blockHead
      ensures Represents()
      ensures var u := old(free)[i][0];
              free == old(free)[i := old(free)[i][1..]]
                               [i - 1 := [u, u + Pow2(i - 1)] + old(free)[i - 1]]
    {
      BuddySizes(i);
      BuddySizes(i - 1);
      ghost var u := free[i][0];
      var left := blockHead[i][0];
      blockHead[i] := blockHead[i][1..];
      left := left.(size := left.size / 2);
      var right := FreeBlk(left.addr + left.size, left.size, left.lkey);
      blockHead[i - 1] := [right] + blockHead[i - 1];
      blockHead[i - 1] := [left] + blockHead[i - 1];
      free := free[i := free[i][1..]][i - 1 := [u, u + Pow2(i - 1)] + free[i - 1]];
      assert blockHead[i - 1] == Blks(mr, i - 1, free[i - 1]);
    }

    method TakeHead(i: nat) returns (res: FreeBlk)
      requires Represents() && i < MAX_ORDER && free[i] != []
      modifies this`free, blockHead
      ensures Represents()
      ensures free == old(free)[i := old(free)[i][1..]]
      ensures res == FreeBlk(AddrOf(mr, old(free)[i][0]), BUDDY_SIZE[i], mr.lkey)
    {
      res := blockHead[i][0];
      blockHead[i] := blockHead[i][1..];
      free := free[i := free[i][1..]];
    }

    method GetFreeBlock(index: nat) returns (res: Option<FreeBlk>)
      requires Built() && index < MAX_ORDER
      modifies this, blockHead
      ensures Built()
      ensures match Alloc(old(free), index)
              case NoBlock => res == None && free == old(free)
              case Taken(left, off) =>
                res == Some(FreeBlk(AddrOf(mr, off), BUDDY_SIZE[index], mr.lkey)) && free == left
    {
      ghost var start := free;
      ghost var top := FirstNonEmpty(free, index);
      var i := FirstServing(index);
      if i == MAX_ORDER {
        return None;
      }
      while i != index
        invariant blockHead.Length == MAX_ORDER && maxIndex == MaxIndex(start) && Represents()
        invariant index <= i <= top < MAX_ORDER
        invariant free == Splitting(start, index, top, i)
        decreases i
      {
        SplittingStep(start, index, top, i);
        SplitHead(i);
        assert free == Splitting(start, index, top, i - 1);
        assert free[i - 1] != [] && forall j :: index <= j < i - 1 ==> free[j] == [];
        i := FirstServing(index);
      }
      SplittingDone(start, index);
      var blk := TakeHead(i);
      res := Some(blk);
      RefreshMaxIndex(maxIndex);
    }

    /** The downward scan for the highest non-empty list. */
    method RefreshMaxIndex(start: int)
      requires Represents() && -1 <= start < MAX_ORDER
      requires forall j :: start < j < MAX_ORDER ==> free[j] == []
      modifies this`maxIndex
      ensures Built()
    {
      var i := start;
      while i >= 0 && blockHead[i] == []
        invariant -1 <= i < MAX_ORDER
        invariant forall j :: i < j < MAX_ORDER ==> free[j] == []
      {
        i := i - 1;
      }
      maxIndex := i;
    }

    /** `dhmp_free_blk_create` and the insertion in front of the k-th list element. */
    method InsertAt(ghost off: nat, addr: nat, index: nat, k: nat)
      requires Represents() && index < MAX_ORDER && k <= |free[index]| && addr == AddrOf(mr, off)
      modifies this`free, blockHead
      ensures Represents()
      ensures free == old(free)[index := old(free)[index][..k] + [off] + old(free)[index][k..]]
    {
      blockHead[index] := blockHead[index][..k] + [FreeBlk(addr, BUDDY_SIZE[index], mr.lkey)] + blockHead[index][k..];
      free := free[index := free[index][..k] + [off] + free[index][k..]];
    }

    /** Position of the first block whose address is larger. */
    method InsertPosition(ghost off: nat, addr: nat, index: nat) returns (k: nat)
      requires Represents() && index < MAX_ORDER && addr == AddrOf(mr, off)
      ensures k <= |free[index]|
      ensures free[index][..k] + [off] + free[index][k..] == InsertSorted(free[index], off)
    {
      k := 0;
      while k < |blockHead[index]| && addr >= blockHead[index][k].addr
        invariant k <= |blockHead[index]|
        invariant forall j :: 0 <= j < k ==> free[index][j] <= off
      {
        k := k + 1;
      }
      InsertSortedAt(free[index], off, k);
    }

    /** Position of the buddy in the list, or the length of the list. */
    method FindBuddy(ghost off: nat, addr: nat, index: nat) returns (k: nat)
      requires Represents() && index + 1 < MAX_ORDER && addr == AddrOf(mr, off) && Aligned(off, index)
      ensures k <= |free[index]|
      ensures forall j :: 0 <= j < k ==> free[index][j] != BuddyOff(off, index)
      ensures k < |free[index]| ==> free[index][k] == BuddyOff(off, index)
    {
      AlignmentTest(off, index + 1);
      BuddySizes(index);
      var leftDir := true;
      if (addr - mr.addr) % BUDDY_SIZE[index + 1] != 0 {
        leftDir := false;
      }
      k := 0;
      while k < |blockHead[index]|
        invariant k <= |blockHead[index]|
        invariant forall j :: 0 <= j < k ==> free[index][j] != BuddyOff(off, index)
      {
        if (leftDir && addr + BUDDY_SIZE[index] == blockHead[index][k].addr)
           || (!leftDir && blockHead[index][k].addr + BUDDY_SIZE[index] == addr) {
          return;
        }
        k := k + 1;
      }
    }

    /** `dhmp_recycle_free_block`: true means merged, and the block at hand is now the parent. */
    method RecycleFreeBlock(ghost off: nat, addr: nat, index: nat) returns (merged: bool, newAddr: nat)
      requires Represents() && index < MAX_ORDER && addr == AddrOf(mr, off) && Aligned(off, index)
      modifies this`free, blockHead
      ensures Represents()
      ensures merged <==> index + 1 < MAX_ORDER && BuddyOff(off, index) in old(free)[index]
      ensures if merged
              then newAddr == AddrOf(mr, ParentOff(off, index))
                   && free == old(free)[index := Remove(old(free)[index], BuddyOff(off, index))]
              else newAddr == addr
                   && free == old(free)[index := InsertSorted(old(free)[index], off)]
    {
      newAddr := addr;
      if blockHead[index] == [] {
        InsertSortedAt(free[index], off, 0);
        InsertAt(off, addr, index, 0);
        return false, newAddr;
      }
      if index != MAX_ORDER - 1 {
        var b := FindBuddy(off, addr, index);
        if b < |blockHead[index]| {
          newAddr := if addr > blockHead[index][b].addr then blockHead[index][b].addr else addr;
          RemoveAt(free[index], BuddyOff(off, index), b);
          blockHead[index] := blockHead[index][..b] + blockHead[index][b + 1..];
          free := free[index := free[index][..b] + free[index][b + 1..]];
          return true, newAddr;
        }
      }
      var k := InsertPosition(off, addr, index);
      InsertAt(off, addr, index, k);
      return false, newAddr;
    }

    /** The part of `dhmp_free_one_block` after the area has been found. */
    method ReturnBlock(ghost off: nat, ghost order: nat, addr: nat, length: nat)
      requires Built() && order < MAX_ORDER && Aligned(off, order)
      requires addr == AddrOf(mr, off) && length == BUDDY_SIZE[order]
      modifies this, blockHead
      ensures Built() && free == Free(old(free), off, order)
    {
      var index := 0;
      while index < MAX_ORDER && length != BUDDY_SIZE[index]
        invariant 0 <= index <= order
      {
        index := index + 1;
      }
      BuddySizes(order);
      ghost var start, u := free, off;
      var at := addr;
      BuddyFacts(u, index);
      var merged, next := RecycleFreeBlock(u, at, index);
      while merged && index != MAX_ORDER - 1
        invariant blockHead.Length == MAX_ORDER && Represents()
        invariant index < MAX_ORDER && Aligned(u, index)
        invariant merged ==> Aligned(ParentOff(u, index), index + 1)
        invariant merged ==> index + 1 < MAX_ORDER && next == AddrOf(mr, ParentOff(u, index))
                             && Free(start, off, order) == Free(free, ParentOff(u, index), index + 1)
        invariant !merged ==> free == Free(start, off, order)
        decreases merged, MAX_ORDER - index
      {
        u := ParentOff(u, index);
        at := next;
        index := index + 1;
        BuddyFacts(u, index);
        merged, next := RecycleFreeBlock(u, at, index);
      }
      RefreshMaxIndex(MAX_ORDER - 1);
    }
  }
}
