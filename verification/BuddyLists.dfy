/**
 The free lists of one buddy area, as values: what the allocation and the free of
 one block do to them, and what every run of such steps keeps.  The imperative
 allocator of module BuddyArea is proved to compute exactly these functions.
 */
module BuddyLists {
  import opened BuddyBlocks

  /** free[i] holds the offsets of the free order-i blocks, in list order. */
  type Lists = seq<seq<nat>>

  datatype AllocResult = NoBlock | Taken(free: Lists, off: nat)

  // ---------- the operations ----------

  /** The lists `dhmp_buddy_system_build` lays out for n orders: {0,1}, {2}, {4}, ... */
  function InitialLists(n: nat): Lists {
    seq(n, i requires 0 <= i => if i == 0 then [0, 1] else [Pow2(i)])
  }

  /** Smallest order from `index` up with a free block, or |free|. */
  function FirstNonEmpty(free: Lists, index: nat): (i: nat)
    requires index <= |free|
    ensures index <= i <= |free|
    ensures forall j :: index <= j < i ==> free[j] == []
    ensures i < |free| ==> free[i] != []
    decreases |free| - index
  {
    if index == |free| || free[index] != [] then index else FirstNonEmpty(free, index + 1)
  }

  /** Largest order with a free block, or -1. */
  function MaxIndex(free: Lists): (m: int)
    ensures -1 <= m < |free|
    ensures m >= 0 ==> free[m] != []
    ensures forall j :: m < j < |free| ==> free[j] == []
  {
    if free == [] then -1
    else if free[|free| - 1] != [] then |free| - 1
    else MaxIndex(free[..|free| - 1])
  }

  /** One allocation in closed form: the first block of the first list that serves is
      taken, and each order it is split through is left with exactly the right half. */
  function Alloc(free: Lists, index: nat): AllocResult
    requires index < |free|
  {
    var i := FirstNonEmpty(free, index);
    if i == |free| then NoBlock
    else
      var u := free[i][0];
      Taken(seq(|free|, j requires 0 <= j < |free| =>
                  if index <= j < i then [u + Pow2(j)]
                  else if j == i then free[i][1..] else free[j]),
            u)
  }

  function InsertSorted(s: seq<nat>, u: nat): seq<nat> {
    if s == [] || u < s[0] then [u] + s else [s[0]] + InsertSorted(s[1..], u)
  }

  function Remove(s: seq<nat>, u: nat): seq<nat> {
    if s == [] then []
    else if s[0] == u then s[1..]
    else [s[0]] + Remove(s[1..], u)
  }

  /** One free: merge with the buddy as long as it is free, then insert in address order. */
  function Free(free: Lists, off: nat, order: nat): (r: Lists)
    requires order < |free| && Aligned(off, order)
    ensures |r| == |free|
    decreases |free| - order
  {
    if order + 1 < |free| && BuddyOff(off, order) in free[order] then
      BuddyFacts(off, order);
      Free(free[order := Remove(free[order], BuddyOff(off, order))], ParentOff(off, order), order + 1)
    else
      free[order := InsertSorted(free[order], off)]
  }

  // ---------- the invariant ----------

  ghost function FreeBlocks(free: Lists): set<Block> {
    set i, u | 0 <= i < |free| && u in free[i] :: Block(u, i)
  }

  predicate Ascending(s: seq<nat>) {
    forall a, b :: 0 <= a < b < |s| ==> s[a] < s[b]
  }

  predicate AllAscending(free: Lists) {
    forall i :: 0 <= i < |free| ==> Ascending(free[i])
  }

  /** No two halves of one block are both free at this order. */
  predicate NoBuddies(s: seq<nat>, order: nat) {
    forall u: nat :: u in s && Aligned(u, order + 1) ==> u + Pow2(order) !in s
  }

  predicate Coalesced(free: Lists) {
    forall i :: 0 <= i && i + 1 < |free| ==> NoBuddies(free[i], i)
  }

  /** Free and outstanding blocks tile the area, lists are ascending, nothing is left to merge. */
  ghost predicate Strict(free: Lists, out: set<Block>) {
    && |free| >= 1
    && AllAscending(free)
    && FreeBlocks(free) !! out
    && Tiles(FreeBlocks(free) + out, |free|)
    && Coalesced(free)
  }

  /** Before the first order-0 allocation the two initial order-0 halves stay apart: the
      state is strict once they are looked at as if they were handed out. */
  ghost predicate Pristine(free: Lists, out: set<Block>) {
    && |free| >= 1
    && free[0] == [0, 1]
    && (forall b :: b in out ==> b.order > 0)
    && Strict(Hidden(free), out + HiddenPair())
  }

  ghost function Hidden(free: Lists): Lists
    requires |free| >= 1
  {
    free[0 := []]
  }

  ghost function HiddenPair(): set<Block> { {Block(0, 0), Block(1, 0)} }

  ghost predicate Inv(free: Lists, out: set<Block>) {
    Strict(free, out) || Pristine(free, out)
  }

  // ---------- list facts ----------

  lemma TailFacts(s: seq<nat>)
    requires Ascending(s) && s != []
    ensures Ascending(s[1..])
    ensures forall v :: v in s[1..] <==> v in s && v != s[0]
    ensures forall v :: v in s[1..] ==> s[0] < v
  {
    assert s == [s[0]] + s[1..];
  }

  lemma {:induction false} InsertSortedFacts(s: seq<nat>, u: nat)
    requires Ascending(s) && u !in s
    ensures Ascending(InsertSorted(s, u))
    ensures forall v :: v in InsertSorted(s, u) <==> v == u || v in s
  {
    if s == [] {
    } else if u < s[0] {
      TailFacts(s);
      ConsAscending(u, s);
    } else {
      TailFacts(s);
      InsertSortedFacts(s[1..], u);
      assert s[0] != u;
      ConsAscending(s[0], InsertSorted(s[1..], u));
    }
  }

  lemma {:induction false} RemoveFacts(s: seq<nat>, u: nat)
    requires Ascending(s)
    ensures Ascending(Remove(s, u))
    ensures forall v :: v in Remove(s, u) <==> v != u && v in s
  {
    if s != [] {
      TailFacts(s);
      if s[0] != u {
        RemoveFacts(s[1..], u);
        ConsAscending(s[0], Remove(s[1..], u));
      }
    }
  }

  lemma ConsAscending(h: nat, t: seq<nat>)
    requires Ascending(t) && forall v :: v in t ==> h < v
    ensures Ascending([h] + t)
    ensures forall v :: v in [h] + t <==> v == h || v in t
  {
    assert forall k :: 0 <= k < |t| ==> t[k] in t;
  }

  /** Two ascending sequences with the same elements are the same. */
  lemma {:induction false} AscendingUnique(s: seq<nat>, t: seq<nat>)
    requires Ascending(s) && Ascending(t)
    requires forall v :: v in s <==> v in t
    ensures s == t
  {
    assert s != [] ==> s[0] in s;
    assert t != [] ==> t[0] in t;
    if s != [] && t != [] {
      TailFacts(s);
      TailFacts(t);
      assert s[0] in t && t[0] in s;
      AscendingUnique(s[1..], t[1..]);
      assert s == [s[0]] + s[1..] && t == [t[0]] + t[1..];
    }
  }
}
