/** What the poll round's choice of objects achieves, and that it is a legal one. */
module PollTheorems {
  import opened PollRound

  // ---------- lists of positions ----------

  lemma {:induction false} AscIn(sa: seq<SortEntry>, lo: nat, hi: nat, flag: bool, i: nat)
    requires lo <= hi <= |sa|
    ensures i in Asc(sa, lo, hi, flag) <==> lo <= i < hi && sa[i].inDram == flag
    decreases hi - lo
  {
    if lo < hi {
      AscIn(sa, lo, hi - 1, flag, i);
    }
  }

  lemma {:induction false} DescIn(sa: seq<SortEntry>, lo: nat, hi: nat, flag: bool, i: nat)
    requires lo <= hi <= |sa|
    ensures i in Desc(sa, lo, hi, flag) <==> lo <= i < hi && sa[i].inDram == flag
    decreases hi - lo
  {
    if lo < hi {
      DescIn(sa, lo + 1, hi, flag, i);
    }
  }

  predicate Falling(ps: seq<nat>) {
    forall i, j :: 0 <= i < j < |ps| ==> ps[i] > ps[j]
  }

  predicate Rising(ps: seq<nat>) {
    forall i, j :: 0 <= i < j < |ps| ==> ps[i] < ps[j]
  }

  lemma {:induction false} AscRises(sa: seq<SortEntry>, lo: nat, hi: nat, flag: bool)
    requires lo <= hi <= |sa|
    ensures Rising(Asc(sa, lo, hi, flag))
    decreases hi - lo
  {
    if lo < hi {
      AscRises(sa, lo, hi - 1, flag);
      var r := Asc(sa, lo, hi - 1, flag);
      assert forall k :: 0 <= k < |r| ==> r[k] in r;
    }
  }

  lemma {:induction false} DescFalls(sa: seq<SortEntry>, lo: nat, hi: nat, flag: bool)
    requires lo <= hi <= |sa|
    ensures Falling(Desc(sa, lo, hi, flag))
    decreases hi - lo
  {
    if lo < hi {
      DescFalls(sa, lo + 1, hi, flag);
      var r := Desc(sa, lo + 1, hi, flag);
      assert forall k :: 0 <= k < |r| ==> r[k] in r;
    }
  }

  lemma HotFalls(sa: seq<SortEntry>)
    ensures Falling(HotPos(sa))
  {
    var p, a, b := Split(sa), SwapPos(sa), MorePos(sa);
    var q := if Overlooks(sa) then p - 1 else p;
    hide Asc, Desc, Overlooks, Split;
    DescFalls(sa, p, |sa|, false);
    DescFalls(sa, 0, q, false);
    assert forall k :: 0 <= k < |a| ==> a[k] in a;
    assert forall k :: 0 <= k < |b| ==> b[k] in b;
  }

  // ---------- top k ----------

  function Cached(sa: seq<SortEntry>): set<nat> {
    set i | 0 <= i < |sa| && sa[i].inDram
  }

  function SetOf(ps: seq<nat>): set<nat> { set p | p in ps }

  /** The cached objects once the cold ones are evicted and their partners admitted. */
  function AfterSwap(sa: seq<SortEntry>): set<nat> {
    Cached(sa) - SetOf(ColdPos(sa)) + SetOf(SwapPos(sa))
  }

  /** The exchange keeps the number of cached objects and leaves exactly the last ones of the
      sorted array cached: nothing outside is accessed more often than anything inside. */
  lemma SwapIsTopK(sa: seq<SortEntry>)
    requires Sorted(sa)
    ensures |ColdPos(sa)| == |SwapPos(sa)|
    ensures forall i: nat :: i in AfterSwap(sa) <==> Split(sa) <= i < |sa|
    ensures |AfterSwap(sa)| == |Cached(sa)| == |sa| - Split(sa)
    ensures forall i, j :: i in AfterSwap(sa) && 0 <= j < |sa| && j !in AfterSwap(sa) ==> sa[j].rwcnt <= sa[i].rwcnt
  {
    SwapBalanced(sa);
    forall i: nat
      ensures i in AfterSwap(sa) <==> Split(sa) <= i < |sa|
    {
      AscIn(sa, 0, Split(sa), true, i);
      DescIn(sa, Split(sa), |sa|, false, i);
    }
    hide Split, Asc, Desc;
    CountCached(sa, |sa|);
    assert AfterSwap(sa) == Range(Split(sa), |sa|);
    SplitSize(sa);
  }

  lemma SplitSize(sa: seq<SortEntry>)
    ensures |Asc(sa, 0, |sa|, true)| == |sa| - Split(sa)
  {
  }

  lemma {:induction false} CountCached(sa: seq<SortEntry>, hi: nat)
    requires hi <= |sa|
    ensures |set i | 0 <= i < hi && sa[i].inDram| == |Asc(sa, 0, hi, true)|
    decreases hi
  {
    if hi > 0 {
      CountCached(sa, hi - 1);
      var s, t := set i | 0 <= i < hi && sa[i].inDram, set i | 0 <= i < hi - 1 && sa[i].inDram;
      assert s == t + if sa[hi - 1].inDram then {hi - 1} else {};
    }
  }

  function Range(lo: nat, hi: nat): (r: set<nat>)
    requires lo <= hi
    ensures |r| == hi - lo && forall i :: i in r <==> lo <= i < hi
    decreases hi - lo
  {
    if lo == hi then {} else Range(lo, hi - 1) + {hi - 1}
  }

  // ---------- the lists ----------

  /** Cold objects are cached, hot ones are not and reach the threshold, none is listed twice,
      and the hot list never gets hotter, so any prefix of it is at least as hot as the rest. */
  lemma ListsAreProper(sa: seq<SortEntry>, threshold: nat)
    requires Sorted(sa) && Eligible(sa, threshold)
    ensures forall p :: p in ColdPos(sa) ==> p < |sa| && sa[p].inDram
    ensures forall p :: p in HotPos(sa) ==> p < |sa| && !sa[p].inDram && sa[p].rwcnt >= threshold
    ensures Rising(ColdPos(sa)) && Falling(HotPos(sa))
    ensures forall i, j :: 0 <= i < j < |HotPos(sa)| ==>
              HotPos(sa)[i] in HotPos(sa) && HotPos(sa)[j] in HotPos(sa)
              && sa[HotPos(sa)[i]].rwcnt >= sa[HotPos(sa)[j]].rwcnt
  {
    AscRises(sa, 0, Split(sa), true);
    HotFalls(sa);
    forall p | p in ColdPos(sa) ensures p < |sa| && sa[p].inDram {
      AscIn(sa, 0, Split(sa), true, p);
    }
    forall p | p in HotPos(sa) ensures p < |sa| && !sa[p].inDram && sa[p].rwcnt >= threshold {
      HotIn(sa, p);
    }
  }

  /** Exactly the uncached considered objects are hot, but for the one the pointers overlook. */
  lemma HotIn(sa: seq<SortEntry>, p: nat)
    ensures p in HotPos(sa) <==> p < |sa| && !sa[p].inDram && !(Overlooks(sa) && p == Split(sa) - 1)
  {
    var q := if Overlooks(sa) then Split(sa) - 1 else Split(sa);
    DescIn(sa, Split(sa), |sa|, false, p);
    DescIn(sa, 0, q, false, p);
    hide Asc, Desc;
    assert p in HotPos(sa) <==> p in SwapPos(sa) || p in MorePos(sa);
  }

  /** An uncached entry is not asked for exactly if it has as many entries above it as are cached in
      all and the one right above it, if any, is not cached. */
  lemma NotAskedExactly(sa: seq<SortEntry>, p: nat)
    requires p < |sa| && !sa[p].inDram
    ensures p !in HotPos(sa) <==> |sa| - (p + 1) == |Cached(sa)| && (p + 1 == |sa| || !sa[p + 1].inDram)
  {
    HotIn(sa, p);
    CountCached(sa, |sa|);
    SplitSize(sa);
    hide Asc, Desc, HotPos;
    assert Cached(sa) == set i | 0 <= i < |sa| && sa[i].inDram;
  }

  /** What is given up is the cached entries with at least as many entries above them as are
      cached in all. */
  lemma ColdExactly(sa: seq<SortEntry>, p: nat)
    ensures p in ColdPos(sa) <==> p < |sa| && sa[p].inDram && |sa| - p > |Cached(sa)|
  {
    AscIn(sa, 0, Split(sa), true, p);
    CountCached(sa, |sa|);
    SplitSize(sa);
    hide Asc;
    assert Cached(sa) == set i | 0 <= i < |sa| && sa[i].inDram;
  }

  /** With nothing cached, the round asks for every considered object except the hottest. */
  lemma EmptyCacheOverlooksHottest(sa: seq<SortEntry>)
    requires sa != [] && forall i :: 0 <= i < |sa| ==> !sa[i].inDram
    ensures forall p :: p in HotPos(sa) <==> 0 <= p < |sa| - 1
  {
    Complement(sa, 0, |sa|);
    NoneCached(sa, |sa|);
    forall p: nat ensures p in HotPos(sa) <==> p < |sa| - 1 {
      HotIn(sa, p);
    }
  }

  lemma {:induction false} NoneCached(sa: seq<SortEntry>, hi: nat)
    requires hi <= |sa| && forall i :: 0 <= i < |sa| ==> !sa[i].inDram
    ensures Asc(sa, 0, hi, true) == []
    decreases hi
  {
    if hi > 0 {
      NoneCached(sa, hi - 1);
    }
  }
}
