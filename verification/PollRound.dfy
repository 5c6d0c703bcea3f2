/**
 A client's poll round for one server: which objects it asks to be cached and which it
 gives up.  In cache mode the considered objects are sorted by access count and two
 pointers exchange the coldest cached objects for the hottest uncached ones.
 */
module PollRound {
  import opened DramCache

  datatype SortEntry = SortEntry(addr: Addr, length: nat, rwcnt: nat, inDram: bool)

  function InfoOf(e: SortEntry): NvmInfo { NvmInfo(e.addr, e.length) }

  predicate Sorted(sa: seq<SortEntry>) {
    forall i, j :: 0 <= i < j < |sa| ==> sa[i].rwcnt <= sa[j].rwcnt
  }

  /** Uncached objects are only considered when accessed often enough. */
  predicate Eligible(sa: seq<SortEntry>, threshold: nat) {
    forall i :: 0 <= i < |sa| && !sa[i].inDram ==> sa[i].rwcnt >= threshold
  }

  // ---------- specification: positions ----------

  /** Positions in lo..hi whose cached flag is `flag`, ascending. */
  function Asc(sa: seq<SortEntry>, lo: nat, hi: nat, flag: bool): (r: seq<nat>)
    requires lo <= hi <= |sa|
    ensures forall i :: i in r ==> lo <= i < hi
    decreases hi - lo
  {
    if lo == hi then []
    else Asc(sa, lo, hi - 1, flag) + (if sa[hi - 1].inDram == flag then [hi - 1] else [])
  }

  /** The same, descending. */
  function Desc(sa: seq<SortEntry>, lo: nat, hi: nat, flag: bool): (r: seq<nat>)
    requires lo <= hi <= |sa|
    ensures forall i :: i in r ==> lo <= i < hi
    decreases hi - lo
  {
    if lo == hi then []
    else Desc(sa, lo + 1, hi, flag) + (if sa[lo].inDram == flag then [lo] else [])
  }

  /** Where the top k begin, k being the number of considered objects now cached. */
  function Split(sa: seq<SortEntry>): (p: nat)
    ensures p <= |sa|
  {
    CountBound(sa, 0, |sa|);
    |sa| - |Asc(sa, 0, |sa|, true)|
  }

  /** The pointers meet on the uncached object just below the split, which is then overlooked. */
  predicate Overlooks(sa: seq<SortEntry>) {
    var p := Split(sa);
    p > 0 && !sa[p - 1].inDram && (p == |sa| || !sa[p].inDram)
  }

  /** Cached objects below the split, coldest first. */
  function ColdPos(sa: seq<SortEntry>): seq<nat> {
    Asc(sa, 0, Split(sa), true)
  }

  /** Uncached objects above the split, hottest first: one for each cold one. */
  function SwapPos(sa: seq<SortEntry>): seq<nat> {
    Desc(sa, Split(sa), |sa|, false)
  }

  /** Further uncached objects, hottest first, possibly without the overlooked one. */
  function MorePos(sa: seq<SortEntry>): seq<nat> {
    Desc(sa, 0, if Overlooks(sa) then Split(sa) - 1 else Split(sa), false)
  }

  function HotPos(sa: seq<SortEntry>): seq<nat> {
    SwapPos(sa) + MorePos(sa)
  }

  function At(sa: seq<SortEntry>, ps: seq<nat>): (r: seq<NvmInfo>)
    requires forall p :: p in ps ==> p < |sa|
    ensures |r| == |ps| && forall i :: 0 <= i < |ps| ==> ps[i] in ps && r[i] == InfoOf(sa[ps[i]])
  {
    seq(|ps|, i requires 0 <= i < |ps| => assert ps[i] in ps; InfoOf(sa[ps[i]]))
  }

  function Cold(sa: seq<SortEntry>): seq<NvmInfo> { At(sa, ColdPos(sa)) }
  function Hot(sa: seq<SortEntry>): seq<NvmInfo> { At(sa, HotPos(sa)) }

  function SumLengths(infos: seq<NvmInfo>): nat {
    if infos == [] then 0 else SumLengths(infos[..|infos| - 1]) + infos[|infos| - 1].length
  }

  // ---------- counting ----------

  lemma {:induction false} CountBound(sa: seq<SortEntry>, lo: nat, hi: nat)
    requires lo <= hi <= |sa|
    ensures |Asc(sa, lo, hi, true)| <= hi - lo
    decreases hi - lo
  {
    if lo < hi {
      CountBound(sa, lo, hi - 1);
    }
  }

  lemma {:induction false} AscSplit(sa: seq<SortEntry>, lo: nat, mid: nat, hi: nat, flag: bool)
    requires lo <= mid <= hi <= |sa|
    ensures Asc(sa, lo, hi, flag) == Asc(sa, lo, mid, flag) + Asc(sa, mid, hi, flag)
    decreases hi - mid
  {
    if mid < hi {
      AscSplit(sa, lo, mid, hi - 1, flag);
    }
  }

  lemma {:induction false} DescSplit(sa: seq<SortEntry>, lo: nat, mid: nat, hi: nat, flag: bool)
    requires lo <= mid <= hi <= |sa|
    ensures Desc(sa, lo, hi, flag) == Desc(sa, mid, hi, flag) + Desc(sa, lo, mid, flag)
    decreases mid - lo
  {
    if lo < mid {
      DescSplit(sa, lo + 1, mid, hi, flag);
    }
  }

  lemma {:induction false} DescTop(sa: seq<SortEntry>, lo: nat, hi: nat, flag: bool)
    requires lo < hi <= |sa|
    ensures Desc(sa, lo, hi, flag) == (if sa[hi - 1].inDram == flag then [hi - 1] else []) + Desc(sa, lo, hi - 1, flag)
  {
    DescSplit(sa, lo, hi - 1, hi, flag);
    assert Desc(sa, hi, hi, flag) == [];
  }

  /** Every position is cached or not. */
  lemma {:induction false} Complement(sa: seq<SortEntry>, lo: nat, hi: nat)
    requires lo <= hi <= |sa|
    ensures |Asc(sa, lo, hi, true)| + |Desc(sa, lo, hi, false)| == hi - lo
    decreases hi - lo
  {
    if lo < hi {
      Complement(sa, lo, hi - 1);
      DescTop(sa, lo, hi, false);
    }
  }

  /** As many uncached objects above the split as cached ones below it. */
  lemma SwapBalanced(sa: seq<SortEntry>)
    ensures |ColdPos(sa)| == |SwapPos(sa)|
  {
    var p, n := Split(sa), |sa|;
    AscSplit(sa, 0, p, n, true);
    Complement(sa, p, n);
  }

  // ---------- the two-pointer algorithm ----------

  lemma AtAppend(sa: seq<SortEntry>, ps: seq<nat>, p: nat)
    requires p < |sa| && forall q :: q in ps ==> q < |sa|
    ensures At(sa, ps + [p]) == At(sa, ps) + [InfoOf(sa[p])]
  {
  }

  lemma SumAppend(infos: seq<NvmInfo>, x: NvmInfo)
    ensures SumLengths(infos + [x]) == SumLengths(infos) + x.length
  {
    assert (infos + [x])[..|infos|] == infos;
  }

  /** The pointers have exchanged as many cached objects below `start` as uncached ones above `end`. */
  ghost predicate Exchanged(sa: seq<SortEntry>, start: int, end: int) {
    && 0 <= start <= end + 1 <= |sa|
    && |Asc(sa, 0, start, true)| == |Desc(sa, end + 1, |sa|, false)|
    && (end + 1 == |sa| || !sa[end + 1].inDram || (start == end && sa[start].inDram))
    && (start == end + 1 ==> start == 0 || sa[start - 1].inDram)
  }

  lemma SplitIs(sa: seq<SortEntry>, p: nat)
    requires p <= |sa| && |Asc(sa, 0, p, true)| == |Desc(sa, p, |sa|, false)|
    ensures Split(sa) == p
  {
    hide Asc, Desc;
    AscSplit(sa, 0, p, |sa|, true);
    Complement(sa, p, |sa|);
  }

  /** Where the pointers stop determines the split and whether an object is overlooked. */
  lemma Met(sa: seq<SortEntry>, start: nat, end: int)
    requires Exchanged(sa, start, end) && start >= end
    ensures start <= |sa| && Asc(sa, 0, start, true) == ColdPos(sa)
    ensures Desc(sa, end + 1, |sa|, false) == SwapPos(sa)
    ensures start == if Overlooks(sa) then Split(sa) - 1 else Split(sa)
  {
    hide Asc, Desc, Split;
    if start == end {
      AscStep(sa, start);
      DescStep(sa, start, |sa|);
      SplitIs(sa, if sa[start].inDram then start else start + 1);
    } else {
      SplitIs(sa, start);
    }
  }

  lemma AscStep(sa: seq<SortEntry>, hi: nat)
    requires hi < |sa|
    ensures Asc(sa, 0, hi + 1, true) == Asc(sa, 0, hi, true) + (if sa[hi].inDram then [hi] else [])
  {
  }

  lemma DescStep(sa: seq<SortEntry>, lo: nat, hi: nat)
    requires lo < hi <= |sa|
    ensures Desc(sa, lo, hi, false) == Desc(sa, lo + 1, hi, false) + (if sa[lo].inDram then [] else [lo])
  {
  }

  /** The left pointer moves up to a cached object. */
  method SkipUncached(sa: seq<SortEntry>, start0: nat, end: nat) returns (start: nat)
    requires start0 <= end < |sa|
    ensures start0 <= start <= end && (start < end ==> sa[start].inDram)
    ensures Asc(sa, 0, start, true) == Asc(sa, 0, start0, true)
  {
    hide Asc;
    start := start0;
    while start < end && !sa[start].inDram
      invariant start0 <= start <= end
      invariant Asc(sa, 0, start, true) == Asc(sa, 0, start0, true)
    {
      AscStep(sa, start);
      start := start + 1;
    }
  }

  /** The right pointer moves down to an uncached object. */
  method SkipCached(sa: seq<SortEntry>, start: nat, end0: nat) returns (end: nat)
    requires start <= end0 < |sa|
    ensures start <= end <= end0 && (start < end ==> !sa[end].inDram)
    ensures Desc(sa, end + 1, |sa|, false) == Desc(sa, end0 + 1, |sa|, false)
  {
    hide Desc;
    end := end0;
    while end > start && sa[end].inDram
      invariant start <= end <= end0
      invariant Desc(sa, end + 1, |sa|, false) == Desc(sa, end0 + 1, |sa|, false)
    {
      DescStep(sa, end, |sa|);
      end := end - 1;
    }
  }

  /** The second scan: down from just below `top` while the access count reaches the threshold. */
  method ScanDown(sa: seq<SortEntry>, threshold: nat, top: nat, hot0: seq<NvmInfo>, size0: nat)
    returns (hot: seq<NvmInfo>, size: nat)
    requires top <= |sa| && Sorted(sa) && Eligible(sa, threshold) && size0 == SumLengths(hot0)
    ensures hot == hot0 + At(sa, Desc(sa, 0, top, false)) && size == SumLengths(hot)
  {
    hide Desc, SumLengths;
    hot, size := hot0, size0;
    var start: int := top;
    EmptyDesc(sa, top);
    start := start - 1;
    while start >= 0 && sa[start].rwcnt >= threshold
      invariant -1 <= start < top
      invariant hot == hot0 + At(sa, Desc(sa, start + 1, top, false))
      invariant size == SumLengths(hot)
    {
      DescStep(sa, start, top);
      if !sa[start].inDram {
        AtAppend(sa, Desc(sa, start + 1, top, false), start);
        SumAppend(hot, InfoOf(sa[start]));
        hot := hot + [InfoOf(sa[start])];
        size := size + sa[start].length;
      }
      start := start - 1;
    }
    NoneBelow(sa, threshold, start + 1, top);
  }

  lemma EmptyDesc(sa: seq<SortEntry>, top: nat)
    requires top <= |sa|
    ensures Desc(sa, top, top, false) == []
  {
  }

  lemma {:induction false} AllCached(sa: seq<SortEntry>, lo: nat)
    requires lo <= |sa| && forall i :: 0 <= i < lo ==> sa[i].inDram
    ensures Desc(sa, 0, lo, false) == []
  {
    if lo > 0 {
      AllCached(sa, lo - 1);
      DescTop(sa, 0, lo, false);
    }
  }

  /** Below an entry that misses the threshold every considered object is cached. */
  lemma NoneBelow(sa: seq<SortEntry>, threshold: nat, lo: nat, top: nat)
    requires lo <= top <= |sa| && Sorted(sa) && Eligible(sa, threshold)
    requires lo > 0 ==> sa[lo - 1].rwcnt < threshold
    ensures Desc(sa, 0, top, false) == Desc(sa, lo, top, false)
  {
    hide Desc;
    DescSplit(sa, 0, lo, top, false);
    assert forall i :: 0 <= i < lo - 1 ==> sa[i].rwcnt <= sa[lo - 1].rwcnt;
    AllCached(sa, lo);
  }

  lemma StartExchanged(sa: seq<SortEntry>)
    ensures Exchanged(sa, 0, |sa| - 1) && SumLengths([]) == 0
    ensures At(sa, Asc(sa, 0, 0, true)) == [] && At(sa, Desc(sa, |sa|, |sa|, false)) == []
  {
  }

  lemma Swap(sa: seq<SortEntry>, start: nat, end: nat)
    requires start < end < |sa| && sa[start].inDram && !sa[end].inDram
    ensures At(sa, Asc(sa, 0, start + 1, true)) == At(sa, Asc(sa, 0, start, true)) + [InfoOf(sa[start])]
    ensures At(sa, Desc(sa, end, |sa|, false)) == At(sa, Desc(sa, end + 1, |sa|, false)) + [InfoOf(sa[end])]
    ensures |Asc(sa, 0, start + 1, true)| == |Asc(sa, 0, start, true)| + 1
    ensures |Desc(sa, end, |sa|, false)| == |Desc(sa, end + 1, |sa|, false)| + 1
  {
    hide Asc, Desc;
    AscStep(sa, start);
    DescStep(sa, end, |sa|);
    AtAppend(sa, Asc(sa, 0, start, true), start);
    AtAppend(sa, Desc(sa, end + 1, |sa|, false), end);
  }

  /** `dhmp_handle_cache_model` */
  method HandleCacheModel(sa: seq<SortEntry>, threshold: nat)
    returns (cold: seq<NvmInfo>, hot: seq<NvmInfo>, reqDramSize: nat)
    requires Sorted(sa) && Eligible(sa, threshold)
    ensures cold == Cold(sa) && hot == Hot(sa)
    ensures reqDramSize == SumLengths(hot)
  {
    hide Asc, Desc, At, SumLengths, Overlooks, Split;
    var start, end: int := 0, |sa| - 1;
    cold, hot, reqDramSize := [], [], 0;
    StartExchanged(sa);
    while start < end
      invariant Exchanged(sa, start, end)
      invariant cold == At(sa, Asc(sa, 0, start, true))
      invariant hot == At(sa, Desc(sa, end + 1, |sa|, false))
      invariant reqDramSize == SumLengths(hot)
      decreases end - start
    {
      start := SkipUncached(sa, start, end);
      end := SkipCached(sa, start, end);
      if start < end {
        Swap(sa, start, end);
        SumAppend(hot, InfoOf(sa[end]));
        cold := cold + [InfoOf(sa[start])];
        hot := hot + [InfoOf(sa[end])];
        reqDramSize := reqDramSize + sa[end].length;
        start := start + 1;
        end := end - 1;
      }
    }
    Met(sa, start, end);
    hot, reqDramSize := ScanDown(sa, threshold, start, hot, reqDramSize);
    AtConcat(sa, SwapPos(sa), MorePos(sa));
  }

  lemma AtConcat(sa: seq<SortEntry>, ps: seq<nat>, qs: seq<nat>)
    requires (forall p :: p in ps ==> p < |sa|) && forall q :: q in qs ==> q < |sa|
    ensures At(sa, ps + qs) == At(sa, ps) + At(sa, qs)
  {
  }
}
