/**
 The scan of the client's address table that opens a poll round, and the proof that
 both policies send requests the cache protocol accepts.
 */
module PollSelect {
  import opened Wrappers
  import opened DramCache
  import opened CacheProtocol
  import opened PollRound
  import opened PollTheorems

  /** An entry of the client's address table. */
  datatype AddrInfo = AddrInfo(addr: Addr, length: nat, readCnt: nat, writeCnt: nat, dram: Option<Key>)

  function Accesses(o: AddrInfo): nat { o.readCnt + o.writeCnt }

  /** The object is worth caching: accessed often enough and not cached. */
  predicate Wanted(o: AddrInfo, threshold: nat) {
    Accesses(o) > 0 && Accesses(o) >= threshold && o.dram.None?
  }

  /** The object takes part in the cache-mode comparison. */
  predicate Considered(o: AddrInfo, threshold: nat) {
    Accesses(o) > 0 && (Accesses(o) >= threshold || o.dram.Some?)
  }

  function ToEntry(o: AddrInfo): SortEntry {
    SortEntry(o.addr, o.length, Accesses(o), o.dram.Some?)
  }

  /** What pool mode asks for, in table order. */
  function PoolHot(objs: seq<AddrInfo>, threshold: nat): seq<NvmInfo> {
    if objs == [] then []
    else
      var o := objs[|objs| - 1];
      PoolHot(objs[..|objs| - 1], threshold) + (if Wanted(o, threshold) then [NvmInfo(o.addr, o.length)] else [])
  }

  /** What cache mode sorts, in table order. */
  function SortEntries(objs: seq<AddrInfo>, threshold: nat): seq<SortEntry> {
    if objs == [] then []
    else
      var o := objs[|objs| - 1];
      SortEntries(objs[..|objs| - 1], threshold) + (if Considered(o, threshold) then [ToEntry(o)] else [])
  }

  lemma ScanNothing(threshold: nat)
    ensures PoolHot([], threshold) == [] && SortEntries([], threshold) == [] && SumLengths([]) == 0
  {
  }

  lemma ScanStep(objs: seq<AddrInfo>, i: nat, threshold: nat)
    requires i < |objs|
    ensures PoolHot(objs[..i + 1], threshold)
         == PoolHot(objs[..i], threshold)
            + (if Wanted(objs[i], threshold) then [NvmInfo(objs[i].addr, objs[i].length)] else [])
    ensures SortEntries(objs[..i + 1], threshold)
         == SortEntries(objs[..i], threshold) + (if Considered(objs[i], threshold) then [ToEntry(objs[i])] else [])
  {
    assert objs[..i + 1][..i] == objs[..i];
  }

  lemma AppendRising(pos: seq<nat>, n: nat)
    requires Rising(pos) && forall i :: i in pos ==> i < n
    ensures Rising(pos + [n])
    ensures forall i :: i in pos + [n] <==> i in pos || i == n
  {
    assert forall k :: 0 <= k < |pos| ==> pos[k] in pos;
  }

  /** What is compared is exactly the accessed objects that are cached or reach the threshold,
      in table order, each with its own count, length and flag. */
  lemma {:induction false} ComparedExactly(objs: seq<AddrInfo>, threshold: nat, n: nat) returns (pos: seq<nat>)
    requires n <= |objs|
    ensures var sa := SortEntries(objs[..n], threshold);
            && |pos| == |sa| && Rising(pos)
            && (forall i: nat :: i in pos <==>
                  i < n && objs[i].readCnt + objs[i].writeCnt > 0
                  && (objs[i].readCnt + objs[i].writeCnt >= threshold || objs[i].dram.Some?))
            && (forall k :: 0 <= k < |pos| ==>
                  && pos[k] < n
                  && sa[k] == SortEntry(objs[pos[k]].addr, objs[pos[k]].length,
                                        objs[pos[k]].readCnt + objs[pos[k]].writeCnt, objs[pos[k]].dram.Some?))
    decreases n
  {
    if n == 0 {
      pos := [];
    } else {
      hide SortEntries, Rising;
      pos := ComparedExactly(objs, threshold, n - 1);
      ScanStep(objs, n - 1, threshold);
      AppendRising(pos, n - 1);
      if Considered(objs[n - 1], threshold) {
        pos := pos + [n - 1];
      }
    }
  }

  /** What pool mode asks for is exactly the uncached accessed objects that reach the threshold,
      in table order. */
  lemma {:induction false} AskedExactly(objs: seq<AddrInfo>, threshold: nat, n: nat) returns (pos: seq<nat>)
    requires n <= |objs|
    ensures var hot := PoolHot(objs[..n], threshold);
            && |pos| == |hot| && Rising(pos)
            && (forall i: nat :: i in pos <==>
                  i < n && objs[i].readCnt + objs[i].writeCnt > 0
                  && objs[i].readCnt + objs[i].writeCnt >= threshold && objs[i].dram.None?)
            && (forall k :: 0 <= k < |pos| ==>
                  pos[k] < n && hot[k] == NvmInfo(objs[pos[k]].addr, objs[pos[k]].length))
    decreases n
  {
    if n == 0 {
      pos := [];
    } else {
      hide PoolHot, Rising;
      pos := AskedExactly(objs, threshold, n - 1);
      ScanStep(objs, n - 1, threshold);
      AppendRising(pos, n - 1);
      if Wanted(objs[n - 1], threshold) {
        pos := pos + [n - 1];
      }
    }
  }

  /** The table scan: selects by policy and resets the access counters. */
  method ScanTable(objs: array<AddrInfo>, threshold: nat, poolMode: bool)
    returns (hot: seq<NvmInfo>, sa: seq<SortEntry>, reqDramSize: nat)
    modifies objs
    ensures hot == if poolMode then PoolHot(old(objs[..]), threshold) else []
    ensures sa == if poolMode then [] else SortEntries(old(objs[..]), threshold)
    ensures reqDramSize == SumLengths(hot)
    ensures forall i :: 0 <= i < objs.Length ==> objs[i] == old(objs[i]).(readCnt := 0, writeCnt := 0)
    ensures poolMode ==> var was := old(objs[..]);
      exists pos: seq<nat> ::
        && |pos| == |hot| && Rising(pos)
        && (forall i: nat :: i in pos <==>
              i < |was| && was[i].readCnt + was[i].writeCnt > 0
              && was[i].readCnt + was[i].writeCnt >= threshold && was[i].dram.None?)
        && (forall k :: 0 <= k < |pos| ==> pos[k] < |was| && hot[k] == NvmInfo(was[pos[k]].addr, was[pos[k]].length))
    ensures !poolMode ==> var was := old(objs[..]);
      exists pos: seq<nat> ::
        && |pos| == |sa| && Rising(pos)
        && (forall i: nat :: i in pos <==>
              i < |was| && was[i].readCnt + was[i].writeCnt > 0
              && (was[i].readCnt + was[i].writeCnt >= threshold || was[i].dram.Some?))
        && (forall k :: 0 <= k < |pos| ==>
              && pos[k] < |was|
              && sa[k] == SortEntry(was[pos[k]].addr, was[pos[k]].length, was[pos[k]].readCnt + was[pos[k]].writeCnt,
                                    was[pos[k]].dram.Some?))
  {
    hide PoolHot, SortEntries, SumLengths, Rising;
    ghost var start := objs[..];
    ghost var asked := AskedExactly(start, threshold, |start|);
    ghost var compared := ComparedExactly(start, threshold, |start|);
    ScanNothing(threshold);
    hot, sa, reqDramSize := [], [], 0;
    for i := 0 to objs.Length
      invariant forall k :: 0 <= k < i ==> objs[k] == start[k].(readCnt := 0, writeCnt := 0)
      invariant forall k :: i <= k < objs.Length ==> objs[k] == start[k]
      invariant hot == if poolMode then PoolHot(start[..i], threshold) else []
      invariant sa == if poolMode then [] else SortEntries(start[..i], threshold)
      invariant reqDramSize == SumLengths(hot)
    {
      ScanStep(start, i, threshold);
      var o := objs[i];
      var rwCnt := o.readCnt + o.writeCnt;
      if rwCnt != 0 {
        if poolMode {
          if rwCnt >= threshold && o.dram == None {
            SumAppend(hot, NvmInfo(o.addr, o.length));
            hot := hot + [NvmInfo(o.addr, o.length)];
            reqDramSize := reqDramSize + o.length;
          }
        } else if rwCnt >= threshold || (rwCnt < threshold && o.dram != None) {
          sa := sa + [SortEntry(o.addr, o.length, rwCnt, o.dram != None)];
        }
        objs[i] := o.(readCnt := 0, writeCnt := 0);
      }
    }
    assert start[..|start|] == start;
  }

  // ---------- legality ----------

  /** The table holds each of the client's objects at most once, as the protocol state has it. */
  predicate TableOf(objs: seq<AddrInfo>, infos: map<Addr, Info>) {
    && (forall i, j :: 0 <= i < j < |objs| ==> objs[i].addr != objs[j].addr)
    && (forall i :: 0 <= i < |objs| ==> objs[i].addr in infos
                                        && infos[objs[i].addr] == Info(objs[i].length, objs[i].dram))
  }

  lemma TableInit(objs: seq<AddrInfo>, infos: map<Addr, Info>)
    requires objs != [] && TableOf(objs, infos)
    ensures TableOf(objs[..|objs| - 1], infos)
  {
  }

  lemma {:induction false} PoolHotFrom(objs: seq<AddrInfo>, threshold: nat, infos: map<Addr, Info>)
    requires TableOf(objs, infos)
    ensures var hot := PoolHot(objs, threshold);
            && Listed(infos, hot)
            && (forall x :: x in hot ==> exists o :: o in objs && Wanted(o, threshold) && x == NvmInfo(o.addr, o.length))
            && (forall i :: 0 <= i < |hot| ==> infos[hot[i].addr].dram.None?)
    decreases |objs|
  {
    if objs != [] {
      var n := |objs| - 1;
      TableInit(objs, infos);
      PoolHotFrom(objs[..n], threshold, infos);
      var h := PoolHot(objs[..n], threshold);
      forall i | 0 <= i < |h| ensures h[i].addr != objs[n].addr {
        assert h[i] in h;
        var o :| o in objs[..n] && Wanted(o, threshold) && h[i] == NvmInfo(o.addr, o.length);
      }
      forall x | x in PoolHot(objs, threshold)
        ensures exists o :: o in objs && Wanted(o, threshold) && x == NvmInfo(o.addr, o.length)
      {
        if x in h {
          var o :| o in objs[..n] && Wanted(o, threshold) && x == NvmInfo(o.addr, o.length);
          assert o in objs;
        } else {
          assert objs[n] in objs;
        }
      }
    }
  }

  /** In pool mode the request is legal, whatever the table order. */
  lemma PoolRoundIsLegal(objs: seq<AddrInfo>, threshold: nat, infos: map<Addr, Info>)
    requires TableOf(objs, infos)
    ensures LegalSelection(infos, [], PoolHot(objs, threshold))
  {
    PoolHotFrom(objs, threshold, infos);
  }

  predicate DistinctAddrs(sa: seq<SortEntry>) {
    forall i, j :: 0 <= i < j < |sa| ==> sa[i].addr != sa[j].addr
  }

  /** What cache mode sorts describes distinct objects of the client truthfully. */
  predicate Truthful(e: SortEntry, threshold: nat, infos: map<Addr, Info>) {
    && e.addr in infos && infos[e.addr].length == e.length && infos[e.addr].dram.Some? == e.inDram
    && (e.inDram || e.rwcnt >= threshold)
  }

  lemma {:induction false} SortEntriesFrom(objs: seq<AddrInfo>, threshold: nat, infos: map<Addr, Info>)
    requires TableOf(objs, infos)
    ensures var sa := SortEntries(objs, threshold);
            && DistinctAddrs(sa)
            && (forall e :: e in sa ==> Truthful(e, threshold, infos))
            && (forall e :: e in sa ==> exists o :: o in objs && o.addr == e.addr)
    decreases |objs|
  {
    if objs != [] {
      var n := |objs| - 1;
      TableInit(objs, infos);
      SortEntriesFrom(objs[..n], threshold, infos);
      var h := SortEntries(objs[..n], threshold);
      forall i | 0 <= i < |h| ensures h[i].addr != objs[n].addr {
        assert h[i] in h;
        var o :| o in objs[..n] && o.addr == h[i].addr;
      }
      forall e | e in SortEntries(objs, threshold) ensures exists o :: o in objs && o.addr == e.addr {
        if e in h {
          var o :| o in objs[..n] && o.addr == e.addr;
          assert o in objs;
        } else {
          assert objs[n] in objs;
        }
      }
    }
  }

  lemma {:induction false} DistinctCount(sa: seq<SortEntry>, e: SortEntry)
    requires DistinctAddrs(sa)
    ensures multiset(sa)[e] <= 1
  {
    if sa != [] {
      assert sa == [sa[0]] + sa[1..];
      DistinctCount(sa[1..], e);
      if sa[0] == e {
        assert e !in sa[1..];
      }
    }
  }

  /** Sorting keeps the entries and so their addresses distinct. */
  lemma PermutationDistinct(sa: seq<SortEntry>, sb: seq<SortEntry>)
    requires DistinctAddrs(sa) && multiset(sb) == multiset(sa)
    ensures DistinctAddrs(sb)
  {
    forall i, j | 0 <= i < j < |sb| ensures sb[i].addr != sb[j].addr {
      assert sb[i] in multiset(sb) && sb[j] in multiset(sb);
      assert sb[i] in sa && sb[j] in sa;
      DistinctCount(sa, sb[i]);
      if sb[i] == sb[j] {
        CountedTwice(sb, i, j);
      }
    }
  }

  lemma CountedTwice(s: seq<SortEntry>, i: nat, j: nat)
    requires i < j < |s| && s[i] == s[j]
    ensures multiset(s)[s[i]] >= 2
  {
    assert s == s[..j] + s[j..];
    assert s[i] in s[..j] && s[j] in s[j..];
  }

  /** In cache mode, however ties are sorted, the exchange satisfies what it relies on and the
      two requests it produces are legal. */
  lemma CacheRoundIsLegal(objs: seq<AddrInfo>, threshold: nat, infos: map<Addr, Info>, sa: seq<SortEntry>)
    requires TableOf(objs, infos) && Sorted(sa) && multiset(sa) == multiset(SortEntries(objs, threshold))
    ensures Eligible(sa, threshold)
    ensures LegalSelection(infos, Cold(sa), Hot(sa))
  {
    SortEntriesFrom(objs, threshold, infos);
    PermutationDistinct(SortEntries(objs, threshold), sa);
    forall i | 0 <= i < |sa| ensures Truthful(sa[i], threshold, infos) {
      assert sa[i] in multiset(sa);
    }
    ListsAreProper(sa, threshold);
    ListedAt(sa, ColdPos(sa), infos);
    ListedAt(sa, HotPos(sa), infos);
  }

  lemma ListedAt(sa: seq<SortEntry>, ps: seq<nat>, infos: map<Addr, Info>)
    requires DistinctAddrs(sa) && (Rising(ps) || Falling(ps)) && forall p :: p in ps ==> p < |sa|
    requires forall i :: 0 <= i < |sa| ==> sa[i].addr in infos && infos[sa[i].addr].length == sa[i].length
    ensures Listed(infos, At(sa, ps))
    ensures forall i :: 0 <= i < |ps| ==> ps[i] in ps && At(sa, ps)[i].addr == sa[ps[i]].addr
  {
    var l := At(sa, ps);
    forall i | 0 <= i < |ps| ensures ps[i] in ps && l[i] == InfoOf(sa[ps[i]]) {}
    forall i, j | 0 <= i < j < |l| ensures l[i].addr != l[j].addr {
      assert ps[i] in ps && ps[j] in ps && ps[i] != ps[j];
    }
  }
}
