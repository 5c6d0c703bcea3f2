/** A poll round as seen from the client's address table: what is compared, what is exchanged
    and what is cached afterwards, object by object. */
module PollTable {
  import opened DramCache
  import opened CacheProtocol
  import opened CacheTheorems
  import opened PollRound
  import opened PollTheorems
  import opened PollSelect
  import opened PollOutcome
  import opened PollInRun

  // ---------- table and sorted array ----------

  /** `sa` is what the scan of the table hands to the exchange, sorted. */
  ghost predicate SortedTable(objs: seq<AddrInfo>, threshold: nat, infos: map<Addr, Info>, sa: seq<SortEntry>) {
    TableOf(objs, infos) && Sorted(sa) && multiset(sa) == multiset(SortEntries(objs, threshold))
  }

  /** at[p] is the table position of the object at position p of the sorted array. */
  ghost predicate Places(objs: seq<AddrInfo>, threshold: nat, sa: seq<SortEntry>, at: seq<nat>) {
    && |at| == |sa|
    && (forall p :: 0 <= p < |sa| ==>
          at[p] < |objs| && Considered(objs[at[p]], threshold) && sa[p] == ToEntry(objs[at[p]]))
    && (forall p, q :: 0 <= p < q < |sa| ==> at[p] != at[q])
    && (forall m :: 0 <= m < |objs| && Considered(objs[m], threshold) ==> m in at)
  }

  lemma PlaceOf(objs: seq<AddrInfo>, threshold: nat, sa: seq<SortEntry>, p: nat) returns (m: nat)
    requires p < |sa| && multiset(sa) == multiset(SortEntries(objs, threshold))
    ensures m < |objs| && Considered(objs[m], threshold) && sa[p] == ToEntry(objs[m])
  {
    var pos := ComparedExactly(objs, threshold, |objs|);
    assert objs[..|objs|] == objs;
    hide SortEntries, Rising;
    var se := SortEntries(objs, threshold);
    assert sa[p] in multiset(sa);
    var k :| 0 <= k < |se| && se[k] == sa[p];
    m := pos[k];
    assert m in pos;
  }

  lemma PositionOf(objs: seq<AddrInfo>, threshold: nat, sa: seq<SortEntry>, m: nat) returns (p: nat)
    requires m < |objs| && Considered(objs[m], threshold) && multiset(sa) == multiset(SortEntries(objs, threshold))
    ensures p < |sa| && sa[p] == ToEntry(objs[m])
  {
    var pos := ComparedExactly(objs, threshold, |objs|);
    assert objs[..|objs|] == objs;
    hide SortEntries, Rising;
    var se := SortEntries(objs, threshold);
    var k :| 0 <= k < |pos| && pos[k] == m;
    assert se[k] in multiset(se);
    p :| 0 <= p < |sa| && sa[p] == se[k];
  }

  lemma {:induction false} PlacesUpTo(objs: seq<AddrInfo>, threshold: nat, sa: seq<SortEntry>, n: nat) returns (at: seq<nat>)
    requires n <= |sa| && multiset(sa) == multiset(SortEntries(objs, threshold))
    ensures |at| == n
    ensures forall p :: 0 <= p < n ==>
              at[p] < |objs| && Considered(objs[at[p]], threshold) && sa[p] == ToEntry(objs[at[p]])
    decreases n
  {
    if n == 0 {
      at := [];
    } else {
      hide SortEntries, ToEntry, Considered;
      at := PlacesUpTo(objs, threshold, sa, n - 1);
      var m := PlaceOf(objs, threshold, sa, n - 1);
      at := at + [m];
    }
  }

  lemma TheTable(objs: seq<AddrInfo>, threshold: nat, infos: map<Addr, Info>, sa: seq<SortEntry>) returns (at: seq<nat>)
    requires SortedTable(objs, threshold, infos, sa)
    ensures |at| == |sa| && Sorted(sa) && Describes(sa, threshold, infos) && Places(objs, threshold, sa, at)
  {
    hide SortEntries;
    SortEntriesFrom(objs, threshold, infos);
    PermutationDistinct(SortEntries(objs, threshold), sa);
    forall i | 0 <= i < |sa| ensures Truthful(sa[i], threshold, infos) {
      assert sa[i] in multiset(sa);
    }
    at := PlacesUpTo(objs, threshold, sa, |sa|);
    forall m | 0 <= m < |objs| && Considered(objs[m], threshold) ensures m in at {
      var p := PositionOf(objs, threshold, sa, m);
      assert objs[at[p]].addr == objs[m].addr;
      assert at[p] == m;
    }
  }

  // ---------- the requests ----------

  /** Every accessed object that is cached or reaches the threshold is compared, under its own
      count, and no other object is. */
  lemma ComparedInRound(objs: seq<AddrInfo>, threshold: nat, infos: map<Addr, Info>, sa: seq<SortEntry>, m: nat)
    requires SortedTable(objs, threshold, infos, sa) && m < |objs|
    ensures var count := objs[m].readCnt + objs[m].writeCnt;
            (exists p :: 0 <= p < |sa| && sa[p] == SortEntry(objs[m].addr, objs[m].length, count, objs[m].dram.Some?))
            <==> count > 0 && (count >= threshold || objs[m].dram.Some?)
    ensures forall p :: 0 <= p < |sa| && sa[p].addr == objs[m].addr ==> sa[p] == ToEntry(objs[m])
  {
    var at := TheTable(objs, threshold, infos, sa);
    if Considered(objs[m], threshold) {
      var p :| 0 <= p < |at| && at[p] == m;
      assert sa[p] == ToEntry(objs[m]);
    }
    forall p | 0 <= p < |sa| && sa[p].addr == objs[m].addr ensures at[p] == m {
      assert objs[at[p]].addr == objs[m].addr;
    }
  }

  lemma ColdAt(sa: seq<SortEntry>, p: nat)
    requires p < |sa| && DistinctAddrs(sa)
    ensures Names(Cold(sa), sa[p].addr) <==> p < Split(sa) && sa[p].inDram
  {
    AscIn(sa, 0, Split(sa), true, p);
    var ps := ColdPos(sa);
    hide Split, Asc;
    if p in ps {
      var k :| 0 <= k < |ps| && ps[k] == p;
      assert Cold(sa)[k].addr == sa[p].addr;
    }
    if Names(Cold(sa), sa[p].addr) {
      var k :| 0 <= k < |Cold(sa)| && Cold(sa)[k].addr == sa[p].addr;
      assert ps[k] in ps && sa[ps[k]].addr == sa[p].addr;
    }
  }

  /** The h-th object asked for, if there is an h-th one given up, lies above the split. */
  lemma PartnerAt(sa: seq<SortEntry>, h: nat)
    requires h < |Cold(sa)|
    ensures h < |Hot(sa)| && h < |SwapPos(sa)|
    ensures var p := SwapPos(sa)[h];
            Split(sa) <= p < |sa| && !sa[p].inDram && Hot(sa)[h] == InfoOf(sa[p])
  {
    SwapBalanced(sa);
    var p := SwapPos(sa)[h];
    DescIn(sa, Split(sa), |sa|, false, p);
    hide Split, Desc, Asc;
    assert HotPos(sa)[h] == p;
  }

  /** A cached object that was accessed at all keeps its copy only if every object accessed more
      often, and often enough, that has none is asked for in exchange for a colder one. */
  lemma KeptOrBeaten(objs: seq<AddrInfo>, threshold: nat, infos: map<Addr, Info>, sa: seq<SortEntry>, i: nat, j: nat)
    requires SortedTable(objs, threshold, infos, sa) && i < |objs| && j < |objs|
    requires objs[i].dram.Some? && 0 < objs[i].readCnt + objs[i].writeCnt < objs[j].readCnt + objs[j].writeCnt
    requires objs[j].dram.None? && threshold <= objs[j].readCnt + objs[j].writeCnt
    ensures Names(Cold(sa), objs[i].addr)
            || exists h :: 0 <= h < |Cold(sa)| && h < |Hot(sa)| && Hot(sa)[h] == NvmInfo(objs[j].addr, objs[j].length)
  {
    var at := TheTable(objs, threshold, infos, sa);
    var p := PositionOf(objs, threshold, sa, i);
    var q := PositionOf(objs, threshold, sa, j);
    hide SortedTable, Places;
    assert p < q;
    ColdAt(sa, p);
    if Split(sa) <= p {
      DescIn(sa, Split(sa), |sa|, false, q);
      SwapBalanced(sa);
      hide Split, Desc, Asc;
      var ps := SwapPos(sa);
      var h :| 0 <= h < |ps| && ps[h] == q;
      assert HotPos(sa)[h] == q;
      assert Hot(sa)[h] == InfoOf(sa[q]);
    }
  }

  /** What is given up was cached, and each of the as many objects asked for in exchange had no
      copy and was accessed at least as often. */
  lemma PartnersAreHotter(objs: seq<AddrInfo>, threshold: nat, infos: map<Addr, Info>, sa: seq<SortEntry>, i: nat, h: nat)
    returns (j: nat)
    requires SortedTable(objs, threshold, infos, sa) && i < |objs| && Names(Cold(sa), objs[i].addr) && h < |Cold(sa)|
    ensures objs[i].dram.Some? && h < |Hot(sa)| && j < |objs| && Hot(sa)[h] == NvmInfo(objs[j].addr, objs[j].length)
    ensures objs[j].dram.None? && 0 < objs[i].readCnt + objs[i].writeCnt <= objs[j].readCnt + objs[j].writeCnt
  {
    var at := TheTable(objs, threshold, infos, sa);
    PartnerAt(sa, h);
    var cold := ColdPos(sa);
    var k :| 0 <= k < |Cold(sa)| && Cold(sa)[k].addr == objs[i].addr;
    var p, q := cold[k], SwapPos(sa)[h];
    assert p in cold;
    AscIn(sa, 0, Split(sa), true, p);
    hide Split, Asc, Desc, SortEntries;
    j := at[q];
    assert Cold(sa)[k] == InfoOf(sa[p]) && sa[p] == ToEntry(objs[at[p]]) && sa[q] == ToEntry(objs[j]);
    assert objs[at[p]].addr == objs[i].addr;
    assert at[p] == i;
  }

  // ---------- the outcome ----------

  lemma {:induction false} ImageSize(at: seq<nat>, ps: set<nat>)
    requires (forall p :: p in ps ==> p < |at|) && forall p, q :: 0 <= p < q < |at| ==> at[p] != at[q]
    ensures |set p | p in ps :: at[p]| == |ps|
    decreases |ps|
  {
    if ps != {} {
      var x :| x in ps;
      ImageSize(at, ps - {x});
      var image, rest := set p | p in ps :: at[p], set p | p in ps - {x} :: at[p];
      assert image == rest + {at[x]};
      assert at[x] !in rest;
    }
  }

  /** The objects that were accessed and have a copy. */
  ghost function CachedBefore(objs: seq<AddrInfo>): set<nat> {
    set m: nat | m < |objs| && objs[m].readCnt + objs[m].writeCnt > 0 && objs[m].dram.Some?
  }

  lemma CachedPlaces(objs: seq<AddrInfo>, threshold: nat, sa: seq<SortEntry>, at: seq<nat>)
    requires Places(objs, threshold, sa, at)
    ensures |CachedBefore(objs)| == |Cached(sa)|
  {
    var image := set p | p in Cached(sa) :: at[p];
    forall m | m in CachedBefore(objs) ensures m in image {
      assert Considered(objs[m], threshold);
      var p :| 0 <= p < |at| && at[p] == m;
      assert p in Cached(sa);
    }
    assert CachedBefore(objs) == image;
    ImageSize(at, Cached(sa));
  }

  /** The table positions of the top of the sorted array. */
  ghost function Top(sa: seq<SortEntry>, at: seq<nat>): set<nat>
    requires |at| == |sa|
  {
    set p | p in Range(Split(sa), |sa|) :: at[p]
  }

  lemma TopIsCompared(objs: seq<AddrInfo>, threshold: nat, sa: seq<SortEntry>, at: seq<nat>, m: nat)
    requires Places(objs, threshold, sa, at) && m in Top(sa, at)
    ensures m < |objs| && Considered(objs[m], threshold)
  {
    hide Split, Considered;
  }

  /** Nothing compared and outside the top is accessed more often than anything in it. */
  lemma TopIsHottest(objs: seq<AddrInfo>, threshold: nat, sa: seq<SortEntry>, at: seq<nat>, m: nat, q: nat)
    requires Places(objs, threshold, sa, at) && Sorted(sa)
    requires m in Top(sa, at) && q < |objs| && q !in Top(sa, at) && Considered(objs[q], threshold)
    ensures m < |objs| && Accesses(objs[q]) <= Accesses(objs[m])
  {
    hide Split;
    var x :| x in Range(Split(sa), |sa|) && at[x] == m;
    var y :| 0 <= y < |at| && at[y] == q;
    assert y !in Range(Split(sa), |sa|);
    assert sa[y].rwcnt <= sa[x].rwcnt;
  }

  lemma TopSize(objs: seq<AddrInfo>, threshold: nat, sa: seq<SortEntry>, at: seq<nat>)
    requires Places(objs, threshold, sa, at) && Sorted(sa)
    ensures |Top(sa, at)| == |CachedBefore(objs)|
  {
    SwapIsTopK(sa);
    CachedPlaces(objs, threshold, sa, at);
    ImageSize(at, Range(Split(sa), |sa|));
    hide Split, Cached, CachedBefore, AfterSwap;
  }

  lemma TopIsCached(objs: seq<AddrInfo>, threshold: nat, sa: seq<SortEntry>, at: seq<nat>, t: Server)
    requires Places(objs, threshold, sa, at)
    ensures (forall m :: m in Top(sa, at) ==> m < |objs| && IsCached(t, objs[m].addr))
            <==> (forall p: nat :: Split(sa) <= p < |sa| ==> IsCached(t, sa[p].addr))
  {
    hide Split, IsCached;
    if forall m :: m in Top(sa, at) ==> m < |objs| && IsCached(t, objs[m].addr) {
      forall p: nat | Split(sa) <= p < |sa| ensures IsCached(t, sa[p].addr) {
        assert p in Range(Split(sa), |sa|);
        assert at[p] in Top(sa, at);
      }
    }
  }

  /** What is not compared is nowhere in the sorted array. */
  lemma NotCompared(objs: seq<AddrInfo>, threshold: nat, infos: map<Addr, Info>, sa: seq<SortEntry>, at: seq<nat>, m: nat)
    requires TableOf(objs, infos) && Places(objs, threshold, sa, at) && m < |objs| && !Considered(objs[m], threshold)
    ensures forall p :: 0 <= p < |sa| ==> sa[p].addr != objs[m].addr
    ensures objs[m].addr in infos && infos[objs[m].addr].dram == objs[m].dram
  {
    forall p | 0 <= p < |sa| ensures sa[p].addr != objs[m].addr {
      assert at[p] != m && sa[p].addr == objs[at[p]].addr;
    }
  }

  lemma AgreedCached(s: Server, infos: map<Addr, Info>, a: Addr)
    requires Agree(s, infos) && a in infos
    ensures IsCached(s, a) <==> infos[a].dram.Some?
  {
    hide Find;
  }

  /** A round that a client begins with this table.  The top is as many of the compared objects as
      had copies, none accessed less often than one left out.  When the client is idle again, all
      of the top has copies if and only if the partners could be allocated and fitted; objects that
      were not compared have copies as before. */
  lemma TopOfTableInRun(ss: seq<State>, es: seq<Event>, clients: set<nat>, connections: nat, i: nat, j: nat, r: Round,
                        objs: seq<AddrInfo>, sa: seq<SortEntry>, threshold: nat)
    returns (allocs: seq<DramAlloc>, w: nat, top: set<nat>)
    requires IsRun(ss, es, clients, connections) && i < j < |ss| && StartsAt(ss, es, i, r)
    requires Busy(ss, i, j, r.c) && r.c in ss[j].clients && ss[j].clients[r.c].phase.Idle?
    requires SortedTable(objs, threshold, r.infos, sa) && r.cold == Cold(sa) && r.hot == Hot(sa)
    ensures |allocs| >= |r.hot| && (r.hot != [] ==> i < w < j && ServedAt(ss, es, r, w, allocs))
    ensures |top| == |set m: nat | m < |objs| && objs[m].readCnt + objs[m].writeCnt > 0 && objs[m].dram.Some?|
    ensures forall m :: m in top ==> m < |objs| && objs[m].readCnt + objs[m].writeCnt > 0
                                     && (objs[m].readCnt + objs[m].writeCnt >= threshold || objs[m].dram.Some?)
    ensures forall m, q :: m in top && 0 <= q < |objs| && q !in top && objs[q].readCnt + objs[q].writeCnt > 0
                           && (objs[q].readCnt + objs[q].writeCnt >= threshold || objs[q].dram.Some?)
              ==> objs[q].readCnt + objs[q].writeCnt <= objs[m].readCnt + objs[m].writeCnt
    ensures (forall m :: m in top ==> IsCached(ss[j].server, objs[m].addr))
            <==> CanReplace(r.used, sa, allocs, r.share)
    ensures forall m :: 0 <= m < |objs| && (objs[m].readCnt + objs[m].writeCnt == 0
                                            || (objs[m].readCnt + objs[m].writeCnt < threshold && objs[m].dram.None?))
              ==> (IsCached(ss[j].server, objs[m].addr) <==> objs[m].dram.Some?)
  {
    hide IsRun, StartsAt, Busy, ServedAt, Describes, Places, Top, Split, Cold, Hot, CanReplace, IsCached, Agree, Owns;
    hide ServerOk, SortEntries, After, Reply, Sorted, TableOf;
    StartAgrees(ss, es, clients, connections, i, r);
    var at := TheTable(objs, threshold, r.infos, sa);
    allocs, w := TopKInRun(ss, es, clients, connections, i, j, r, sa, threshold);
    top := Top(sa, at);
    TopSize(objs, threshold, sa, at);
    TopIsCached(objs, threshold, sa, at, ss[j].server);
    forall m | m in top ensures m < |objs| && Considered(objs[m], threshold) {
      TopIsCompared(objs, threshold, sa, at, m);
    }
    forall m, q | m in top && 0 <= q < |objs| && q !in top && Considered(objs[q], threshold)
      ensures Accesses(objs[q]) <= Accesses(objs[m])
    {
      TopIsHottest(objs, threshold, sa, at, m, q);
    }
    forall m | 0 <= m < |objs| && !Considered(objs[m], threshold)
      ensures IsCached(ss[j].server, objs[m].addr) <==> objs[m].dram.Some?
    {
      NotCompared(objs, threshold, r.infos, sa, at, m);
      AgreedCached(ss[i].server, r.infos, objs[m].addr);
    }
  }
}
