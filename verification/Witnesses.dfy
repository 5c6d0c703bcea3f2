/**
 Runs of the whole server, with lengths the allocator grants, in which what one would expect
 of the cache does not happen.
 */
module Witnesses {
  import opened Wrappers
  import opened BuddyArea
  import opened DramCache
  import opened FlatMemory
  import opened JointServer
  import opened JointPaths
  import opened PollRound
  import opened PollOutcome
  import CacheRace

  // ---------- stretches ----------

  /** The client asks for a copy of an object that fits, and gets it. */
  lemma GrantRun(j: Joint, sv: Server, c: nat, k: nat, infos: map<Addr, Info>, since: map<Addr, map<nat, Byte>>,
                 info: NvmInfo, key: Key) returns (js: seq<Joint>, es: seq<Event>, t: Joint)
    requires JointInv(j) && k > 0 && j.cache == CachePaths.Alone(sv, c, CachePaths.Resting(infos, since), k)
    requires info.addr in infos && infos[info.addr] == Info(info.length, None)
    requires info.addr in since && since[info.addr] == map[]
    requires KeyFresh(sv.entries, key) && Used(sv.pollUsed, c) + info.length <= Share(k)
    ensures Leads(j, js, es, t)
    ensures t.cache == CachePaths.Alone(Create(sv, c, info, key, Zeros(info.length)), c,
                                        CachePaths.Resting(infos[info.addr := Info(info.length, Some(key))], since), k)
  {
    var ss, ce := CachePaths.GrantPath(sv, c, k, infos, since, info, key, Zeros(info.length));
    hide JointInv, Leads, CachePaths.Leads;
    js, es, t := Lift(j, ss, ce, CachePaths.Alone(Create(sv, c, info, key, Zeros(info.length)), c,
                                                  CachePaths.Resting(infos[info.addr := Info(info.length, Some(key))], since), k));
  }

  /** The server with one live object, and with its copy. */
  ghost function Holding(c: nat, info: NvmInfo): Server {
    Empty().(nvm := map[info.addr := NvmObj(c, info.length, Zeros(info.length))])
  }

  ghost function Caching(c: nat, info: NvmInfo, key: Key): Server {
    Create(Holding(c, info), c, info, key, Zeros(info.length))
  }

  /** From the start: a client allocates an object and has it cached. */
  lemma CachedRun(mr: MemRegion, c: nat, k: nat, mem: Memory, x: nat, key: Key)
    returns (js: seq<Joint>, es: seq<Event>, t: Joint, info: NvmInfo)
    requires k > 0 && mr.length == SINGLE_AREA_SIZE && GrantedLength(x) <= Share(k)
    ensures info.length == GrantedLength(x) && Leads(Boot(mr, {c}, k, mem), js, es, t)
    ensures t.cache == CachePaths.Alone(Caching(c, info, key), c,
                         CachePaths.Resting(map[info.addr := Info(info.length, Some(key))], map[info.addr := map[]]), k)
  {
    hide JointInv, Leads, GrantedLength, Boot;
    var j := Boot(mr, {c}, k, mem);
    BootIs(mr, c, k, mem);
    var j1;
    js, es, j1, info := MallocRun(j, Empty(), c, k, map[], map[], x);
    var infos, since := map[info.addr := Info(info.length, None)], map[info.addr := map[]];
    AllocatedFirst(c, k, info);
    LeadsInv(j, js, es, j1);
    var ks, fs;
    ks, fs, t := GrantRun(j1, Holding(c, info), c, k, infos, since, info, key);
    assert infos[info.addr := Info(info.length, Some(key))] == map[info.addr := Info(info.length, Some(key))];
    js, es := Join(j, js, es, j1, ks, fs, t);
  }

  lemma AllocatedFirst(c: nat, k: nat, info: NvmInfo)
    ensures JointPaths.Allocated(Empty(), c, k, map[], map[], info)
            == CachePaths.Alone(Holding(c, info), c,
                 CachePaths.Resting(map[info.addr := Info(info.length, None)], map[info.addr := map[]]), k)
  {
    assert map[][info.addr := NvmObj(c, info.length, Zeros(info.length))]
        == map[info.addr := NvmObj(c, info.length, Zeros(info.length))];
    assert map[][info.addr := Info(info.length, None)] == map[info.addr := Info(info.length, None)];
    var empty: map<nat, Byte> := map[];
    assert map[][info.addr := empty] == map[info.addr := empty];
  }

  lemma LeadsInv(j: Joint, js: seq<Joint>, es: seq<Event>, t: Joint)
    requires Leads(j, js, es, t)
    ensures JointInv(t) && |js| == |es| + 1 && js[|es|] == t && js[0] == j
  {
  }

  // ---------- the leak ----------

  /** The server after the only object, n bytes long, was freed while cached. */
  ghost function Emptied(c: nat, n: nat): Server {
    Server([], map[], 0, map[c := n], map[c := 0 - n])
  }

  lemma FreeCached(c: nat, info: NvmInfo, key: Key)
    ensures Free(Caching(c, info, key), c, info) == Emptied(c, info.length)
  {
    var u := Caching(c, info, key);
    assert u.entries == [u.entries[0]] && u.entries[1..] == [];
    assert Find(u.entries, info.addr) == Some(u.entries[0]) && RemoveFirst(u.entries, info.addr) == [];
    assert Free(u, c, info).nvm == map[];
  }

  /** Whatever the share, if it holds anything at all, some grantable length is more than half of it. */
  lemma LeakSize(k: nat) returns (x: nat)
    requires k > 0 && Share(k) >= BUDDY_SIZE[0]
    ensures 0 < GrantedLength(x) <= Share(k) < 2 * GrantedLength(x)
  {
    var share := Share(k);
    hide Share;
    if share >= SINGLE_AREA_SIZE {
      x := share;
      GrantedBig(x);
    } else {
      x := if share >= BUDDY_SIZE[4] then BUDDY_SIZE[4] else if share >= BUDDY_SIZE[3] then BUDDY_SIZE[3]
           else if share >= BUDDY_SIZE[2] then BUDDY_SIZE[2] else if share >= BUDDY_SIZE[1] then BUDDY_SIZE[1] else BUDDY_SIZE[0];
      GrantedClass(x);
    }
  }

  lemma GrantedBig(x: nat)
    requires x >= SINGLE_AREA_SIZE
    ensures GrantedLength(x) == x
  {
    hide P.OrderFor;
  }

  lemma GrantedClass(x: nat)
    requires x in BUDDY_SIZE
    ensures GrantedLength(x) == x
  {
    var i :| 0 <= i < MAX_ORDER && BUDDY_SIZE[i] == x;
    var o := P.OrderFor(x);
    assert x <= BUDDY_SIZE[4];
  }

  /** The object is freed while it is cached. */
  lemma FreedRun(mr: MemRegion, c: nat, k: nat, mem: Memory, x: nat)
    returns (js: seq<Joint>, es: seq<Event>, t: Joint, a: Addr)
    requires k > 0 && mr.length == SINGLE_AREA_SIZE && GrantedLength(x) <= Share(k)
    ensures Leads(Boot(mr, {c}, k, mem), js, es, t)
    ensures t.cache == CachePaths.Alone(Emptied(c, GrantedLength(x)), c, CachePaths.Resting(map[], map[a := map[]]), k)
  {
    hide JointInv, Leads, GrantedLength, Boot, CachePaths.Leads;
    var info, j1;
    js, es, j1, info := CachedRun(mr, c, k, mem, x, 0);
    a := info.addr;
    LeadsInv(Boot(mr, {c}, k, mem), js, es, j1);
    var infos := map[a := Info(info.length, Some(0))];
    var ss, ce := CachePaths.FreePath(Caching(c, info, 0), c, k, infos, map[a := map[]], a);
    FreeCached(c, info, 0);
    assert infos - {a} == map[];
    var ks, fs;
    ks, fs, t := Lift(j1, ss, ce, CachePaths.Alone(Emptied(c, info.length), c, CachePaths.Resting(map[], map[a := map[]]), k));
    js, es := Join(Boot(mr, {c}, k, mem), js, es, j1, ks, fs, t);
  }

  lemma Refused(sv: Server, c: nat, share: nat, info: NvmInfo, alloc: DramAlloc)
    requires Used(sv.pollUsed, c) + info.length > share
    ensures Apply(sv, c, [info], [alloc], share) == (sv, [])
  {
  }

  /** Allocate an object, have it cached, free it, allocate another of the same length and ask
      for a copy: for every number of connections whose share holds anything at all there is
      such a run of the whole server in which the request is refused, although the object would
      fit the share, its allocation would succeed, and nothing is cached. */
  lemma ShareCanLeak(mr: MemRegion, c: nat, k: nat, mem: Memory)
    returns (js: seq<Joint>, es: seq<Event>, info: NvmInfo, alloc: DramAlloc)
    requires k > 0 && mr.length == SINGLE_AREA_SIZE && Share(k) >= BUDDY_SIZE[0]
    ensures IsRun(js, es, mr, {c}, k) && |es| > 0 && 0 < info.length <= Share(k) && alloc.Allocated?
    ensures es[|es| - 1] == Other(C.ServePoll(c, [alloc]))
    ensures c in js[|es| - 1].cache.clients && js[|es| - 1].cache.clients[c].pollUp == [C.ApplyReq([info])]
    ensures c in js[|es|].cache.clients && js[|es|].cache.clients[c].pollDown == [C.ApplyResp([])]
    ensures js[|es| - 1].cache.server.entries == []
    ensures CacheTheorems.FreedWhileCached(CacheStates(js), CacheEvents(js, es), c, |es|) == info.length
  {
    hide JointInv, Leads, GrantedLength, Boot, Share, Follows, Emptied, JointPaths.Allocated;
    var x := LeakSize(k);
    var start := Boot(mr, {c}, k, mem);
    var n, j1, a := GrantedLength(x), start, 0;
    js, es, j1, a := FreedRun(mr, c, k, mem, x);
    LeadsInv(start, js, es, j1);
    var ks, fs, j2;
    ks, fs, j2, info := MallocRun(j1, Emptied(c, n), c, k, map[], map[a := map[]], x);
    LeadsInv(j1, ks, fs, j2);
    js, es := Join(start, js, es, j1, ks, fs, j2);
    alloc := DramAlloc.Allocated(1, Zeros(n));
    var ls, gs, t := RefusedRun(j2, c, k, n, a, info, alloc);
    var m := |es|;
    LeadsInv(start, js, es, j2);
    LeadsInv(j2, ls, gs, t);
    js, es := Join(start, js, es, j2, ls, gs, t);
    LeadsInv(start, js, es, t);
    assert js[m + 1] == ls[1] && js[m + 2] == ls[2] && es[m + 1] == gs[1];
    PathIsRun(mr, c, k, mem, js, es, t);
    FreedCounted(js, es, mr, c, k, n);
  }

  /** After the leak the request is refused. */
  lemma RefusedRun(j: Joint, c: nat, k: nat, n: nat, a: Addr, info: NvmInfo, alloc: DramAlloc)
    returns (js: seq<Joint>, es: seq<Event>, t: Joint)
    requires JointInv(j) && k > 0 && info.length == n && 2 * n > Share(k) && alloc.Allocated? && |alloc.fill| == n
    requires j.cache == JointPaths.Allocated(Emptied(c, n), c, k, map[], map[a := map[]], info)
    ensures Leads(j, js, es, t) && |js| == 3 && |es| == 2 && es[1] == Other(C.ServePoll(c, [alloc]))
    ensures c in js[1].cache.clients && js[1].cache.clients[c].pollUp == [C.ApplyReq([info])]
    ensures js[1].cache.server.entries == []
    ensures c in t.cache.clients && t.cache.clients[c].pollDown == [C.ApplyResp([])]
    ensures Used(t.cache.server.normUsed, c) == 0 - n
  {
    hide JointInv, Leads, CachePaths.Leads, Share;
    var u := j.cache.server;
    var infos, since := map[][info.addr := Info(n, None)], map[a := map[]][info.addr := map[]];
    var ss, ce := CachePaths.AskPath(u, c, k, infos, since, info, alloc);
    Refused(u, c, Share(k), info, alloc);
    PathEnds(j.cache, ss, ce, CachePaths.Alone(u, c, CachePaths.Answering(infos, since, []), k));
    js, es, t := Lift(j, ss, ce, CachePaths.Alone(u, c, CachePaths.Answering(infos, since, []), k));
    LeadsInv(j, js, es, t);
    hide Follows;
    AskedServer(ss, ce, u);
  }

  lemma PathEnds(s: C.State, ss: seq<C.State>, es: seq<C.Event>, t: C.State)
    requires CachePaths.Leads(s, ss, es, t)
    ensures |ss| == |es| + 1 && ss[0] == s && ss[|es|] == t
    ensures forall i :: 0 <= i < |es| ==> CacheTheorems.Follows(ss[i], es[i], ss[i + 1])
  {
  }

  lemma AskedServer(ss: seq<C.State>, es: seq<C.Event>, u: Server)
    requires |es| == 2 && es[0].StartPoll? && |ss| == 3 && ss[0].server == u && CacheTheorems.Follows(ss[0], es[0], ss[1])
    ensures ss[1].server == u
  {
  }

  lemma FreedCounted(js: seq<Joint>, es: seq<Event>, mr: MemRegion, c: nat, k: nat, n: nat)
    requires IsRun(js, es, mr, {c}, k) && Used(js[|es|].cache.server.normUsed, c) == 0 - n
    ensures CacheTheorems.FreedWhileCached(CacheStates(js), CacheEvents(js, es), c, |es|) == n
  {
    CacheProjection(js, es, mr, {c}, k);
    CacheTheorems.NormalCounter(CacheStates(js), CacheEvents(js, es), {c}, k, |es|, c);
  }

  // ---------- a round that empties the cache ----------

  /** A cached object accessed once and an uncached one accessed twice. */
  function TwoEntries(x: NvmInfo, y: NvmInfo): seq<SortEntry> {
    [SortEntry(x.addr, x.length, 1, true), SortEntry(y.addr, y.length, 2, false)]
  }

  /** They are to change places. */
  lemma TwoLists(x: NvmInfo, y: NvmInfo)
    ensures var sa := TwoEntries(x, y); Cold(sa) == [x] && Hot(sa) == [y] && Split(sa) == 1
  {
    var sa := TwoEntries(x, y);
    assert Asc(sa, 0, 0, true) == [] && Asc(sa, 0, 1, true) == [0] && Asc(sa, 0, 2, true) == [0];
    assert Desc(sa, 2, 2, false) == [] && Desc(sa, 1, 2, false) == [1];
    assert Desc(sa, 1, 1, false) == [] && Desc(sa, 0, 1, false) == [];
    assert ColdPos(sa) == [0] && SwapPos(sa) == [1] && MorePos(sa) == [] && HotPos(sa) == [1];
  }

  ghost function TwoObjects(c: nat, x: NvmInfo, y: NvmInfo): Server {
    Empty().(nvm := map[x.addr := NvmObj(c, x.length, Zeros(x.length)), y.addr := NvmObj(c, y.length, Zeros(y.length))])
  }

  ghost function TwoInfos(x: NvmInfo, y: NvmInfo, dram: Option<Key>): map<Addr, Info> {
    map[x.addr := Info(x.length, dram), y.addr := Info(y.length, None)]
  }

  ghost function NoRecord(x: NvmInfo, y: NvmInfo): map<Addr, map<nat, Byte>> {
    map[x.addr := map[], y.addr := map[]]
  }

  /** Two objects, the first of them cached. */
  lemma TwoRun(mr: MemRegion, c: nat, k: nat, mem: Memory, m: nat, n: nat)
    returns (js: seq<Joint>, es: seq<Event>, t: Joint, x: NvmInfo, y: NvmInfo)
    requires k > 0 && mr.length == SINGLE_AREA_SIZE && GrantedLength(m) <= Share(k)
    ensures Leads(Boot(mr, {c}, k, mem), js, es, t)
    ensures x.addr != y.addr && x.length == GrantedLength(m) && y.length == GrantedLength(n)
    ensures t.cache == CachePaths.Alone(Create(TwoObjects(c, x, y), c, x, 0, Zeros(x.length)), c,
                                        CachePaths.Resting(TwoInfos(x, y, Some(0)), NoRecord(x, y)), k)
  {
    hide JointInv, Leads, GrantedLength, Boot, Share, Follows;
    var start := Boot(mr, {c}, k, mem);
    BootIs(mr, c, k, mem);
    var j1, ks, fs, j2;
    js, es, j1, x := MallocRun(start, Empty(), c, k, map[], map[], m);
    AllocatedFirst(c, k, x);
    LeadsInv(start, js, es, j1);
    ks, fs, j2, y := MallocRun(j1, Holding(c, x), c, k, map[x.addr := Info(x.length, None)], map[x.addr := map[]], n);
    LeadsInv(j1, ks, fs, j2);
    AllocatedSecond(c, k, x, y);
    js, es := Join(start, js, es, j1, ks, fs, j2);
    ks, fs, t := GrantRun(j2, TwoObjects(c, x, y), c, k, TwoInfos(x, y, None), NoRecord(x, y), x, 0);
    assert TwoInfos(x, y, None)[x.addr := Info(x.length, Some(0))] == TwoInfos(x, y, Some(0));
    js, es := Join(start, js, es, j2, ks, fs, t);
  }

  lemma AllocatedSecond(c: nat, k: nat, x: NvmInfo, y: NvmInfo)
    requires x.addr != y.addr
    ensures JointPaths.Allocated(Holding(c, x), c, k, map[x.addr := Info(x.length, None)], map[x.addr := map[]], y)
            == CachePaths.Alone(TwoObjects(c, x, y), c, CachePaths.Resting(TwoInfos(x, y, None), NoRecord(x, y)), k)
  {
    assert map[x.addr := Info(x.length, None)][y.addr := Info(y.length, None)] == TwoInfos(x, y, None);
    var empty: map<nat, Byte> := map[];
    assert map[x.addr := empty][y.addr := empty] == NoRecord(x, y);
    assert Holding(c, x).nvm[y.addr := NvmObj(c, y.length, Zeros(y.length))] == TwoObjects(c, x, y).nvm;
  }

  /** The first object is evicted, and the second does not fit. */
  lemma RoundEmpties(c: nat, k: nat, x: NvmInfo, y: NvmInfo, alloc: DramAlloc)
    requires k > 0 && x.addr != y.addr && x.length <= Share(k) < y.length
    ensures var u := Clear(Create(TwoObjects(c, x, y), c, x, 0, Zeros(x.length)), c, [x]);
            u.entries == [] && Apply(u, c, [y], [alloc], Share(k)) == (u, [])
  {
    var sv := Create(TwoObjects(c, x, y), c, x, 0, Zeros(x.length));
    assert sv.entries == [sv.entries[0]] && sv.entries[1..] == [] && RemoveFirst(sv.entries, x.addr) == [];
    var u := ClearOne(sv, c, x);
    assert [x][1..] == [] && Clear(sv, c, [x]) == u;
    assert Used(u.pollUsed, c) == 0;
    hide Share;
    Refused(u, c, Share(k), y, alloc);
  }

  lemma TwoDescribed(x: NvmInfo, y: NvmInfo)
    requires x.addr != y.addr
    ensures Describes(TwoEntries(x, y), 1, TwoInfos(x, y, Some(0)))
    ensures C.LegalSelection(TwoInfos(x, y, Some(0)), [x], [y])
  {
  }

  /** A poll round evicts the only cached object for a hotter one that does not fit: in a run of
      the whole server, with lengths the allocator grants, for every number of connections whose
      share holds anything at all, the cache is empty afterwards. */
  lemma RoundCanFail(mr: MemRegion, c: nat, k: nat, mem: Memory)
    returns (js: seq<Joint>, es: seq<Event>, i: nat, sa: seq<SortEntry>)
    requires k > 0 && mr.length == SINGLE_AREA_SIZE && Share(k) >= BUDDY_SIZE[0]
    ensures IsRun(js, es, mr, {c}, k) && i < |es| && |sa| == 2
    ensures es[i] == Other(C.StartPoll(c, Cold(sa), Hot(sa))) && c in js[i].cache.clients
    ensures Describes(sa, 1, js[i].cache.clients[c].infos) && IsCached(js[i].cache.server, sa[0].addr)
    ensures forall n :: i < n < |es| ==> CachePaths.Polling(js[n].cache, c)
    ensures c in js[|es|].cache.clients && js[|es|].cache.clients[c].phase.Idle? && js[|es|].cache.server.entries == []
    ensures !(forall p: nat :: Split(sa) <= p < |sa| ==> IsCached(js[|es|].cache.server, sa[p].addr))
  {
    hide *;
    TooLong(k);
    var start, t := Boot(mr, {c}, k, mem), Boot(mr, {c}, k, mem);
    var x, y := NvmInfo(0, 0), NvmInfo(0, 0);
    js, es, t, x, y := TwoRun(mr, c, k, mem, 1, Share(k) + 1);
    AtRest(Create(TwoObjects(c, x, y), c, x, 0, Zeros(x.length)), c, k, TwoInfos(x, y, Some(0)), NoRecord(x, y));
    sa := TwoEntries(x, y);
    i := |es|;
    LeadsInv(start, js, es, t);
    var ks, fs, u := SwapRun(t, c, k, x, y);
    LeadsInv(t, ks, fs, u);
    js, es := Join(start, js, es, t, ks, fs, u);
    LeadsInv(start, js, es, u);
    PathIsRun(mr, c, k, mem, js, es, u);
    TwoLists(x, y);
    TwoDescribed(x, y);
    assert js[i + 0] == ks[0] && es[i] == fs[0];
    forall n | i < n < |es| ensures CachePaths.Polling(js[n].cache, c) {
      assert js[i + (n - i)] == ks[n - i];
    }
    TopIsGone(x, y, u.cache.server);
    FirstIsCached(c, x, y);
  }

  lemma TooLong(k: nat)
    requires k > 0 && Share(k) >= BUDDY_SIZE[0]
    ensures GrantedLength(1) <= Share(k) < GrantedLength(Share(k) + 1)
  {
    var n := Share(k) + 1;
    hide Share;
    assert P.OrderFor(1) == 0;
    assert n <= GrantedLength(n);
  }

  lemma TopIsGone(x: NvmInfo, y: NvmInfo, s: Server)
    requires s.entries == []
    ensures var sa := TwoEntries(x, y); |sa| == 2 && sa[0].addr == x.addr && !IsCached(s, sa[1].addr)
  {
  }

  lemma FirstIsCached(c: nat, x: NvmInfo, y: NvmInfo)
    ensures IsCached(Create(TwoObjects(c, x, y), c, x, 0, Zeros(x.length)), x.addr)
  {
  }

  /** The round itself. */
  lemma SwapRun(j: Joint, c: nat, k: nat, x: NvmInfo, y: NvmInfo) returns (js: seq<Joint>, es: seq<Event>, t: Joint)
    requires JointInv(j) && k > 0 && x.addr != y.addr && x.length <= Share(k) < y.length
    requires j.cache == CachePaths.Alone(Create(TwoObjects(c, x, y), c, x, 0, Zeros(x.length)), c,
                                         CachePaths.Resting(TwoInfos(x, y, Some(0)), NoRecord(x, y)), k)
    ensures Leads(j, js, es, t) && |es| == 5 && |js| == 6 && es[0] == Other(C.StartPoll(c, [x], [y]))
    ensures forall n :: 0 < n < 5 ==> CachePaths.Polling(js[n].cache, c)
    ensures c in t.cache.clients && t.cache.clients[c].phase.Idle? && t.cache.server.entries == []
  {
    hide *;
    var sv, alloc := Create(TwoObjects(c, x, y), c, x, 0, Zeros(x.length)), DramAlloc.Allocated(1, Zeros(y.length));
    TwoDescribed(x, y);
    RoundEmpties(c, k, x, y, alloc);
    OneAlloc(y, alloc);
    var infos, since := TwoInfos(x, y, Some(0)), NoRecord(x, y);
    var ss, ce := CachePaths.RoundPath(sv, c, k, infos, since, [x], [y], [alloc]);
    var rest := CachePaths.Resting(LearnAll(ForgetAll(infos, [x]), []), C.Restart(since, DramCache.Granted([])));
    js, es, t := Lift(j, ss, ce, CachePaths.Alone(Clear(sv, c, [x]), c, rest, k));
    LeadsInv(j, js, es, t);
    StartLifted(c, [x], [y]);
    AtRest(Clear(sv, c, [x]), c, k, LearnAll(ForgetAll(infos, [x]), []), C.Restart(since, DramCache.Granted([])));
  }

  lemma OneAlloc(y: NvmInfo, alloc: DramAlloc)
    requires alloc == DramAlloc.Allocated(1, Zeros(y.length))
    ensures AllocsOk([], [y], [alloc])
  {
  }

  lemma StartLifted(c: nat, cold: seq<NvmInfo>, hot: seq<NvmInfo>)
    ensures Lifted(C.StartPoll(c, cold, hot)) == Other(C.StartPoll(c, cold, hot))
  {
  }

  lemma AtRest(sv: Server, c: nat, k: nat, infos: map<Addr, Info>, since: map<Addr, map<nat, Byte>>)
    ensures var s := CachePaths.Alone(sv, c, CachePaths.Resting(infos, since), k);
            s.server == sv && c in s.clients && s.clients[c].phase.Idle? && s.clients[c].infos == infos
  {
  }

  // ---------- a write overtaken by a clear ----------

  /** A run that ends with a write posted to a cached object.  Were the clear of that object
      served before the write lands, the object would not have what was written. */
  lemma WriteCanBeLost(mr: MemRegion, c: nat, k: nat, mem: Memory)
    returns (js: seq<Joint>, es: seq<Event>, info: NvmInfo)
    requires k > 0 && mr.length == SINGLE_AREA_SIZE && Share(k) >= BUDDY_SIZE[0]
    ensures IsRun(js, es, mr, {c}, k) && CacheRace.Posted(js[|es|].cache, c, info.addr)
    ensures var s := js[|es|].cache;
            var a, sv, cl := info.addr, s.server, s.clients[c];
            var t := C.Land(Clear(sv, c, [info]), a, cl.inFlight[a]);
            && ColdOk(sv, cl.infos, [info]) && a in sv.nvm && a in t.nvm
            && Content(t, a) == Content(sv, a) != C.Effective(sv, cl, a)
  {
    hide *;
    TooLong(k);
    var start, j1 := Boot(mr, {c}, k, mem), Boot(mr, {c}, k, mem);
    js, es, j1, info := CachedRun(mr, c, k, mem, 1, 0);
    LeadsInv(start, js, es, j1);
    OneIsBlock();
    var a, infos, since := info.addr, map[info.addr := Info(info.length, Some(0))], map[info.addr := map[]];
    var sv := Caching(c, info, 0);
    var ss, ce := CachePaths.WritePath(sv, c, k, infos, since, a, [1]);
    var last := CachePaths.Alone(sv, c, CachePaths.Writing(infos, since, a, [1]), k);
    var ks, fs, t := Lift(j1, ss, ce, last);
    js, es := Join(start, js, es, j1, ks, fs, t);
    LeadsInv(start, js, es, t);
    PathIsRun(mr, c, k, mem, js, es, t);
    WrittenIsLost(t, c, k, info);
  }

  lemma OneIsBlock()
    ensures GrantedLength(1) == BUDDY_SIZE[0] > 0
  {
    assert P.OrderFor(1) == 0;
  }

  lemma WrittenIsLost(j: Joint, c: nat, k: nat, info: NvmInfo)
    requires JointInv(j) && info.length > 0
    requires j.cache == CachePaths.Alone(Caching(c, info, 0), c,
               CachePaths.Writing(map[info.addr := Info(info.length, Some(0))], map[info.addr := map[]], info.addr, [1]), k)
    ensures CacheRace.Posted(j.cache, c, info.addr)
    ensures var s := j.cache;
            var a, sv, cl := info.addr, s.server, s.clients[c];
            var t := C.Land(Clear(sv, c, [info]), a, cl.inFlight[a]);
            && ColdOk(sv, cl.infos, [info]) && a in sv.nvm && a in t.nvm
            && Content(t, a) == Content(sv, a) != C.Effective(sv, cl, a)
  {
    var sv, cl, a := j.cache.server, j.cache.clients[c], info.addr;
    hide P.PoolInv, C.Inv, Matches, Holds, Clear, C.Land;
    OverwrittenByte(c, k, info);
    assert Names([info], a) by { assert [info][0].addr == a; }
    hide Caching, CachePaths.Writing, Content, C.Effective;
    CacheRace.ClearOvertakesWrite(j.cache, c, a, [info]);
  }

  lemma OverwrittenByte(c: nat, k: nat, info: NvmInfo)
    requires info.length > 0
    ensures var infos, since := map[info.addr := Info(info.length, Some(0))], map[info.addr := map[]];
            var sv, cl := Caching(c, info, 0), CachePaths.Writing(infos, since, info.addr, [1]);
            && info.addr in sv.nvm && info.addr in cl.inFlight && cl.infos == infos && ColdOk(sv, infos, [info])
            && Content(sv, info.addr) != C.Effective(sv, cl, info.addr)
  {
    var infos, since := map[info.addr := Info(info.length, Some(0))], map[info.addr := map[]];
    var sv, cl := Caching(c, info, 0), CachePaths.Writing(infos, since, info.addr, [1]);
    assert Find(sv.entries, info.addr) == Some(sv.entries[0]);
    assert Content(sv, info.addr) == Zeros(info.length);
    assert C.Effective(sv, cl, info.addr)[0] == 1;
  }
}
