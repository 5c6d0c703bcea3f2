/** Runs of the whole server built from stretches of cache runs and from allocations. */
module JointPaths {
  import opened Wrappers
  import opened BuddyArea
  import opened DramCache
  import opened FlatMemory
  import opened JointServer
  import CachePaths

  // ---------- fresh registrations ----------

  /** An address and a key above all of these. */
  function Top(ms: seq<MemRegion>): (t: nat)
    ensures forall m :: m in ms ==> m.addr + m.length <= t && m.lkey < t
  {
    if ms == [] then 0
    else
      var rest, m := Top(ms[1..]), ms[0];
      var a := if rest > m.addr + m.length then rest else m.addr + m.length;
      if a > m.lkey then a else m.lkey + 1
  }

  /** Fresh memory can always be registered. */
  lemma SomeReg(p: P.Pool, size: nat) returns (reg: P.Reg)
    ensures reg.Registered? && S.FreshReg(p, size, reg)
  {
    var areas := seq(|p.areas|, i requires 0 <= i < |p.areas| => p.areas[i].mr);
    var t, u := Top(areas), Top(p.more);
    reg := P.Registered(t + u, t + u);
    forall k | 0 <= k < |p.areas| ensures P.Separate(MemRegion(t + u, S.NeededLength(size), t + u), p.areas[k].mr) {
      assert areas[k] in areas;
    }
    forall k | 0 <= k < |p.more| ensures P.Separate(MemRegion(t + u, S.NeededLength(size), t + u), p.more[k]) {
      assert p.more[k] in p.more;
    }
  }

  // ---------- paths ----------

  ghost predicate IsPath(js: seq<Joint>, es: seq<Event>) {
    |js| == |es| + 1 && forall i :: 0 <= i < |es| ==> Follows(js[i], es[i], js[i + 1])
  }

  ghost predicate Leads(j: Joint, js: seq<Joint>, es: seq<Event>, t: Joint) {
    IsPath(js, es) && js[0] == j && js[|es|] == t && JointInv(t)
  }

  lemma Append(j: Joint, js: seq<Joint>, es: seq<Event>, t: Joint, e: Event, u: Joint)
    requires Leads(j, js, es, t) && Follows(t, e, u) && JointInv(u)
    ensures Leads(j, js + [u], es + [e], u)
  {
    hide Follows, JointInv;
    var ks, fs := js + [u], es + [e];
    forall i | 0 <= i < |fs| ensures Follows(ks[i], fs[i], ks[i + 1]) {
      if i < |es| {
        assert ks[i] == js[i] && ks[i + 1] == js[i + 1] && fs[i] == es[i];
      }
    }
  }

  lemma Join(j: Joint, js: seq<Joint>, es: seq<Event>, t: Joint, ks: seq<Joint>, fs: seq<Event>, u: Joint)
    returns (ls: seq<Joint>, gs: seq<Event>)
    requires Leads(j, js, es, t) && Leads(t, ks, fs, u)
    ensures Leads(j, ls, gs, u) && gs == es + fs && ls == js + ks[1..]
    ensures forall n :: 0 <= n <= |fs| ==> ls[|es| + n] == ks[n]
  {
    hide Follows, JointInv;
    ls, gs := js + ks[1..], es + fs;
    forall n | 0 <= n <= |fs| ensures ls[|es| + n] == ks[n] {}
    forall i | 0 <= i < |gs| ensures Follows(ls[i], gs[i], ls[i + 1]) {
      if i < |es| {
        assert ls[i] == js[i] && ls[i + 1] == js[i + 1] && gs[i] == es[i];
      } else {
        var n := i - |es|;
        assert ls[|es| + n] == ks[n] && ls[|es| + (n + 1)] == ks[n + 1] && gs[i] == fs[n];
      }
    }
  }

  /** The event of the whole server for a step of the cache protocol that is no allocation. */
  function Lifted(e: C.Event): Event {
    if e.ServeFree? then Release(e.c, true) else Other(e)
  }

  /** The whole server can follow a step of the cache protocol. */
  lemma FollowCache(j: Joint, e: Event, s: C.State) returns (t: Joint)
    requires JointInv(j) && Possible(j, e) && CacheTheorems.Follows(j.cache, AsCache(j, e), s)
    ensures Follows(j, e, t) && t.cache == s && JointInv(t)
  {
    hide JointInv, Possible, C.Step, C.Enabled, AsCache;
    StepKeepsInv(j, e);
    t := Step(j, e);
  }

  lemma LiftedIsPossible(j: Joint, e: C.Event)
    requires C.Enabled(j.cache, e) && !e.ServeMalloc?
    ensures Possible(j, Lifted(e)) && AsCache(j, Lifted(e)) == e
  {
  }

  /** A stretch of a cache run without allocations is one of the whole server. */
  lemma {:induction false} Lift(j: Joint, ss: seq<C.State>, es: seq<C.Event>, s: C.State)
    returns (js: seq<Joint>, fs: seq<Event>, t: Joint)
    requires JointInv(j) && CachePaths.Leads(j.cache, ss, es, s) && forall e :: e in es ==> !e.ServeMalloc?
    ensures Leads(j, js, fs, t) && t.cache == s
    ensures |fs| == |es| && forall i :: 0 <= i <= |es| ==> js[i].cache == ss[i]
    ensures forall i :: 0 <= i < |es| ==> fs[i] == Lifted(es[i])
    decreases |es|
  {
    hide JointInv, CacheTheorems.Follows, Follows, Possible, Lifted;
    if es == [] {
      js, fs, t := [j], [], j;
    } else {
      var n := |es| - 1;
      assert es[n] in es && forall e :: e in es[..n] ==> e in es;
      var j1;
      js, fs, j1 := Lift(j, ss[..n + 1], es[..n], ss[n]);
      assert CacheTheorems.Follows(ss[n], es[n], ss[n + 1]);
      t := FollowLifted(j1, es[n], ss[n + 1]);
      Append(j, js, fs, j1, Lifted(es[n]), t);
      js, fs := js + [t], fs + [Lifted(es[n])];
    }
  }

  lemma CacheEnabled(s: C.State, e: C.Event, t: C.State)
    requires CacheTheorems.Follows(s, e, t)
    ensures C.Enabled(s, e)
  {
  }

  // ---------- an allocation ----------

  function GrantedLength(size: nat): nat {
    if P.PathOf(size).OneBlock? then (if P.OrderFor(size) < MAX_ORDER then BUDDY_SIZE[P.OrderFor(size)] else 0)
    else S.NeededLength(size)
  }

  function Zeros(n: nat): (z: seq<Byte>)
    ensures |z| == n && forall i :: 0 <= i < n ==> z[i] == 0
  {
    seq(n, _ => 0)
  }

  lemma MallocSucceeds(p: P.Pool, t: nat, size: nat, reg: P.Reg)
    requires P.PoolInv(p) && reg.Registered? && S.FreshReg(p, size, reg)
    ensures var res := P.Malloc(p, t, size, reg).1; res.Some? && res.value.length == GrantedLength(size)
  {
    hide P.PoolInv, S.FreshReg, P.Malloc, S.NeededLength;
    if P.PathOf(size).OneBlock? {
      S.MallocBlockStep(p, t, size, reg);
      S.BlockOrder(size);
    } else {
      S.MallocAreaStep(p, t, size, reg);
    }
  }

  lemma AnswerOf(j: Joint, c: nat, size: nat, reg: P.Reg, fill: seq<Byte>) returns (r: MemRegion)
    requires JointInv(j) && Asks(j.cache, c) && j.cache.clients[c].up[0].length == size
    requires reg.Registered? && S.FreshReg(j.pool, size, reg) && |fill| == GrantedLength(size)
    ensures Possible(j, Malloc(c, reg, fill)) && Answer(j, Malloc(c, reg, fill)) == Some(r)
    ensures AsCache(j, Malloc(c, reg, fill)) == C.ServeMalloc(c, Some(NvmInfo(r.addr, r.length)), fill)
    ensures r.length == GrantedLength(size) && r.addr !in j.cache.server.nvm
  {
    MallocSucceeds(j.pool, c, size, reg);
    hide P.Malloc, S.FreshReg, GrantedLength;
    r := Answer(j, Malloc(c, reg, fill)).value;
    AnswerIsNew(j, Malloc(c, reg, fill));
  }

  /** The cache after an object was allocated to a client at rest. */
  ghost function Allocated(sv: Server, c: nat, k: nat, infos: map<Addr, Info>, since: map<Addr, map<nat, Byte>>,
                           info: NvmInfo): C.State {
    CachePaths.Alone(sv.(nvm := sv.nvm[info.addr := NvmObj(c, info.length, Zeros(info.length))]), c,
                     CachePaths.Resting(infos[info.addr := Info(info.length, None)], since[info.addr := map[]]), k)
  }

  /** A client at rest can allocate any size; it gets a new object of the granted length. */
  lemma MallocRun(j: Joint, sv: Server, c: nat, k: nat, infos: map<Addr, Info>, since: map<Addr, map<nat, Byte>>, size: nat)
    returns (js: seq<Joint>, es: seq<Event>, t: Joint, info: NvmInfo)
    requires JointInv(j) && k > 0 && j.cache == CachePaths.Alone(sv, c, CachePaths.Resting(infos, since), k)
    ensures Leads(j, js, es, t) && t.cache == Allocated(sv, c, k, infos, since, info)
    ensures info.length == GrantedLength(size) && info.addr !in sv.nvm
  {
    hide JointInv, Possible, AsCache, Lifted, Follows, CacheTheorems.Follows, GrantedLength, S.FreshReg;
    var fill := Zeros(GrantedLength(size));
    var first, last := C.StartMalloc(c, size), C.FinishMalloc(c);
    var cl0 := CachePaths.Resting(infos, since);
    AskStep(sv, c, k, infos, since, size);
    var j1 := FollowLifted(j, first, CachePaths.Alone(sv, c, cl0.(phase := C.WaitMalloc, up := [C.MallocReq(size)]), k));
    var reg := SomeReg(j1.pool, size);
    var r := AnswerOf(j1, c, size, reg, fill);
    info := NvmInfo(r.addr, r.length);
    AnswerStep(sv, c, k, infos, since, size, info, fill);
    var tv := sv.(nvm := sv.nvm[info.addr := NvmObj(c, info.length, fill)]);
    var j2 := FollowCache(j1, Malloc(c, reg, fill),
                          CachePaths.Alone(tv, c, cl0.(phase := C.WaitMalloc, down := [C.MallocResp(info)]), k));
    EndStep(tv, c, k, infos, since, info);
    t := FollowLifted(j2, last, Allocated(sv, c, k, infos, since, info));
    js, es := [j, j1, j2, t], [Lifted(first), Malloc(c, reg, fill), Lifted(last)];
  }

  lemma FollowLifted(j: Joint, e: C.Event, s: C.State) returns (t: Joint)
    requires JointInv(j) && CacheTheorems.Follows(j.cache, e, s) && !e.ServeMalloc?
    ensures Follows(j, Lifted(e), t) && t.cache == s && JointInv(t)
  {
    hide JointInv, Possible, AsCache, Lifted, Follows, CacheTheorems.Follows;
    CacheEnabled(j.cache, e, s);
    LiftedIsPossible(j, e);
    t := FollowCache(j, Lifted(e), s);
  }

  lemma AskStep(sv: Server, c: nat, k: nat, infos: map<Addr, Info>, since: map<Addr, map<nat, Byte>>, size: nat)
    requires k > 0
    ensures var cl := CachePaths.Resting(infos, since);
            CacheTheorems.Follows(CachePaths.Alone(sv, c, cl, k), C.StartMalloc(c, size),
                                  CachePaths.Alone(sv, c, cl.(phase := C.WaitMalloc, up := [C.MallocReq(size)]), k))
  {
    var cl, q := CachePaths.Resting(infos, since), C.MallocReq(size);
    assert [] + [q] == [q];
    CachePaths.OneStep(sv, c, cl, k, C.StartMalloc(c, size), sv, cl.(phase := C.WaitMalloc, up := [q]));
  }

  lemma AnswerStep(sv: Server, c: nat, k: nat, infos: map<Addr, Info>, since: map<Addr, map<nat, Byte>>, size: nat,
                   info: NvmInfo, fill: seq<Byte>)
    requires k > 0 && info.addr !in sv.nvm && |fill| == info.length
    ensures var cl := CachePaths.Resting(infos, since);
            CacheTheorems.Follows(CachePaths.Alone(sv, c, cl.(phase := C.WaitMalloc, up := [C.MallocReq(size)]), k),
                                  C.ServeMalloc(c, Some(info), fill),
                                  CachePaths.Alone(sv.(nvm := sv.nvm[info.addr := NvmObj(c, info.length, fill)]), c,
                                                   cl.(phase := C.WaitMalloc, down := [C.MallocResp(info)]), k))
  {
    var cl, q, r := CachePaths.Resting(infos, since), C.MallocReq(size), C.MallocResp(info);
    assert [q][1..] == [] && [] + [r] == [r];
    CachePaths.OneStep(sv, c, cl.(phase := C.WaitMalloc, up := [q]), k, C.ServeMalloc(c, Some(info), fill),
                       sv.(nvm := sv.nvm[info.addr := NvmObj(c, info.length, fill)]),
                       cl.(phase := C.WaitMalloc, down := [r]));
  }

  lemma EndStep(tv: Server, c: nat, k: nat, infos: map<Addr, Info>, since: map<Addr, map<nat, Byte>>, info: NvmInfo)
    requires k > 0
    ensures var cl := CachePaths.Resting(infos, since);
            CacheTheorems.Follows(CachePaths.Alone(tv, c, cl.(phase := C.WaitMalloc, down := [C.MallocResp(info)]), k),
                                  C.FinishMalloc(c),
                                  CachePaths.Alone(tv, c, CachePaths.Resting(infos[info.addr := Info(info.length, None)],
                                                                            since[info.addr := map[]]), k))
  {
    var cl, r := CachePaths.Resting(infos, since), C.MallocResp(info);
    assert [r][1..] == [];
    CachePaths.OneStep(tv, c, cl.(phase := C.WaitMalloc, down := [r]), k, C.FinishMalloc(c), tv,
                       CachePaths.Resting(infos[info.addr := Info(info.length, None)], since[info.addr := map[]]));
  }

  // ---------- from the start ----------

  ghost function Empty(): Server { Server([], map[], 0, map[], map[]) }

  lemma BootIs(mr: MemRegion, c: nat, k: nat, mem: Memory)
    requires k > 0 && mr.length == SINGLE_AREA_SIZE
    ensures JointInv(Boot(mr, {c}, k, mem))
    ensures Boot(mr, {c}, k, mem).cache == CachePaths.Alone(Empty(), c, CachePaths.Resting(map[], map[]), k)
  {
    BootInv(mr, {c}, k, mem);
    assert CacheTheorems.Initial({c}, k) == CachePaths.Alone(Empty(), c, CachePaths.Resting(map[], map[]), k);
  }

  lemma PathIsRun(mr: MemRegion, c: nat, k: nat, mem: Memory, js: seq<Joint>, es: seq<Event>, t: Joint)
    requires k > 0 && mr.length == SINGLE_AREA_SIZE && Leads(Boot(mr, {c}, k, mem), js, es, t)
    ensures IsRun(js, es, mr, {c}, k)
  {
    hide Follows, JointInv;
  }
}
