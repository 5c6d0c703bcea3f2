/**
 The whole server: allocator, cache and memory together.  One malloc request and one free
 request each drive both the pool and the cache, as the handlers do; what either model takes
 for granted about the other's part is proved here from the other's invariant.
 */
module JointServer {
  import opened Wrappers
  import opened BuddyArea
  import opened DramCache
  import opened FlatMemory
  import P = NvmPool
  import S = NvmSafety
  import C = CacheProtocol
  import CacheSafety
  import CacheTheorems

  /** `given` is the region each object's malloc reply carried; the client sends it back to free. */
  datatype Joint = Joint(pool: P.Pool, cache: C.State, mem: Memory, given: map<Addr, MemRegion>)

  datatype Event =
    | Malloc(c: nat, reg: P.Reg, fill: seq<Byte>)
    | Release(c: nat, rebuilt: bool)
    | Other(e: C.Event)

  // ---------- steps ----------

  function InfoOf(r: Option<MemRegion>): Option<NvmInfo> {
    match r
    case None => None
    case Some(m) => Some(NvmInfo(m.addr, m.length))
  }

  /** The region the allocator grants to a malloc event. */
  function Answer(j: Joint, e: Event): Option<MemRegion>
    requires e.Malloc? && Asks(j.cache, e.c)
  {
    P.Malloc(j.pool, e.c, j.cache.clients[e.c].up[0].length, e.reg).1
  }

  predicate Asks(s: C.State, c: nat) {
    c in s.clients && s.clients[c].up != [] && s.clients[c].up[0].MallocReq?
  }

  predicate Returns(s: C.State, c: nat) {
    c in s.clients && s.clients[c].up != [] && s.clients[c].up[0].FreeReq?
  }

  /** What the environment decides: arriving messages, fresh memory, and the bytes it holds.
      Nothing is said about addresses in use or about who may free what. */
  ghost predicate Possible(j: Joint, e: Event) {
    match e
    case Malloc(c, reg, fill) =>
      && Asks(j.cache, c)
      && S.FreshReg(j.pool, j.cache.clients[c].up[0].length, reg)
      && (Answer(j, e).Some? ==> |fill| == Answer(j, e).value.length)
    case Release(c, rebuilt) => Returns(j.cache, c)
    case Other(o) => !o.ServeMalloc? && !o.ServeFree? && C.Enabled(j.cache, o)
  }

  /** The cache protocol's step for this event. */
  function AsCache(j: Joint, e: Event): C.Event {
    match e
    case Malloc(c, reg, fill) => C.ServeMalloc(c, if Asks(j.cache, c) then InfoOf(Answer(j, e)) else None, fill)
    case Release(c, rebuilt) => C.ServeFree(c)
    case Other(o) => o
  }

  /** The region a free request carries. */
  function Carried(j: Joint, c: nat): MemRegion {
    if Returns(j.cache, c) && j.cache.clients[c].up[0].info.addr in j.given
    then j.given[j.cache.clients[c].up[0].info.addr] else MemRegion(0, 0, 0)
  }

  /** The pool's request for this event, if it is one. */
  function AsPool(j: Joint, e: Event): Option<S.Request> {
    match e
    case Malloc(c, reg, fill) =>
      if Asks(j.cache, c) then Some(S.MallocRequest(c, j.cache.clients[c].up[0].length, reg)) else None
    case Release(c, rebuilt) => Some(S.FreeRequest(c, Carried(j, c), rebuilt))
    case Other(o) => None
  }

  /** What the event writes into the server's NVM. */
  ghost function Written(j: Joint, e: Event): Memory
    requires Possible(j, e) && j.cache.connections > 0
  {
    match e
    case Malloc(c, reg, fill) =>
      (match Answer(j, e)
       case None => j.mem
       case Some(r) => Store(j.mem, r.addr, fill))
    case Release(c, rebuilt) => WriteBack(j.mem, j.cache.server, j.cache.clients[c].up[0].info.addr)
    case Other(o) =>
      var cl := j.cache.clients[o.c];
      if o.ServePoll? && cl.pollUp[0].ClearReq? then ClearMemory(j.mem, j.cache.server, o.c, cl.pollUp[0].cold)
      else if o.CompleteWrite? && cl.inFlight[o.a].target.None? then Store(j.mem, o.a, cl.inFlight[o.a].data)
      else j.mem
  }

  ghost function Step(j: Joint, e: Event): Joint
    requires Possible(j, e) && j.cache.connections > 0
    requires C.Enabled(j.cache, AsCache(j, e))
  {
    Joint(match AsPool(j, e) { case None => j.pool case Some(q) => S.Serve(j.pool, q) },
          C.Step(j.cache, AsCache(j, e)),
          Written(j, e),
          if e.Malloc? && Answer(j, e).Some? then j.given[Answer(j, e).value.addr := Answer(j, e).value] else j.given)
  }

  // ---------- the invariant ----------

  /** Held regions and live objects are the same things. */
  ghost predicate Matches(pool: P.Pool, nvm: map<Addr, NvmObj>, given: map<Addr, MemRegion>) {
    && (forall a :: a in nvm ==>
          && a in given && given[a].addr == a && given[a] in pool.grants
          && pool.grants[given[a]] == nvm[a].owner && given[a].length == nvm[a].length)
    && (forall r :: r in pool.grants ==> r.addr in nvm && given[r.addr] == r)
  }

  ghost predicate JointInv(j: Joint) {
    && P.PoolInv(j.pool) && C.Inv(j.cache)
    && Matches(j.pool, j.cache.server.nvm, j.given)
    && Holds(j.mem, j.cache.server.nvm)
  }

  /** The allocator keeps live objects apart. */
  lemma ObjectsSeparated(pool: P.Pool, nvm: map<Addr, NvmObj>, given: map<Addr, MemRegion>)
    requires P.PoolInv(pool) && Matches(pool, nvm, given)
    ensures Separated(nvm)
  {
    S.PoolStructure(pool);
    hide P.Structure, P.PoolInv;
    forall a, b | a in nvm && b in nvm && a != b ensures a + nvm[a].length <= b || b + nvm[b].length <= a {
      S.HeldApart(pool, given[a], given[b]);
    }
  }

  // ---------- each model's assumptions follow from the other ----------

  /** The allocator's answer is new to the cache. */
  lemma AnswerIsNew(j: Joint, e: Event)
    requires JointInv(j) && Possible(j, e) && e.Malloc? && Answer(j, e).Some?
    ensures var r := Answer(j, e).value;
            && r.addr !in j.cache.server.nvm
            && forall b :: b in j.cache.server.nvm ==>
                 r.addr + r.length <= b || b + j.cache.server.nvm[b].length <= r.addr
  {
    hide P.PoolInv, C.Inv, S.FreshReg, Holds, P.Malloc;
    var nvm, size := j.cache.server.nvm, j.cache.clients[e.c].up[0].length;
    forall b | b in nvm
      ensures Answer(j, e).value.addr != b
      ensures Answer(j, e).value.addr + Answer(j, e).value.length <= b || b + nvm[b].length <= Answer(j, e).value.addr
    {
      S.GrantedAddressIsNew(j.pool, e.c, size, e.reg, j.given[b]);
    }
  }

  /** A free request that arrives names a region its sender holds. */
  lemma CarriedIsHeld(j: Joint, c: nat)
    requires JointInv(j) && Returns(j.cache, c)
    ensures var info := j.cache.clients[c].up[0].info;
            && info.addr in j.cache.server.nvm && j.cache.server.nvm[info.addr].owner == c
            && j.cache.server.nvm[info.addr].length == info.length
            && j.cache.clients[c].up == [C.FreeReq(info)]
            && Carried(j, c) == j.given[info.addr]
            && Carried(j, c).addr == info.addr && Carried(j, c).length == info.length
            && Carried(j, c) in j.pool.grants && j.pool.grants[Carried(j, c)] == c
  {
    hide P.PoolInv, Holds, ServerOk, C.ContentOk, C.Inventory, C.PendingOk;
    assert C.ClientOk(j.cache.server, c, j.cache.clients[c]);
  }

  lemma BothEnabled(j: Joint, e: Event)
    requires JointInv(j) && Possible(j, e)
    ensures j.cache.connections > 0 && C.Enabled(j.cache, AsCache(j, e))
    ensures AsPool(j, e).Some? ==> S.Enabled(j.pool, AsPool(j, e).value)
  {
    match e
    case Malloc(c, reg, fill) =>
      if Answer(j, e).Some? {
        AnswerIsNew(j, e);
      }
    case Release(c, rebuilt) => CarriedIsHeld(j, c);
    case Other(o) =>
  }

  // ---------- every step ----------

  /** What the cache protocol's steps do to the server. */
  ghost function ServerAfter(s: C.State, e: C.Event): Server
    requires C.Enabled(s, e) && s.connections > 0
  {
    var sv, cl := s.server, s.clients[e.c];
    match e
    case ServeMalloc(c, res, fill) =>
      if res.Some? then sv.(nvm := sv.nvm[res.value.addr := NvmObj(c, res.value.length, fill)]) else sv
    case ServeFree(c) => Free(sv, c, cl.up[0].info)
    case ServePoll(c, allocs) =>
      (match cl.pollUp[0]
       case ClearReq(cold) => Clear(sv, c, cold)
       case ApplyReq(hot) => Apply(sv, c, hot, allocs, Share(s.connections)).0)
    case CompleteWrite(c, a) => C.Land(sv, a, cl.inFlight[a])
    case _ => sv
  }

  lemma ServerAfterStep(s: C.State, e: C.Event)
    requires C.Enabled(s, e) && s.connections > 0
    ensures C.Step(s, e).server == ServerAfter(s, e)
  {
    hide Free, Clear, Apply, C.Land;
  }

  lemma MallocKeeps(j: Joint, e: Event)
    requires JointInv(j) && Possible(j, e) && e.Malloc?
    requires j.cache.connections > 0 && C.Enabled(j.cache, AsCache(j, e))
    ensures var t := Step(j, e);
            && Matches(t.pool, t.cache.server.nvm, t.given) && Holds(t.mem, t.cache.server.nvm)
            && NoStray(j.mem, t.mem, t.cache.server.nvm)
  {
    hide P.PoolInv, C.Inv, S.FreshReg, P.Malloc, Holds, NoStray, C.Enabled, C.Step, Matches;
    var size := j.cache.clients[e.c].up[0].length;
    var t := Step(j, e);
    ServerAfterStep(j.cache, AsCache(j, e));
    if Answer(j, e).Some? {
      var r := Answer(j, e).value;
      AnswerIsNew(j, e);
      S.MallocKeeps(j.pool, e.c, size, e.reg);
      StoreNewObject(j.mem, j.cache.server.nvm, r.addr, NvmObj(e.c, r.length, e.fill));
      MatchesAfterMalloc(j.pool, t.pool, j.cache.server.nvm, j.given, r, NvmObj(e.c, r.length, e.fill));
    } else {
      FailedMalloc(j.pool, e.c, size, e.reg);
      StrayNothing(j.mem, j.cache.server.nvm);
    }
  }

  lemma MatchesAfterMalloc(p: P.Pool, q: P.Pool, nvm: map<Addr, NvmObj>, given: map<Addr, MemRegion>,
                           r: MemRegion, obj: NvmObj)
    requires Matches(p, nvm, given) && r.addr !in nvm && r !in p.grants
    requires q.grants == p.grants[r := obj.owner] && obj.length == r.length
    ensures Matches(q, nvm[r.addr := obj], given[r.addr := r])
  {
  }

  lemma FailedMalloc(p: P.Pool, t: nat, size: nat, reg: P.Reg)
    requires P.PoolInv(p) && S.FreshReg(p, size, reg) && P.Malloc(p, t, size, reg).1.None?
    ensures P.Malloc(p, t, size, reg).0 == p
  {
    hide P.PoolInv, P.Malloc, S.FreshReg;
    if P.PathOf(size).OneBlock? {
      S.MallocBlockStep(p, t, size, reg);
    } else {
      S.MallocAreaStep(p, t, size, reg);
    }
  }

  lemma ReleaseKeeps(j: Joint, e: Event)
    requires JointInv(j) && Possible(j, e) && e.Release?
    requires j.cache.connections > 0 && C.Enabled(j.cache, AsCache(j, e))
    ensures var t := Step(j, e);
            && Matches(t.pool, t.cache.server.nvm, t.given) && Holds(t.mem, t.cache.server.nvm)
            && NoStray(j.mem, t.mem, j.cache.server.nvm)
  {
    hide C.Step, C.Enabled, C.Inv, P.PoolInv, ServerOk, Holds, Separated, NoStray, P.FreeRegion, Free, WriteBack, Carried;
    var sv, c, t := j.cache.server, e.c, Step(j, e);
    var info, r := j.cache.clients[c].up[0].info, Carried(j, c);
    ServerAfterStep(j.cache, AsCache(j, e));
    CarriedIsHeld(j, c);
    ObjectsSeparated(j.pool, sv.nvm, j.given);
    ServerInOrder(j.cache);
    FreedServer(sv, c, info, j.mem, Share(j.cache.connections));
    PoolAfterFree(j.pool, c, r, e.rebuilt);
    MatchesAfterFree(j.pool, t.pool, sv.nvm, Free(sv, c, info).nvm, j.given, info.addr);
    hide Matches;
  }

  lemma ServerInOrder(s: C.State)
    requires C.Inv(s)
    ensures s.connections > 0 && ServerOk(s.server, Share(s.connections))
  {
  }

  lemma MatchesAfterFree(p: P.Pool, q: P.Pool, nvm: map<Addr, NvmObj>, nvm1: map<Addr, NvmObj>,
                         given: map<Addr, MemRegion>, a: Addr)
    requires Matches(p, nvm, given) && a in nvm && q.grants == p.grants - {given[a]}
    requires nvm1.Keys == nvm.Keys - {a} && forall b :: b in nvm1 ==> nvm1[b] == nvm[b]
    ensures Matches(q, nvm1, given)
  {
  }

  lemma PoolAfterFree(p: P.Pool, t: nat, r: MemRegion, rebuilt: bool)
    ensures P.FreeRegion(p, t, r, rebuilt).grants == p.grants - {r}
  {
    hide P.FreeOneBlock, P.FreeOneArea;
  }

  /** The write-back and the end of one object. */
  lemma FreedServer(sv: Server, c: nat, info: NvmInfo, mem: Memory, share: nat)
    requires ServerOk(sv, share) && Separated(sv.nvm) && Holds(mem, sv.nvm)
    requires info.addr in sv.nvm && sv.nvm[info.addr].owner == c && sv.nvm[info.addr].length == info.length
    ensures var u := Free(sv, c, info);
            && u.nvm.Keys == sv.nvm.Keys - {info.addr} && (forall b :: b in u.nvm ==> u.nvm[b] == sv.nvm[b])
            && Holds(WriteBack(mem, sv, info.addr), u.nvm) && NoStray(mem, WriteBack(mem, sv, info.addr), sv.nvm)
  {
    WriteBackHolds(mem, sv, info.addr);
    FreeOk(sv, c, info, share);
    FreedNvm(sv, c, info);
    hide ServerOk, Free, WriteBack, Find, NoStray, Separated, Destroy, SameForOthers;
  }

  lemma FreedNvm(sv: Server, c: nat, info: NvmInfo)
    ensures Free(sv, c, info).nvm == Destroy(sv, info.addr).0.nvm - {info.addr}
  {
    hide Find, RemoveFirst;
  }

  lemma OtherKeeps(j: Joint, e: Event)
    requires JointInv(j) && Possible(j, e) && e.Other?
    requires j.cache.connections > 0 && C.Enabled(j.cache, AsCache(j, e))
    ensures var t := Step(j, e);
            && Matches(t.pool, t.cache.server.nvm, t.given) && Holds(t.mem, t.cache.server.nvm)
            && NoStray(j.mem, t.mem, j.cache.server.nvm)
  {
    hide P.PoolInv, C.Inv, Holds, NoStray, Separated, ClearMemory, Clear, Apply, C.Land, C.Step, SameObjects;
    var o, t := e.e, Step(j, e);
    ServerAfterStep(j.cache, o);
    ObjectsSeparated(j.pool, j.cache.server.nvm, j.given);
    SameRefl(j.cache.server.nvm);
    StrayNothing(j.mem, j.cache.server.nvm);
    if o.ServePoll? && j.cache.clients[o.c].pollUp[0].ClearReq? {
      ClearKeeps(j.cache, o, j.mem);
    } else if o.ServePoll? {
      ApplyKeeps(j.cache, o);
    } else if o.CompleteWrite? {
      WriteKeeps(j.cache, o, j.mem);
    }
    MatchesSame(j.pool, j.cache.server.nvm, t.cache.server.nvm, j.given);
    hide Matches;
  }

  lemma SameRefl(nvm: map<Addr, NvmObj>)
    ensures SameObjects(nvm, nvm)
  {
  }

  lemma MatchesSame(p: P.Pool, nvm: map<Addr, NvmObj>, nvm1: map<Addr, NvmObj>, given: map<Addr, MemRegion>)
    requires Matches(p, nvm, given) && SameObjects(nvm, nvm1)
    ensures Matches(p, nvm1, given)
  {
  }

  ghost predicate SameObjects(nvm: map<Addr, NvmObj>, nvm1: map<Addr, NvmObj>) {
    nvm1.Keys == nvm.Keys && forall a :: a in nvm ==> nvm1[a].owner == nvm[a].owner && nvm1[a].length == nvm[a].length
  }

  lemma ClearKeeps(s: C.State, o: C.Event, mem: Memory)
    requires C.Inv(s) && C.Enabled(s, o) && o.ServePoll? && s.clients[o.c].pollUp[0].ClearReq?
    requires Separated(s.server.nvm) && Holds(mem, s.server.nvm)
    ensures var cold := s.clients[o.c].pollUp[0].cold;
            var u := Clear(s.server, o.c, cold);
            && SameObjects(s.server.nvm, u.nvm) && Holds(ClearMemory(mem, s.server, o.c, cold), u.nvm)
            && NoStray(mem, ClearMemory(mem, s.server, o.c, cold), s.server.nvm)
  {
    hide ServerOk, ColdOk, Owns, Agree, Content, C.ContentOk, Clear, ClearMemory;
    var sv, cl, share := s.server, s.clients[o.c], Share(s.connections);
    var view := C.Drain(cl.infos, cl.pollDown);
    assert C.ClientOk(sv, o.c, cl);
    OwnsSameKeys(sv, o.c, view, cl.infos);
    hide C.Inv, C.ClientOk, C.Enabled;
    ClearOk(sv, o.c, view, cl.pollUp[0].cold, share);
    ClearHolds(mem, sv, o.c, view, cl.pollUp[0].cold, share);
  }

  lemma ApplyKeeps(s: C.State, o: C.Event)
    requires C.Inv(s) && C.Enabled(s, o) && o.ServePoll? && s.clients[o.c].pollUp[0].ApplyReq?
    ensures Apply(s.server, o.c, s.clients[o.c].pollUp[0].hot, o.allocs, Share(s.connections)).0.nvm == s.server.nvm
  {
    ApplyNvm(s.server, o.c, s.clients[o.c].pollUp[0].hot, o.allocs, Share(s.connections));
  }

  lemma {:induction false} ApplyNvm(s: Server, c: nat, hot: seq<NvmInfo>, allocs: seq<DramAlloc>, share: nat)
    requires |allocs| >= |hot|
    ensures Apply(s, c, hot, allocs, share).0.nvm == s.nvm
    decreases |hot|
  {
    if hot != [] && Used(s.pollUsed, c) + hot[0].length <= share {
      var u := if allocs[0].AllocFails? then s else Create(s, c, hot[0], allocs[0].key, allocs[0].fill);
      ApplyNvm(u, c, hot[1..], allocs[1..], share);
    }
  }

  lemma WriteKeeps(s: C.State, o: C.Event, mem: Memory)
    requires C.Inv(s) && C.Enabled(s, o) && o.CompleteWrite?
    requires Separated(s.server.nvm) && Holds(mem, s.server.nvm)
    ensures var w := s.clients[o.c].inFlight[o.a];
            var u, mem1 := C.Land(s.server, o.a, w), if w.target.None? then Store(mem, o.a, w.data) else mem;
            SameObjects(s.server.nvm, u.nvm) && Holds(mem1, u.nvm) && NoStray(mem, mem1, s.server.nvm)
  {
    hide ServerOk, C.ClientOk, Separated, Holds, NoStray, Find;
    var sv, cl := s.server, s.clients[o.c];
    assert C.ClientOk(sv, o.c, cl);
    hide C.Inv;
    CacheSafety.InFlightFacts(sv, o.c, cl, o.a);
    StrayNothing(mem, sv.nvm);
    if cl.inFlight[o.a].target.None? {
      StoreInObject(mem, sv.nvm, o.a, cl.inFlight[o.a].data);
    }
  }

  lemma StrayNothing(mem: Memory, nvm: map<Addr, NvmObj>)
    ensures NoStray(mem, mem, nvm)
  {
  }

  /** One step of the whole server: both models allow it, both invariants hold again, objects
      and regions still match, memory still holds every object, and no byte outside the
      objects live before or after was written. */
  lemma StepKeepsInv(j: Joint, e: Event)
    requires JointInv(j) && Possible(j, e)
    ensures j.cache.connections > 0 && C.Enabled(j.cache, AsCache(j, e))
    ensures AsPool(j, e).Some? ==> S.Enabled(j.pool, AsPool(j, e).value)
    ensures JointInv(Step(j, e))
    ensures NoStray(j.mem, Step(j, e).mem, j.cache.server.nvm) || NoStray(j.mem, Step(j, e).mem, Step(j, e).cache.server.nvm)
  {
    hide P.PoolInv, C.Inv, Matches, Holds, NoStray, Written, C.Enabled, S.Enabled, C.Step, Possible, S.Serve;
    BothEnabled(j, e);
    match e {
      case Malloc(_, _, _) => MallocKeeps(j, e);
      case Release(_, _) => ReleaseKeeps(j, e);
      case Other(_) => OtherKeeps(j, e);
    }
    if AsPool(j, e).Some? {
      S.ServeKeepsInv(j.pool, AsPool(j, e).value);
    }
    CacheSafety.StepKeepsInv(j.cache, AsCache(j, e));
  }

  // ---------- whole runs ----------

  ghost function Boot(mr: MemRegion, clients: set<nat>, connections: nat, mem: Memory): Joint {
    Joint(S.Boot(mr), CacheTheorems.Initial(clients, connections), mem, map[])
  }

  ghost predicate Follows(j: Joint, e: Event, t: Joint) {
    && Possible(j, e) && j.cache.connections > 0
    && (C.Enabled(j.cache, AsCache(j, e)) ==> t == Step(j, e))
  }

  /** A run of the whole server; the environment alone decides what is possible. */
  ghost predicate IsRun(js: seq<Joint>, es: seq<Event>, mr: MemRegion, clients: set<nat>, connections: nat) {
    && connections > 0 && mr.length == SINGLE_AREA_SIZE
    && |js| == |es| + 1
    && js[0] == Boot(mr, clients, connections, js[0].mem)
    && forall i :: 0 <= i < |es| ==> Follows(js[i], es[i], js[i + 1])
  }

  lemma BootInv(mr: MemRegion, clients: set<nat>, connections: nat, mem: Memory)
    requires connections > 0 && mr.length == SINGLE_AREA_SIZE
    ensures JointInv(Boot(mr, clients, connections, mem))
  {
    S.BootInv(mr);
    CacheTheorems.InitialInv(clients, connections);
  }

  lemma {:induction false} EveryRunKeepsInv(js: seq<Joint>, es: seq<Event>, mr: MemRegion, clients: set<nat>,
                                            connections: nat, i: nat)
    requires IsRun(js, es, mr, clients, connections) && i < |js|
    ensures JointInv(js[i])
  {
    hide JointInv, Possible, Step, C.Enabled, Boot;
    if i == 0 {
      BootInv(mr, clients, connections, js[0].mem);
    } else {
      EveryRunKeepsInv(js, es, mr, clients, connections, i - 1);
      assert Follows(js[i - 1], es[i - 1], js[i - 1 + 1]);
      StepKeepsInv(js[i - 1], es[i - 1]);
    }
  }

  ghost function CacheEvents(js: seq<Joint>, es: seq<Event>): seq<C.Event>
    requires |js| == |es| + 1
  {
    seq(|es|, i requires 0 <= i < |es| => AsCache(js[i], es[i]))
  }

  ghost function CacheStates(js: seq<Joint>): seq<C.State> {
    seq(|js|, i requires 0 <= i < |js| => js[i].cache)
  }

  /** Seen from the cache, a run of the whole server is a run of the cache protocol. */
  lemma CacheProjection(js: seq<Joint>, es: seq<Event>, mr: MemRegion, clients: set<nat>, connections: nat)
    requires IsRun(js, es, mr, clients, connections)
    ensures CacheTheorems.IsRun(CacheStates(js), CacheEvents(js, es), clients, connections)
  {
    var ss, fs := CacheStates(js), CacheEvents(js, es);
    forall i | 0 <= i < |fs| ensures CacheTheorems.Follows(ss[i], fs[i], ss[i + 1]) {
      EveryRunKeepsInv(js, es, mr, clients, connections, i);
      hide JointInv, Possible, C.Enabled;
      assert Follows(js[i], es[i], js[i + 1]);
      StepKeepsInv(js[i], es[i]);
    }
  }

  /** Seen from the pool, every step is an enabled request or leaves the pool alone; so no free
      request for a region that is not outstanding ever reaches the allocator. */
  lemma PoolProjection(js: seq<Joint>, es: seq<Event>, mr: MemRegion, clients: set<nat>, connections: nat, i: nat)
    requires IsRun(js, es, mr, clients, connections) && i < |es|
    ensures match AsPool(js[i], es[i])
            case None => js[i + 1].pool == js[i].pool
            case Some(q) => S.Enabled(js[i].pool, q) && js[i + 1].pool == S.Serve(js[i].pool, q)
  {
    EveryRunKeepsInv(js, es, mr, clients, connections, i);
    hide JointInv, Possible, C.Enabled, S.Enabled, S.Serve;
    assert Follows(js[i], es[i], js[i + 1]);
    StepKeepsInv(js[i], es[i]);
  }

  /** In any run, what an idle client last wrote to an object that is not cached is what the
      server's memory holds at the object's address. */
  lemma MemoryHoldsWritten(js: seq<Joint>, es: seq<Event>, mr: MemRegion, clients: set<nat>, connections: nat,
                           i: nat, c: nat, a: Addr)
    requires IsRun(js, es, mr, clients, connections) && i < |js| && c in js[i].cache.clients
    requires var cl := js[i].cache.clients[c];
             cl.phase.Idle? && a in cl.infos && a !in cl.inFlight && cl.infos[a].dram.None?
    ensures var cl := js[i].cache.clients[c];
            a in cl.since && C.Remembers(Load(js[i].mem, a, cl.infos[a].length), cl.since[a])
  {
    EveryRunKeepsInv(js, es, mr, clients, connections, i);
    var s := js[i].cache;
    CacheSafety.ObjectKnown(s, c, a);
    hide C.Inv, P.PoolInv;
    CacheTheorems.ReadSeesRecord(s, c, a);
  }
}
