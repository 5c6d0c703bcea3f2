/** Statements about every run of the cache protocol. */
module CacheTheorems {
  import opened Wrappers
  import opened Arithmetic
  import opened DramCache
  import opened CacheProtocol
  import opened CacheSafety

  // ---------- runs ----------

  ghost function NewClient(): Client {
    Client(map[], Idle, 0, [], [], [], [], map[], map[])
  }

  /** Established connections of k client pairs, nothing allocated. */
  ghost function Initial(clients: set<nat>, connections: nat): State {
    State(Server([], map[], 0, map[], map[]), map c | c in clients :: NewClient(), connections)
  }

  ghost predicate IsRun(ss: seq<State>, es: seq<Event>, clients: set<nat>, connections: nat) {
    && connections > 0
    && |ss| == |es| + 1
    && ss[0] == Initial(clients, connections)
    && forall i :: 0 <= i < |es| ==> Follows(ss[i], es[i], ss[i + 1])
  }

  ghost predicate Follows(s: State, e: Event, t: State) {
    s.connections > 0 && Enabled(s, e) && t == Step(s, e)
  }

  lemma InitialInv(clients: set<nat>, connections: nat)
    requires connections > 0
    ensures Inv(Initial(clients, connections))
  {
    var s := Initial(clients, connections);
    forall c | c in s.clients ensures ClientOk(s.server, c, s.clients[c]) {
      assert Drain(map[], []) == map[];
    }
  }

  lemma {:induction false} EveryRunKeepsInv(ss: seq<State>, es: seq<Event>, clients: set<nat>, connections: nat, i: nat)
    requires IsRun(ss, es, clients, connections) && i < |ss|
    ensures Inv(ss[i]) && ss[i].connections == connections && ss[i].clients.Keys == clients
  {
    if i == 0 {
      InitialInv(clients, connections);
    } else {
      EveryRunKeepsInv(ss, es, clients, connections, i - 1);
      hide Inv, Enabled, Effect;
      assert Follows(ss[i - 1], es[i - 1], ss[i - 1 + 1]);
      StepKeepsInv(ss[i - 1], es[i - 1]);
      ClientInState(ss[i - 1], es[i - 1]);
    }
  }

  lemma ClientInState(s: State, e: Event)
    requires Enabled(s, e)
    ensures e.c in s.clients
  {
  }

  // ---------- client and server agree ----------

  /** The positions of the table that hold a copy of object a. */
  ghost function Copies(entries: seq<DramEntry>, a: Addr): set<nat> {
    set i | 0 <= i < |entries| && entries[i].addr == a
  }

  lemma CopiesOf(entries: seq<DramEntry>, a: Addr)
    requires Distinct(entries)
    ensures Find(entries, a).None? ==> Copies(entries, a) == {}
    ensures Find(entries, a).Some? ==>
      exists i :: Copies(entries, a) == {i} && i < |entries| && entries[i] == Find(entries, a).value
  {
    if Find(entries, a).Some? {
      var i :| 0 <= i < |entries| && entries[i] == Find(entries, a).value;
      assert Copies(entries, a) == {i};
    }
  }

  /** Between work items a client believes an object cached exactly when the server's table
      holds one and only one copy of it, and then it knows that copy's region. */
  lemma CacheAgreement(ss: seq<State>, es: seq<Event>, clients: set<nat>, connections: nat, i: nat, c: nat, a: Addr)
    requires IsRun(ss, es, clients, connections) && i < |ss| && c in ss[i].clients
    requires ss[i].clients[c].phase.Idle? && a in ss[i].clients[c].infos
    ensures var entries, dram := ss[i].server.entries, ss[i].clients[c].infos[a].dram;
            match dram
            case None => Copies(entries, a) == {}
            case Some(key) => exists j :: Copies(entries, a) == {j} && j < |entries| && entries[j].key == key
  {
    EveryRunKeepsInv(ss, es, clients, connections, i);
    var sv, cl := ss[i].server, ss[i].clients[c];
    assert ClientOk(sv, c, cl);
    assert Drain(cl.infos, []) == cl.infos;
    CopiesOf(sv.entries, a);
  }

  /** Every copy belongs to a live object of the client it was made for: one the client knows,
      or, while a free of it has not been served, one the client is giving up. */
  lemma NoOrphanCopies(ss: seq<State>, es: seq<Event>, clients: set<nat>, connections: nat, i: nat, e: DramEntry)
    requires IsRun(ss, es, clients, connections) && i < |ss| && e in ss[i].server.entries
    ensures e.owner in ss[i].clients && e.addr in ss[i].server.nvm
    ensures var cl := ss[i].clients[e.owner];
            e.addr in cl.infos || (cl.phase.WaitFree? && cl.phase.info.addr == e.addr && cl.up != [])
  {
    EveryRunKeepsInv(ss, es, clients, connections, i);
    var sv := ss[i].server;
    assert EntryOk(e, sv.nvm);
    var cl := ss[i].clients[e.owner];
    assert ClientOk(sv, e.owner, cl);
    FindIs(sv.entries, e);
  }

  // ---------- accounting and budget ----------

  /** The server's total is the size of the table; each client's cached bytes are the sum of
      its two counters, of which only the poll side is ever positive. */
  lemma DramAccounting(ss: seq<State>, es: seq<Event>, clients: set<nat>, connections: nat, i: nat, c: nat)
    requires IsRun(ss, es, clients, connections) && i < |ss|
    ensures var sv := ss[i].server;
            && sv.dramUsed == SumLen(sv.entries)
            && Used(sv.pollUsed, c) + Used(sv.normUsed, c) == SumOwned(sv.entries, c)
            && Used(sv.normUsed, c) <= 0 <= Used(sv.pollUsed, c)
            && connections * Used(sv.pollUsed, c) <= 2 * SERVER_DRAM_TH
  {
    EveryRunKeepsInv(ss, es, clients, connections, i);
    ShareIsLargest(connections, Used(ss[i].server.pollUsed, c));
  }

  lemma {:induction false} OwnersCover(entries: seq<DramEntry>, owners: set<nat>, bound: nat)
    requires forall e :: e in entries ==> e.owner in owners
    requires forall c :: c in owners ==> SumOwned(entries, c) <= bound
    ensures SumLen(entries) <= |owners| * bound
    decreases |owners|
  {
    if entries != [] {
      var c := entries[0].owner;
      assert entries[0] in entries;
      var rest := NotOwned(entries, c);
      WithoutOwner(entries, c);
      OwnersCover(rest, owners - {c}, bound);
      var k := |owners - {c}|;
      assert (k + 1) * bound == k * bound + bound;
    }
  }

  function NotOwned(entries: seq<DramEntry>, c: nat): seq<DramEntry> {
    if entries == [] then []
    else if entries[0].owner == c then NotOwned(entries[1..], c)
    else [entries[0]] + NotOwned(entries[1..], c)
  }

  lemma {:induction false} WithoutOwner(entries: seq<DramEntry>, c: nat)
    ensures SumLen(entries) == SumOwned(entries, c) + SumLen(NotOwned(entries, c))
    ensures forall d :: d != c ==> SumOwned(NotOwned(entries, c), d) == SumOwned(entries, d)
    ensures forall e :: e in NotOwned(entries, c) <==> e in entries && e.owner != c
  {
    if entries != [] {
      WithoutOwner(entries[1..], c);
      assert entries == [entries[0]] + entries[1..];
      var r := NotOwned(entries[1..], c);
      assert ([entries[0]] + r)[1..] == r;
    }
  }

  /** With two connections per client, all clients together never cache more than the
      server's DRAM threshold, through any run of grants, clears and frees. */
  lemma DramBudget(ss: seq<State>, es: seq<Event>, clients: set<nat>, connections: nat, i: nat)
    requires IsRun(ss, es, clients, connections) && i < |ss| && 2 * |clients| <= connections
    ensures ss[i].server.dramUsed <= SERVER_DRAM_TH
  {
    EveryRunKeepsInv(ss, es, clients, connections, i);
    var sv, share := ss[i].server, Share(connections);
    forall e | e in sv.entries ensures e.owner in clients {
      assert EntryOk(e, sv.nvm);
    }
    OwnersCover(sv.entries, clients, share);
    ShareFits(|clients|, connections);
  }

  lemma ShareFits(k: nat, connections: nat)
    requires connections > 0 && 2 * k <= connections
    ensures k * Share(connections) <= SERVER_DRAM_TH
  {
    var share := Share(connections);
    assert share * connections <= 2 * SERVER_DRAM_TH;
    assert share * (2 * k) <= share * connections;
  }

  // ---------- what frees do to a client's share ----------

  /** The bytes a step frees while they are cached. */
  ghost function GivenUp(s: State, e: Event, c: nat): nat {
    if e.ServeFree? && e.c == c && s.connections > 0 && Enabled(s, e) && Find(s.server.entries, s.clients[c].up[0].info.addr).Some?
    then s.clients[c].up[0].info.length else 0
  }

  ghost function FreedWhileCached(ss: seq<State>, es: seq<Event>, c: nat, i: nat): nat
    requires i <= |es| < |ss|
  {
    if i == 0 then 0 else FreedWhileCached(ss, es, c, i - 1) + GivenUp(ss[i - 1], es[i - 1], c)
  }

  lemma {:induction false} ApplyKeepsNormal(s: Server, c: nat, hot: seq<NvmInfo>, allocs: seq<DramAlloc>, share: nat)
    requires |allocs| >= |hot|
    ensures Apply(s, c, hot, allocs, share).0.normUsed == s.normUsed
    decreases |hot|
  {
    if hot != [] && Used(s.pollUsed, c) + hot[0].length <= share {
      var u := if allocs[0].AllocFails? then s else Create(s, c, hot[0], allocs[0].key, allocs[0].fill);
      ApplyKeepsNormal(u, c, hot[1..], allocs[1..], share);
    }
  }

  lemma {:induction false} ClearKeepsNormal(s: Server, c: nat, cold: seq<NvmInfo>)
    ensures Clear(s, c, cold).normUsed == s.normUsed
    decreases |cold|
  {
    if cold != [] {
      ClearKeepsNormal(ClearOne(s, c, cold[0]), c, cold[1..]);
    }
  }

  lemma NormalStep(s: State, e: Event, c: nat)
    requires s.connections > 0 && Enabled(s, e)
    ensures Used(Step(s, e).server.normUsed, c) == Used(s.server.normUsed, c) - GivenUp(s, e, c)
  {
    hide Apply, Clear, Find, RemoveFirst;
    if e.ServePoll? {
      match s.clients[e.c].pollUp[0]
      case ClearReq(cold) => ClearKeepsNormal(s.server, e.c, cold);
      case ApplyReq(hot) => ApplyKeepsNormal(s.server, e.c, hot, e.allocs, Share(s.connections));
    }
  }

  /** The normal connection's counter is minus the bytes the client ever freed while cached. */
  lemma {:induction false} NormalCounter(ss: seq<State>, es: seq<Event>, clients: set<nat>, connections: nat, i: nat, c: nat)
    requires IsRun(ss, es, clients, connections) && i < |ss|
    ensures Used(ss[i].server.normUsed, c) == 0 - FreedWhileCached(ss, es, c, i)
  {
    if i > 0 {
      NormalCounter(ss, es, clients, connections, i - 1, c);
      hide Enabled, Step, GivenUp;
      assert Follows(ss[i - 1], es[i - 1], ss[i - 1 + 1]);
      NormalStep(ss[i - 1], es[i - 1], c);
    }
  }

  /** The price of charging frees to the other connection: in any run a request is refused
      exactly when the bytes cached, plus all bytes ever freed while cached, plus the request,
      times the number of connections, exceed twice the threshold. */
  lemma FreedBytesStayCharged(ss: seq<State>, es: seq<Event>, clients: set<nat>, connections: nat, i: nat, c: nat,
                              info: NvmInfo, alloc: DramAlloc)
    requires IsRun(ss, es, clients, connections) && i < |ss|
    ensures Apply(ss[i].server, c, [info], [alloc], Share(connections)).1 == []
            <==> connections * (SumOwned(ss[i].server.entries, c) + FreedWhileCached(ss, es, c, i) + info.length)
                 > 2 * SERVER_DRAM_TH
  {
    hide Inv, Follows, Initial, Apply, Share, Used, SumLen, SumOwned, FreedWhileCached;
    DramAccounting(ss, es, clients, connections, i, c);
    NormalCounter(ss, es, clients, connections, i, c);
    AnsweredExactly(ss[i].server, c, info, alloc, connections);
    assert SumOwned(ss[i].server.entries, c) + FreedWhileCached(ss, es, c, i) == Used(ss[i].server.pollUsed, c);
  }

  lemma {:induction false} FreedGrows(ss: seq<State>, es: seq<Event>, c: nat, i: nat, j: nat)
    requires i <= j <= |es| < |ss|
    ensures FreedWhileCached(ss, es, c, i) <= FreedWhileCached(ss, es, c, j)
  {
    if i < j {
      FreedGrows(ss, es, c, i, j - 1);
    }
  }

  /** A request that does not fit beside what the client has freed while cached is refused for
      good, however little is cached now or later. */
  lemma LockedOutForGood(ss: seq<State>, es: seq<Event>, clients: set<nat>, connections: nat, i: nat, j: nat, c: nat,
                         info: NvmInfo, alloc: DramAlloc)
    requires IsRun(ss, es, clients, connections) && i <= j < |ss|
    requires connections * (FreedWhileCached(ss, es, c, i) + info.length) > 2 * SERVER_DRAM_TH
    ensures Apply(ss[j].server, c, [info], [alloc], Share(connections)).1 == []
  {
    hide Apply, Share, Follows, Initial, SumOwned, FreedWhileCached;
    FreedGrows(ss, es, c, i, j);
    FreedBytesStayCharged(ss, es, clients, connections, j, c, info, alloc);
    TimesMonotone(connections, FreedWhileCached(ss, es, c, i) + info.length,
                  SumOwned(ss[j].server.entries, c) + FreedWhileCached(ss, es, c, j) + info.length);
  }

  // ---------- written content ----------

  /** A step after which byte p of object a is no longer what the client last wrote there:
      the client writes it, gives the object up, or the object is given a fresh copy. */
  ghost predicate Disturbs(s: State, e: Event, c: nat, a: Addr, p: nat) {
    e.c == c && s.connections > 0 && Enabled(s, e) &&
    match e
    case StartWrite(_, b, data) => b == a && p < |data|
    case StartFree(_, b) => b == a
    case ServePoll(_, allocs) =>
      s.clients[c].pollUp[0].ApplyReq?
      && |allocs| >= |s.clients[c].pollUp[0].hot|
      && a in Granted(Apply(s.server, c, s.clients[c].pollUp[0].hot, allocs, Share(s.connections)).1)
    case _ => false
  }

  ghost predicate Recorded(s: State, c: nat, a: Addr, p: nat, v: Byte) {
    && c in s.clients && a in s.clients[c].infos && a in s.clients[c].since
    && p in s.clients[c].since[a] && s.clients[c].since[a][p] == v
  }

  lemma RecordKept(s: State, e: Event, c: nat, a: Addr, p: nat, v: Byte)
    requires Inv(s) && Enabled(s, e) && Recorded(s, c, a, p, v) && !Disturbs(s, e, c, a, p)
    ensures Recorded(Step(s, e), c, a, p, v)
  {
    hide ServerOk, ClientOk, Apply, Clear, Free, Land;
    if e.c == c {
      assert Step(s, e).clients[c] == Effect(s, e).1;
      if e.FinishMalloc? && s.clients[c].down[0].MallocResp? {
        NewIsUnknown(s.server, c, s.clients[c]);
      }
    }
  }

  lemma NewIsUnknown(sv: Server, c: nat, cl: Client)
    requires ClientOk(sv, c, cl) && cl.phase.WaitMalloc? && cl.down != [] && cl.down[0].MallocResp?
    ensures cl.down[0].info.addr !in cl.infos
  {
  }

  lemma {:induction false} RecordKeptInRun(ss: seq<State>, es: seq<Event>, clients: set<nat>, connections: nat,
                                           i: nat, j: nat, c: nat, a: Addr, p: nat, v: Byte)
    requires IsRun(ss, es, clients, connections) && i <= j < |ss|
    requires Recorded(ss[i], c, a, p, v)
    requires forall k :: i <= k < j ==> !Disturbs(ss[k], es[k], c, a, p)
    ensures Recorded(ss[j], c, a, p, v)
    decreases j
  {
    hide Inv, Recorded, Disturbs, Enabled, Effect, Initial, Step;
    if i < j {
      RecordKeptInRun(ss, es, clients, connections, i, j - 1, c, a, p, v);
      EveryRunKeepsInv(ss, es, clients, connections, j - 1);
      assert Follows(ss[j - 1], es[j - 1], ss[j - 1 + 1]);
      RecordKept(ss[j - 1], es[j - 1], c, a, p, v);
    }
  }

  /** A read by an idle client, no write of its own pending there, returns every recorded byte. */
  lemma ReadSeesRecord(s: State, c: nat, a: Addr)
    requires Inv(s) && c in s.clients && s.clients[c].phase.Idle?
    requires a in s.clients[c].infos && a !in s.clients[c].inFlight
    ensures var cl := s.clients[c];
            var r := RemoteRead(s.server, a, cl.infos[a].dram);
            r == Some(Content(s.server, a)) && a in cl.since && Remembers(r.value, cl.since[a])
  {
    var sv, cl := s.server, s.clients[c];
    assert ClientOk(sv, c, cl);
    assert Drain(cl.infos, []) == cl.infos;
    assert Remembers(Effective(sv, cl, a), cl.since[a]);
    if cl.infos[a].dram.Some? {
      FindKeyIs(sv.entries, Find(sv.entries, a).value);
    }
  }

  lemma {:induction false} FindKeyIs(entries: seq<DramEntry>, e: DramEntry)
    requires Distinct(entries) && e in entries
    ensures FindKey(entries, e.key) == Some(e)
  {
    TailDistinct(entries);
    if entries[0] != e {
      FindKeyIs(entries[1..], e);
    }
  }

  /** A byte written at step i is what a read at a later state j returns, through reads, other
      writes, evictions and other clients' steps, until the byte is rewritten, the object freed
      or the object given a new DRAM copy. */
  lemma WrittenContentSurvives(ss: seq<State>, es: seq<Event>, clients: set<nat>, connections: nat,
                               i: nat, j: nat, c: nat, a: Addr, data: seq<Byte>, p: nat)
    requires IsRun(ss, es, clients, connections) && i < j < |ss|
    requires es[i] == StartWrite(c, a, data) && p < |data|
    requires forall k :: i < k < j ==> !Disturbs(ss[k], es[k], c, a, p)
    requires c in ss[j].clients && ss[j].clients[c].phase.Idle? && a !in ss[j].clients[c].inFlight
    ensures a in ss[j].clients[c].infos
    ensures var r := RemoteRead(ss[j].server, a, ss[j].clients[c].infos[a].dram);
            r.Some? && p < |r.value| && r.value[p] == data[p]
  {
    EveryRunKeepsInv(ss, es, clients, connections, i);
    assert Follows(ss[i], es[i], ss[i + 1]);
    hide Inv, Recorded, Disturbs, Enabled, Effect, Initial, Step;
    WriteRecords(ss[i], es[i], p);
    RecordKeptInRun(ss, es, clients, connections, i + 1, j, c, a, p, data[p]);
    EveryRunKeepsInv(ss, es, clients, connections, j);
    RecordedIsRead(ss[j], c, a, p, data[p]);
  }

  lemma RecordedIsRead(s: State, c: nat, a: Addr, p: nat, v: Byte)
    requires Inv(s) && Recorded(s, c, a, p, v) && s.clients[c].phase.Idle? && a !in s.clients[c].inFlight
    ensures a in s.clients[c].infos
    ensures var r := RemoteRead(s.server, a, s.clients[c].infos[a].dram);
            r.Some? && p < |r.value| && r.value[p] == v
  {
    hide Inv;
    ReadSeesRecord(s, c, a);
  }

  lemma WriteRecords(s: State, e: Event, p: nat)
    requires Inv(s) && Enabled(s, e) && e.StartWrite? && p < |e.data|
    ensures Recorded(Step(s, e), e.c, e.a, p, e.data[p])
  {
    assert ClientOk(s.server, e.c, s.clients[e.c]);
  }

  /** Why the record starts anew: a granted object's bytes become whatever the DRAM held, so
      they are the old bytes only if the DRAM happened to hold those. */
  lemma {:induction false} GrantReplacesContent(s: Server, c: nat, infos: map<Addr, Info>, hot: seq<NvmInfo>,
                                                allocs: seq<DramAlloc>, share: nat, i: nat)
    requires ServerOk(s, share) && Owns(s, c, infos) && Agree(s, infos)
    requires HotOk(s, infos, hot) && AllocsOk(s.entries, hot, allocs)
    requires i < |hot| && i < |Apply(s, c, hot, allocs, share).1| && allocs[i].Allocated?
    ensures var (t, reply) := Apply(s, c, hot, allocs, share);
            && reply[i] == DramInfo(hot[i].addr, Some(allocs[i].key))
            && hot[i].addr in t.nvm && Content(t, hot[i].addr) == allocs[i].fill
    decreases |hot|
  {
    assert forall k :: 0 <= k < |hot| - 1 ==> hot[1..][k] == hot[k + 1] && allocs[1..][k] == allocs[k + 1];
    hide ServerOk, SameForOthers, Owns, Find, Content, Agree;
    if allocs[0].AllocFails? {
      GrantReplacesContent(s, c, infos, hot[1..], allocs[1..], share, i - 1);
    } else {
      FirstGrant(s, c, infos, hot, allocs, share);
      if i > 0 {
        var u := Create(s, c, hot[0], allocs[0].key, allocs[0].fill);
        var infos1 := infos[hot[0].addr := infos[hot[0].addr].(dram := Some(allocs[0].key))];
        GrantReplacesContent(u, c, infos1, hot[1..], allocs[1..], share, i - 1);
      }
    }
  }

  lemma FirstGrant(s: Server, c: nat, infos: map<Addr, Info>, hot: seq<NvmInfo>, allocs: seq<DramAlloc>, share: nat)
    requires ServerOk(s, share) && Owns(s, c, infos) && Agree(s, infos)
    requires HotOk(s, infos, hot) && AllocsOk(s.entries, hot, allocs)
    requires hot != [] && allocs[0].Allocated? && Used(s.pollUsed, c) + hot[0].length <= share
    ensures var u := Create(s, c, hot[0], allocs[0].key, allocs[0].fill);
            var infos1 := infos[hot[0].addr := infos[hot[0].addr].(dram := Some(allocs[0].key))];
            && ServerOk(u, share) && Owns(u, c, infos1) && Agree(u, infos1)
            && HotOk(u, infos1, hot[1..]) && AllocsOk(u.entries, hot[1..], allocs[1..])
    ensures var t := Apply(s, c, hot, allocs, share).0;
            hot[0].addr in t.nvm && Content(t, hot[0].addr) == allocs[0].fill
  {
    hide ServerOk, SameForOthers, Agree, Owns, Find;
    var a := hot[0].addr;
    var u := Create(s, c, hot[0], allocs[0].key, allocs[0].fill);
    var infos1 := infos[a := infos[a].(dram := Some(allocs[0].key))];
    ApplyHead(s, c, infos, hot, allocs, share);
    ApplyOk(u, c, infos1, hot[1..], allocs[1..], share);
    NotGranted(u, c, hot[1..], allocs[1..], share, a);
    InNvm(s, c, infos, a);
  }

  lemma InNvm(s: Server, c: nat, infos: map<Addr, Info>, a: Addr)
    requires Owns(s, c, infos) && a in infos
    ensures a in s.nvm
  {
  }

  lemma {:induction false} NotGranted(s: Server, c: nat, hot: seq<NvmInfo>, allocs: seq<DramAlloc>, share: nat, a: Addr)
    requires |allocs| >= |hot| && forall i :: 0 <= i < |hot| ==> hot[i].addr != a
    ensures a !in Granted(Apply(s, c, hot, allocs, share).1)
    decreases |hot|
  {
    if hot != [] && Used(s.pollUsed, c) + hot[0].length <= share {
      var r := Apply(s, c, hot, allocs, share).1;
      var u := if allocs[0].AllocFails? then s else Create(s, c, hot[0], allocs[0].key, allocs[0].fill);
      NotGranted(u, c, hot[1..], allocs[1..], share, a);
      assert r == [r[0]] + r[1..];
      GrantedCons(r[0], r[1..]);
    }
  }
}
