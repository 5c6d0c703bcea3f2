/** Every step of the cache protocol keeps its invariant, and what the invariant gives. */
module CacheSafety {
  import opened Wrappers
  import opened DramCache
  import opened CacheProtocol

  // ---------- other clients ----------

  lemma AgreeFrame(sv: Server, tv: Server, d: nat, infos: map<Addr, Info>, view: map<Addr, Info>)
    requires SameFor(sv, tv, d) && Owns(sv, d, infos) && view.Keys == infos.Keys && Agree(sv, view)
    ensures Owns(tv, d, infos) && Agree(tv, view)
  {
  }

  lemma PendingFrame(sv: Server, tv: Server, infos: map<Addr, Info>, pending: seq<PollReq>)
    requires forall a :: a in infos ==> Find(tv.entries, a) == Find(sv.entries, a)
    requires PendingOk(sv, infos, pending)
    ensures PendingOk(tv, infos, pending)
  {
    hide Find;
  }

  lemma ContentFrame(sv: Server, tv: Server, d: nat, cl: Client)
    requires SameFor(sv, tv, d) && Owns(sv, d, cl.infos) && Owns(tv, d, cl.infos) && ContentOk(sv, cl)
    ensures ContentOk(tv, cl)
  {
    hide Find;
    forall a | a in cl.infos ensures Remembers(Effective(tv, cl, a), cl.since[a]) {
      assert Content(tv, a) == Content(sv, a);
      assert Remembers(Effective(sv, cl, a), cl.since[a]);
    }
  }

  /** A step that leaves a client's objects alone leaves the client's invariant alone. */
  lemma ClientFrame(sv: Server, tv: Server, d: nat, cl: Client)
    requires SameFor(sv, tv, d) && ClientOk(sv, d, cl)
    ensures ClientOk(tv, d, cl)
  {
    var view := Drain(cl.infos, cl.pollDown);
    AgreeFrame(sv, tv, d, cl.infos, view);
    PendingFrame(sv, tv, view, cl.pollUp);
    ContentFrame(sv, tv, d, cl);
    hide Find, Content;
    assert PhaseOk(tv, d, cl);
    assert Inventory(tv, d, cl);
  }

  /** What has to be shown of one step. */
  ghost predicate GoodEffect(s: State, c: nat, tv: Server, cl: Client) {
    && s.connections > 0 && ServerOk(tv, Share(s.connections))
    && ClientOk(tv, c, cl)
    && SameForOthers(s.server, tv, c)
    && (forall a :: a in tv.nvm ==> tv.nvm[a].owner == c || (a in s.server.nvm && tv.nvm[a].owner == s.server.nvm[a].owner))
  }

  lemma FromEffect(s: State, c: nat, tv: Server, cl: Client)
    requires Inv(s) && c in s.clients && GoodEffect(s, c, tv, cl)
    ensures Inv(s.(server := tv, clients := s.clients[c := cl]))
  {
    hide ClientOk, ServerOk;
    forall d | d in s.clients && d != c ensures ClientOk(tv, d, s.clients[d]) {
      assert SameFor(s.server, tv, d);
      ClientFrame(s.server, tv, d, s.clients[d]);
    }
  }

  lemma SameServer(s: State, c: nat, cl: Client)
    requires Inv(s) && ClientOk(s.server, c, cl)
    ensures GoodEffect(s, c, s.server, cl)
  {
  }

  // ---------- replies ----------

  lemma {:induction false} DrainAppend(infos: map<Addr, Info>, down: seq<PollResp>, r: PollResp)
    ensures Drain(infos, down + [r]) == Hear(Drain(infos, down), r)
    decreases |down|
  {
    if down == [] {
      assert down + [r] == [r];
      assert Drain(Hear(infos, r), [r][1..]) == Hear(infos, r);
    } else {
      assert (down + [r])[1..] == down[1..] + [r];
      DrainAppend(Hear(infos, down[0]), down[1..], r);
    }
  }

  // ---------- the steps ----------

  lemma StartMallocOk(s: State, e: Event)
    requires Inv(s) && Enabled(s, e) && e.StartMalloc?
    ensures var (tv, cl) := Effect(s, e); GoodEffect(s, e.c, tv, cl)
  {
    hide ServerOk, ClientOk;
    MallocAsked(s.server, e.c, s.clients[e.c], e.length);
    SameServer(s, e.c, Effect(s, e).1);
  }

  lemma MallocAsked(sv: Server, c: nat, cl: Client, length: nat)
    requires ClientOk(sv, c, cl) && cl.phase.Idle?
    ensures ClientOk(sv, c, cl.(phase := WaitMalloc, up := cl.up + [MallocReq(length)]))
  {
    hide Find, Content, Effective, Remembers;
    EffectiveFrame(sv, cl, cl.(phase := WaitMalloc, up := cl.up + [MallocReq(length)]));
  }

  lemma FinishMallocOk(s: State, e: Event)
    requires Inv(s) && Enabled(s, e) && e.FinishMalloc?
    ensures var (tv, cl) := Effect(s, e); GoodEffect(s, e.c, tv, cl)
  {
    hide ServerOk, ClientOk;
    MallocFinished(s.server, e.c, s.clients[e.c], Effect(s, e).1);
    SameServer(s, e.c, Effect(s, e).1);
  }

  lemma MallocFinished(sv: Server, c: nat, cl: Client, cl1: Client)
    requires ClientOk(sv, c, cl) && cl.phase.WaitMalloc? && cl.down != []
    requires cl1 == match cl.down[0] {
                      case MallocResp(info) => Learned(cl, info)
                      case _ => cl.(phase := Idle, down := cl.down[1..])
                    }
    ensures ClientOk(sv, c, cl1)
  {
    hide Find, Effective, Remembers;
    assert cl1.down == [] && Drain(cl.infos, []) == cl.infos && Drain(cl1.infos, []) == cl1.infos;
    if cl.down[0].MallocResp? {
      NewContent(sv, c, cl, cl.down[0].info);
    } else {
      EffectiveFrame(sv, cl, cl1);
    }
    hide Drain, ContentOk;
    assert Inventory(sv, c, cl1);
  }

  /** The client once it has heard of its new object. */
  ghost function Learned(cl: Client, info: NvmInfo): Client
    requires cl.down != []
  {
    cl.(phase := Idle, down := cl.down[1..],
        infos := cl.infos[info.addr := Info(info.length, None)], since := cl.since[info.addr := map[]])
  }

  lemma NewContent(sv: Server, c: nat, cl: Client, info: NvmInfo)
    requires cl.down != [] && NewObject(sv, c, cl, info) && ContentOk(sv, cl)
    ensures ContentOk(sv, Learned(cl, info))
  {
    hide Find, Content, Overlay;
    var cl1 := Learned(cl, info);
    forall b | b in cl1.infos ensures Remembers(Effective(sv, cl1, b), cl1.since[b]) {
      if b in cl.infos {
        assert Remembers(Effective(sv, cl, b), cl.since[b]);
      }
    }
    hide Effective, Remembers;
  }

  lemma FreeingOk(sv: Server, c: nat, cl: Client, a: Addr)
    requires ClientOk(sv, c, cl) && cl.phase.Idle? && a in cl.infos && a !in cl.inFlight
    ensures ClientOk(sv, c, Freeing(cl, a))
  {
    hide Find, Effective, Remembers, Content;
    var cl1 := Freeing(cl, a);
    assert Drain(cl.infos, []) == cl.infos && Drain(cl1.infos, []) == cl1.infos;
    EffectiveFrame(sv, cl, cl1);
  }

  lemma StartFreeOk(s: State, e: Event)
    requires Inv(s) && Enabled(s, e) && e.StartFree?
    ensures var (tv, cl) := Effect(s, e); GoodEffect(s, e.c, tv, cl)
  {
    hide ServerOk, ClientOk;
    FreeingOk(s.server, e.c, s.clients[e.c], e.a);
    SameServer(s, e.c, Freeing(s.clients[e.c], e.a));
  }

  lemma FinishFreeOk(s: State, e: Event)
    requires Inv(s) && Enabled(s, e) && e.FinishFree?
    ensures var (tv, cl) := Effect(s, e); GoodEffect(s, e.c, tv, cl)
  {
    hide ServerOk, ClientOk;
    FreeFinished(s.server, e.c, s.clients[e.c]);
    SameServer(s, e.c, Effect(s, e).1);
  }

  lemma FreeFinished(sv: Server, c: nat, cl: Client)
    requires ClientOk(sv, c, cl) && cl.phase.WaitFree? && cl.down != []
    ensures ClientOk(sv, c, cl.(phase := Idle, down := cl.down[1..]))
  {
    hide Find, Content, Effective, Remembers, Drain, Overlay;
    assert cl.phase.WaitFree?;
    var cl1 := cl.(phase := Idle, down := cl.down[1..]);
    assert ContentOk(sv, cl1) by { EffectiveFrame(sv, cl, cl1); }
  }

  lemma EffectiveFrame(sv: Server, cl: Client, cl1: Client)
    requires cl.inFlight == cl1.inFlight
    ensures forall b :: b in sv.nvm ==> Effective(sv, cl1, b) == Effective(sv, cl, b)
  {
  }

  lemma ContentLength(sv: Server, a: Addr)
    requires TableOk(sv) && a in sv.nvm
    ensures |Content(sv, a)| == sv.nvm[a].length
  {
  }

  lemma OverlayRemembers(bytes: seq<Byte>, m: map<nat, Byte>, data: seq<Byte>)
    requires Remembers(bytes, m) && |data| <= |bytes|
    ensures Remembers(Overlay(bytes, data), Record(m, data))
  {
  }

  lemma StartWriteOk(s: State, e: Event)
    requires Inv(s) && Enabled(s, e) && e.StartWrite?
    ensures var (tv, cl) := Effect(s, e); GoodEffect(s, e.c, tv, cl)
  {
    hide ServerOk, ClientOk;
    var sv := s.server;
    WriteStarted(sv, e.c, s.clients[e.c], e.a, e.data, Share(s.connections));
    SameServer(s, e.c, Effect(s, e).1);
  }

  /** The client once its write to object a is posted. */
  ghost function Writing(cl: Client, a: Addr, data: seq<Byte>): Client
    requires a in cl.infos
  {
    cl.(inFlight := cl.inFlight[a := Write(cl.infos[a].dram, data)],
        since := if a in cl.since then cl.since[a := Record(cl.since[a], data)] else cl.since)
  }

  lemma WriteStarted(sv: Server, c: nat, cl: Client, a: Addr, data: seq<Byte>, share: nat)
    requires ServerOk(sv, share) && ClientOk(sv, c, cl) && cl.phase.Idle?
    requires a in cl.infos && a !in cl.inFlight && |data| <= cl.infos[a].length
    ensures ClientOk(sv, c, Writing(cl, a, data))
  {
    hide Find, Content, Remembers, Record, Overlay, Effective;
    var cl1 := Writing(cl, a, data);
    assert Drain(cl.infos, []) == cl.infos && Drain(cl1.infos, []) == cl1.infos;
    WrittenContent(sv, c, cl, a, data, share);
    hide Drain, ContentOk;
  }

  lemma WrittenContent(sv: Server, c: nat, cl: Client, a: Addr, data: seq<Byte>, share: nat)
    requires ServerOk(sv, share) && Owns(sv, c, cl.infos) && ContentOk(sv, cl)
    requires a in cl.infos && a !in cl.inFlight && |data| <= cl.infos[a].length
    ensures ContentOk(sv, Writing(cl, a, data))
  {
    hide Find, Content, Remembers, Record, Overlay;
    var cl1 := Writing(cl, a, data);
    ContentLength(sv, a);
    hide ServerOk;
    forall b | b in cl1.infos ensures Remembers(Effective(sv, cl1, b), cl1.since[b]) {
      assert Remembers(Effective(sv, cl, b), cl.since[b]);
      if b == a {
        OverlayRemembers(Content(sv, b), cl.since[b], data);
      }
    }
    hide Effective;
  }

  lemma ServeMallocOk(s: State, e: Event)
    requires Inv(s) && Enabled(s, e) && e.ServeMalloc?
    ensures var (tv, cl) := Effect(s, e); GoodEffect(s, e.c, tv, cl)
  {
    hide ServerOk, ClientOk, SameForOthers, Find;
    var sv, cl := s.server, s.clients[e.c];
    if e.res.Some? {
      AddObjectOk(sv, e.c, e.res.value, e.fill, Share(s.connections));
      var tv := sv.(nvm := sv.nvm[e.res.value.addr := NvmObj(e.c, e.res.value.length, e.fill)]);
      MallocServed(sv, tv, e.c, cl, e.res.value);
    } else {
      MallocRefused(sv, e.c, cl);
      SameServer(s, e.c, Effect(s, e).1);
    }
  }

  lemma MallocRefused(sv: Server, c: nat, cl: Client)
    requires ClientOk(sv, c, cl) && cl.up != [] && cl.up[0].MallocReq?
    ensures ClientOk(sv, c, cl.(up := cl.up[1..], down := cl.down + [MallocError]))
  {
    hide Find, Content, Effective, Remembers;
    var cl1 := cl.(up := cl.up[1..], down := cl.down + [MallocError]);
    assert cl.phase.WaitMalloc?;
    assert cl1.down == [MallocError] && cl1.up == [];
    EffectiveFrame(sv, cl, cl1);
  }

  lemma AddObjectOk(sv: Server, c: nat, info: NvmInfo, fill: seq<Byte>, share: nat)
    requires ServerOk(sv, share) && info.addr !in sv.nvm && |fill| == info.length
    ensures var tv := sv.(nvm := sv.nvm[info.addr := NvmObj(c, info.length, fill)]);
            ServerOk(tv, share) && SameForOthers(sv, tv, c) && Find(sv.entries, info.addr).None?
  {
    var tv := sv.(nvm := sv.nvm[info.addr := NvmObj(c, info.length, fill)]);
    forall x | x in tv.entries ensures EntryOk(x, tv.nvm) {
      assert EntryOk(x, sv.nvm);
    }
    assert forall x :: x in sv.entries ==> EntryOk(x, sv.nvm);
    NotFound(sv.entries, info.addr);
  }

  lemma MallocServed(sv: Server, tv: Server, c: nat, cl: Client, info: NvmInfo)
    requires ClientOk(sv, c, cl) && cl.up != [] && cl.up[0].MallocReq?
    requires info.addr !in sv.nvm && Find(sv.entries, info.addr).None?
    requires exists fill :: tv == sv.(nvm := sv.nvm[info.addr := NvmObj(c, info.length, fill)])
    ensures ClientOk(tv, c, cl.(up := cl.up[1..], down := cl.down + [MallocResp(info)]))
  {
    hide Find, Remembers;
    var cl1 := cl.(up := cl.up[1..], down := cl.down + [MallocResp(info)]);
    assert cl.phase.WaitMalloc?;
    assert cl1.down == [MallocResp(info)] && cl1.up == [];
    forall b | b in cl.infos ensures Effective(tv, cl1, b) == Effective(sv, cl, b) {
      assert Content(tv, b) == Content(sv, b);
    }
    hide Effective, Content;
    assert ContentOk(tv, cl1);
  }

  lemma ServeFreeOk(s: State, e: Event)
    requires Inv(s) && Enabled(s, e) && e.ServeFree?
    ensures var (tv, cl) := Effect(s, e); GoodEffect(s, e.c, tv, cl)
  {
    var sv, cl := s.server, s.clients[e.c];
    assert cl.phase.WaitFree?;
    var info := cl.phase.info;
    FreeOk(sv, e.c, info, Share(s.connections));
    FreeServed(sv, Free(sv, e.c, info), e.c, cl, info);
  }

  lemma FreeServed(sv: Server, tv: Server, c: nat, cl: Client, info: NvmInfo)
    requires ClientOk(sv, c, cl) && cl.phase == WaitFree(info) && cl.up == [FreeReq(info)]
    requires tv.nvm.Keys == sv.nvm.Keys - {info.addr}
    requires forall b :: b in tv.nvm ==> tv.nvm[b] == sv.nvm[b] && Find(tv.entries, b) == Find(sv.entries, b)
    ensures ClientOk(tv, c, cl.(up := cl.up[1..], down := cl.down + [FreeResp]))
  {
    hide Find, Remembers;
    var cl1 := cl.(up := cl.up[1..], down := cl.down + [FreeResp]);
    assert Drain(cl.infos, []) == cl.infos;
    forall b | b in cl.infos ensures Effective(tv, cl1, b) == Effective(sv, cl, b) {
      assert Content(tv, b) == Content(sv, b);
    }
    hide Effective, Content;
    assert ContentOk(tv, cl1);
  }

  lemma ServeClearOk(s: State, e: Event)
    requires Inv(s) && Enabled(s, e) && e.ServePoll? && s.clients[e.c].pollUp[0].ClearReq?
    ensures var (tv, cl) := Effect(s, e); GoodEffect(s, e.c, tv, cl)
  {
    var sv, cl := s.server, s.clients[e.c];
    var cold := cl.pollUp[0].cold;
    var view := Drain(cl.infos, cl.pollDown);
    assert ClientOk(sv, e.c, cl);
    hide Find, Content;
    ClearOk(sv, e.c, view, cold, Share(s.connections));
    hide ServerOk, ClientOk, Clear, PendingOk, PhaseOk;
    ClearServed(sv, Clear(sv, e.c, cold), e.c, cl, cold);
  }

  lemma ClearServed(sv: Server, tv: Server, c: nat, cl: Client, cold: seq<NvmInfo>)
    requires ClientOk(sv, c, cl) && cl.pollUp != [] && cl.pollUp[0] == ClearReq(cold)
    requires OnlyEvicts(sv, tv) && Agree(tv, ForgetAll(Drain(cl.infos, cl.pollDown), cold))
    ensures ClientOk(tv, c, Answered(cl, ClearResp(cold)))
  {
    hide Find, Remembers, Content, ForgetAll, Effective, Owns, Agree, PendingOk, Inventory, PhaseOk, ContentOk, Drain;
    DrainAppend(cl.infos, cl.pollDown, ClearResp(cold));
    ClearContent(sv, tv, c, cl, cold);
    ClearPending(sv, tv, c, cl, cold);
    AnswerPhase(sv, tv, c, cl, ClearResp(cold));
  }

  lemma AnswerPhase(sv: Server, tv: Server, c: nat, cl: Client, r: PollResp)
    requires ClientOk(sv, c, cl) && cl.pollUp != [] && tv.nvm.Keys == sv.nvm.Keys
    requires forall a :: a in sv.nvm ==> tv.nvm[a].owner == sv.nvm[a].owner
    ensures Inventory(tv, c, Answered(cl, r)) && PhaseOk(tv, c, Answered(cl, r))
  {
    hide Find, Remembers, Content, Effective, Agree, PendingOk, ContentOk, Drain, Restart, Granted;
    assert cl.phase.WaitPoll?;
  }

  lemma ClearPending(sv: Server, tv: Server, c: nat, cl: Client, cold: seq<NvmInfo>)
    requires ClientOk(sv, c, cl) && cl.pollUp != [] && cl.pollUp[0] == ClearReq(cold)
    requires OnlyEvicts(sv, tv) && Agree(tv, ForgetAll(Drain(cl.infos, cl.pollDown), cold))
    ensures PendingOk(tv, ForgetAll(Drain(cl.infos, cl.pollDown), cold), cl.pollUp[1..])
  {
    hide Find, Remembers, Content, ForgetAll, Effective, ContentOk, Inventory, PhaseOk, Drain;
  }

  lemma ClearContent(sv: Server, tv: Server, c: nat, cl: Client, cold: seq<NvmInfo>)
    requires ClientOk(sv, c, cl) && cl.pollUp != [] && OnlyEvicts(sv, tv)
    ensures Owns(tv, c, Answered(cl, ClearResp(cold)).infos) && ContentOk(tv, Answered(cl, ClearResp(cold)))
  {
    hide Find, Remembers, Content, Effective, PendingOk, PhaseOk, Inventory, Agree, Drain;
    SameContent(sv, tv, cl, Answered(cl, ClearResp(cold)));
    hide ContentOk;
  }

  lemma SameContent(sv: Server, tv: Server, cl: Client, cl1: Client)
    requires (forall a :: a in cl.infos ==> a in sv.nvm && a in tv.nvm && Content(tv, a) == Content(sv, a))
    requires cl1.infos == cl.infos && cl1.since == cl.since && cl1.inFlight == cl.inFlight && ContentOk(sv, cl)
    ensures ContentOk(tv, cl1)
  {
    hide Content, Remembers, Overlay;
    forall b | b in cl.infos ensures Effective(tv, cl1, b) == Effective(sv, cl, b) {}
  }

  lemma ServeApplyOk(s: State, e: Event)
    requires Inv(s) && Enabled(s, e) && e.ServePoll? && s.clients[e.c].pollUp[0].ApplyReq?
    ensures var (tv, cl) := Effect(s, e); GoodEffect(s, e.c, tv, cl)
  {
    var sv, cl := s.server, s.clients[e.c];
    var hot, share := cl.pollUp[0].hot, Share(s.connections);
    var view := Drain(cl.infos, cl.pollDown);
    assert ClientOk(sv, e.c, cl);
    ApplyOk(sv, e.c, view, hot, e.allocs, share);
    hide ServerOk, ClientOk, Apply;
    var (tv, reply) := Apply(sv, e.c, hot, e.allocs, share);
    ApplyServed(sv, tv, e.c, cl, hot, reply);
  }

  lemma ApplyServed(sv: Server, tv: Server, c: nat, cl: Client, hot: seq<NvmInfo>, reply: seq<DramInfo>)
    requires ClientOk(sv, c, cl) && cl.pollUp != [] && cl.pollUp[0] == ApplyReq(hot)
    requires tv.nvm == sv.nvm && Agree(tv, LearnAll(Drain(cl.infos, cl.pollDown), reply))
    requires forall b :: b !in Granted(reply) ==> Find(tv.entries, b) == Find(sv.entries, b)
    ensures ClientOk(tv, c, Answered(cl, ApplyResp(reply)))
  {
    hide Find, Remembers, LearnAll, Granted, Effective, Content, Owns, Agree, Inventory, PhaseOk, ContentOk, Drain;
    DrainAppend(cl.infos, cl.pollDown, ApplyResp(reply));
    AnswerPhase(sv, tv, c, cl, ApplyResp(reply));
    ApplyContent(sv, tv, c, cl, reply);
  }

  lemma ApplyContent(sv: Server, tv: Server, c: nat, cl: Client, reply: seq<DramInfo>)
    requires ClientOk(sv, c, cl) && cl.pollUp != [] && tv.nvm == sv.nvm
    requires forall b :: b !in Granted(reply) ==> Find(tv.entries, b) == Find(sv.entries, b)
    ensures Owns(tv, c, Answered(cl, ApplyResp(reply)).infos) && ContentOk(tv, Answered(cl, ApplyResp(reply)))
  {
    hide Find, Remembers, Granted, PendingOk, Inventory, Agree, Drain;
    assert cl.phase.WaitPoll? && cl.inFlight == map[];
    hide PhaseOk;
    var cl1 := Answered(cl, ApplyResp(reply));
    forall b | b in cl1.infos ensures Remembers(Effective(tv, cl1, b), cl1.since[b]) {
      if b in Granted(reply) {
        EmptyRemembered(Effective(tv, cl1, b));
      } else {
        assert Content(tv, b) == Content(sv, b);
      }
    }
  }

  lemma EmptyRemembered(bytes: seq<Byte>)
    ensures Remembers(bytes, map[])
  {
  }

  lemma ReceivePollOk(s: State, e: Event)
    requires Inv(s) && Enabled(s, e) && e.ReceivePoll?
    ensures var (tv, cl) := Effect(s, e); GoodEffect(s, e.c, tv, cl)
  {
    hide ServerOk, ClientOk;
    HeardOk(s.server, e.c, s.clients[e.c], Effect(s, e).1);
    SameServer(s, e.c, Effect(s, e).1);
  }

  lemma HeardOk(sv: Server, c: nat, cl: Client, cl1: Client)
    requires ClientOk(sv, c, cl) && cl.phase.WaitPoll? && cl.pollDown != []
    requires cl1 == cl.(phase := if cl.pollNum == 1 then Idle else WaitPoll, pollNum := cl.pollNum - 1,
                        infos := Hear(cl.infos, cl.pollDown[0]), pollDown := cl.pollDown[1..])
    ensures ClientOk(sv, c, cl1)
  {
    hide Find, Remembers, Content, Hear;
    assert Drain(cl1.infos, cl1.pollDown) == Drain(cl.infos, cl.pollDown);
    hide Drain;
    forall b | b in cl1.infos ensures Effective(sv, cl1, b) == Effective(sv, cl, b) {}
  }

  // ---------- writes landing ----------

  lemma {:induction false} WriteKeyFacts(entries: seq<DramEntry>, e: DramEntry, data: seq<Byte>)
    requires Distinct(entries) && e in entries && |data| <= |e.data|
    ensures var e1, r := e.(data := Overlay(e.data, data)), WriteKey(entries, e.key, data);
            && Distinct(r)
            && (forall x :: x in r <==> x == e1 || (x in entries && x != e))
            && (forall b :: Find(r, b) == if b == e.addr then Some(e1) else Find(entries, b))
            && SumLen(r) == SumLen(entries)
            && (forall c :: SumOwned(r, c) == SumOwned(entries, c))
  {
    var e1, r := e.(data := Overlay(e.data, data)), WriteKey(entries, e.key, data);
    TailDistinct(entries);
    var tail := entries[1..];
    if entries[0].key == e.key {
      assert entries[0] == e && r == [e1] + tail;
      ConsDistinct(e1, tail);
    } else {
      WriteKeyFacts(tail, e, data);
      ConsDistinct(entries[0], WriteKey(tail, e.key, data));
    }
  }

  lemma LandTable(sv: Server, a: Addr, w: Write, share: nat)
    requires ServerOk(sv, share) && a in sv.nvm
    requires w.target == KeyOf(Find(sv.entries, a)) && |w.data| <= sv.nvm[a].length
    ensures ServerOk(Land(sv, a, w), share)
  {
    var tv := Land(sv, a, w);
    if w.target.Some? {
      var e := Find(sv.entries, a).value;
      assert EntryOk(e, sv.nvm);
      WriteKeyFacts(sv.entries, e, w.data);
    }
    forall x | x in tv.entries ensures EntryOk(x, tv.nvm) {
      assert x in sv.entries ==> EntryOk(x, sv.nvm);
    }
  }

  /** Where a client's write lands: in the bytes the object consists of. */
  lemma LandOk(sv: Server, c: nat, a: Addr, w: Write, share: nat)
    requires ServerOk(sv, share) && a in sv.nvm && sv.nvm[a].owner == c
    requires w.target == KeyOf(Find(sv.entries, a)) && |w.data| <= sv.nvm[a].length
    ensures var tv := Land(sv, a, w);
            && ServerOk(tv, share) && SameForOthers(sv, tv, c)
            && tv.nvm.Keys == sv.nvm.Keys
            && (forall b :: b in sv.nvm ==> tv.nvm[b].owner == sv.nvm[b].owner && tv.nvm[b].length == sv.nvm[b].length)
            && (forall b :: KeyOf(Find(tv.entries, b)) == KeyOf(Find(sv.entries, b)))
            && (forall b :: b in sv.nvm ==> Content(tv, b) == if b == a then Overlay(Content(sv, a), w.data) else Content(sv, b))
  {
    ContentLength(sv, a);
    LandTable(sv, a, w, share);
    hide CountersOk;
    if w.target.Some? {
      LandInCopy(sv, a, w);
    }
    hide TableOk, WriteKey, Overlay, Find;
  }

  /** A write to a cached object changes the data of its copy. */
  lemma LandInCopy(sv: Server, a: Addr, w: Write)
    requires TableOk(sv) && a in sv.nvm && w.target == KeyOf(Find(sv.entries, a)) && w.target.Some?
    requires |w.data| <= sv.nvm[a].length
    ensures var tv, e := Land(sv, a, w), Find(sv.entries, a).value;
            && tv.nvm == sv.nvm
            && forall b :: Find(tv.entries, b)
                           == if b == a then Some(e.(data := Overlay(e.data, w.data))) else Find(sv.entries, b)
  {
    var e := Find(sv.entries, a).value;
    assert EntryOk(e, sv.nvm);
    WriteKeyFacts(sv.entries, e, w.data);
  }

  lemma InFlightFacts(sv: Server, c: nat, cl: Client, a: Addr)
    requires ClientOk(sv, c, cl) && a in cl.inFlight
    ensures a in sv.nvm && sv.nvm[a].owner == c
    ensures cl.inFlight[a].target == KeyOf(Find(sv.entries, a)) && |cl.inFlight[a].data| <= sv.nvm[a].length
  {
    assert !cl.phase.WaitPoll? && cl.pollDown == [] && Drain(cl.infos, []) == cl.infos;
  }

  lemma CompleteWriteOk(s: State, e: Event)
    requires Inv(s) && Enabled(s, e) && e.CompleteWrite?
    ensures var (tv, cl) := Effect(s, e); GoodEffect(s, e.c, tv, cl)
  {
    hide ServerOk, ClientOk, Land;
    var sv, cl := s.server, s.clients[e.c];
    InFlightFacts(sv, e.c, cl, e.a);
    LandOk(sv, e.c, e.a, cl.inFlight[e.a], Share(s.connections));
    LandedOk(sv, Land(sv, e.a, cl.inFlight[e.a]), e.c, cl, e.a);
  }

  lemma LandedOk(sv: Server, tv: Server, c: nat, cl: Client, a: Addr)
    requires ClientOk(sv, c, cl) && a in cl.inFlight
    requires tv.nvm.Keys == sv.nvm.Keys
    requires forall b :: b in sv.nvm ==> tv.nvm[b].owner == sv.nvm[b].owner && tv.nvm[b].length == sv.nvm[b].length
    requires forall b :: KeyOf(Find(tv.entries, b)) == KeyOf(Find(sv.entries, b))
    requires forall b :: b in sv.nvm ==>
               Content(tv, b) == if b == a then Overlay(Content(sv, a), cl.inFlight[a].data) else Content(sv, b)
    ensures ClientOk(tv, c, cl.(inFlight := cl.inFlight - {a}))
  {
    hide Find, Remembers, Content, Drain, Overlay;
    var cl1 := cl.(inFlight := cl.inFlight - {a});
    LandedContent(sv, tv, c, cl, a);
    hide Effective, ContentOk;
    assert Agree(tv, Drain(cl.infos, cl.pollDown));
    assert PhaseOk(tv, c, cl1);
    assert Inventory(tv, c, cl1);
  }

  lemma LandedContent(sv: Server, tv: Server, c: nat, cl: Client, a: Addr)
    requires ClientOk(sv, c, cl) && a in cl.inFlight
    requires tv.nvm.Keys == sv.nvm.Keys
    requires forall b :: b in sv.nvm ==> tv.nvm[b].owner == sv.nvm[b].owner && tv.nvm[b].length == sv.nvm[b].length
    requires forall b :: b in sv.nvm ==>
               Content(tv, b) == if b == a then Overlay(Content(sv, a), cl.inFlight[a].data) else Content(sv, b)
    ensures Owns(tv, c, cl.infos) && ContentOk(tv, cl.(inFlight := cl.inFlight - {a}))
  {
    hide Find, Remembers, Content, Drain, Overlay, PendingOk, Inventory, PhaseOk, Agree;
    var cl1 := cl.(inFlight := cl.inFlight - {a});
    forall b | b in cl1.infos ensures Effective(tv, cl1, b) == Effective(sv, cl, b) {}
  }

  // ---------- whole runs ----------

  lemma StepKeepsInv(s: State, e: Event)
    requires Inv(s) && Enabled(s, e)
    ensures Inv(Step(s, e))
  {
    match e {
      case StartMalloc(_, _) => StartMallocOk(s, e);
      case ServeMalloc(_, _, _) => ServeMallocOk(s, e);
      case FinishMalloc(_) => FinishMallocOk(s, e);
      case StartFree(_, _) => StartFreeOk(s, e);
      case ServeFree(_) => ServeFreeOk(s, e);
      case FinishFree(_) => FinishFreeOk(s, e);
      case StartPoll(_, _, _) => StartPollOk(s, e);
      case ServePoll(c, _) => if s.clients[c].pollUp[0].ClearReq? { ServeClearOk(s, e); } else { ServeApplyOk(s, e); }
      case ReceivePoll(_) => ReceivePollOk(s, e);
      case StartWrite(_, _, _) => StartWriteOk(s, e);
      case CompleteWrite(_, _) => CompleteWriteOk(s, e);
    }
    hide Inv, GoodEffect;
    var (tv, cl) := Effect(s, e);
    FromEffect(s, e.c, tv, cl);
  }

  /** What a client knows of an object is what the server has. */
  lemma ObjectKnown(s: State, c: nat, a: Addr)
    requires Inv(s) && c in s.clients && a in s.clients[c].infos
    ensures a in s.server.nvm && s.server.nvm[a].owner == c && s.server.nvm[a].length == s.clients[c].infos[a].length
  {
    assert ClientOk(s.server, c, s.clients[c]);
  }

  lemma StartPollOk(s: State, e: Event)
    requires Inv(s) && Enabled(s, e) && e.StartPoll?
    ensures var (tv, cl) := Effect(s, e); GoodEffect(s, e.c, tv, cl)
  {
    hide ServerOk, ClientOk, LegalSelection;
    PollStarted(s.server, e.c, s.clients[e.c], Effect(s, e).1, e.cold, e.hot);
    SameServer(s, e.c, Effect(s, e).1);
  }

  lemma PollStarted(sv: Server, c: nat, cl: Client, cl1: Client, cold: seq<NvmInfo>, hot: seq<NvmInfo>)
    requires ClientOk(sv, c, cl) && cl.phase.Idle? && cl.inFlight == map[] && LegalSelection(cl.infos, cold, hot)
    requires var reqs := PollRequests(cold, hot);
             cl1 == cl.(phase := if reqs == [] then Idle else WaitPoll, pollNum := |reqs|, pollUp := cl.pollUp + reqs)
    ensures ClientOk(sv, c, cl1)
  {
    hide Find, Remembers, Content, Effective, LegalSelection, ColdOk, HotOk, PendingOk, PollRequests;
    assert Drain(cl.infos, []) == cl.infos && cl.pollUp == [];
    assert cl1.pollUp == PollRequests(cold, hot);
    SelectionOk(sv, cl.infos, cold, hot);
    RequestsOk(sv, cl.infos, cold, hot);
    hide Drain;
    EffectiveFrame(sv, cl, cl1);
    assert ContentOk(sv, cl1);
    hide ContentOk;
    assert PhaseOk(sv, c, cl1);
  }

  lemma SelectionOk(sv: Server, infos: map<Addr, Info>, cold: seq<NvmInfo>, hot: seq<NvmInfo>)
    requires Agree(sv, infos) && LegalSelection(infos, cold, hot)
    ensures ColdOk(sv, infos, cold) && HotOk(sv, infos, hot)
  {
    hide Find;
    forall i | 0 <= i < |cold| ensures Find(sv.entries, cold[i].addr).Some? {
      assert infos[cold[i].addr].dram == KeyOf(Find(sv.entries, cold[i].addr));
    }
    forall i | 0 <= i < |hot| ensures Find(sv.entries, hot[i].addr).None? {
      assert infos[hot[i].addr].dram == KeyOf(Find(sv.entries, hot[i].addr));
    }
  }

  lemma RequestsOk(sv: Server, infos: map<Addr, Info>, cold: seq<NvmInfo>, hot: seq<NvmInfo>)
    requires ColdOk(sv, infos, cold) && HotOk(sv, infos, hot)
    ensures PendingOk(sv, infos, PollRequests(cold, hot)) && |PollRequests(cold, hot)| >= 0
    ensures PollRequests(cold, hot) == [] <==> cold == [] && hot == []
  {
    hide ColdOk, HotOk;
  }
}
