/** A poll round as it happens in a run: other clients' steps fall between its messages. */
module PollInRun {
  import opened DramCache
  import opened CacheProtocol
  import opened CacheSafety
  import opened CacheTheorems
  import opened PollRound
  import opened PollOutcome

  // ---------- who moves a client's counter ----------

  lemma {:induction false} ApplyOther(s: Server, c: nat, hot: seq<NvmInfo>, allocs: seq<DramAlloc>, share: nat, d: nat)
    requires |allocs| >= |hot| && c != d
    ensures Used(Apply(s, c, hot, allocs, share).0.pollUsed, d) == Used(s.pollUsed, d)
    decreases |hot|
  {
    if hot != [] && Used(s.pollUsed, c) + hot[0].length <= share {
      var u := if allocs[0].AllocFails? then s else Create(s, c, hot[0], allocs[0].key, allocs[0].fill);
      ApplyOther(u, c, hot[1..], allocs[1..], share, d);
    }
  }

  lemma {:induction false} ClearOther(s: Server, c: nat, cold: seq<NvmInfo>, d: nat)
    requires c != d
    ensures Used(Clear(s, c, cold).pollUsed, d) == Used(s.pollUsed, d)
    decreases |cold|
  {
    if cold != [] {
      ClearOther(ClearOne(s, c, cold[0]), c, cold[1..], d);
    }
  }

  lemma OtherClient(s: State, e: Event, c: nat)
    requires s.connections > 0 && Enabled(s, e) && e.c != c && c in s.clients
    ensures var t := Step(s, e);
            c in t.clients && t.clients[c] == s.clients[c] && Used(t.server.pollUsed, c) == Used(s.server.pollUsed, c)
  {
    hide Apply, Clear, Find, RemoveFirst;
    if e.ServePoll? {
      match s.clients[e.c].pollUp[0]
      case ClearReq(cold) => ClearOther(s.server, e.c, cold, c);
      case ApplyReq(hot) => ApplyOther(s.server, e.c, hot, e.allocs, Share(s.connections), c);
    }
  }

  // ---------- the stages of a round ----------

  /** A round begun with these records and this counter value. */
  datatype Round = Round(c: nat, infos: map<Addr, Info>, used: int, cold: seq<NvmInfo>, hot: seq<NvmInfo>, share: nat)

  function Reply(r: Round, allocs: seq<DramAlloc>): seq<DramInfo>
    requires |allocs| >= |r.hot|
  {
    ReplyFor(r.used - SumLengths(r.cold), r.hot, allocs, r.share)
  }

  /** What the client will believe when the round is over. */
  function Final(r: Round, allocs: seq<DramAlloc>): map<Addr, Info>
    requires |allocs| >= |r.hot|
  {
    LearnAll(ForgetAll(r.infos, r.cold), Reply(r, allocs))
  }

  ghost predicate BeforeClear(s: State, r: Round)
    requires r.c in s.clients
  {
    var cl := s.clients[r.c];
    && r.cold != [] && cl.pollUp == PollRequests(r.cold, r.hot)
    && Drain(cl.infos, cl.pollDown) == r.infos && Used(s.server.pollUsed, r.c) == r.used
  }

  ghost predicate BeforeApply(s: State, r: Round)
    requires r.c in s.clients
  {
    var cl := s.clients[r.c];
    && r.hot != [] && cl.pollUp == [ApplyReq(r.hot)]
    && Drain(cl.infos, cl.pollDown) == ForgetAll(r.infos, r.cold)
    && Used(s.server.pollUsed, r.c) == r.used - SumLengths(r.cold)
  }

  ghost predicate AllServed(s: State, r: Round, allocs: seq<DramAlloc>)
    requires r.c in s.clients
  {
    var cl := s.clients[r.c];
    cl.pollUp == [] && |allocs| >= |r.hot| && Drain(cl.infos, cl.pollDown) == Final(r, allocs)
  }

  ghost predicate Waiting(s: State, r: Round) {
    r.c in s.clients && s.clients[r.c].phase.WaitPoll? && s.connections > 0 && r.share == Share(s.connections)
  }

  lemma Begins(s: State, e: Event, r: Round)
    requires Inv(s) && Enabled(s, e) && e == StartPoll(r.c, r.cold, r.hot)
    requires r == Round(r.c, s.clients[r.c].infos, Used(s.server.pollUsed, r.c), r.cold, r.hot, Share(s.connections))
    requires r.cold != [] || r.hot != []
    ensures var t := Step(s, e);
            Waiting(t, r) && (BeforeClear(t, r) || BeforeApply(t, r))
  {
    hide ServerOk, ContentOk, Inventory, PendingOk, Agree, Owns, LegalSelection;
    assert ClientOk(s.server, r.c, s.clients[r.c]);
    assert s.clients[r.c].pollUp == [] && s.clients[r.c].pollDown == [];
    var reqs := PollRequests(r.cold, r.hot);
    assert [] + reqs == reqs;
    assert Drain(r.infos, []) == r.infos;
    assert r.cold == [] ==> SumLengths(r.cold) == 0;
  }

  /** The client's own step while it waits: a request is served or a reply is heard. */
  lemma OwnStep(s: State, e: Event, r: Round)
    requires Inv(s) && Waiting(s, r) && Enabled(s, e) && e.c == r.c
    ensures e.ServePoll? || e.ReceivePoll?
  {
    hide ServerOk, ContentOk, Inventory, PendingOk, Agree, Owns;
    assert ClientOk(s.server, r.c, s.clients[r.c]);
  }

  lemma ServedClear(s: State, e: Event, r: Round)
    requires Waiting(s, r) && Enabled(s, e) && e.ServePoll? && e.c == r.c && BeforeClear(s, r)
    ensures var t := Step(s, e);
            Waiting(t, r) && if r.hot == [] then AllServed(t, r, []) else BeforeApply(t, r)
  {
    var cl := s.clients[r.c];
    assert cl.pollUp[0] == ClearReq(r.cold);
    ClearUsed(s.server, r.c, r.cold);
    DrainAppend(cl.infos, cl.pollDown, ClearResp(r.cold));
    assert LearnAll(ForgetAll(r.infos, r.cold), []) == ForgetAll(r.infos, r.cold);
    hide Clear, Drain, ForgetAll, SumLengths;
    assert cl.pollUp[1..] == if r.hot == [] then [] else [ApplyReq(r.hot)];
  }

  lemma ServedApply(s: State, e: Event, r: Round)
    requires Waiting(s, r) && Enabled(s, e) && e.ServePoll? && e.c == r.c && BeforeApply(s, r)
    ensures Waiting(Step(s, e), r) && AllServed(Step(s, e), r, e.allocs)
  {
    hide Apply, Drain, ForgetAll, LearnAll, SumLengths, ReplyFor, Restart;
    var cl := s.clients[r.c];
    ApplyReply(s.server, r.c, r.hot, e.allocs, r.share);
    DrainAppend(cl.infos, cl.pollDown, ApplyResp(Reply(r, e.allocs)));
  }

  lemma Heard(s: State, e: Event, r: Round)
    requires Inv(s) && Waiting(s, r) && Enabled(s, e) && e.ReceivePoll? && e.c == r.c
    ensures var t, cl, cl1 := Step(s, e), s.clients[r.c], Step(s, e).clients[r.c];
            && t.server == s.server && cl1.pollUp == cl.pollUp
            && Drain(cl1.infos, cl1.pollDown) == Drain(cl.infos, cl.pollDown)
            && (Waiting(t, r) || (cl1.phase.Idle? && cl.pollUp == []))
  {
    hide ServerOk, ContentOk, Inventory, PendingOk, Agree, Owns;
    assert ClientOk(s.server, r.c, s.clients[r.c]);
  }

  /** The server dealt with the apply request at step w, with these allocations. */
  ghost predicate ServedAt(ss: seq<State>, es: seq<Event>, r: Round, w: nat, allocs: seq<DramAlloc>) {
    && w < |es| && w < |ss| && es[w] == ServePoll(r.c, allocs)
    && r.c in ss[w].clients && ss[w].clients[r.c].pollUp == [ApplyReq(r.hot)]
  }

  ghost predicate StartsAt(ss: seq<State>, es: seq<Event>, i: nat, r: Round) {
    && i < |es| && i < |ss| && es[i] == StartPoll(r.c, r.cold, r.hot) && r.c in ss[i].clients && ss[i].connections > 0
    && r == Round(r.c, ss[i].clients[r.c].infos, Used(ss[i].server.pollUsed, r.c), r.cold, r.hot, Share(ss[i].connections))
  }

  /** The client is busy with the round from step i on up to, but not including, step j. */
  ghost predicate Busy(ss: seq<State>, i: nat, j: nat, c: nat) {
    forall n :: i < n < j && n < |ss| ==> c in ss[n].clients && !ss[n].clients[c].phase.Idle?
  }

  lemma SameStage(s: State, t: State, r: Round, allocs: seq<DramAlloc>)
    requires r.c in s.clients && r.c in t.clients
    requires Used(t.server.pollUsed, r.c) == Used(s.server.pollUsed, r.c)
    requires t.clients[r.c].pollUp == s.clients[r.c].pollUp
    requires Drain(t.clients[r.c].infos, t.clients[r.c].pollDown) == Drain(s.clients[r.c].infos, s.clients[r.c].pollDown)
    ensures BeforeClear(s, r) ==> BeforeClear(t, r)
    ensures BeforeApply(s, r) ==> BeforeApply(t, r)
    ensures AllServed(s, r, allocs) ==> AllServed(t, r, allocs)
  {
    hide Drain, ForgetAll, LearnAll, ReplyFor, SumLengths;
  }

  /** One step of anybody while the client waits. */
  lemma Advance(s: State, e: Event, r: Round, allocs: seq<DramAlloc>) returns (next: seq<DramAlloc>)
    requires Inv(s) && Waiting(s, r) && Enabled(s, e)
    requires BeforeClear(s, r) || BeforeApply(s, r) || AllServed(s, r, allocs)
    ensures var t := Step(s, e);
            && r.c in t.clients && (Waiting(t, r) || (t.clients[r.c].phase.Idle? && AllServed(t, r, next)))
            && (BeforeClear(t, r) || BeforeApply(t, r) || AllServed(t, r, next))
            && (AllServed(t, r, next) && r.hot != [] ==>
                  (next == allocs && AllServed(s, r, allocs))
                  || (e == ServePoll(r.c, next) && s.clients[r.c].pollUp == [ApplyReq(r.hot)]))
  {
    hide Inv, BeforeClear, BeforeApply, AllServed, Effect;
    next := allocs;
    if e.c != r.c {
      hide Enabled;
      OtherClient(s, e, r.c);
      SameStage(s, Step(s, e), r, allocs);
      NotBoth(s, r, allocs);
      NotBoth(Step(s, e), r, allocs);
    } else {
      OwnStep(s, e, r);
      if e.ReceivePoll? {
        Heard(s, e, r);
        SameStage(s, Step(s, e), r, allocs);
        NotBoth(s, r, allocs);
        NotBoth(Step(s, e), r, allocs);
      } else if BeforeClear(s, r) {
        ServedClear(s, e, r);
        next := [];
        NotBoth(Step(s, e), r, next);
      } else if BeforeApply(s, r) {
        ServedApply(s, e, r);
        next := e.allocs;
        NotBoth(s, r, next);
      } else {
        NotBoth(s, r, allocs);
      }
    }
  }

  /** The stages exclude each other, and only the last has nothing left to serve. */
  lemma NotBoth(s: State, r: Round, allocs: seq<DramAlloc>)
    requires r.c in s.clients
    ensures AllServed(s, r, allocs) ==> s.clients[r.c].pollUp == [] && !BeforeClear(s, r) && !BeforeApply(s, r)
    ensures BeforeApply(s, r) ==> s.clients[r.c].pollUp == [ApplyReq(r.hot)]
    ensures BeforeClear(s, r) ==> s.clients[r.c].pollUp != []
    ensures BeforeApply(s, r) ==> s.clients[r.c].pollUp != []
    ensures r.hot == [] ==> !BeforeApply(s, r)
  {
    hide Drain, ForgetAll, LearnAll, ReplyFor, SumLengths;
  }

  lemma {:induction false} StageInRun(ss: seq<State>, es: seq<Event>, clients: set<nat>, connections: nat,
                                      i: nat, m: nat, r: Round) returns (allocs: seq<DramAlloc>, w: nat)
    requires IsRun(ss, es, clients, connections) && i < m < |ss| && StartsAt(ss, es, i, r)
    requires (r.cold != [] || r.hot != []) && Busy(ss, i, m, r.c)
    ensures r.c in ss[m].clients
    ensures Waiting(ss[m], r) || (ss[m].clients[r.c].phase.Idle? && AllServed(ss[m], r, allocs))
    ensures BeforeClear(ss[m], r) || BeforeApply(ss[m], r) || AllServed(ss[m], r, allocs)
    ensures AllServed(ss[m], r, allocs) && r.hot != [] ==> i < w < m && ServedAt(ss, es, r, w, allocs)
    decreases m
  {
    hide Inv, Enabled, Step, BeforeClear, BeforeApply, AllServed;
    EveryRunKeepsInv(ss, es, clients, connections, m - 1);
    assert Follows(ss[m - 1], es[m - 1], ss[m - 1 + 1]);
    if m == i + 1 {
      Begins(ss[i], es[i], r);
      allocs, w := [], 0;
      NotBoth(ss[m], r, allocs);
    } else {
      allocs, w := StageInRun(ss, es, clients, connections, i, m - 1, r);
      var next := Advance(ss[m - 1], es[m - 1], r, allocs);
      if AllServed(ss[m], r, next) && r.hot != [] && !(next == allocs && AllServed(ss[m - 1], r, allocs)) {
        w := m - 1;
      }
      allocs := next;
    }
  }

  // ---------- the whole round ----------

  /** A client that began a round and is idle again believes what the replies said, and the
      server agrees: the reply is the one its counter had allowed when the round began, for the
      allocations made when the apply request was served, whatever other clients did between. */
  lemma RoundInRun(ss: seq<State>, es: seq<Event>, clients: set<nat>, connections: nat, i: nat, j: nat, r: Round)
    returns (allocs: seq<DramAlloc>, w: nat)
    requires IsRun(ss, es, clients, connections) && i < j < |ss| && StartsAt(ss, es, i, r)
    requires Busy(ss, i, j, r.c) && r.c in ss[j].clients && ss[j].clients[r.c].phase.Idle?
    ensures |allocs| >= |r.hot| && (r.hot != [] ==> i < w < j && ServedAt(ss, es, r, w, allocs))
    ensures ss[j].clients[r.c].infos == Final(r, allocs) && Agree(ss[j].server, Final(r, allocs))
  {
    EveryRunKeepsInv(ss, es, clients, connections, i);
    EveryRunKeepsInv(ss, es, clients, connections, j);
    IdleAgrees(ss[j], r.c);
    if r.cold == [] && r.hot == [] {
      assert Follows(ss[i], es[i], ss[i + 1]);
      NothingToDo(ss[i], es[i], r);
      FirstIdle(ss, i, j, r.c);
      allocs, w := [], 0;
    } else {
      hide Inv;
      allocs, w := StageInRun(ss, es, clients, connections, i, j, r);
    }
  }

  lemma IdleAgrees(s: State, c: nat)
    requires Inv(s) && c in s.clients && s.clients[c].phase.Idle?
    ensures Drain(s.clients[c].infos, s.clients[c].pollDown) == s.clients[c].infos
    ensures Agree(s.server, s.clients[c].infos) && Owns(s.server, c, s.clients[c].infos)
    ensures s.connections > 0 && ServerOk(s.server, Share(s.connections))
  {
    assert ClientOk(s.server, c, s.clients[c]);
  }

  lemma FirstIdle(ss: seq<State>, i: nat, j: nat, c: nat)
    requires i < j < |ss| && Busy(ss, i, j, c) && c in ss[i + 1].clients && ss[i + 1].clients[c].phase.Idle?
    ensures j == i + 1
  {
  }

  lemma NothingToDo(s: State, e: Event, r: Round)
    requires s.connections > 0 && Enabled(s, e) && e == StartPoll(r.c, [], [])
    ensures Step(s, e).clients[r.c].phase.Idle? && Step(s, e).clients[r.c].infos == s.clients[r.c].infos
  {
  }

  /** The round of a client whose sorted entries were `sa`: exactly the objects of After are
      cached, the others as before, and the top of the array is cached iff the partners could be
      allocated and fitted into the share as it stood when the round began. */
  lemma TopKInRun(ss: seq<State>, es: seq<Event>, clients: set<nat>, connections: nat, i: nat, j: nat, r: Round,
                  sa: seq<SortEntry>, threshold: nat) returns (allocs: seq<DramAlloc>, w: nat)
    requires IsRun(ss, es, clients, connections) && i < j < |ss| && StartsAt(ss, es, i, r)
    requires Busy(ss, i, j, r.c) && r.c in ss[j].clients && ss[j].clients[r.c].phase.Idle?
    requires Describes(sa, threshold, r.infos) && r.cold == Cold(sa) && r.hot == Hot(sa)
    ensures |allocs| >= |r.hot| && (r.hot != [] ==> i < w < j && ServedAt(ss, es, r, w, allocs))
    ensures forall p: nat :: p < |sa| ==> (IsCached(ss[j].server, sa[p].addr) <==> p in After(sa, Reply(r, allocs)))
    ensures forall a :: a in r.infos && (forall p :: 0 <= p < |sa| ==> sa[p].addr != a) ==>
              (IsCached(ss[j].server, a) <==> IsCached(ss[i].server, a))
    ensures (forall p: nat :: Split(sa) <= p < |sa| ==> IsCached(ss[j].server, sa[p].addr))
            <==> CanReplace(r.used, sa, allocs, r.share)
  {
    hide *;
    StartAgrees(ss, es, clients, connections, i, r);
    allocs, w := RoundInRun(ss, es, clients, connections, i, j, r);
    FinalIs(r, allocs);
    OutcomeOfReply(ss[i].server, ss[j].server, r.c, r.infos, sa, threshold, r.used, allocs, r.share);
  }

  lemma FinalIs(r: Round, allocs: seq<DramAlloc>)
    requires |allocs| >= |r.hot|
    ensures Reply(r, allocs) == ReplyFor(r.used - SumLengths(r.cold), r.hot, allocs, r.share)
    ensures Final(r, allocs) == LearnAll(ForgetAll(r.infos, r.cold), Reply(r, allocs))
  {
    hide LearnAll, ForgetAll, ReplyFor, SumLengths;
  }

  lemma StartAgrees(ss: seq<State>, es: seq<Event>, clients: set<nat>, connections: nat, i: nat, r: Round)
    requires IsRun(ss, es, clients, connections) && StartsAt(ss, es, i, r)
    ensures i < |ss| && ServerOk(ss[i].server, r.share) && Owns(ss[i].server, r.c, r.infos) && Agree(ss[i].server, r.infos)
  {
    EveryRunKeepsInv(ss, es, clients, connections, i);
    hide Inv, Effect;
    assert Follows(ss[i], es[i], ss[i + 1]);
    IdleAgrees(ss[i], r.c);
  }
}
