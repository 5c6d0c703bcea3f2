/** The busy waits of the work handlers end: how far a waiting client is from being idle. */
module CacheProgress {
  import opened Wrappers
  import opened DramCache
  import opened CacheProtocol
  import opened CacheTheorems

  /** Messages still to be served or heard before the client is idle again. */
  function Distance(cl: Client): nat {
    match cl.phase
    case Idle => 0
    case WaitPoll => 2 * |cl.pollUp| + |cl.pollDown|
    case _ => if cl.up != [] then 2 else 1
  }

  /** The server deals with a request of this client, or the client with a reply. */
  predicate Serves(e: Event) {
    e.ServeMalloc? || e.FinishMalloc? || e.ServeFree? || e.FinishFree? || e.ServePoll? || e.ReceivePoll?
  }

  lemma IdleIsZero(sv: Server, c: nat, cl: Client)
    requires ClientOk(sv, c, cl)
    ensures Distance(cl) == 0 <==> cl.phase.Idle?
  {
    hide ContentOk, Inventory, Agree, Owns, PendingOk, Drain;
  }

  // ---------- one step ----------

  lemma NormalCounts(s: State, e: Event)
    requires Inv(s) && Enabled(s, e) && (e.ServeMalloc? || e.FinishMalloc? || e.ServeFree? || e.FinishFree?)
    ensures Distance(Effect(s, e).1) + 1 == Distance(s.clients[e.c])
  {
    hide ServerOk, ContentOk, Inventory, Agree, Owns, PendingOk, Drain, Free, NewObject;
    assert PhaseOk(s.server, e.c, s.clients[e.c]) by {
      assert ClientOk(s.server, e.c, s.clients[e.c]);
    }
    hide Inv;
  }

  lemma PollCounts(s: State, e: Event)
    requires Inv(s) && Enabled(s, e) && (e.ServePoll? || e.ReceivePoll?)
    ensures Distance(Effect(s, e).1) + 1 == Distance(s.clients[e.c])
  {
    hide ServerOk, ContentOk, Inventory, Agree, Owns, PendingOk, Drain, Apply, Clear, Hear, Restart, AllocsOk;
    assert PhaseOk(s.server, e.c, s.clients[e.c]) by {
      assert ClientOk(s.server, e.c, s.clients[e.c]);
    }
    hide Inv;
  }

  /** A service brings its client exactly one step nearer to being idle. */
  lemma ServiceCounts(s: State, e: Event)
    requires Inv(s) && Enabled(s, e) && Serves(e)
    ensures s.connections > 0 && e.c in s.clients && e.c in Step(s, e).clients
    ensures Distance(Step(s, e).clients[e.c]) + 1 == Distance(s.clients[e.c])
  {
    hide Enabled, Effect, Distance;
    ClientInState(s, e);
    if e.ServePoll? || e.ReceivePoll? { PollCounts(s, e); } else { NormalCounts(s, e); }
  }

  /** Everything else leaves a busy client where it is: its own writes complete, or it is
      another client's turn. */
  lemma OthersKeep(s: State, e: Event, c: nat)
    requires s.connections > 0 && Enabled(s, e) && c in s.clients && !s.clients[c].phase.Idle? && !(e.c == c && Serves(e))
    ensures c in Step(s, e).clients && Distance(Step(s, e).clients[c]) == Distance(s.clients[c])
  {
    hide Apply, Clear, Free, Land;
  }

  /** Starting a work item puts at most four services before the client. */
  lemma StartIsNear(s: State, e: Event)
    requires Inv(s) && Enabled(s, e) && s.clients[e.c].phase.Idle?
    ensures Distance(Step(s, e).clients[e.c]) <= 4
  {
    hide ServerOk, ContentOk, Inventory, Agree, Owns, PendingOk, Drain, Apply, Clear, Free, Land;
    assert ClientOk(s.server, e.c, s.clients[e.c]);
    assert Step(s, e).clients[e.c] == Effect(s, e).1;
  }

  /** A busy client is never stuck: some service of it can happen now, even if every allocation
      the server needs for it should fail. */
  lemma ServiceEnabled(s: State, c: nat) returns (e: Event)
    requires Inv(s) && c in s.clients && !s.clients[c].phase.Idle?
    ensures e.c == c && Serves(e) && Enabled(s, e)
  {
    hide ServerOk, ContentOk, Inventory, Agree, Owns, Drain, HotOk, ColdOk;
    var cl := s.clients[c];
    assert ClientOk(s.server, c, cl);
    match cl.phase {
      case WaitMalloc => e := if cl.up != [] then ServeMalloc(c, None, []) else FinishMalloc(c);
      case WaitFree(_) => e := if cl.up != [] then ServeFree(c) else FinishFree(c);
      case WaitPoll =>
        if cl.pollDown != [] {
          e := ReceivePoll(c);
        } else {
          var n := if cl.pollUp[0].ApplyReq? then |cl.pollUp[0].hot| else 0;
          e := ServePoll(c, seq(n, _ => AllocFails));
        }
      case Idle =>
    }
  }

  // ---------- whole runs ----------

  /** How many services of client c fall into steps i..j. */
  function Services(es: seq<Event>, c: nat, i: nat, j: nat): nat
    requires i <= j <= |es|
    decreases j - i
  {
    if i == j then 0 else Services(es, c, i, j - 1) + if es[j - 1].c == c && Serves(es[j - 1]) then 1 else 0
  }

  lemma {:induction false} DistanceInRun(ss: seq<State>, es: seq<Event>, clients: set<nat>, connections: nat, i: nat, c: nat)
    requires IsRun(ss, es, clients, connections) && i < |ss| && c in clients
    ensures c in ss[i].clients && Distance(ss[i].clients[c]) <= 4
  {
    hide Inv, Enabled, Effect, Distance, Step;
    EveryRunKeepsInv(ss, es, clients, connections, i);
    if i > 0 {
      DistanceInRun(ss, es, clients, connections, i - 1, c);
      EveryRunKeepsInv(ss, es, clients, connections, i - 1);
      assert Follows(ss[i - 1], es[i - 1], ss[i - 1 + 1]);
      DistanceStep(ss[i - 1], es[i - 1], ss[i], c);
    } else {
      IdleDistance(ss[0].clients[c]);
    }
  }

  /** One step, for any client. */
  lemma DistanceStep(s: State, e: Event, t: State, c: nat)
    requires Inv(s) && Follows(s, e, t) && c in s.clients
    ensures c in t.clients
    ensures !s.clients[c].phase.Idle? ==>
              Distance(t.clients[c]) + (if e.c == c && Serves(e) then 1 else 0) == Distance(s.clients[c])
    ensures s.clients[c].phase.Idle? ==> Distance(t.clients[c]) <= 4
  {
    hide Inv, Enabled, Effect, Step, Distance;
    ClientInState(s, e);
    StepHas(s, e);
    if !s.clients[c].phase.Idle? {
      if e.c == c && Serves(e) { ServiceCounts(s, e); } else { OthersKeep(s, e, c); }
    } else if e.c == c {
      StartIsNear(s, e);
    } else {
      UntouchedClient(s, e, c);
      IdleDistance(s.clients[c]);
    }
  }

  lemma StepHas(s: State, e: Event)
    requires s.connections > 0 && Enabled(s, e)
    ensures e.c in Step(s, e).clients
  {
    hide Effect, Enabled;
  }

  lemma IdleDistance(cl: Client)
    requires cl.phase.Idle?
    ensures Distance(cl) == 0
  {
  }

  lemma UntouchedClient(s: State, e: Event, c: nat)
    requires s.connections > 0 && Enabled(s, e) && e.c != c && c in s.clients
    ensures c in Step(s, e).clients && Step(s, e).clients[c] == s.clients[c]
  {
    hide Effect, Enabled;
  }

  /** While a client stays busy, its distance is counted down by its services and by nothing
      else, whatever all other clients do. */
  lemma {:induction false} CountsDown(ss: seq<State>, es: seq<Event>, clients: set<nat>, connections: nat,
                                      i: nat, j: nat, c: nat)
    requires IsRun(ss, es, clients, connections) && i <= j < |ss| && c in clients
    requires forall n :: i <= n < j ==> c in ss[n].clients && !ss[n].clients[c].phase.Idle?
    ensures c in ss[i].clients && c in ss[j].clients
    ensures Distance(ss[j].clients[c]) + Services(es, c, i, j) == Distance(ss[i].clients[c])
    decreases j
  {
    hide Inv, Enabled, Effect, Distance, Step, Serves;
    EveryRunKeepsInv(ss, es, clients, connections, j);
    if i < j {
      CountsDown(ss, es, clients, connections, i, j - 1, c);
      EveryRunKeepsInv(ss, es, clients, connections, j - 1);
      assert Follows(ss[j - 1], es[j - 1], ss[j - 1 + 1]);
      DistanceStep(ss[j - 1], es[j - 1], ss[j], c);
    }
  }

  /** Hence a client is idle again at the latest after four of its messages have been dealt with. */
  lemma BusyWaitEnds(ss: seq<State>, es: seq<Event>, clients: set<nat>, connections: nat, i: nat, j: nat, c: nat)
    requires IsRun(ss, es, clients, connections) && i <= j < |ss| && c in clients && Services(es, c, i, j) >= 4
    ensures exists n :: i <= n <= j && c in ss[n].clients && ss[n].clients[c].phase.Idle?
  {
    DistanceInRun(ss, es, clients, connections, i, c);
    if forall n :: i <= n < j ==> c in ss[n].clients && !ss[n].clients[c].phase.Idle? {
      CountsDown(ss, es, clients, connections, i, j, c);
      EveryRunKeepsInv(ss, es, clients, connections, j);
      assert Distance(ss[j].clients[c]) == 0;
      assert ClientOk(ss[j].server, c, ss[j].clients[c]);
      hide ClientOk, Inv;
      IdleIsZero(ss[j].server, c, ss[j].clients[c]);
    } else {
      var n :| i <= n < j && !(c in ss[n].clients && !ss[n].clients[c].phase.Idle?);
      EveryRunKeepsInv(ss, es, clients, connections, n);
    }
  }
}
