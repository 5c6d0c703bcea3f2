/**
 Why a client's own writes have to complete first: what becomes of a posted write when the
 server clears or grants a copy of the object before the write lands.
 */
module CacheRace {
  import opened Wrappers
  import opened DramCache
  import opened CacheProtocol
  import opened CacheSafety
  import opened PollOutcome

  lemma {:induction false} WriteAbsent(entries: seq<DramEntry>, key: Key, data: seq<Byte>)
    requires KeyFresh(entries, key)
    ensures WriteKey(entries, key, data) == entries
  {
    if entries != [] {
      assert entries[0] in entries && forall e :: e in entries[1..] ==> e in entries;
      WriteAbsent(entries[1..], key, data);
    }
  }

  lemma {:induction false} RemovedSubset(entries: seq<DramEntry>, a: Addr)
    ensures forall e :: e in RemoveFirst(entries, a) ==> e in entries
  {
    if entries != [] {
      RemovedSubset(entries[1..], a);
      assert forall e :: e in entries[1..] ==> e in entries;
    }
  }

  /** A clear takes away exactly the copies it names. */
  lemma {:induction false} ClearEntries(s: Server, c: nat, infos: map<Addr, Info>, cold: seq<NvmInfo>, share: nat)
    requires ServerOk(s, share) && Owns(s, c, infos) && Agree(s, infos) && ColdOk(s, infos, cold)
    ensures var u := Clear(s, c, cold);
            && (forall b :: Find(u.entries, b) == if Names(cold, b) then None else Find(s.entries, b))
            && (forall e :: e in u.entries ==> e in s.entries)
    decreases |cold|
  {
    if cold != [] {
      var a := cold[0].addr;
      var u := ClearOne(s, c, cold[0]);
      OneCleared(s, c, infos, cold, share);
      ClearHead(s, c, infos, cold, share);
      hide ServerOk, Owns, Agree, ColdOk, ClearOne, Find, SameForOthers, OnlyEvicts, Names;
      ClearEntries(u, c, infos[a := infos[a].(dram := None)], cold[1..], share);
      forall b ensures Names(cold, b) <==> a == b || Names(cold[1..], b) {
        NamesCons(cold, b);
      }
    }
  }

  lemma OneCleared(s: Server, c: nat, infos: map<Addr, Info>, cold: seq<NvmInfo>, share: nat)
    requires cold != [] && ServerOk(s, share) && Owns(s, c, infos) && ColdOk(s, infos, cold)
    ensures var u := ClearOne(s, c, cold[0]);
            && (forall b :: Find(u.entries, b) == if b == cold[0].addr then None else Find(s.entries, b))
            && (forall e :: e in u.entries ==> e in s.entries)
  {
    RemovedSubset(s.entries, cold[0].addr);
    assert Find(s.entries, cold[0].addr).Some?;
    hide ServerOk, SameForOthers, OnlyEvicts, RemoveFirst;
    ClearOneOk(s, c, cold[0], share);
    hide Find;
  }

  /** The client, its object and its write. */
  ghost predicate Posted(s: State, c: nat, a: Addr) {
    Inv(s) && c in s.clients && a in s.clients[c].inFlight
  }

  lemma PostedFacts(s: State, c: nat, a: Addr)
    requires Posted(s, c, a)
    ensures var sv, cl := s.server, s.clients[c];
            && s.connections > 0 && ServerOk(sv, Share(s.connections)) && Owns(sv, c, cl.infos) && Agree(sv, cl.infos)
            && a in sv.nvm && sv.nvm[a].owner == c && a in cl.infos
            && cl.inFlight[a].target == KeyOf(Find(sv.entries, a)) && |cl.inFlight[a].data| <= sv.nvm[a].length
  {
    hide ServerOk, Find, Effective, Remembers, Agree, PendingOk, Inventory;
    var sv, cl := s.server, s.clients[c];
    assert ClientOk(sv, c, cl);
    InFlightFacts(sv, c, cl, a);
    assert !cl.phase.WaitPoll? && cl.pollDown == [] && Drain(cl.infos, []) == cl.infos;
    hide Drain;
  }

  /** If a clear is served before a posted write lands, the object has what was written if and
      only if the clear does not name it, or the write changes nothing: the copy it was posted
      to is gone, and its old bytes have been written back. */
  lemma ClearOvertakesWrite(s: State, c: nat, a: Addr, cold: seq<NvmInfo>)
    requires Posted(s, c, a) && ColdOk(s.server, s.clients[c].infos, cold)
    ensures var sv, cl := s.server, s.clients[c];
            var t := Land(Clear(sv, c, cold), a, cl.inFlight[a]);
            && a in sv.nvm && a in t.nvm
            && (Content(t, a) == Effective(sv, cl, a) <==> !Names(cold, a) || Effective(sv, cl, a) == Content(sv, a))
            && (Names(cold, a) ==> Content(t, a) == Content(sv, a))
  {
    var sv, cl, share := s.server, s.clients[c], Share(s.connections);
    var u, w := Clear(sv, c, cold), cl.inFlight[a];
    hide Inv;
    PostedFacts(s, c, a);
    ClearOk(sv, c, cl.infos, cold, share);
    ClearEntries(sv, c, cl.infos, cold, share);
    hide Clear;
    if Names(cold, a) {
      CopyIsGone(sv, u, cl.infos, cold, a, w, share);
    } else {
      hide ServerOk, Agree, Owns, ColdOk, Names;
      LandOk(u, c, a, w, share);
    }
  }

  lemma CopyIsGone(sv: Server, u: Server, infos: map<Addr, Info>, cold: seq<NvmInfo>, a: Addr, w: Write, share: nat)
    requires ServerOk(sv, share) && ColdOk(sv, infos, cold) && Names(cold, a) && a in sv.nvm
    requires w.target == KeyOf(Find(sv.entries, a)) && Find(u.entries, a) == None && OnlyEvicts(sv, u)
    requires forall e :: e in u.entries ==> e in sv.entries
    ensures Land(u, a, w) == u && a in u.nvm && Content(u, a) == Content(sv, a)
  {
    var i :| 0 <= i < |cold| && cold[i].addr == a;
    assert Find(sv.entries, cold[i].addr).Some?;
    var e := Find(sv.entries, a).value;
    forall x | x in u.entries ensures x.key != e.key {
      assert x in sv.entries && x.addr != a;
      if x.key == e.key {
        SameKeySameEntry(sv.entries, x, e);
      }
    }
    hide Find;
    WriteAbsent(u.entries, e.key, w.data);
  }

  lemma SameKeySameEntry(entries: seq<DramEntry>, x: DramEntry, y: DramEntry)
    requires Distinct(entries) && x in entries && y in entries && x.key == y.key
    ensures x == y
  {
    var i :| 0 <= i < |entries| && entries[i] == x;
    var j :| 0 <= j < |entries| && entries[j] == y;
  }

  /** If a grant is served before a posted write lands, the write is in the object if and only if
      the object was not granted a copy, or the new copy happens to hold what it should. */
  lemma GrantOvertakesWrite(s: State, c: nat, a: Addr, hot: seq<NvmInfo>, allocs: seq<DramAlloc>)
    requires Posted(s, c, a) && HotOk(s.server, s.clients[c].infos, hot) && AllocsOk(s.server.entries, hot, allocs)
    requires s.connections > 0
    ensures var sv, cl := s.server, s.clients[c];
            var (u, reply) := Apply(sv, c, hot, allocs, Share(s.connections));
            var t := Land(u, a, cl.inFlight[a]);
            && a in sv.nvm && a in u.nvm && a in t.nvm
            && Content(t, a) == if a in Granted(reply) then Content(u, a) else Effective(sv, cl, a)
  {
    var sv, cl, share := s.server, s.clients[c], Share(s.connections);
    var (u, reply) := Apply(sv, c, hot, allocs, share);
    var w := cl.inFlight[a];
    hide Inv;
    PostedFacts(s, c, a);
    ApplyOk(sv, c, cl.infos, hot, allocs, share);
    if a in Granted(reply) {
      GrantedFresh(sv, c, cl.infos, hot, allocs, share, a);
      hide Apply;
    } else {
      hide ServerOk, Agree, Owns, HotOk, AllocsOk, Apply, LearnAll, Granted;
      LandOk(u, c, a, w, share);
    }
  }

  /** A granted object had no copy before and has one now. */
  lemma {:induction false} GrantedFresh(s: Server, c: nat, infos: map<Addr, Info>, hot: seq<NvmInfo>,
                                        allocs: seq<DramAlloc>, share: nat, a: Addr)
    requires ServerOk(s, share) && Owns(s, c, infos) && Agree(s, infos)
    requires HotOk(s, infos, hot) && AllocsOk(s.entries, hot, allocs)
    requires a in Granted(Apply(s, c, hot, allocs, share).1)
    ensures Find(s.entries, a) == None && Find(Apply(s, c, hot, allocs, share).0.entries, a).Some?
  {
    var (t, reply) := Apply(s, c, hot, allocs, share);
    var i :| 0 <= i < |reply| && reply[i].key.Some? && reply[i].addr == a;
    CacheAnswers(s, c, hot, allocs, share, i);
    ApplyOk(s, c, infos, hot, allocs, share);
    GrantedKey(s, c, infos, hot, allocs, share, i);
  }

  lemma CacheAnswers(s: Server, c: nat, hot: seq<NvmInfo>, allocs: seq<DramAlloc>, share: nat, i: nat)
    requires |allocs| >= |hot| && i < |Apply(s, c, hot, allocs, share).1|
    ensures i < |hot| && Apply(s, c, hot, allocs, share).1[i].addr == hot[i].addr
  {
    ApplyReply(s, c, hot, allocs, share);
  }

  lemma GrantedKey(s: Server, c: nat, infos: map<Addr, Info>, hot: seq<NvmInfo>, allocs: seq<DramAlloc>, share: nat, i: nat)
    requires Listed(infos, hot) && |allocs| >= |hot| && i < |Apply(s, c, hot, allocs, share).1|
    requires Apply(s, c, hot, allocs, share).1[i].key.Some?
    requires Agree(Apply(s, c, hot, allocs, share).0, LearnAll(infos, Apply(s, c, hot, allocs, share).1))
    ensures i < |hot| && Find(Apply(s, c, hot, allocs, share).0.entries, hot[i].addr).Some?
  {
    var (t, reply) := Apply(s, c, hot, allocs, share);
    CacheAnswers(s, c, hot, allocs, share, i);
    ApplyReply(s, c, hot, allocs, share);
    hide Apply, Find, LearnAll;
    assert DistinctReply(reply) by {
      forall m, n | 0 <= m < n < |reply| ensures reply[m].addr != reply[n].addr {
        assert reply[m].addr == hot[m].addr && reply[n].addr == hot[n].addr;
      }
    }
    LearnAllAt(infos, reply, hot[i].addr);
  }
}
