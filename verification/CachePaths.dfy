/** Stretches of runs of the cache protocol with a single client, to build longer ones from. */
module CachePaths {
  import opened Wrappers
  import opened DramCache
  import opened CacheProtocol
  import opened CacheTheorems

  ghost predicate IsPath(ss: seq<State>, es: seq<Event>) {
    |ss| == |es| + 1 && forall i :: 0 <= i < |es| ==> Follows(ss[i], es[i], ss[i + 1])
  }

  ghost predicate Leads(s: State, ss: seq<State>, es: seq<Event>, t: State) {
    IsPath(ss, es) && ss[0] == s && ss[|es|] == t
  }

  lemma Join(s: State, ss: seq<State>, es: seq<Event>, t: State, ts: seq<State>, fs: seq<Event>, u: State)
    returns (us: seq<State>, gs: seq<Event>)
    requires Leads(s, ss, es, t) && Leads(t, ts, fs, u)
    ensures Leads(s, us, gs, u) && gs == es + fs && us == ss + ts[1..]
    ensures forall j :: 0 <= j <= |fs| ==> us[|es| + j] == ts[j]
  {
    us, gs := ss + ts[1..], es + fs;
    hide Follows;
    forall j | 0 <= j <= |fs| ensures us[|es| + j] == ts[j] {}
    forall i | 0 <= i < |gs| ensures Follows(us[i], gs[i], us[i + 1]) {
      if i < |es| {
        assert us[i] == ss[i] && us[i + 1] == ss[i + 1] && gs[i] == es[i];
      } else {
        var j := i - |es|;
        assert us[|es| + j] == ts[j] && us[|es| + (j + 1)] == ts[j + 1] && gs[i] == fs[j];
      }
    }
  }

  ghost function Alone(sv: Server, c: nat, cl: Client, k: nat): State {
    State(sv, map[c := cl], k)
  }

  ghost function Resting(infos: map<Addr, Info>, since: map<Addr, map<nat, Byte>>): Client {
    Client(infos, Idle, 0, [], [], [], [], map[], since)
  }

  lemma OneStep(sv: Server, c: nat, cl: Client, k: nat, e: Event, tv: Server, cl1: Client)
    requires k > 0 && e.c == c && Enabled(Alone(sv, c, cl, k), e) && Effect(Alone(sv, c, cl, k), e) == (tv, cl1)
    ensures Follows(Alone(sv, c, cl, k), e, Alone(tv, c, cl1, k))
  {
    hide Enabled, Effect;
    assert map[c := cl][c := cl1] == map[c := cl1];
  }

  /** Ask for a copy of one object, up to the server's answer. */
  lemma AskPath(sv: Server, c: nat, k: nat, infos: map<Addr, Info>, since: map<Addr, map<nat, Byte>>,
                info: NvmInfo, alloc: DramAlloc) returns (ss: seq<State>, es: seq<Event>)
    requires k > 0 && info.addr in infos && infos[info.addr] == Info(info.length, None)
    requires AllocsOk(sv.entries, [info], [alloc])
    ensures var (tv, reply) := Apply(sv, c, [info], [alloc], Share(k));
            && Leads(Alone(sv, c, Resting(infos, since), k), ss, es, Alone(tv, c, Answering(infos, since, reply), k))
            && |es| == 2 && es[0].StartPoll? && es[1] == ServePoll(c, [alloc]) && c in ss[1].clients
            && ss[1].clients[c].pollUp == [ApplyReq([info])]
  {
    var (tv, reply) := Apply(sv, c, [info], [alloc], Share(k));
    var cl0 := Resting(infos, since);
    var cl1 := cl0.(phase := WaitPoll, pollNum := 1, pollUp := [ApplyReq([info])]);
    var cl2 := Answering(infos, since, reply);
    var q, r := ApplyReq([info]), ApplyResp(reply);
    assert [] + [q] == [q] && [q][1..] == [] && [] + [r] == [r];
    OneStep(sv, c, cl0, k, StartPoll(c, [], [info]), sv, cl1);
    OneStep(sv, c, cl1, k, ServePoll(c, [alloc]), tv, cl2);
    ss := [Alone(sv, c, cl0, k), Alone(sv, c, cl1, k), Alone(tv, c, cl2, k)];
    es := [StartPoll(c, [], [info]), ServePoll(c, [alloc])];
    hide Follows, Enabled, Effect, Apply;
  }

  ghost function Answering(infos: map<Addr, Info>, since: map<Addr, map<nat, Byte>>, reply: seq<DramInfo>): Client {
    Client(infos, WaitPoll, 1, [], [], [], [ApplyResp(reply)], map[], Restart(since, Granted(reply)))
  }

  /** Hear the answer. */
  lemma HearPath(sv: Server, c: nat, k: nat, infos: map<Addr, Info>, since: map<Addr, map<nat, Byte>>,
                 reply: seq<DramInfo>) returns (ss: seq<State>, es: seq<Event>)
    requires k > 0
    ensures Leads(Alone(sv, c, Answering(infos, since, reply), k), ss, es,
                  Alone(sv, c, Resting(LearnAll(infos, reply), Restart(since, Granted(reply))), k))
    ensures es == [ReceivePoll(c)]
  {
    var cl0, cl1 := Answering(infos, since, reply), Resting(LearnAll(infos, reply), Restart(since, Granted(reply)));
    assert [ApplyResp(reply)][1..] == [];
    OneStep(sv, c, cl0, k, ReceivePoll(c), sv, cl1);
    ss := [Alone(sv, c, cl0, k), Alone(sv, c, cl1, k)];
    es := [ReceivePoll(c)];
    hide Follows, Enabled, Effect;
  }

  /** Free an object. */
  lemma FreePath(sv: Server, c: nat, k: nat, infos: map<Addr, Info>, since: map<Addr, map<nat, Byte>>, a: Addr)
    returns (ss: seq<State>, es: seq<Event>)
    requires k > 0 && a in infos
    ensures Leads(Alone(sv, c, Resting(infos, since), k), ss, es,
                  Alone(Free(sv, c, NvmInfo(a, infos[a].length)), c, Resting(infos - {a}, since), k))
    ensures es == [StartFree(c, a), ServeFree(c), FinishFree(c)]
  {
    var info := NvmInfo(a, infos[a].length);
    var cl0 := Resting(infos, since);
    var cl1 := cl0.(phase := WaitFree(info), infos := infos - {a}, up := [FreeReq(info)]);
    var cl2 := cl1.(up := [], down := [FreeResp]);
    var cl3, tv := Resting(infos - {a}, since), Free(sv, c, info);
    var q := FreeReq(info);
    assert [] + [q] == [q] && [q][1..] == [] && [] + [FreeResp] == [FreeResp] && [FreeResp][1..] == [];
    OneStep(sv, c, cl0, k, StartFree(c, a), sv, cl1);
    OneStep(sv, c, cl1, k, ServeFree(c), tv, cl2);
    OneStep(tv, c, cl2, k, FinishFree(c), tv, cl3);
    ss := [Alone(sv, c, cl0, k), Alone(sv, c, cl1, k), Alone(tv, c, cl2, k), Alone(tv, c, cl3, k)];
    es := [StartFree(c, a), ServeFree(c), FinishFree(c)];
    hide Follows, Enabled, Effect, Free;
  }

  /** The client in a round with both requests, while they are served and the replies heard. */
  ghost function InRound(infos: map<Addr, Info>, since: map<Addr, map<nat, Byte>>,
                         up: seq<PollReq>, down: seq<PollResp>): Client {
    Client(infos, WaitPoll, |up| + |down|, [], [], up, down, map[], since)
  }

  ghost predicate Polling(s: State, c: nat) { c in s.clients && s.clients[c].phase.WaitPoll? }

  lemma AskedPath(sv: Server, c: nat, k: nat, infos: map<Addr, Info>, since: map<Addr, map<nat, Byte>>,
                  cold: seq<NvmInfo>, hot: seq<NvmInfo>) returns (ss: seq<State>, es: seq<Event>)
    requires k > 0 && cold != [] && hot != [] && LegalSelection(infos, cold, hot)
    ensures Leads(Alone(sv, c, Resting(infos, since), k), ss, es,
                  Alone(Clear(sv, c, cold), c, InRound(infos, since, [ApplyReq(hot)], [ClearResp(cold)]), k))
    ensures es == [StartPoll(c, cold, hot), ServePoll(c, [])] && |ss| == 3 && Polling(ss[1], c) && Polling(ss[2], c)
  {
    hide Clear, LegalSelection;
    var q1, q2, r1 := ClearReq(cold), ApplyReq(hot), ClearResp(cold);
    assert [] + [q1, q2] == [q1] + [q2] == [q1, q2] && [q1, q2][1..] == [q2] && [] + [r1] == [r1];
    var cl0, cl1, cl2 := Resting(infos, since), InRound(infos, since, [q1, q2], []), InRound(infos, since, [q2], [r1]);
    OneStep(sv, c, cl0, k, StartPoll(c, cold, hot), sv, cl1);
    OneStep(sv, c, cl1, k, ServePoll(c, []), Clear(sv, c, cold), cl2);
    ss := [Alone(sv, c, cl0, k), Alone(sv, c, cl1, k), Alone(Clear(sv, c, cold), c, cl2, k)];
    es := [StartPoll(c, cold, hot), ServePoll(c, [])];
    hide Follows, Enabled, Effect;
  }

  /** The client hears the first of its replies. */
  lemma HearStep(sv: Server, c: nat, k: nat, infos: map<Addr, Info>, since: map<Addr, map<nat, Byte>>, down: seq<PollResp>)
    requires k > 0 && down != []
    ensures var t := Hear(infos, down[0]);
            Follows(Alone(sv, c, InRound(infos, since, [], down), k), ReceivePoll(c),
                    Alone(sv, c, if |down| == 1 then Resting(t, since) else InRound(t, since, [], down[1..]), k))
  {
    hide ForgetAll, LearnAll;
    assert |down| == 1 ==> down[1..] == [];
    var cl1 := if |down| == 1 then Resting(Hear(infos, down[0]), since) else InRound(Hear(infos, down[0]), since, [], down[1..]);
    OneStep(sv, c, InRound(infos, since, [], down), k, ReceivePoll(c), sv, cl1);
  }

  /** The server deals with the apply request of a round. */
  lemma ApplyStep(u: Server, c: nat, k: nat, infos: map<Addr, Info>, since: map<Addr, map<nat, Byte>>,
                  r1: PollResp, hot: seq<NvmInfo>, allocs: seq<DramAlloc>)
    requires k > 0 && AllocsOk(u.entries, hot, allocs)
    ensures var (tv, reply) := Apply(u, c, hot, allocs, Share(k));
            Follows(Alone(u, c, InRound(infos, since, [ApplyReq(hot)], [r1]), k), ServePoll(c, allocs),
                    Alone(tv, c, InRound(infos, Restart(since, Granted(reply)), [], [r1, ApplyResp(reply)]), k))
  {
    hide Apply, Granted, Restart;
    var (tv, reply) := Apply(u, c, hot, allocs, Share(k));
    assert [ApplyReq(hot)][1..] == [] && [r1] + [ApplyResp(reply)] == [r1, ApplyResp(reply)];
    OneStep(u, c, InRound(infos, since, [ApplyReq(hot)], [r1]), k, ServePoll(c, allocs), tv,
            InRound(infos, Restart(since, Granted(reply)), [], [r1, ApplyResp(reply)]));
  }

  lemma AnsweredPath(u: Server, c: nat, k: nat, infos: map<Addr, Info>, since: map<Addr, map<nat, Byte>>,
                     cold: seq<NvmInfo>, hot: seq<NvmInfo>, allocs: seq<DramAlloc>)
    returns (ss: seq<State>, es: seq<Event>)
    requires k > 0 && AllocsOk(u.entries, hot, allocs)
    ensures var (tv, reply) := Apply(u, c, hot, allocs, Share(k));
            Leads(Alone(u, c, InRound(infos, since, [ApplyReq(hot)], [ClearResp(cold)]), k), ss, es,
                  Alone(tv, c, Resting(LearnAll(ForgetAll(infos, cold), reply), Restart(since, Granted(reply))), k))
    ensures es == [ServePoll(c, allocs), ReceivePoll(c), ReceivePoll(c)]
    ensures |ss| == 4 && Polling(ss[1], c) && Polling(ss[2], c)
  {
    var (tv, reply) := Apply(u, c, hot, allocs, Share(k));
    var q2, r1, r2, since1 := ApplyReq(hot), ClearResp(cold), ApplyResp(reply), Restart(since, Granted(reply));
    hide Apply, ForgetAll, LearnAll, Granted, Restart, AllocsOk;
    assert [r1, r2][1..] == [r2];
    var cl2, cl3 := InRound(infos, since, [q2], [r1]), InRound(infos, since1, [], [r1, r2]);
    var cl4 := InRound(ForgetAll(infos, cold), since1, [], [r2]);
    var cl5 := Resting(LearnAll(ForgetAll(infos, cold), reply), since1);
    ApplyStep(u, c, k, infos, since, r1, hot, allocs);
    HearStep(tv, c, k, infos, since1, [r1, r2]);
    HearStep(tv, c, k, ForgetAll(infos, cold), since1, [r2]);
    ss := [Alone(u, c, cl2, k), Alone(tv, c, cl3, k), Alone(tv, c, cl4, k), Alone(tv, c, cl5, k)];
    es := [ServePoll(c, allocs), ReceivePoll(c), ReceivePoll(c)];
    hide Follows, Enabled, Effect;
  }

  /** A whole poll round with something to clear and something to ask for. */
  lemma RoundPath(sv: Server, c: nat, k: nat, infos: map<Addr, Info>, since: map<Addr, map<nat, Byte>>,
                  cold: seq<NvmInfo>, hot: seq<NvmInfo>, allocs: seq<DramAlloc>) returns (ss: seq<State>, es: seq<Event>)
    requires k > 0 && cold != [] && hot != [] && LegalSelection(infos, cold, hot)
    requires AllocsOk(Clear(sv, c, cold).entries, hot, allocs)
    ensures var (tv, reply) := Apply(Clear(sv, c, cold), c, hot, allocs, Share(k));
            Leads(Alone(sv, c, Resting(infos, since), k), ss, es,
                  Alone(tv, c, Resting(LearnAll(ForgetAll(infos, cold), reply), Restart(since, Granted(reply))), k))
    ensures es == [StartPoll(c, cold, hot), ServePoll(c, []), ServePoll(c, allocs), ReceivePoll(c), ReceivePoll(c)]
    ensures |ss| == 6 && forall n :: 0 < n < 5 ==> Polling(ss[n], c)
  {
    hide Clear, Apply, ForgetAll, LearnAll, Granted, Restart, LegalSelection, Leads, Polling;
    var u := Clear(sv, c, cold);
    var (tv, reply) := Apply(u, c, hot, allocs, Share(k));
    var last := Resting(LearnAll(ForgetAll(infos, cold), reply), Restart(since, Granted(reply)));
    var qs, qe := AskedPath(sv, c, k, infos, since, cold, hot);
    var hs, he := AnsweredPath(u, c, k, infos, since, cold, hot, allocs);
    var mid := Alone(u, c, InRound(infos, since, [ApplyReq(hot)], [ClearResp(cold)]), k);
    ss, es := Join(Alone(sv, c, Resting(infos, since), k), qs, qe, mid, hs, he, Alone(tv, c, last, k));
    assert ss[1] == qs[1] && ss[2] == qs[2] && ss[3] == hs[1] && ss[4] == hs[2];
  }

  /** Post a write. */
  lemma WritePath(sv: Server, c: nat, k: nat, infos: map<Addr, Info>, since: map<Addr, map<nat, Byte>>,
                  a: Addr, data: seq<Byte>) returns (ss: seq<State>, es: seq<Event>)
    requires k > 0 && a in infos && a in since && |data| <= infos[a].length
    ensures Leads(Alone(sv, c, Resting(infos, since), k), ss, es, Alone(sv, c, Writing(infos, since, a, data), k))
    ensures |es| == 1 && es[0].StartWrite?
  {
    OneStep(sv, c, Resting(infos, since), k, StartWrite(c, a, data), sv, Writing(infos, since, a, data));
    ss := [Alone(sv, c, Resting(infos, since), k), Alone(sv, c, Writing(infos, since, a, data), k)];
    es := [StartWrite(c, a, data)];
    hide Follows, Enabled, Effect;
  }

  ghost function Writing(infos: map<Addr, Info>, since: map<Addr, map<nat, Byte>>, a: Addr, data: seq<Byte>): Client
    requires a in infos && a in since
  {
    Client(infos, Idle, 0, [], [], [], [], map[a := Write(infos[a].dram, data)], since[a := Record(since[a], data)])
  }

  // ---------- single objects ----------

  lemma GrantAll(sv: Server, c: nat, share: nat, info: NvmInfo, key: Key, fill: seq<Byte>)
    requires Used(sv.pollUsed, c) + info.length <= share
    ensures Apply(sv, c, [info], [Allocated(key, fill)], share)
            == (Create(sv, c, info, key, fill), [DramInfo(info.addr, Some(key))])
  {
    var u := Create(sv, c, info, key, fill);
    assert [info][1..] == [] && Apply(u, c, [info][1..], [Allocated(key, fill)][1..], share) == (u, []);
    assert [DramInfo(info.addr, Some(key))] + [] == [DramInfo(info.addr, Some(key))];
  }

  lemma LearnOne(infos: map<Addr, Info>, a: Addr, key: Key)
    requires a in infos
    ensures LearnAll(infos, [DramInfo(a, Some(key))]) == infos[a := Info(infos[a].length, Some(key))]
  {
    assert [DramInfo(a, Some(key))][1..] == [];
  }

  /** Ask for a copy that fits, and hear that it was granted. */
  lemma GrantPath(sv: Server, c: nat, k: nat, infos: map<Addr, Info>, since: map<Addr, map<nat, Byte>>,
                  info: NvmInfo, key: Key, fill: seq<Byte>) returns (ss: seq<State>, es: seq<Event>)
    requires k > 0 && info.addr in infos && infos[info.addr] == Info(info.length, None)
    requires info.addr in since && since[info.addr] == map[]
    requires |fill| == info.length && KeyFresh(sv.entries, key) && Used(sv.pollUsed, c) + info.length <= Share(k)
    ensures Leads(Alone(sv, c, Resting(infos, since), k), ss, es,
                  Alone(Create(sv, c, info, key, fill), c,
                        Resting(infos[info.addr := Info(info.length, Some(key))], since), k))
    ensures forall e :: e in es ==> e.StartPoll? || e.ServePoll? || e.ReceivePoll?
  {
    var reply, t := [DramInfo(info.addr, Some(key))], Create(sv, c, info, key, fill);
    GrantAll(sv, c, Share(k), info, key, fill);
    LearnOne(infos, info.addr, key);
    assert Restart(since, Granted(reply)) == since;
    var qs, qe := AskPath(sv, c, k, infos, since, info, Allocated(key, fill));
    var hs, he := HearPath(t, c, k, infos, since, reply);
    var asked := Alone(t, c, Answering(infos, since, reply), k);
    var heard := Alone(t, c, Resting(LearnAll(infos, reply), since), k);
    hide Leads, Apply, LearnAll, Create, Restart, Granted;
    ss, es := Join(Alone(sv, c, Resting(infos, since), k), qs, qe, asked, hs, he, heard);
  }
}
