/** What is cached once a whole poll round, clear and then apply, has been served. */
module PollOutcome {
  import opened Wrappers
  import opened DramCache
  import opened PollRound
  import opened PollTheorems
  import opened PollSelect

  // ---------- the client's view after the replies ----------

  predicate Names(cold: seq<NvmInfo>, a: Addr) {
    exists i :: 0 <= i < |cold| && cold[i].addr == a
  }

  lemma {:induction false} ForgetAllAt(infos: map<Addr, Info>, cold: seq<NvmInfo>, a: Addr)
    requires a in infos
    ensures ForgetAll(infos, cold)[a].dram == if Names(cold, a) then None else infos[a].dram
    decreases |cold|
  {
    if cold != [] {
      var b := cold[0].addr;
      var infos1 := if b in infos then infos[b := infos[b].(dram := None)] else infos;
      ForgetAllAt(infos1, cold[1..], a);
      NamesCons(cold, a);
    }
  }

  lemma NamesCons(cold: seq<NvmInfo>, a: Addr)
    requires cold != []
    ensures Names(cold, a) <==> cold[0].addr == a || Names(cold[1..], a)
  {
    var rest := cold[1..];
    assert forall i :: 0 <= i < |rest| ==> rest[i] == cold[i + 1];
    if Names(cold, a) && cold[0].addr != a {
      var i :| 0 <= i < |cold| && cold[i].addr == a;
      assert rest[i - 1].addr == a;
    }
  }

  predicate DistinctReply(reply: seq<DramInfo>) {
    forall i, j :: 0 <= i < j < |reply| ==> reply[i].addr != reply[j].addr
  }

  lemma {:induction false} LearnAllAt(infos: map<Addr, Info>, reply: seq<DramInfo>, a: Addr)
    requires a in infos && DistinctReply(reply)
    ensures forall j :: 0 <= j < |reply| && reply[j].addr == a ==> LearnAll(infos, reply)[a].dram == reply[j].key
    ensures (forall j :: 0 <= j < |reply| ==> reply[j].addr != a) ==> LearnAll(infos, reply)[a] == infos[a]
    decreases |reply|
  {
    if reply != [] {
      var b, rest := reply[0].addr, reply[1..];
      var infos1 := if b in infos then infos[b := infos[b].(dram := reply[0].key)] else infos;
      assert forall j :: 0 <= j < |rest| ==> rest[j] == reply[j + 1];
      LearnAllAt(infos1, rest, a);
      forall j | 0 <= j < |reply| && reply[j].addr == a ensures LearnAll(infos, reply)[a].dram == reply[j].key {
        if j > 0 {
          assert rest[j - 1].addr == a;
        }
      }
    }
  }

  // ---------- a whole round ----------

  /** The sorted entries describe the client's considered objects. */
  predicate Describes(sa: seq<SortEntry>, threshold: nat, infos: map<Addr, Info>) {
    Sorted(sa) && DistinctAddrs(sa) && forall i :: 0 <= i < |sa| ==> Truthful(sa[i], threshold, infos)
  }

  function Served(sv: Server, c: nat, sa: seq<SortEntry>, allocs: seq<DramAlloc>, share: nat): (Server, seq<DramInfo>)
    requires |allocs| >= |Hot(sa)|
  {
    Apply(Clear(sv, c, Cold(sa)), c, Hot(sa), allocs, share)
  }

  /** The entry at this position was asked for and got a copy. */
  predicate Obtained(sa: seq<SortEntry>, reply: seq<DramInfo>, p: nat) {
    exists j :: 0 <= j < |reply| && j < |HotPos(sa)| && HotPos(sa)[j] == p && reply[j].key.Some?
  }

  /** The positions cached after the round. */
  function After(sa: seq<SortEntry>, reply: seq<DramInfo>): set<nat> {
    set p | 0 <= p < |sa| && ((sa[p].inDram && p !in ColdPos(sa)) || Obtained(sa, reply, p))
  }

  predicate IsCached(s: Server, a: Addr) { Find(s.entries, a).Some? }

  lemma Legal(sv: Server, c: nat, infos: map<Addr, Info>, sa: seq<SortEntry>, threshold: nat, share: nat)
    requires ServerOk(sv, share) && Owns(sv, c, infos) && Agree(sv, infos) && Describes(sa, threshold, infos)
    ensures ColdOk(sv, infos, Cold(sa)) && Listed(infos, Hot(sa))
    ensures forall i :: 0 <= i < |Hot(sa)| ==> infos[Hot(sa)[i].addr].dram.None?
    ensures Rising(ColdPos(sa)) && Falling(HotPos(sa))
    ensures forall p :: p in ColdPos(sa) || p in HotPos(sa) ==> p < |sa|
  {
    assert Eligible(sa, threshold);
    ListsAreProper(sa, threshold);
    ListedAt(sa, ColdPos(sa), infos);
    ListedAt(sa, HotPos(sa), infos);
    forall i | 0 <= i < |Cold(sa)| ensures Find(sv.entries, Cold(sa)[i].addr).Some? {
      assert infos[Cold(sa)[i].addr].dram == KeyOf(Find(sv.entries, Cold(sa)[i].addr));
    }
  }

  /** The round leaves the server and the client in agreement; of the considered objects
      exactly those of After are cached, and of the others the same as before. */
  lemma RoundLeavesCached(sv: Server, c: nat, infos: map<Addr, Info>, sa: seq<SortEntry>, threshold: nat,
                          allocs: seq<DramAlloc>, share: nat)
    requires ServerOk(sv, share) && Owns(sv, c, infos) && Agree(sv, infos) && Describes(sa, threshold, infos)
    requires AllocsOk(Clear(sv, c, Cold(sa)).entries, Hot(sa), allocs)
    ensures var (t, reply) := Served(sv, c, sa, allocs, share);
            && ServerOk(t, share) && |reply| <= |HotPos(sa)|
            && Agree(t, LearnAll(ForgetAll(infos, Cold(sa)), reply))
            && (forall p: nat :: p < |sa| ==> (IsCached(t, sa[p].addr) <==> p in After(sa, reply)))
            && (forall a :: a in infos && (forall p :: 0 <= p < |sa| ==> sa[p].addr != a) ==>
                  (IsCached(t, a) <==> IsCached(sv, a)))
  {
    var cold, hot := Cold(sa), Hot(sa);
    var view := ForgetAll(infos, cold);
    var (t, reply) := Served(sv, c, sa, allocs, share);
    Legal(sv, c, infos, sa, threshold, share);
    RoundAgrees(sv, c, infos, cold, hot, allocs, share);
    ApplyAnswersPrefix(Clear(sv, c, cold), c, hot, allocs, share);
    hide Clear, Apply, ServerOk, AllocsOk, ColdOk, Owns, Find, HotPos, ColdPos, ForgetAll, LearnAll;
    ViewAfterRound(sv, t, infos, sa, threshold, reply);
  }

  /** What is cached follows from what the client believes once it has heard the replies. */
  lemma ViewAfterRound(sv: Server, t: Server, infos: map<Addr, Info>, sa: seq<SortEntry>, threshold: nat,
                       reply: seq<DramInfo>)
    requires Agree(sv, infos) && Describes(sa, threshold, infos) && Listed(infos, Hot(sa)) && Falling(HotPos(sa))
    requires Agree(t, LearnAll(ForgetAll(infos, Cold(sa)), reply))
    requires forall q :: q in ColdPos(sa) || q in HotPos(sa) ==> q < |sa|
    requires |reply| <= |HotPos(sa)| && forall j :: 0 <= j < |reply| ==> reply[j].addr == Hot(sa)[j].addr
    ensures forall p: nat :: p < |sa| ==> (IsCached(t, sa[p].addr) <==> p in After(sa, reply))
    ensures forall a :: a in infos && (forall p :: 0 <= p < |sa| ==> sa[p].addr != a) ==>
              (IsCached(t, a) <==> IsCached(sv, a))
  {
    hide Find, HotPos, ColdPos, ForgetAll, LearnAll;
    var view := ForgetAll(infos, Cold(sa));
    assert DistinctReply(reply);
    forall p: nat | p < |sa| ensures IsCached(t, sa[p].addr) <==> p in After(sa, reply) {
      assert Truthful(sa[p], threshold, infos);
      EntryView(infos, sa, reply, threshold, p);
      AgreeCached(t, LearnAll(view, reply), sa[p].addr);
    }
    forall a | a in infos && (forall p :: 0 <= p < |sa| ==> sa[p].addr != a) ensures IsCached(t, a) <==> IsCached(sv, a) {
      OtherView(infos, sa, reply, a);
      AgreeCached(t, LearnAll(view, reply), a);
      AgreeCached(sv, infos, a);
    }
  }

  lemma AgreeCached(s: Server, view: map<Addr, Info>, a: Addr)
    requires Agree(s, view) && a in view
    ensures IsCached(s, a) <==> view[a].dram.Some?
  {
  }

  lemma RoundAgrees(sv: Server, c: nat, infos: map<Addr, Info>, cold: seq<NvmInfo>, hot: seq<NvmInfo>,
                    allocs: seq<DramAlloc>, share: nat)
    requires ServerOk(sv, share) && Owns(sv, c, infos) && Agree(sv, infos) && ColdOk(sv, infos, cold)
    requires Listed(infos, hot) && forall i :: 0 <= i < |hot| ==> infos[hot[i].addr].dram.None?
    requires AllocsOk(Clear(sv, c, cold).entries, hot, allocs)
    ensures var (t, reply) := Apply(Clear(sv, c, cold), c, hot, allocs, share);
            ServerOk(t, share) && Agree(t, LearnAll(ForgetAll(infos, cold), reply))
  {
    hide ServerOk, ColdOk, AllocsOk, SameForOthers, OnlyEvicts, Clear, Apply;
    var u, view := Clear(sv, c, cold), ForgetAll(infos, cold);
    ClearOk(sv, c, infos, cold, share);
    forall i | 0 <= i < |hot| ensures Find(u.entries, hot[i].addr).None? {
      ForgetAllAt(infos, cold, hot[i].addr);
      AgreeCached(u, view, hot[i].addr);
    }
    hide ForgetAll, Find;
    assert HotOk(u, view, hot);
    ApplyOk(u, c, view, hot, allocs, share);
  }

  /** The client's final view of a considered object. */
  lemma EntryView(infos: map<Addr, Info>, sa: seq<SortEntry>, reply: seq<DramInfo>, threshold: nat, p: nat)
    requires p < |sa| && DistinctAddrs(sa) && Truthful(sa[p], threshold, infos)
    requires forall q :: q in ColdPos(sa) || q in HotPos(sa) ==> q < |sa|
    requires |reply| <= |HotPos(sa)| && forall j :: 0 <= j < |reply| ==> reply[j].addr == Hot(sa)[j].addr
    requires DistinctReply(reply) && Falling(HotPos(sa))
    ensures LearnAll(ForgetAll(infos, Cold(sa)), reply)[sa[p].addr].dram.Some? <==> p in After(sa, reply)
  {
    hide HotPos, ColdPos, Sorted;
    var a, view := sa[p].addr, ForgetAll(infos, Cold(sa));
    ForgetAllAt(infos, Cold(sa), a);
    NamedCold(sa, p);
    LearnAllAt(view, reply, a);
    hide ForgetAll, LearnAll;
    UncachedHot(sa);
    if j :| 0 <= j < |reply| && reply[j].addr == a {
      assert HotPos(sa)[j] in HotPos(sa) && sa[HotPos(sa)[j]].addr == a;
      assert HotPos(sa)[j] == p;
      forall i | 0 <= i < |reply| && HotPos(sa)[i] == p ensures i == j {}
    } else {
      forall j | 0 <= j < |reply| ensures HotPos(sa)[j] != p {
        assert Hot(sa)[j] == InfoOf(sa[HotPos(sa)[j]]);
      }
    }
  }

  lemma UncachedHot(sa: seq<SortEntry>)
    ensures forall p :: p in HotPos(sa) ==> p < |sa| && !sa[p].inDram
  {
    forall p | p in HotPos(sa) ensures p < |sa| && !sa[p].inDram {
      HotIn(sa, p);
    }
  }

  lemma NamedCold(sa: seq<SortEntry>, p: nat)
    requires p < |sa| && DistinctAddrs(sa) && forall q :: q in ColdPos(sa) ==> q < |sa|
    ensures Names(Cold(sa), sa[p].addr) <==> p in ColdPos(sa)
  {
    hide ColdPos;
    if p in ColdPos(sa) {
      var i :| 0 <= i < |ColdPos(sa)| && ColdPos(sa)[i] == p;
      assert Cold(sa)[i].addr == sa[p].addr;
    }
  }

  /** The client's final view of an object that was not considered. */
  lemma OtherView(infos: map<Addr, Info>, sa: seq<SortEntry>, reply: seq<DramInfo>, a: Addr)
    requires a in infos && forall p :: 0 <= p < |sa| ==> sa[p].addr != a
    requires forall q :: q in ColdPos(sa) || q in HotPos(sa) ==> q < |sa|
    requires |reply| <= |HotPos(sa)| && forall j :: 0 <= j < |reply| ==> reply[j].addr == Hot(sa)[j].addr
    requires DistinctReply(reply)
    ensures LearnAll(ForgetAll(infos, Cold(sa)), reply)[a].dram == infos[a].dram
  {
    hide HotPos, ColdPos;
    ForgetAllAt(infos, Cold(sa), a);
    LearnAllAt(ForgetAll(infos, Cold(sa)), reply, a);
    hide ForgetAll, LearnAll;
    assert !Names(Cold(sa), a);
    forall j | 0 <= j < |reply| ensures reply[j].addr != a {
      assert Hot(sa)[j] == InfoOf(sa[HotPos(sa)[j]]);
    }
  }

  // ---------- when the hottest objects are cached ----------

  /** Every hot object that was to replace a cold one got its copy. */
  predicate Replaced(sa: seq<SortEntry>, reply: seq<DramInfo>) {
    AllGot(reply, |ColdPos(sa)|)
  }

  predicate GotCopy(reply: seq<DramInfo>, j: nat) {
    j < |reply| && reply[j].key.Some?
  }

  lemma ColdIn(sa: seq<SortEntry>, p: nat)
    ensures p in ColdPos(sa) <==> p < Split(sa) && sa[p].inDram
  {
    AscIn(sa, 0, Split(sa), true, p);
  }

  lemma SwapIn(sa: seq<SortEntry>, p: nat)
    ensures p in SwapPos(sa) <==> Split(sa) <= p < |sa| && !sa[p].inDram
  {
    DescIn(sa, Split(sa), |sa|, false, p);
  }

  /** Given the reply: the top is cached iff every cold object was replaced. */
  lemma TopIffReplaced(sa: seq<SortEntry>, reply: seq<DramInfo>)
    requires |reply| <= |HotPos(sa)|
    ensures (forall p: nat :: Split(sa) <= p < |sa| ==> p in After(sa, reply)) <==> Replaced(sa, reply)
    ensures forall p: nat :: p in After(sa, reply) && p < Split(sa) ==> Obtained(sa, reply, p)
  {
    SwapBalanced(sa);
    HotFalls(sa);
    var swap := SwapPos(sa);
    assert |HotPos(sa)| >= |swap| && forall j :: 0 <= j < |swap| ==> HotPos(sa)[j] == swap[j];
    if Replaced(sa, reply) {
      forall p: nat | Split(sa) <= p < |sa| ensures p in After(sa, reply) {
        TopIsCached(sa, reply, p);
      }
    }
    if forall p: nat :: Split(sa) <= p < |sa| ==> p in After(sa, reply) {
      forall j | 0 <= j < |swap| ensures GotCopy(reply, j) {
        assert swap[j] in swap;
        SwapIn(sa, swap[j]);
        assert swap[j] in After(sa, reply);
        hide HotPos, SwapPos, ColdPos, Split;
        var i :| 0 <= i < |reply| && i < |HotPos(sa)| && HotPos(sa)[i] == swap[j] && reply[i].key.Some?;
        assert i == j;
      }
    }
    forall p: nat | p in After(sa, reply) && p < Split(sa) ensures Obtained(sa, reply, p) {
      ColdIn(sa, p);
    }
  }

  lemma TopIsCached(sa: seq<SortEntry>, reply: seq<DramInfo>, p: nat)
    requires |reply| <= |HotPos(sa)| && Replaced(sa, reply) && Split(sa) <= p < |sa|
    ensures p in After(sa, reply)
  {
    ColdIn(sa, p);
    if !sa[p].inDram {
      SwapIn(sa, p);
      SwapBalanced(sa);
      hide SwapPos, ColdPos, Split;
      var j :| 0 <= j < |SwapPos(sa)| && SwapPos(sa)[j] == p;
      assert HotPos(sa)[j] == p && GotCopy(reply, j);
    }
  }

  lemma {:induction false} SetOfSize(ps: seq<nat>)
    requires Rising(ps) || Falling(ps)
    ensures |SetOf(ps)| == |ps|
  {
    if ps != [] {
      var rest := ps[..|ps| - 1];
      SetOfSize(rest);
      assert ps == rest + [ps[|ps| - 1]];
      assert SetOf(ps) == SetOf(rest) + {ps[|ps| - 1]};
    }
  }

  /** When all requests looked at were granted, the cache ends with what it held, less the
      cold objects, plus the granted prefix: it shrinks when the prefix is shorter. */
  lemma SizeAfterRound(sa: seq<SortEntry>, reply: seq<DramInfo>)
    requires |reply| <= |HotPos(sa)| && forall j :: 0 <= j < |reply| ==> reply[j].key.Some?
    ensures |After(sa, reply)| == |Cached(sa)| - |ColdPos(sa)| + |reply|
  {
    HotFalls(sa);
    AscRises(sa, 0, Split(sa), true);
    UncachedHot(sa);
    forall p ensures p in ColdPos(sa) ==> p in Cached(sa) {
      if p in ColdPos(sa) { ColdIn(sa, p); }
    }
    var cold, got := SetOf(ColdPos(sa)), SetOf(HotPos(sa)[..|reply|]);
    forall p: nat ensures Obtained(sa, reply, p) <==> p in got {
      ObtainedIn(sa, reply, p);
    }
    forall p | p in got ensures p < |sa| && !sa[p].inDram {
      assert p in HotPos(sa);
    }
    SetOfSize(ColdPos(sa));
    SetOfSize(HotPos(sa)[..|reply|]);
    hide HotPos, ColdPos, Obtained;
    assert After(sa, reply) == Cached(sa) - cold + got;
    assert (Cached(sa) - cold) !! got;
  }

  lemma ObtainedIn(sa: seq<SortEntry>, reply: seq<DramInfo>, p: nat)
    requires |reply| <= |HotPos(sa)| && forall j :: 0 <= j < |reply| ==> reply[j].key.Some?
    ensures Obtained(sa, reply, p) <==> p in SetOf(HotPos(sa)[..|reply|])
  {
    hide HotPos;
    var prefix := HotPos(sa)[..|reply|];
    if Obtained(sa, reply, p) {
      var j :| 0 <= j < |reply| && j < |HotPos(sa)| && HotPos(sa)[j] == p && reply[j].key.Some?;
      assert prefix[j] == p;
    }
    if p in prefix {
      var j :| 0 <= j < |prefix| && prefix[j] == p;
      assert HotPos(sa)[j] == p;
    }
  }

  // ---------- the condition before the round ----------

  lemma {:induction false} SumCons(x: NvmInfo, rest: seq<NvmInfo>)
    ensures SumLengths([x] + rest) == x.length + SumLengths(rest)
    decreases |rest|
  {
    var all := [x] + rest;
    if rest == [] {
      assert all[..0] == [];
    } else {
      assert all[..|all| - 1] == [x] + rest[..|rest| - 1];
      SumCons(x, rest[..|rest| - 1]);
    }
  }

  /** What the apply handler answers depends on the counter of its connection only. */
  function ReplyFor(used: int, hot: seq<NvmInfo>, allocs: seq<DramAlloc>, share: nat): (r: seq<DramInfo>)
    requires |allocs| >= |hot|
    ensures |r| <= |hot| && forall j :: 0 <= j < |r| ==> r[j].addr == hot[j].addr
    decreases |hot|
  {
    if hot == [] || used + hot[0].length > share then []
    else
      match allocs[0]
      case AllocFails => [DramInfo(hot[0].addr, None)] + ReplyFor(used, hot[1..], allocs[1..], share)
      case Allocated(key, fill) =>
        [DramInfo(hot[0].addr, Some(key))] + ReplyFor(used + hot[0].length, hot[1..], allocs[1..], share)
  }

  lemma {:induction false} ApplyReply(s: Server, c: nat, hot: seq<NvmInfo>, allocs: seq<DramAlloc>, share: nat)
    requires |allocs| >= |hot|
    ensures Apply(s, c, hot, allocs, share).1 == ReplyFor(Used(s.pollUsed, c), hot, allocs, share)
    decreases |hot|
  {
    if hot != [] && Used(s.pollUsed, c) + hot[0].length <= share {
      var u := if allocs[0].AllocFails? then s else Create(s, c, hot[0], allocs[0].key, allocs[0].fill);
      ApplyReply(u, c, hot[1..], allocs[1..], share);
    }
  }

  /** A clear reduces both counters by all it names, cached or not. */
  lemma {:induction false} ClearUsed(s: Server, c: nat, cold: seq<NvmInfo>)
    ensures Used(Clear(s, c, cold).pollUsed, c) == Used(s.pollUsed, c) - SumLengths(cold)
    ensures Clear(s, c, cold).dramUsed == s.dramUsed - SumLengths(cold)
    decreases |cold|
  {
    if cold != [] {
      ClearUsed(ClearOne(s, c, cold[0]), c, cold[1..]);
      SumCons(cold[0], cold[1..]);
      assert cold == [cold[0]] + cold[1..];
    }
  }

  predicate AllGot(reply: seq<DramInfo>, n: nat) {
    forall j :: 0 <= j < n ==> GotCopy(reply, j)
  }

  /** The first n allocations succeed and the first n objects fit beside what is used. */
  predicate Fits(used: int, hot: seq<NvmInfo>, allocs: seq<DramAlloc>, share: nat, n: nat)
    requires n <= |hot| <= |allocs|
  {
    n == 0 || ((forall j :: 0 <= j < n ==> allocs[j].Allocated?) && used + SumLengths(hot[..n]) <= share)
  }

  /** The first request, if it gets a copy, is followed by the reply to the others. */
  lemma ReplyHead(used: int, hot: seq<NvmInfo>, allocs: seq<DramAlloc>, share: nat)
    requires 0 < |hot| <= |allocs|
    ensures var reply := ReplyFor(used, hot, allocs, share);
            if allocs[0].AllocFails? || used + hot[0].length > share
            then forall n: nat :: n > 0 ==> !AllGot(reply, n)
            else GotCopy(reply, 0)
                 && reply == [reply[0]] + ReplyFor(used + hot[0].length, hot[1..], allocs[1..], share)
  {
    var reply := ReplyFor(used, hot, allocs, share);
    if allocs[0].AllocFails? || used + hot[0].length > share {
      assert !GotCopy(reply, 0);
    }
  }

  /** The first n requests all get copies iff their allocations succeed and all of them fit. */
  lemma {:induction false} PrefixGranted(used: int, hot: seq<NvmInfo>, allocs: seq<DramAlloc>, share: nat, n: nat)
    requires n <= |hot| <= |allocs|
    ensures AllGot(ReplyFor(used, hot, allocs, share), n) <==> Fits(used, hot, allocs, share, n)
    decreases n
  {
    hide Fits, AllGot, SumLengths, ReplyFor, GotCopy;
    if n == 0 {
      NoneAsked(used, hot, allocs, share);
    } else {
      FitsHead(used, hot, allocs, share, n);
      ReplyHead(used, hot, allocs, share);
      if allocs[0].Allocated? && used + hot[0].length <= share {
        var tail := ReplyFor(used + hot[0].length, hot[1..], allocs[1..], share);
        PrefixGranted(used + hot[0].length, hot[1..], allocs[1..], share, n - 1);
        GotTail(ReplyFor(used, hot, allocs, share), tail, n);
      }
    }
  }

  lemma NoneAsked(used: int, hot: seq<NvmInfo>, allocs: seq<DramAlloc>, share: nat)
    requires |hot| <= |allocs|
    ensures AllGot(ReplyFor(used, hot, allocs, share), 0) && Fits(used, hot, allocs, share, 0)
  {
  }

  lemma FitsHead(used: int, hot: seq<NvmInfo>, allocs: seq<DramAlloc>, share: nat, n: nat)
    requires 0 < n <= |hot| <= |allocs|
    ensures Fits(used, hot, allocs, share, n)
            <==> allocs[0].Allocated? && used + hot[0].length <= share
                 && Fits(used + hot[0].length, hot[1..], allocs[1..], share, n - 1)
  {
    var rest := hot[1..];
    assert hot[..n] == [hot[0]] + rest[..n - 1];
    SumCons(hot[0], rest[..n - 1]);
    assert n == 1 ==> rest[..n - 1] == [] && SumLengths([]) == 0;
    hide SumLengths;
    if allocs[0].Allocated? {
      AllocTail(allocs, n);
    }
  }

  lemma GotTail(reply: seq<DramInfo>, tail: seq<DramInfo>, n: nat)
    requires n > 0 && GotCopy(reply, 0) && reply == [reply[0]] + tail
    ensures AllGot(reply, n) <==> AllGot(tail, n - 1)
  {
    if AllGot(reply, n) {
      forall j | 0 <= j < n - 1 ensures GotCopy(tail, j) {
        assert GotCopy(reply, j + 1);
      }
    }
    if AllGot(tail, n - 1) {
      forall j | 0 <= j < n ensures GotCopy(reply, j) {
        if j > 0 {
          assert GotCopy(tail, j - 1);
        }
      }
    }
  }

  lemma AllocTail(allocs: seq<DramAlloc>, n: nat)
    requires 0 < n <= |allocs| && allocs[0].Allocated?
    ensures (forall j :: 0 <= j < n ==> allocs[j].Allocated?)
            <==> (forall j :: 0 <= j < n - 1 ==> allocs[1..][j].Allocated?)
  {
    var more := allocs[1..];
    if forall j :: 0 <= j < n - 1 ==> more[j].Allocated? {
      forall j | 0 <= j < n ensures allocs[j].Allocated? {
        if j > 0 {
          assert more[j - 1].Allocated?;
        }
      }
    }
  }

  /** The hot objects that are to replace the cold ones. */
  function Partners(sa: seq<SortEntry>): seq<NvmInfo> { At(sa, SwapPos(sa)) }

  lemma PartnersFirst(sa: seq<SortEntry>)
    ensures |Partners(sa)| == |ColdPos(sa)| <= |Hot(sa)| && Hot(sa)[..|ColdPos(sa)|] == Partners(sa)
  {
    SwapBalanced(sa);
    hide Asc, Desc, Split, Overlooks;
    AtConcat(sa, SwapPos(sa), MorePos(sa));
  }

  /** Before the round: the allocations for the cold objects' partners will succeed, and their
      partners fit into the client's share once the cold objects are gone from it. */
  predicate CanReplace(used: int, sa: seq<SortEntry>, allocs: seq<DramAlloc>, share: nat)
    requires |allocs| >= |Hot(sa)|
  {
    || ColdPos(sa) == []
    || ((forall j :: 0 <= j < |SwapPos(sa)| ==> allocs[j].Allocated?)
        && used - SumLengths(Cold(sa)) + SumLengths(Partners(sa)) <= share)
  }

  lemma ReplacedIff(used: int, sa: seq<SortEntry>, allocs: seq<DramAlloc>, share: nat)
    requires |allocs| >= |Hot(sa)|
    ensures Replaced(sa, ReplyFor(used - SumLengths(Cold(sa)), Hot(sa), allocs, share)) <==> CanReplace(used, sa, allocs, share)
  {
    PartnersFirst(sa);
    hide ColdPos, SwapPos, MorePos, SumLengths, ReplyFor;
    PrefixGranted(used - SumLengths(Cold(sa)), Hot(sa), allocs, share, |ColdPos(sa)|);
  }

  lemma ServedReply(sv: Server, c: nat, sa: seq<SortEntry>, allocs: seq<DramAlloc>, share: nat)
    requires |allocs| >= |Hot(sa)|
    ensures Served(sv, c, sa, allocs, share).1
            == ReplyFor(Used(sv.pollUsed, c) - SumLengths(Cold(sa)), Hot(sa), allocs, share)
  {
    hide Apply, Clear, SumLengths, ReplyFor, Used, ColdPos, HotPos;
    ApplyReply(Clear(sv, c, Cold(sa)), c, Hot(sa), allocs, share);
    ClearUsed(sv, c, Cold(sa));
  }

  /** What is cached once client and server agree on the records the replies leave. */
  lemma OutcomeOfReply(sv: Server, t: Server, c: nat, infos: map<Addr, Info>, sa: seq<SortEntry>, threshold: nat,
                       used: int, allocs: seq<DramAlloc>, share: nat)
    requires ServerOk(sv, share) && Owns(sv, c, infos) && Agree(sv, infos) && Describes(sa, threshold, infos)
    requires |allocs| >= |Hot(sa)|
    requires Agree(t, LearnAll(ForgetAll(infos, Cold(sa)), ReplyFor(used - SumLengths(Cold(sa)), Hot(sa), allocs, share)))
    ensures var reply := ReplyFor(used - SumLengths(Cold(sa)), Hot(sa), allocs, share);
            && |reply| <= |HotPos(sa)|
            && (forall p: nat :: p < |sa| ==> (IsCached(t, sa[p].addr) <==> p in After(sa, reply)))
            && (forall a :: a in infos && (forall p :: 0 <= p < |sa| ==> sa[p].addr != a) ==>
                  (IsCached(t, a) <==> IsCached(sv, a)))
            && ((forall p: nat :: Split(sa) <= p < |sa| ==> IsCached(t, sa[p].addr)) <==> CanReplace(used, sa, allocs, share))
            && (forall p: nat :: p < Split(sa) && IsCached(t, sa[p].addr) ==> Obtained(sa, reply, p))
  {
    hide ServerOk, Owns, Agree, Describes, CanReplace, Obtained, Replaced, IsCached, HotPos, ColdPos, After, Split, ReplyFor;
    var reply := ReplyFor(used - SumLengths(Cold(sa)), Hot(sa), allocs, share);
    Legal(sv, c, infos, sa, threshold, share);
    ViewAfterRound(sv, t, infos, sa, threshold, reply);
    ReplacedIff(used, sa, allocs, share);
    TopIffReplaced(sa, reply);
    SplitBound(sa);
  }

  /** After the round the top of the sorted array, as long as the cache held before, is cached
      if and only if the partners could be allocated and fit; whatever more is cached was hot. */
  lemma TopKAfterRound(sv: Server, c: nat, infos: map<Addr, Info>, sa: seq<SortEntry>, threshold: nat,
                       allocs: seq<DramAlloc>, share: nat)
    requires ServerOk(sv, share) && Owns(sv, c, infos) && Agree(sv, infos) && Describes(sa, threshold, infos)
    requires AllocsOk(Clear(sv, c, Cold(sa)).entries, Hot(sa), allocs)
    ensures var (t, reply) := Served(sv, c, sa, allocs, share);
            && ((forall p: nat :: Split(sa) <= p < |sa| ==> IsCached(t, sa[p].addr))
                <==> CanReplace(Used(sv.pollUsed, c), sa, allocs, share))
            && (forall p: nat :: p < Split(sa) && IsCached(t, sa[p].addr) ==> Obtained(sa, reply, p))
  {
    hide ServerOk, Owns, Agree, Describes, Clear, CanReplace, Obtained, IsCached, After, Split, ReplyFor, Served;
    RoundLeavesCached(sv, c, infos, sa, threshold, allocs, share);
    ServedReply(sv, c, sa, allocs, share);
    OutcomeOfReply(sv, Served(sv, c, sa, allocs, share).0, c, infos, sa, threshold, Used(sv.pollUsed, c), allocs, share);
  }

  lemma SplitBound(sa: seq<SortEntry>)
    ensures Split(sa) <= |sa|
  {
  }

  /** Partners together no longer than the cold objects always suffice when allocation succeeds. */
  lemma PartnersNoLonger(sv: Server, c: nat, sa: seq<SortEntry>, allocs: seq<DramAlloc>, share: nat)
    requires ServerOk(sv, share) && |allocs| >= |Hot(sa)| && forall j :: 0 <= j < |allocs| ==> allocs[j].Allocated?
    requires SumLengths(Partners(sa)) <= SumLengths(Cold(sa))
    ensures CanReplace(Used(sv.pollUsed, c), sa, allocs, share)
  {
    PartnersFirst(sa);
    hide ColdPos, SwapPos, MorePos, SumLengths;
  }
}
