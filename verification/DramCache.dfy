/**
 The server's DRAM cache as values: the table of cached objects, the NVM objects behind
 it, the size counters, and what the apply, clear and free handlers do to them.
 */
module DramCache {
  import opened Wrappers
  import opened Arithmetic

  type Addr = nat
  type Key = nat
  type Byte = bv8

  const SERVER_DRAM_TH: nat := 1073741824

  /** A request names an NVM object by address and length. */
  datatype NvmInfo = NvmInfo(addr: Addr, length: nat)

  /** A reply names the DRAM copy of an object, if it was given one. */
  datatype DramInfo = DramInfo(addr: Addr, key: Option<Key>)

  /** `key` stands for the registered DRAM region, `owner` for the client it was created for. */
  datatype DramEntry = DramEntry(addr: Addr, length: nat, key: Key, owner: nat, data: seq<Byte>)

  datatype NvmObj = NvmObj(owner: nat, length: nat, data: seq<Byte>)

  /** Outcome of allocating and registering DRAM: the region and whatever bytes it holds. */
  datatype DramAlloc = AllocFails | Allocated(key: Key, fill: seq<Byte>)

  /** `entries` is newest first.  Each client has a poll and a normal connection with a counter. */
  datatype Server = Server(entries: seq<DramEntry>, nvm: map<Addr, NvmObj>,
                           dramUsed: int, pollUsed: map<nat, int>, normUsed: map<nat, int>)

  function Find(entries: seq<DramEntry>, a: Addr): (r: Option<DramEntry>)
    ensures r.Some? ==> r.value in entries && r.value.addr == a
    ensures r.None? ==> forall e :: e in entries ==> e.addr != a
  {
    if entries == [] then None
    else if entries[0].addr == a then Some(entries[0])
    else Find(entries[1..], a)
  }

  function RemoveFirst(entries: seq<DramEntry>, a: Addr): seq<DramEntry> {
    if entries == [] then []
    else if entries[0].addr == a then entries[1..]
    else [entries[0]] + RemoveFirst(entries[1..], a)
  }

  function KeyOf(e: Option<DramEntry>): Option<Key> {
    match e
    case None => None
    case Some(x) => Some(x.key)
  }

  /** `dhmp_destroy_dram_entry`: the copy is written back before it goes. */
  function Destroy(s: Server, a: Addr): (Server, bool) {
    match Find(s.entries, a)
    case None => (s, false)
    case Some(e) =>
      (s.(entries := RemoveFirst(s.entries, a),
          nvm := if a in s.nvm then s.nvm[a := s.nvm[a].(data := e.data)] else s.nvm),
       true)
  }

  function Charge(used: map<nat, int>, c: nat, n: int): map<nat, int> {
    used[c := Used(used, c) + n]
  }

  function Used(used: map<nat, int>, c: nat): int {
    if c in used then used[c] else 0
  }

  /** The share of DRAM one poll connection may use. */
  function Share(connections: nat): (share: nat)
    requires connections > 0
    ensures connections * share <= 2 * SERVER_DRAM_TH < connections * (share + 1)
  {
    SERVER_DRAM_TH * 2 / connections
  }

  /** The share is the largest that all connections together can be given twice over. */
  lemma ShareIsLargest(connections: nat, n: int)
    requires connections > 0
    ensures n <= Share(connections) <==> connections * n <= 2 * SERVER_DRAM_TH
  {
    hide Share;
    var share := Share(connections);
    if n <= share {
      TimesMonotone(connections, n, share);
    } else {
      TimesMonotone(connections, share + 1, n);
    }
  }

  /** A single request is answered exactly when the client's charge with it, times the number of
      connections, stays within twice the threshold; its copy is made if it can be allocated. */
  lemma AnsweredExactly(s: Server, c: nat, info: NvmInfo, alloc: DramAlloc, connections: nat)
    requires connections > 0
    ensures var (t, reply) := Apply(s, c, [info], [alloc], Share(connections));
            if connections * (Used(s.pollUsed, c) + info.length) > 2 * SERVER_DRAM_TH then t == s && reply == []
            else match alloc
                 case AllocFails => t == s && reply == [DramInfo(info.addr, None)]
                 case Allocated(key, fill) =>
                   && reply == [DramInfo(info.addr, Some(key))]
                   && t.entries == [DramEntry(info.addr, info.length, key, c, fill)] + s.entries
                   && Used(t.pollUsed, c) == Used(s.pollUsed, c) + info.length
  {
    ShareIsLargest(connections, Used(s.pollUsed, c) + info.length);
    hide Share;
    assert [info][1..] == [] && [alloc][1..] == [];
  }

  function Create(s: Server, c: nat, info: NvmInfo, key: Key, fill: seq<Byte>): Server {
    s.(entries := [DramEntry(info.addr, info.length, key, c, fill)] + s.entries,
       dramUsed := s.dramUsed + info.length,
       pollUsed := Charge(s.pollUsed, c, info.length))
  }

  /** The apply handler: requests are granted in order until one would exceed the share; the
      reply covers exactly the requests looked at, with no region where allocation failed. */
  function Apply(s: Server, c: nat, hot: seq<NvmInfo>, allocs: seq<DramAlloc>, share: nat): (Server, seq<DramInfo>)
    requires |allocs| >= |hot|
    decreases |hot|
  {
    if hot == [] || Used(s.pollUsed, c) + hot[0].length > share then (s, [])
    else
      match allocs[0]
      case AllocFails =>
        var (t, rest) := Apply(s, c, hot[1..], allocs[1..], share);
        (t, [DramInfo(hot[0].addr, None)] + rest)
      case Allocated(key, fill) =>
        var (t, rest) := Apply(Create(s, c, hot[0], key, fill), c, hot[1..], allocs[1..], share);
        (t, [DramInfo(hot[0].addr, Some(key))] + rest)
  }

  /** The clear handler: every named copy goes, and both counters are reduced in any case. */
  function Clear(s: Server, c: nat, cold: seq<NvmInfo>): Server
    decreases |cold|
  {
    if cold == [] then s
    else
      Clear(ClearOne(s, c, cold[0]), c, cold[1..])
  }

  function ClearOne(s: Server, c: nat, info: NvmInfo): Server {
    var t := Destroy(s, info.addr).0;
    t.(dramUsed := t.dramUsed - info.length, pollUsed := Charge(t.pollUsed, c, 0 - info.length))
  }

  /** The DRAM part of the free handler, on the normal connection of client c. */
  function Free(s: Server, c: nat, info: NvmInfo): Server {
    var (t, found) := Destroy(s, info.addr);
    var u := if found
             then t.(dramUsed := t.dramUsed - info.length, normUsed := Charge(t.normUsed, c, 0 - info.length))
             else t;
    u.(nvm := u.nvm - {info.addr})
  }

  // ---------- invariant ----------

  function SumLen(entries: seq<DramEntry>): nat {
    if entries == [] then 0 else entries[0].length + SumLen(entries[1..])
  }

  function SumOwned(entries: seq<DramEntry>, c: nat): nat {
    if entries == [] then 0
    else (if entries[0].owner == c then entries[0].length else 0) + SumOwned(entries[1..], c)
  }

  /** One copy per object, one region per copy. */
  predicate Distinct(entries: seq<DramEntry>) {
    forall i, j :: 0 <= i < j < |entries| ==> entries[i].addr != entries[j].addr && entries[i].key != entries[j].key
  }

  predicate EntryOk(e: DramEntry, nvm: map<Addr, NvmObj>) {
    e.addr in nvm && nvm[e.addr].owner == e.owner && nvm[e.addr].length == e.length == |e.data|
  }

  ghost predicate TableOk(s: Server) {
    && Distinct(s.entries)
    && (forall e :: e in s.entries ==> EntryOk(e, s.nvm))
    && (forall a :: a in s.nvm ==> |s.nvm[a].data| == s.nvm[a].length)
  }

  /** The counters are exact although frees charge the normal connection and everything
      else the poll connection; the normal side is never positive. */
  ghost predicate CountersOk(s: Server, share: nat) {
    && s.dramUsed == SumLen(s.entries)
    && forall c :: Used(s.pollUsed, c) + Used(s.normUsed, c) == SumOwned(s.entries, c)
                   && Used(s.normUsed, c) <= 0
                   && Used(s.pollUsed, c) <= share
  }

  ghost predicate ServerOk(s: Server, share: nat) {
    TableOk(s) && CountersOk(s, share)
  }

  // ---------- lists of entries ----------

  lemma {:induction false} RemoveFirstFacts(entries: seq<DramEntry>, a: Addr)
    requires Distinct(entries)
    ensures Distinct(RemoveFirst(entries, a))
    ensures forall e :: e in RemoveFirst(entries, a) <==> e in entries && e.addr != a
    ensures forall b :: Find(RemoveFirst(entries, a), b) == if b == a then None else Find(entries, b)
    ensures Find(entries, a).Some? ==>
      var x := Find(entries, a).value;
      && SumLen(RemoveFirst(entries, a)) == SumLen(entries) - x.length
      && forall c :: SumOwned(RemoveFirst(entries, a), c) == SumOwned(entries, c) - if x.owner == c then x.length else 0
  {
    if entries != [] {
      TailDistinct(entries);
      RemoveFirstFacts(entries[1..], a);
      if entries[0].addr != a {
        var r := RemoveFirst(entries[1..], a);
        ConsDistinct(entries[0], r);
        forall b ensures Find([entries[0]] + r, b) == if b == a then None else Find(entries, b) {}
      } else {
        NotFound(entries[1..], a);
      }
    }
  }

  lemma TailDistinct(entries: seq<DramEntry>)
    requires Distinct(entries) && entries != []
    ensures Distinct(entries[1..])
    ensures forall e :: e in entries <==> e == entries[0] || e in entries[1..]
    ensures forall e :: e in entries[1..] ==> e.addr != entries[0].addr && e.key != entries[0].key
  {
    assert entries == [entries[0]] + entries[1..];
  }

  lemma ConsDistinct(e: DramEntry, rest: seq<DramEntry>)
    requires Distinct(rest) && forall x :: x in rest ==> x.addr != e.addr && x.key != e.key
    ensures Distinct([e] + rest)
  {
    assert forall i :: 0 <= i < |rest| ==> rest[i] in rest;
  }

  lemma NotFound(entries: seq<DramEntry>, a: Addr)
    requires forall e :: e in entries ==> e.addr != a
    ensures Find(entries, a) == None
  {
  }

  /** With distinct copies, a copy in the table is the one found. */
  lemma {:induction false} FindIs(entries: seq<DramEntry>, e: DramEntry)
    requires Distinct(entries) && e in entries
    ensures Find(entries, e.addr) == Some(e)
  {
    TailDistinct(entries);
    if entries[0] != e {
      FindIs(entries[1..], e);
    }
  }

  // ---------- client side views ----------

  /** What a client knows of one of its objects; `dram` is its `dram_mr`, if not NULL. */
  datatype Info = Info(length: nat, dram: Option<Key>)

  /** The clear reply: the client forgets the copies. */
  function ForgetAll(infos: map<Addr, Info>, cold: seq<NvmInfo>): (r: map<Addr, Info>)
    ensures r.Keys == infos.Keys && forall a :: a in infos ==> r[a].length == infos[a].length
    decreases |cold|
  {
    if cold == [] then infos
    else
      var a := cold[0].addr;
      ForgetAll(if a in infos then infos[a := infos[a].(dram := None)] else infos, cold[1..])
  }

  /** The apply reply: the client learns the new copies. */
  function LearnAll(infos: map<Addr, Info>, reply: seq<DramInfo>): (r: map<Addr, Info>)
    ensures r.Keys == infos.Keys && forall a :: a in infos ==> r[a].length == infos[a].length
    decreases |reply|
  {
    if reply == [] then infos
    else
      var a := reply[0].addr;
      LearnAll(if a in infos then infos[a := infos[a].(dram := reply[0].key)] else infos, reply[1..])
  }

  /** The client's objects are live at the server, with the same length. */
  predicate Owns(s: Server, c: nat, infos: map<Addr, Info>) {
    forall a :: a in infos ==> a in s.nvm && s.nvm[a].owner == c && s.nvm[a].length == infos[a].length
  }

  /** The client's idea of where its objects are cached is the server's. */
  predicate Agree(s: Server, infos: map<Addr, Info>) {
    forall a :: a in infos ==> infos[a].dram == KeyOf(Find(s.entries, a))
  }

  predicate Listed(infos: map<Addr, Info>, list: seq<NvmInfo>) {
    && (forall i :: 0 <= i < |list| ==> list[i].addr in infos && list[i].length == infos[list[i].addr].length)
    && (forall i, j :: 0 <= i < j < |list| ==> list[i].addr != list[j].addr)
  }

  /** A clear request lists cached objects, an apply request uncached ones, none twice. */
  predicate ColdOk(s: Server, infos: map<Addr, Info>, cold: seq<NvmInfo>) {
    Listed(infos, cold) && forall i :: 0 <= i < |cold| ==> Find(s.entries, cold[i].addr).Some?
  }

  predicate HotOk(s: Server, infos: map<Addr, Info>, hot: seq<NvmInfo>) {
    Listed(infos, hot) && forall i :: 0 <= i < |hot| ==> Find(s.entries, hot[i].addr).None?
  }

  predicate KeyFresh(entries: seq<DramEntry>, key: Key) {
    forall e :: e in entries ==> e.key != key
  }

  /** Registered regions are fresh, also among themselves, and as long as asked for. */
  predicate AllocsOk(entries: seq<DramEntry>, hot: seq<NvmInfo>, allocs: seq<DramAlloc>) {
    && |allocs| >= |hot|
    && (forall i :: 0 <= i < |hot| && allocs[i].Allocated? ==>
          |allocs[i].fill| == hot[i].length && KeyFresh(entries, allocs[i].key))
    && (forall i, j :: 0 <= i < j < |hot| && allocs[i].Allocated? && allocs[j].Allocated? ==>
          allocs[i].key != allocs[j].key)
  }

  /** Nothing changed for the objects of client d. */
  ghost predicate SameFor(s: Server, t: Server, d: nat) {
    && (forall a :: a in s.nvm && s.nvm[a].owner == d ==>
          a in t.nvm && t.nvm[a] == s.nvm[a] && Find(t.entries, a) == Find(s.entries, a))
    && (forall a :: a in t.nvm && t.nvm[a].owner == d ==> a in s.nvm && s.nvm[a].owner == d)
  }

  ghost predicate SameForOthers(s: Server, t: Server, c: nat) {
    forall d :: d != c ==> SameFor(s, t, d)
  }

  /** The bytes of a live object: those of its copy if it has one. */
  function Content(s: Server, a: Addr): seq<Byte>
    requires a in s.nvm
  {
    match Find(s.entries, a)
    case Some(e) => e.data
    case None => s.nvm[a].data
  }

  // ---------- the handlers ----------

  lemma CreateOk(s: Server, c: nat, info: NvmInfo, key: Key, fill: seq<Byte>, share: nat)
    requires ServerOk(s, share) && Find(s.entries, info.addr).None? && KeyFresh(s.entries, key)
    requires info.addr in s.nvm && s.nvm[info.addr].owner == c && s.nvm[info.addr].length == info.length == |fill|
    requires Used(s.pollUsed, c) + info.length <= share
    ensures var t := Create(s, c, info, key, fill);
            && ServerOk(t, share)
            && (forall b :: Find(t.entries, b) == if b == info.addr then Some(t.entries[0]) else Find(s.entries, b))
            && t.entries[0].key == key && t.entries[0].data == fill
            && SameForOthers(s, t, c)
  {
    var e := DramEntry(info.addr, info.length, key, c, fill);
    var t := Create(s, c, info, key, fill);
    ConsDistinct(e, s.entries);
    assert t.entries[1..] == s.entries;
    forall x | x in t.entries ensures EntryOk(x, t.nvm) {
      assert x == e || x in s.entries;
    }
  }

  lemma DestroyOk(s: Server, a: Addr)
    requires TableOk(s)
    ensures var t := Destroy(s, a).0;
            && TableOk(t)
            && Destroy(s, a).1 == Find(s.entries, a).Some?
            && t.dramUsed == s.dramUsed && t.pollUsed == s.pollUsed && t.normUsed == s.normUsed
            && t.nvm.Keys == s.nvm.Keys
            && (forall b :: b in s.nvm ==> t.nvm[b].owner == s.nvm[b].owner && t.nvm[b].length == s.nvm[b].length)
            && (forall b :: b in s.nvm && b != a ==> t.nvm[b] == s.nvm[b])
            && (forall b :: Find(t.entries, b) == if b == a then None else Find(s.entries, b))
            && (forall b :: b in s.nvm ==> Content(t, b) == Content(s, b))
  {
    RemoveFirstFacts(s.entries, a);
    var t := Destroy(s, a).0;
    if Find(s.entries, a).Some? {
      assert EntryOk(Find(s.entries, a).value, s.nvm);
      forall e | e in t.entries ensures EntryOk(e, t.nvm) {
        assert EntryOk(e, s.nvm);
      }
    }
  }

  /** What the counters see when one copy goes. */
  lemma DestroySums(s: Server, a: Addr, c: nat)
    requires TableOk(s) && Find(s.entries, a).Some? && s.nvm[a].owner == c
    ensures var t, n := Destroy(s, a).0, s.nvm[a].length;
            && SumLen(t.entries) == SumLen(s.entries) - n
            && forall d :: SumOwned(t.entries, d) == SumOwned(s.entries, d) - if d == c then n else 0
  {
    RemoveFirstFacts(s.entries, a);
    assert EntryOk(Find(s.entries, a).value, s.nvm);
  }

  /** What a clear may do: copies go, contents stay. */
  ghost predicate OnlyEvicts(s: Server, t: Server) {
    && t.nvm.Keys == s.nvm.Keys
    && (forall b :: b in s.nvm ==> Content(t, b) == Content(s, b)
                                   && t.nvm[b].owner == s.nvm[b].owner && t.nvm[b].length == s.nvm[b].length)
    && (forall b :: Find(s.entries, b).None? ==> Find(t.entries, b).None?)
  }

  lemma ClearOneOk(s: Server, c: nat, info: NvmInfo, share: nat)
    requires ServerOk(s, share) && Find(s.entries, info.addr).Some?
    requires s.nvm[info.addr].owner == c && s.nvm[info.addr].length == info.length
    ensures var t := ClearOne(s, c, info);
            && ServerOk(t, share)
            && SameForOthers(s, t, c)
            && OnlyEvicts(s, t)
            && (forall b :: Find(t.entries, b) == if b == info.addr then None else Find(s.entries, b))
  {
    DestroyOk(s, info.addr);
    DestroySums(s, info.addr, c);
    hide Destroy;
    var d, t := Destroy(s, info.addr).0, ClearOne(s, c, info);
    assert t.entries == d.entries && t.nvm == d.nvm;
    forall b | b in s.nvm ensures Content(t, b) == Content(s, b) {
      assert Content(d, b) == Content(s, b);
    }
  }

  lemma ColdTail(s: Server, t: Server, infos: map<Addr, Info>, cold: seq<NvmInfo>)
    requires cold != [] && ColdOk(s, infos, cold)
    requires forall b :: b != cold[0].addr ==> Find(t.entries, b) == Find(s.entries, b)
    ensures ColdOk(t, infos[cold[0].addr := infos[cold[0].addr].(dram := None)], cold[1..])
  {
    forall i | 0 <= i < |cold| - 1 ensures cold[1..][i] == cold[i + 1] && cold[0].addr != cold[i + 1].addr {}
  }

  lemma ClearHead(s: Server, c: nat, infos: map<Addr, Info>, cold: seq<NvmInfo>, share: nat)
    requires cold != [] && ServerOk(s, share) && Owns(s, c, infos) && Agree(s, infos) && ColdOk(s, infos, cold)
    ensures var u := ClearOne(s, c, cold[0]);
            var infos1 := infos[cold[0].addr := infos[cold[0].addr].(dram := None)];
            && ServerOk(u, share) && SameForOthers(s, u, c) && OnlyEvicts(s, u)
            && Owns(u, c, infos) && Owns(u, c, infos1) && Agree(u, infos1) && ColdOk(u, infos1, cold[1..])
  {
    hide ServerOk, ClearOne, SameForOthers;
    assert Find(s.entries, cold[0].addr).Some?;
    ClearOneOk(s, c, cold[0], share);
    ColdTail(s, ClearOne(s, c, cold[0]), infos, cold);
  }

  lemma OwnsSameKeys(s: Server, c: nat, infos: map<Addr, Info>, infos1: map<Addr, Info>)
    requires Owns(s, c, infos1) && infos.Keys == infos1.Keys && forall a :: a in infos ==> infos[a].length == infos1[a].length
    ensures Owns(s, c, infos)
  {
  }

  /** The clear handler on a proper request: every counter stays exact, the client that hears
      the reply agrees with the server again, and no object's content changes. */
  lemma {:induction false} ClearOk(s: Server, c: nat, infos: map<Addr, Info>, cold: seq<NvmInfo>, share: nat)
    requires ServerOk(s, share) && Owns(s, c, infos) && Agree(s, infos) && ColdOk(s, infos, cold)
    ensures var t := Clear(s, c, cold);
            && ServerOk(t, share) && Owns(t, c, infos) && Agree(t, ForgetAll(infos, cold))
            && SameForOthers(s, t, c)
            && OnlyEvicts(s, t)
    decreases |cold|
  {
    if cold != [] {
      hide ServerOk, ClearOne, Find, OnlyEvicts, SameForOthers, Agree, Owns;
      var a := cold[0].addr;
      var u := ClearOne(s, c, cold[0]);
      var infos1 := infos[a := infos[a].(dram := None)];
      ClearHead(s, c, infos, cold, share);
      ClearOk(u, c, infos1, cold[1..], share);
      SameForTrans(s, u, Clear(s, c, cold), c);
      OnlyEvictsTrans(s, u, Clear(s, c, cold));
      OwnsSameKeys(Clear(s, c, cold), c, infos, infos1);
    }
  }

  lemma OnlyEvictsTrans(s: Server, t: Server, u: Server)
    requires OnlyEvicts(s, t) && OnlyEvicts(t, u)
    ensures OnlyEvicts(s, u)
  {
    hide Find;
  }

  lemma SameForTrans(s: Server, t: Server, u: Server, c: nat)
    requires SameForOthers(s, t, c) && SameForOthers(t, u, c)
    ensures SameForOthers(s, u, c)
  {
    forall d | d != c ensures SameFor(s, u, d) {
      assert SameFor(s, t, d) && SameFor(t, u, d);
    }
  }

  /** The objects a reply grants a copy. */
  ghost function Granted(reply: seq<DramInfo>): set<Addr> {
    set i | 0 <= i < |reply| && reply[i].key.Some? :: reply[i].addr
  }

  lemma GrantedCons(r: DramInfo, rest: seq<DramInfo>)
    ensures Granted([r] + rest) == Granted(rest) + if r.key.Some? then {r.addr} else {}
  {
    var all := [r] + rest;
    forall a | a in Granted(rest) ensures a in Granted(all) {
      var i :| 0 <= i < |rest| && rest[i].key.Some? && rest[i].addr == a;
      assert all[i + 1] == rest[i];
    }
    assert all[0] == r;
    assert forall i :: 1 <= i < |all| ==> all[i] == rest[i - 1];
  }

  /** The state after granting the first request of a list. */
  lemma ApplyHead(s: Server, c: nat, infos: map<Addr, Info>, hot: seq<NvmInfo>, allocs: seq<DramAlloc>, share: nat)
    requires ServerOk(s, share) && Owns(s, c, infos) && Agree(s, infos)
    requires HotOk(s, infos, hot) && AllocsOk(s.entries, hot, allocs)
    requires hot != [] && allocs[0].Allocated? && Used(s.pollUsed, c) + hot[0].length <= share
    ensures var u := Create(s, c, hot[0], allocs[0].key, allocs[0].fill);
            var infos1 := infos[hot[0].addr := infos[hot[0].addr].(dram := Some(allocs[0].key))];
            && ServerOk(u, share) && SameForOthers(s, u, c) && u.nvm == s.nvm
            && Owns(u, c, infos1) && Agree(u, infos1)
            && HotOk(u, infos1, hot[1..]) && AllocsOk(u.entries, hot[1..], allocs[1..])
            && (forall b :: b != hot[0].addr ==> Find(u.entries, b) == Find(s.entries, b))
            && Content(u, hot[0].addr) == allocs[0].fill
  {
    hide ServerOk, SameForOthers, Find;
    var u := Create(s, c, hot[0], allocs[0].key, allocs[0].fill);
    CreateOk(s, c, hot[0], allocs[0].key, allocs[0].fill, share);
    AllocsTail(s, u.entries[0], hot, allocs);
    hide AllocsOk;
    assert forall i :: 0 <= i < |hot| - 1 ==> hot[1..][i] == hot[i + 1];
  }

  /** The apply handler on a proper request: budget and counters are kept, the client that
      hears the reply agrees with the server again, and only granted objects change. */
  lemma {:induction false} ApplyOk(s: Server, c: nat, infos: map<Addr, Info>, hot: seq<NvmInfo>,
                                   allocs: seq<DramAlloc>, share: nat)
    requires ServerOk(s, share) && Owns(s, c, infos) && Agree(s, infos)
    requires HotOk(s, infos, hot) && AllocsOk(s.entries, hot, allocs)
    ensures var (t, reply) := Apply(s, c, hot, allocs, share);
            && ServerOk(t, share) && t.nvm == s.nvm && Agree(t, LearnAll(infos, reply))
            && SameForOthers(s, t, c)
            && (forall b :: b !in Granted(reply) ==> Find(t.entries, b) == Find(s.entries, b))
    decreases |hot|
  {
    hide ServerOk, SameForOthers, Find, Granted;
    var (t, reply) := Apply(s, c, hot, allocs, share);
    if hot == [] || Used(s.pollUsed, c) + hot[0].length > share {
      SameForRefl(s, c);
    } else {
      var a := hot[0].addr;
      match allocs[0]
      case AllocFails =>
        HotTail(s, infos, hot, allocs);
        var (t1, rest) := Apply(s, c, hot[1..], allocs[1..], share);
        ApplyOk(s, c, infos, hot[1..], allocs[1..], share);
        assert infos[a := infos[a].(dram := None)] == infos;
        assert reply[1..] == rest;
        GrantedCons(reply[0], rest);
      case Allocated(key, fill) =>
        ApplyHead(s, c, infos, hot, allocs, share);
        hide HotOk, AllocsOk, Owns, Agree, Create;
        var u := Create(s, c, hot[0], key, fill);
        var infos1 := infos[a := infos[a].(dram := Some(key))];
        var (t1, rest) := Apply(u, c, hot[1..], allocs[1..], share);
        ApplyOk(u, c, infos1, hot[1..], allocs[1..], share);
        assert reply[1..] == rest;
        GrantedCons(reply[0], rest);
        SameForTrans(s, u, t, c);
    }
  }

  /** The reply answers a prefix of the request, in order, with the regions as they were allocated,
      and stops only at the end or at the first object that no longer fits the client's share. */
  lemma {:induction false} ApplyAnswersPrefix(s: Server, c: nat, hot: seq<NvmInfo>, allocs: seq<DramAlloc>, share: nat)
    requires |allocs| >= |hot|
    ensures var (t, reply) := Apply(s, c, hot, allocs, share);
            && |reply| <= |hot|
            && (forall i :: 0 <= i < |reply| ==>
                  reply[i] == DramInfo(hot[i].addr, if allocs[i].Allocated? then Some(allocs[i].key) else None))
            && (|reply| < |hot| ==> Used(t.pollUsed, c) + hot[|reply|].length > share)
            && (|reply| > 0 ==> Used(t.pollUsed, c) <= share)
    decreases |hot|
  {
    if hot != [] && Used(s.pollUsed, c) + hot[0].length <= share {
      var u := if allocs[0].AllocFails? then s else Create(s, c, hot[0], allocs[0].key, allocs[0].fill);
      ApplyAnswersPrefix(u, c, hot[1..], allocs[1..], share);
    }
  }

  lemma SameForRefl(s: Server, c: nat)
    ensures SameForOthers(s, s, c)
  {
  }

  lemma HotTail(s: Server, infos: map<Addr, Info>, hot: seq<NvmInfo>, allocs: seq<DramAlloc>)
    requires Agree(s, infos) && HotOk(s, infos, hot) && AllocsOk(s.entries, hot, allocs) && hot != []
    ensures HotOk(s, infos, hot[1..]) && AllocsOk(s.entries, hot[1..], allocs[1..])
    ensures infos[hot[0].addr].dram == None
  {
    hide KeyFresh;
    assert Find(s.entries, hot[0].addr).None?;
    hide Find;
    assert forall i :: 0 <= i < |hot| - 1 ==> hot[1..][i] == hot[i + 1] && allocs[1..][i] == allocs[i + 1];
  }

  lemma AllocsTail(s: Server, e: DramEntry, hot: seq<NvmInfo>, allocs: seq<DramAlloc>)
    requires hot != [] && AllocsOk(s.entries, hot, allocs) && allocs[0].Allocated? && e.key == allocs[0].key
    ensures AllocsOk([e] + s.entries, hot[1..], allocs[1..])
  {
    var h, l := hot[1..], allocs[1..];
    forall i | 0 <= i < |h| && l[i].Allocated?
      ensures |l[i].fill| == h[i].length && KeyFresh([e] + s.entries, l[i].key)
    {
      assert l[i] == allocs[i + 1] && h[i] == hot[i + 1];
    }
  }

  /** The free handler on an object the client holds. */
  lemma FreeOk(s: Server, c: nat, info: NvmInfo, share: nat)
    requires ServerOk(s, share)
    requires info.addr in s.nvm && s.nvm[info.addr].owner == c && s.nvm[info.addr].length == info.length
    ensures var t := Free(s, c, info);
            && ServerOk(t, share)
            && SameForOthers(s, t, c)
            && t.nvm.Keys == s.nvm.Keys - {info.addr}
            && Find(t.entries, info.addr) == None
            && (forall b :: b in t.nvm ==> t.nvm[b] == s.nvm[b] && Find(t.entries, b) == Find(s.entries, b))
  {
    FreeTableOk(s, c, info);
    FreeCounters(s, c, info, share);
    DestroyOk(s, info.addr);
    hide ServerOk, CountersOk, TableOk, Find, RemoveFirst;
  }

  lemma FreeCounters(s: Server, c: nat, info: NvmInfo, share: nat)
    requires ServerOk(s, share)
    requires info.addr in s.nvm && s.nvm[info.addr].owner == c && s.nvm[info.addr].length == info.length
    ensures CountersOk(Free(s, c, info), share)
  {
    DestroyOk(s, info.addr);
    if Find(s.entries, info.addr).Some? {
      DestroySums(s, info.addr, c);
    }
    hide Find, RemoveFirst, TableOk;
  }

  lemma FreeTableOk(s: Server, c: nat, info: NvmInfo)
    requires TableOk(s)
    ensures TableOk(Free(s, c, info))
  {
    DestroyOk(s, info.addr);
    var d, t := Destroy(s, info.addr).0, Free(s, c, info);
    forall e | e in t.entries ensures EntryOk(e, t.nvm) {
      assert EntryOk(e, d.nvm);
      FindIs(t.entries, e);
    }
  }
}
