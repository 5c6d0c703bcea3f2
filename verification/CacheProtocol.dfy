/**
 Clients and one server exchanging allocation and cache messages over two FIFO
 connections each, as a step system.  A client's work thread runs one work item at a
 time; the server handles one message at a time; clients interleave freely.
 */
module CacheProtocol {
  import opened Wrappers
  import opened DramCache

  // ---------- state ----------

  datatype Phase = Idle | WaitMalloc | WaitFree(info: NvmInfo) | WaitPoll

  datatype NormalReq = MallocReq(length: nat) | FreeReq(info: NvmInfo)
  datatype NormalResp = MallocResp(info: NvmInfo) | MallocError | FreeResp
  datatype PollReq = ClearReq(cold: seq<NvmInfo>) | ApplyReq(hot: seq<NvmInfo>)
  datatype PollResp = ClearResp(cold: seq<NvmInfo>) | ApplyResp(granted: seq<DramInfo>)

  /** A posted RDMA write that has not completed: where it goes and what it carries. */
  datatype Write = Write(target: Option<Key>, data: seq<Byte>)

  /** `since` records, byte by byte, what the client wrote to each object since that object
      was allocated or last given a DRAM copy. */
  datatype Client = Client(infos: map<Addr, Info>, phase: Phase, pollNum: int,
                           up: seq<NormalReq>, down: seq<NormalResp>,
                           pollUp: seq<PollReq>, pollDown: seq<PollResp>,
                           inFlight: map<Addr, Write>, since: map<Addr, map<nat, Byte>>)

  datatype State = State(server: Server, clients: map<nat, Client>, connections: nat)

  function Overlay(old_: seq<Byte>, data: seq<Byte>): seq<Byte> {
    if |data| <= |old_| then data + old_[|data|..] else data
  }

  // ---------- one-sided access ----------

  function FindKey(entries: seq<DramEntry>, key: Key): (r: Option<DramEntry>)
    ensures r.Some? ==> r.value in entries && r.value.key == key
    ensures r.None? ==> KeyFresh(entries, key)
  {
    if entries == [] then None
    else if entries[0].key == key then Some(entries[0])
    else FindKey(entries[1..], key)
  }

  function WriteKey(entries: seq<DramEntry>, key: Key, data: seq<Byte>): seq<DramEntry> {
    if entries == [] then []
    else if entries[0].key == key then [entries[0].(data := Overlay(entries[0].data, data))] + entries[1..]
    else [entries[0]] + WriteKey(entries[1..], key, data)
  }

  /** An RDMA write lands in the DRAM region it was posted for, or in the NVM object. */
  function Land(s: Server, a: Addr, w: Write): Server {
    match w.target
    case Some(key) => s.(entries := WriteKey(s.entries, key, w.data))
    case None => if a in s.nvm then s.(nvm := s.nvm[a := s.nvm[a].(data := Overlay(s.nvm[a].data, w.data))]) else s
  }

  /** What an RDMA read of an object returns, given where the client believes it is. */
  function RemoteRead(s: Server, a: Addr, dram: Option<Key>): Option<seq<Byte>> {
    match dram
    case Some(key) =>
      (match FindKey(s.entries, key)
       case Some(e) => Some(e.data)
       case None => None)
    case None => if a in s.nvm then Some(s.nvm[a].data) else None
  }

  // ---------- steps ----------

  datatype Event =
    | StartMalloc(c: nat, length: nat)
    | ServeMalloc(c: nat, res: Option<NvmInfo>, fill: seq<Byte>)
    | FinishMalloc(c: nat)
    | StartFree(c: nat, a: Addr)
    | ServeFree(c: nat)
    | FinishFree(c: nat)
    | StartPoll(c: nat, cold: seq<NvmInfo>, hot: seq<NvmInfo>)
    | ServePoll(c: nat, allocs: seq<DramAlloc>)
    | ReceivePoll(c: nat)
    | StartWrite(c: nat, a: Addr, data: seq<Byte>)
    | CompleteWrite(c: nat, a: Addr)

  /** Lists a poll round may send: cold objects it believes cached, hot ones it believes not,
      no object twice. */
  predicate LegalSelection(infos: map<Addr, Info>, cold: seq<NvmInfo>, hot: seq<NvmInfo>) {
    && Listed(infos, cold) && Listed(infos, hot)
    && (forall i :: 0 <= i < |cold| ==> infos[cold[i].addr].dram.Some?)
    && (forall i :: 0 <= i < |hot| ==> infos[hot[i].addr].dram.None?)
  }

  ghost predicate Enabled(s: State, e: Event) {
    e.c in s.clients &&
    var cl := s.clients[e.c];
    match e
    case StartMalloc(c, length) => cl.phase.Idle?
    case ServeMalloc(c, res, fill) =>
      && cl.up != [] && cl.up[0].MallocReq?
      && (res.Some? ==> res.value.addr !in s.server.nvm && |fill| == res.value.length)
    case FinishMalloc(c) => cl.phase.WaitMalloc? && cl.down != []
    case StartFree(c, a) => cl.phase.Idle? && a in cl.infos && a !in cl.inFlight
    case ServeFree(c) => cl.up != [] && cl.up[0].FreeReq?
    case FinishFree(c) => cl.phase.WaitFree? && cl.down != []
    case StartPoll(c, cold, hot) => cl.phase.Idle? && cl.inFlight == map[] && LegalSelection(cl.infos, cold, hot)
    case ServePoll(c, allocs) =>
      && cl.pollUp != []
      && (cl.pollUp[0].ApplyReq? ==> AllocsOk(s.server.entries, cl.pollUp[0].hot, allocs))
    case ReceivePoll(c) => cl.phase.WaitPoll? && cl.pollDown != []
    case StartWrite(c, a, data) =>
      cl.phase.Idle? && a in cl.infos && a !in cl.inFlight && |data| <= cl.infos[a].length
    case CompleteWrite(c, a) => a in cl.inFlight
  }

  function Record(m: map<nat, Byte>, data: seq<Byte>): map<nat, Byte> {
    m + map p: nat | p < |data| :: data[p]
  }

  function PollRequests(cold: seq<NvmInfo>, hot: seq<NvmInfo>): seq<PollReq> {
    (if cold == [] then [] else [ClearReq(cold)]) + (if hot == [] then [] else [ApplyReq(hot)])
  }

  /** The client's side of a poll reply. */
  function Hear(infos: map<Addr, Info>, r: PollResp): (t: map<Addr, Info>)
    ensures t.Keys == infos.Keys && forall a :: a in infos ==> t[a].length == infos[a].length
  {
    match r
    case ClearResp(cold) => ForgetAll(infos, cold)
    case ApplyResp(granted) => LearnAll(infos, granted)
  }

  /** Granting a copy starts a new record: the old bytes are not copied into it. */
  function Restart(since: map<Addr, map<nat, Byte>>, granted: set<Addr>): map<Addr, map<nat, Byte>> {
    map a | a in since :: if a in granted then map[] else since[a]
  }

  /** The client once its request to free object a is on its way. */
  ghost function Freeing(cl: Client, a: Addr): Client
    requires a in cl.infos
  {
    var info := NvmInfo(a, cl.infos[a].length);
    cl.(phase := WaitFree(info), infos := cl.infos - {a}, up := cl.up + [FreeReq(info)])
  }

  /** The client once the server has dealt with its first poll request. */
  ghost function Answered(cl: Client, r: PollResp): Client
    requires cl.pollUp != []
  {
    cl.(pollUp := cl.pollUp[1..], pollDown := cl.pollDown + [r],
        since := if r.ApplyResp? then Restart(cl.since, Granted(r.granted)) else cl.since)
  }

  /** What the step does to its client and to the server. */
  ghost function Effect(s: State, e: Event): (Server, Client)
    requires Enabled(s, e) && s.connections > 0
  {
    var sv, cl := s.server, s.clients[e.c];
    match e
    case StartMalloc(c, length) => (sv, cl.(phase := WaitMalloc, up := cl.up + [MallocReq(length)]))
    case ServeMalloc(c, res, fill) =>
      (match res
       case None => (sv, cl.(up := cl.up[1..], down := cl.down + [MallocError]))
       case Some(info) =>
         (sv.(nvm := sv.nvm[info.addr := NvmObj(c, info.length, fill)]),
          cl.(up := cl.up[1..], down := cl.down + [MallocResp(info)])))
    case FinishMalloc(c) =>
      var cl1 := cl.(phase := Idle, down := cl.down[1..]);
      (match cl.down[0]
       case MallocResp(info) =>
         (sv, cl1.(infos := cl.infos[info.addr := Info(info.length, None)], since := cl.since[info.addr := map[]]))
       case _ => (sv, cl1))
    case StartFree(c, a) => (sv, Freeing(cl, a))
    case ServeFree(c) =>
      (Free(sv, c, cl.up[0].info), cl.(up := cl.up[1..], down := cl.down + [FreeResp]))
    case FinishFree(c) => (sv, cl.(phase := Idle, down := cl.down[1..]))
    case StartPoll(c, cold, hot) =>
      var reqs := PollRequests(cold, hot);
      (sv, cl.(phase := if reqs == [] then Idle else WaitPoll, pollNum := |reqs|, pollUp := cl.pollUp + reqs))
    case ServePoll(c, allocs) =>
      (match cl.pollUp[0]
       case ClearReq(cold) =>
         (Clear(sv, c, cold), Answered(cl, ClearResp(cold)))
       case ApplyReq(hot) =>
         var (t, reply) := Apply(sv, c, hot, allocs, Share(s.connections));
         (t, Answered(cl, ApplyResp(reply))))
    case ReceivePoll(c) =>
      (sv, cl.(phase := if cl.pollNum == 1 then Idle else WaitPoll, pollNum := cl.pollNum - 1,
               infos := Hear(cl.infos, cl.pollDown[0]), pollDown := cl.pollDown[1..]))
    case StartWrite(c, a, data) =>
      (sv, cl.(inFlight := cl.inFlight[a := Write(cl.infos[a].dram, data)],
               since := if a in cl.since then cl.since[a := Record(cl.since[a], data)] else cl.since))
    case CompleteWrite(c, a) =>
      (Land(sv, a, cl.inFlight[a]), cl.(inFlight := cl.inFlight - {a}))
  }

  ghost function Step(s: State, e: Event): State
    requires Enabled(s, e) && s.connections > 0
  {
    var (sv, cl) := Effect(s, e);
    s.(server := sv, clients := s.clients[e.c := cl])
  }

  // ---------- invariant ----------

  /** The client's view once every reply on its way has been heard. */
  function Drain(infos: map<Addr, Info>, down: seq<PollResp>): (t: map<Addr, Info>)
    ensures t.Keys == infos.Keys && forall a :: a in infos ==> t[a].length == infos[a].length
    decreases |down|
  {
    if down == [] then infos else Drain(Hear(infos, down[0]), down[1..])
  }

  /** Every poll request still on its way will be proper when the server gets to it. */
  ghost predicate PendingOk(sv: Server, infos: map<Addr, Info>, pending: seq<PollReq>) {
    || pending == []
    || (|pending| == 1 && pending[0].ApplyReq? && HotOk(sv, infos, pending[0].hot))
    || (|pending| == 1 && pending[0].ClearReq? && ColdOk(sv, infos, pending[0].cold))
    || (|pending| == 2 && pending[0].ClearReq? && ColdOk(sv, infos, pending[0].cold)
        && pending[1].ApplyReq? && HotOk(sv, infos, pending[1].hot))
  }

  /** The content of an object once the client's own write to it has landed. */
  function Effective(sv: Server, cl: Client, a: Addr): seq<Byte>
    requires a in sv.nvm
  {
    if a in cl.inFlight then Overlay(Content(sv, a), cl.inFlight[a].data) else Content(sv, a)
  }

  predicate Remembers(bytes: seq<Byte>, m: map<nat, Byte>) {
    forall p: nat :: p in m ==> p < |bytes| && bytes[p] == m[p]
  }

  /** The NVM objects of client c are those it knows, plus the one a malloc reply or a free
      request on its way is about. */
  ghost predicate Inventory(sv: Server, c: nat, cl: Client) {
    forall a :: a in sv.nvm && sv.nvm[a].owner == c ==>
      || a in cl.infos
      || (cl.phase.WaitMalloc? && |cl.down| == 1 && cl.down[0].MallocResp? && cl.down[0].info.addr == a)
      || (cl.phase.WaitFree? && |cl.up| == 1 && cl.phase.info.addr == a)
  }

  ghost predicate Quiet(cl: Client) {
    cl.up == [] && cl.down == [] && cl.pollUp == [] && cl.pollDown == [] && cl.pollNum == 0
  }

  ghost predicate PhaseOk(sv: Server, c: nat, cl: Client) {
    match cl.phase
    case Idle => Quiet(cl)
    case WaitMalloc =>
      && Quiet(cl.(up := [], down := []))
      && ((cl.down == [] && |cl.up| == 1 && cl.up[0].MallocReq?)
          || (cl.up == [] && |cl.down| == 1 && !cl.down[0].FreeResp?
              && (cl.down[0].MallocResp? ==> NewObject(sv, c, cl, cl.down[0].info))))
    case WaitFree(info) =>
      && Quiet(cl.(up := [], down := []))
      && info.addr !in cl.infos && info.addr !in cl.inFlight
      && ((cl.down == [] && cl.up == [FreeReq(info)] && info.addr in sv.nvm
           && sv.nvm[info.addr].owner == c && sv.nvm[info.addr].length == info.length)
          || (cl.up == [] && cl.down == [FreeResp]))
    case WaitPoll =>
      && cl.up == [] && cl.down == [] && cl.inFlight == map[]
      && cl.pollNum == |cl.pollUp| + |cl.pollDown| > 0
  }

  /** A freshly allocated object the client has not heard of yet. */
  ghost predicate NewObject(sv: Server, c: nat, cl: Client, info: NvmInfo) {
    && info.addr in sv.nvm && sv.nvm[info.addr].owner == c && sv.nvm[info.addr].length == info.length
    && Find(sv.entries, info.addr).None?
    && info.addr !in cl.infos && info.addr !in cl.inFlight
  }

  ghost predicate ContentOk(sv: Server, cl: Client) {
    && (forall a :: a in cl.infos ==> a in sv.nvm)
    && cl.inFlight.Keys <= cl.infos.Keys <= cl.since.Keys
    && (forall a :: a in cl.inFlight ==>
          cl.inFlight[a].target == cl.infos[a].dram && |cl.inFlight[a].data| <= cl.infos[a].length)
    && (forall a :: a in cl.infos ==> Remembers(Effective(sv, cl, a), cl.since[a]))
  }

  ghost predicate ClientOk(sv: Server, c: nat, cl: Client) {
    && Owns(sv, c, cl.infos)
    && Agree(sv, Drain(cl.infos, cl.pollDown))
    && PendingOk(sv, Drain(cl.infos, cl.pollDown), cl.pollUp)
    && Inventory(sv, c, cl)
    && PhaseOk(sv, c, cl)
    && ContentOk(sv, cl)
  }

  ghost predicate Inv(s: State) {
    && s.connections > 0
    && ServerOk(s.server, Share(s.connections))
    && (forall c :: c in s.clients ==> ClientOk(s.server, c, s.clients[c]))
    && (forall a :: a in s.server.nvm ==> s.server.nvm[a].owner in s.clients)
  }
}
