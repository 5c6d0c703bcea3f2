/**
 The server's NVM allocator over all areas and all client connections, as a state
 machine: what malloc and free requests do, and what every interleaving of them keeps.
 */
module NvmPool {
  import opened Wrappers
  import opened Totals
  import opened BuddyBlocks
  import opened BuddyLists
  import opened BuddyArea

  type AreaLists = l: Lists | |l| == MAX_ORDER witness [[], [], [], [], []]

  datatype AreaState = AreaState(mr: MemRegion, free: AreaLists)

  /** `cur` is the lkey of the current area.  `grants` maps every region a client holds to
      the connection it was requested on; `used` is the counter of each connection. */
  datatype Pool = Pool(areas: seq<AreaState>, more: seq<MemRegion>, cur: nat,
                       grants: map<MemRegion, nat>, used: map<nat, int>)

  /** Outcome of allocating and registering a fresh piece of memory. */
  datatype Reg = RegFails | Registered(addr: nat, lkey: nat)

  // ---------- size classes ----------

  /** Smallest order whose block holds `size` bytes, or MAX_ORDER. */
  function OrderFor(size: nat, from: nat := 0): (i: nat)
    requires from <= MAX_ORDER
    ensures from <= i <= MAX_ORDER
    ensures forall j :: from <= j < i ==> BUDDY_SIZE[j] < size
    ensures i < MAX_ORDER ==> size <= BUDDY_SIZE[i]
    decreases MAX_ORDER - from
  {
    if from == MAX_ORDER || size <= BUDDY_SIZE[from] then from else OrderFor(size, from + 1)
  }

  /** The order whose blocks have exactly this length, or MAX_ORDER. */
  function OrderOf(length: nat, from: nat := 0): (i: nat)
    requires from <= MAX_ORDER
    ensures from <= i <= MAX_ORDER
    ensures i < MAX_ORDER ==> length == BUDDY_SIZE[i]
    ensures i == MAX_ORDER ==> forall j :: from <= j < MAX_ORDER ==> BUDDY_SIZE[j] != length
    decreases MAX_ORDER - from
  {
    if from == MAX_ORDER || length == BUDDY_SIZE[from] then from else OrderOf(length, from + 1)
  }

  datatype Path = OneBlock | OneArea | MoreArea

  /** The three-way comparison made on the request size by malloc and on the length by free. */
  function PathOf(size: nat): Path {
    if size <= BUDDY_SIZE[MAX_ORDER - 1] then OneBlock
    else if size <= SINGLE_AREA_SIZE then OneArea else MoreArea
  }

  // ---------- operations ----------

  function FindArea(areas: seq<AreaState>, lkey: nat): (k: nat)
    ensures k <= |areas|
    ensures k < |areas| ==> areas[k].mr.lkey == lkey
    ensures forall j :: 0 <= j < k ==> areas[j].mr.lkey != lkey
  {
    if areas == [] || areas[0].mr.lkey == lkey then 0 else 1 + FindArea(areas[1..], lkey)
  }

  function FindMore(more: seq<MemRegion>, lkey: nat): (k: nat)
    ensures k <= |more|
    ensures k < |more| ==> more[k].lkey == lkey
    ensures forall j :: 0 <= j < k ==> more[j].lkey != lkey
  {
    if more == [] || more[0].lkey == lkey then 0 else 1 + FindMore(more[1..], lkey)
  }

  function FirstAble(areas: seq<AreaState>, index: nat): (k: nat)
    ensures k <= |areas|
    ensures k < |areas| ==> MaxIndex(areas[k].free) >= index
    ensures forall j :: 0 <= j < k ==> MaxIndex(areas[j].free) < index
  {
    if areas == [] || MaxIndex(areas[0].free) >= index then 0 else 1 + FirstAble(areas[1..], index)
  }

  /** The current area if it can serve, else the first that can, else |areas|. */
  function ChooseArea(p: Pool, index: nat): (k: nat)
    ensures k <= |p.areas|
    ensures k < |p.areas| ==> MaxIndex(p.areas[k].free) >= index
    ensures var c := FindArea(p.areas, p.cur);
            c < |p.areas| && MaxIndex(p.areas[c].free) >= index ==> k == c
    ensures (k < |p.areas| && p.areas[k].mr.lkey == p.cur) || forall j :: 0 <= j < k ==> MaxIndex(p.areas[j].free) < index
  {
    var c := FindArea(p.areas, p.cur);
    if c < |p.areas| && MaxIndex(p.areas[c].free) >= index then c else FirstAble(p.areas, index)
  }

  function AddBuddyArea(p: Pool, mr: MemRegion): Pool {
    p.(areas := [AreaState(mr, InitialLists(MAX_ORDER))] + p.areas)
  }

  /** Area k becomes current and hands out one block of this order. */
  function TakeBlock(p: Pool, k: nat, index: nat): (Pool, Option<MemRegion>)
    requires k < |p.areas| && index < MAX_ORDER
  {
    var mr := p.areas[k].mr;
    match Alloc(p.areas[k].free, index)
    case NoBlock => (p.(cur := mr.lkey), None)
    case Taken(free, off) =>
      (p.(cur := mr.lkey, areas := p.areas[k := AreaState(mr, free)]),
       Some(MemRegion(AddrOf(mr, off), BUDDY_SIZE[index], mr.lkey)))
  }

  function MallocOneBlock(p: Pool, size: nat, reg: Reg): (r: (Pool, Option<MemRegion>))
    requires PathOf(size).OneBlock?
    ensures r.0.used == p.used && r.0.grants == p.grants
  {
    var index := OrderFor(size);
    assert size <= BUDDY_SIZE[4];
    var k := ChooseArea(p, index);
    if k < |p.areas| then TakeBlock(p, k, index)
    else if reg.RegFails? then (p, None)
    else TakeBlock(AddBuddyArea(p, MemRegion(reg.addr, SINGLE_AREA_SIZE, reg.lkey)), 0, index)
  }

  function MallocMoreArea(p: Pool, length: nat, reg: Reg): (r: (Pool, Option<MemRegion>))
    ensures r.0.used == p.used && r.0.grants == p.grants
  {
    match reg
    case RegFails => (p, None)
    case Registered(addr, lkey) =>
      var mr := MemRegion(addr, length, lkey);
      (p.(more := [mr] + p.more), Some(mr))
  }

  function Counter(used: map<nat, int>, t: nat): int { if t in used then used[t] else 0 }

  /** The region now belongs to connection t. */
  function Charge(p: Pool, t: nat, r: MemRegion): Pool {
    p.(grants := p.grants[r := t], used := p.used[t := Counter(p.used, t) + r.length])
  }

  function Discharge(p: Pool, t: nat, r: MemRegion): Pool {
    p.(grants := p.grants - {r}, used := p.used[t := Counter(p.used, t) - r.length])
  }

  function Malloc(p: Pool, t: nat, size: nat, reg: Reg): (Pool, Option<MemRegion>)
  {
    var (q, res) :=
      match PathOf(size)
      case OneBlock => MallocOneBlock(p, size, reg)
      case OneArea => MallocMoreArea(p, SINGLE_AREA_SIZE, reg)
      case MoreArea => MallocMoreArea(p, size, reg);
    match res
    case None => (q, None)
    case Some(r) => (Charge(q, t, r), res)
  }

  function BlockOf(mr: MemRegion, r: MemRegion): Block
    requires IsBlockRegion(mr, r)
  {
    Block((r.addr - mr.addr) / UNIT, OrderOf(r.length))
  }

  /** `r` looks like a block of the area registered as `mr`. */
  predicate IsBlockRegion(mr: MemRegion, r: MemRegion) {
    && r.lkey == mr.lkey
    && r.addr >= mr.addr && (r.addr - mr.addr) % UNIT == 0
    && OrderOf(r.length) < MAX_ORDER
  }

  function RegionOf(mr: MemRegion, b: Block): MemRegion
    requires b.order < MAX_ORDER
  {
    MemRegion(AddrOf(mr, b.off), BUDDY_SIZE[b.order], mr.lkey)
  }

  /** The blocks of one area that clients hold. */
  ghost function OutBlocks(mr: MemRegion, grants: map<MemRegion, nat>): set<Block> {
    set r | r in grants && IsBlockRegion(mr, r) :: BlockOf(mr, r)
  }

  /** The source indexes its tables unchecked here: for a region that is no block of the area
      it found its behaviour is undefined, and the model leaves the pool alone. */
  function FreeOneBlock(p: Pool, r: MemRegion): (q: Pool)
    ensures q.grants == p.grants && q.used == p.used && q.more == p.more
  {
    var k := FindArea(p.areas, r.lkey);
    if k == |p.areas| || !IsBlockRegion(p.areas[k].mr, r) then p
    else
      var b := BlockOf(p.areas[k].mr, r);
      if !Aligned(b.off, b.order) then p
      else p.(areas := p.areas[k := p.areas[k].(free := Free(p.areas[k].free, b.off, b.order))])
  }

  function Without(more: seq<MemRegion>, k: nat): (r: seq<MemRegion>)
    requires k < |more|
    ensures |r| == |more| - 1
    ensures forall j :: 0 <= j < |r| ==> r[j] == more[if j < k then j else j + 1]
  {
    more[..k] + more[k + 1..]
  }

  /** The region leaves `more_area_list`; as one buddy area it may be kept for reuse. */
  function FreeOneArea(p: Pool, r: MemRegion, rebuilt: bool): (q: Pool)
    ensures q.grants == p.grants && q.used == p.used
  {
    var k := FindMore(p.more, r.lkey);
    if k == |p.more| then p
    else
      var q := p.(more := Without(p.more, k));
      if rebuilt then AddBuddyArea(q, p.more[k]) else q
  }

  function FreeMoreArea(p: Pool, r: MemRegion): Pool {
    FreeOneArea(p, r, false)
  }

  function FreeRegion(p: Pool, t: nat, r: MemRegion, rebuilt: bool): Pool
  {
    var q :=
      match PathOf(r.length)
      case OneBlock => FreeOneBlock(p, r)
      case OneArea => FreeOneArea(p, r, rebuilt)
      case MoreArea => FreeMoreArea(p, r);
    Discharge(q, t, r)
  }

  // ---------- the invariant ----------

  predicate Apart(a: MemRegion, b: MemRegion) {
    a.addr + a.length <= b.addr || b.addr + b.length <= a.addr
  }

  predicate Separate(a: MemRegion, b: MemRegion) {
    a.lkey != b.lkey && Apart(a, b)
  }

  /** Live registrations have distinct keys and disjoint memory. */
  predicate Laid(areas: seq<AreaState>, more: seq<MemRegion>) {
    && (forall i, j :: 0 <= i < j < |areas| ==> Separate(areas[i].mr, areas[j].mr))
    && (forall i, j :: 0 <= i < j < |more| ==> Separate(more[i], more[j]))
    && (forall i, j :: 0 <= i < |areas| && 0 <= j < |more| ==> Separate(areas[i].mr, more[j]))
  }

  ghost predicate AreaOk(a: AreaState, grants: map<MemRegion, nat>) {
    && a.mr.length == SINGLE_AREA_SIZE
    && BuddyLists.Inv(a.free, OutBlocks(a.mr, grants))
  }

  ghost predicate InSomeArea(areas: seq<AreaState>, r: MemRegion) {
    exists k :: 0 <= k < |areas| && IsBlockRegion(areas[k].mr, r)
  }

  ghost predicate Structure(p: Pool) {
    && Laid(p.areas, p.more)
    && (forall k :: 0 <= k < |p.areas| ==> AreaOk(p.areas[k], p.grants))
    && (forall k :: 0 <= k < |p.more| ==> p.more[k] in p.grants && p.more[k].length >= SINGLE_AREA_SIZE)
    && (forall r :: r in p.grants ==> r in p.more || InSomeArea(p.areas, r))
    && (exists k :: 0 <= k < |p.areas| && p.areas[k].mr.lkey == p.cur)
  }

  ghost function Held(grants: map<MemRegion, nat>, t: nat): map<MemRegion, int> {
    map r | r in grants && grants[r] == t :: r.length
  }

  ghost predicate Accounts(p: Pool) {
    forall t :: Counter(p.used, t) == Total(Held(p.grants, t))
  }

  ghost predicate PoolInv(p: Pool) {
    Structure(p) && Accounts(p)
  }
}
