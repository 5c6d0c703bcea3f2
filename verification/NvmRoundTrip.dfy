/** Freeing the region a request was just granted puts the pool back. */
module NvmRoundTrip {
  import opened BuddyBlocks
  import opened BuddyLists
  import opened BuddyArea
  import opened NvmPool
  import opened NvmSafety

  // ---------- areas ----------

  /** Two areas on the same registration with the same free bytes, however cut into blocks. */
  ghost predicate SameBytes(a: AreaState, b: AreaState) {
    a.mr == b.mr && forall x: nat :: Covered(FreeBlocks(a.free), x) <==> Covered(FreeBlocks(b.free), x)
  }

  /** What clients hold of an area determines its free bytes. */
  lemma GrantsDetermineBytes(p: Pool, q: Pool, k: nat, j: nat)
    requires Structure(p) && Structure(q) && p.grants == q.grants
    requires k < |p.areas| && j < |q.areas| && p.areas[k].mr == q.areas[j].mr
    ensures SameBytes(p.areas[k], q.areas[j])
  {
    var a, b, out := p.areas[k], q.areas[j], OutBlocks(p.areas[k].mr, p.grants);
    assert AreaOk(a, p.grants) && AreaOk(b, q.grants);
    hide OutBlocks;
    forall x: nat ensures Covered(FreeBlocks(a.free), x) <==> Covered(FreeBlocks(b.free), x) {
      BuddyRuns.FreeBytes(a.free, out, x);
      BuddyRuns.FreeBytes(b.free, out, x);
    }
  }

  /** The areas of q are those of p, on the same registrations, behind d new ones. */
  predicate Behind(p: Pool, q: Pool, d: nat) {
    |q.areas| == |p.areas| + d && forall k :: 0 <= k < |p.areas| ==> q.areas[d + k].mr == p.areas[k].mr
  }

  // ---------- how many areas a request and its free add ----------

  /** The request opens a new buddy area. */
  predicate Opens(p: Pool, size: nat) {
    PathOf(size).OneBlock? && !CanServe(p, size)
  }

  /** The free turns the region into a buddy area. */
  predicate Rebuilds(size: nat, rebuilt: bool) {
    PathOf(size).OneArea? && rebuilt
  }

  lemma MallocAreas(p: Pool, t: nat, size: nat, reg: Reg)
    requires PoolInv(p) && FreshReg(p, size, reg) && Malloc(p, t, size, reg).1.Some?
    ensures var (q, res) := Malloc(p, t, size, reg);
            && Behind(p, q, if Opens(p, size) then 1 else 0)
            && (Opens(p, size) ==> reg.Registered?
                                   && q.areas[0].mr == MemRegion(reg.addr, SINGLE_AREA_SIZE, reg.lkey))
            && q.more == if PathOf(size).OneBlock? then p.more else [res.value] + p.more
  {
    hide PoolInv, Alloc;
    if PathOf(size).OneBlock? {
      ChooseAreaExact(p, size);
      hide ChooseArea, CanServe, OrderFor;
    }
  }

  lemma FreeAreas(q: Pool, t: nat, r: MemRegion, rebuilt: bool)
    requires PoolInv(q) && r in q.grants && q.grants[r] == t
    requires !PathOf(r.length).OneBlock? ==> q.more != [] && q.more[0] == r
    ensures var u := FreeRegion(q, t, r, rebuilt);
            var n := if Rebuilds(r.length, rebuilt) then 1 else 0;
            && Behind(q, u, n) && (n == 1 ==> u.areas[0].mr == r)
            && u.more == if PathOf(r.length).OneBlock? then q.more else q.more[1..]
  {
    hide PoolInv, FreeOneBlock, FreeOneArea;
    if PathOf(r.length).OneBlock? {
      BlockFreeAreas(q, r);
    } else {
      RegionFreeAreas(q, r, rebuilt && PathOf(r.length).OneArea?);
    }
  }

  lemma BlockFreeAreas(q: Pool, r: MemRegion)
    ensures Behind(q, FreeOneBlock(q, r), 0)
  {
    hide Free, BlockOf, IsBlockRegion;
  }

  lemma RegionFreeAreas(q: Pool, r: MemRegion, rebuilt: bool)
    requires q.more != [] && q.more[0] == r
    ensures var u := FreeOneArea(q, r, rebuilt);
            && Behind(q, u, if rebuilt then 1 else 0) && (rebuilt ==> u.areas[0].mr == r) && u.more == q.more[1..]
  {
    assert FindMore(q.more, r.lkey) == 0;
    assert Without(q.more, 0) == q.more[1..];
    hide FindMore, InitialLists, Without;
  }

  // ---------- the round trip ----------

  /** Malloc, then free of what it granted, on every path and for every size: holdings,
      counters and large regions are as before, each area has the very same free bytes, and an
      area this pair of requests added is wholly free. */
  lemma MallocThenFree(p: Pool, t: nat, size: nat, reg: Reg, rebuilt: bool)
    requires PoolInv(p) && FreshReg(p, size, reg) && Malloc(p, t, size, reg).1.Some?
    ensures var (q, res) := Malloc(p, t, size, reg);
            var u := FreeRegion(q, t, res.value, rebuilt);
            var d := if Opens(p, size) || Rebuilds(size, rebuilt) then 1 else 0;
            && PoolInv(u) && u.grants == p.grants && u.more == p.more
            && (forall s :: Counter(u.used, s) == Counter(p.used, s))
            && Behind(p, u, d)
            && (forall k :: 0 <= k < |p.areas| ==> SameBytes(u.areas[d + k], p.areas[k]))
            && (d == 1 ==> WhollyFree(u.areas[0]))
  {
    hide *;
    var (q, res) := Malloc(p, t, size, reg);
    var u := FreeRegion(q, t, res.value, rebuilt);
    var d := if Opens(p, size) || Rebuilds(size, rebuilt) then 1 else 0;
    FreeKeeps(p, t, size, reg, rebuilt);
    HoldingsRestored(p, t, size, reg, rebuilt);
    AreasRestored(p, t, size, reg, rebuilt);
    if d == 1 {
      NewAreaKey(p, t, size, reg, rebuilt);
    }
    PoolStructure(p);
    PoolStructure(u);
    MrBehind(p, u, d);
    forall k | 0 <= k < |p.areas| ensures SameBytes(u.areas[d + k], p.areas[k]) {
      GrantsDetermineBytes(u, p, d + k, k);
    }
    if d == 1 {
      AddedIsFree(u);
    }
  }

  lemma MrBehind(p: Pool, u: Pool, d: nat)
    requires Behind(p, u, d)
    ensures |u.areas| == |p.areas| + d && forall k :: 0 <= k < |p.areas| ==> u.areas[d + k].mr == p.areas[k].mr
  {
  }

  lemma AddedIsFree(u: Pool)
    requires Structure(u) && |u.areas| > 0 && forall r :: r in u.grants ==> r.lkey != u.areas[0].mr.lkey
    ensures WhollyFree(u.areas[0])
  {
    IdleAreaIsWhole(u, 0);
  }

  lemma FreeKeeps(p: Pool, t: nat, size: nat, reg: Reg, rebuilt: bool)
    requires PoolInv(p) && FreshReg(p, size, reg) && Malloc(p, t, size, reg).1.Some?
    ensures var (q, res) := Malloc(p, t, size, reg);
            PoolInv(FreeRegion(q, t, res.value, rebuilt))
  {
    hide PoolInv, Malloc, FreeRegion, FreshReg;
    var (q, res) := Malloc(p, t, size, reg);
    MallocKeeps(p, t, size, reg);
    FreeStep(q, t, res.value, rebuilt);
  }

  /** Both requests together put at most one area in front of the old ones. */
  lemma AreasRestored(p: Pool, t: nat, size: nat, reg: Reg, rebuilt: bool)
    requires PoolInv(p) && FreshReg(p, size, reg) && Malloc(p, t, size, reg).1.Some?
    ensures var (q, res) := Malloc(p, t, size, reg);
            var u := FreeRegion(q, t, res.value, rebuilt);
            && u.more == p.more
            && Behind(p, u, if Opens(p, size) || Rebuilds(size, rebuilt) then 1 else 0)
  {
    hide PoolInv, Malloc, FreeRegion, FreshReg, CanServe;
    var (q, res) := Malloc(p, t, size, reg);
    MallocKeeps(p, t, size, reg);
    MallocAreas(p, t, size, reg);
    SizeClassRoundTrip(p, t, size, reg);
    hide PathOf;
    FreeAreas(q, t, res.value, rebuilt);
  }

  predicate WhollyFree(a: AreaState) {
    a.free == InitialLists(MAX_ORDER) || a.free == BuddyRuns.TopLists(MAX_ORDER)
  }

  lemma HoldingsRestored(p: Pool, t: nat, size: nat, reg: Reg, rebuilt: bool)
    requires PoolInv(p) && FreshReg(p, size, reg) && Malloc(p, t, size, reg).1.Some?
    ensures var (q, res) := Malloc(p, t, size, reg);
            var u := FreeRegion(q, t, res.value, rebuilt);
            && u.grants == p.grants && forall s :: Counter(u.used, s) == Counter(p.used, s)
  {
    hide PoolInv, Malloc, FreeRegion, FreshReg;
    var (q, res) := Malloc(p, t, size, reg);
    MallocKeeps(p, t, size, reg);
    MallocCharges(p, t, size, reg);
    FreeDischarges(q, t, res.value, rebuilt);
  }

  lemma MallocCharges(p: Pool, t: nat, size: nat, reg: Reg)
    ensures var (q, res) := Malloc(p, t, size, reg);
            res.Some? ==> q.used == p.used[t := Counter(p.used, t) + res.value.length]
  {
    hide MallocOneBlock, MallocMoreArea, Counter;
  }

  lemma FreeDischarges(q: Pool, t: nat, r: MemRegion, rebuilt: bool)
    ensures var u := FreeRegion(q, t, r, rebuilt);
            u.grants == q.grants - {r} && u.used == q.used[t := Counter(q.used, t) - r.length]
  {
    hide FreeOneBlock, FreeOneArea, Counter;
  }

  /** Nobody holds anything under the key of the area that was added. */
  lemma NewAreaKey(p: Pool, t: nat, size: nat, reg: Reg, rebuilt: bool)
    requires PoolInv(p) && FreshReg(p, size, reg) && Malloc(p, t, size, reg).1.Some?
    requires Opens(p, size) || Rebuilds(size, rebuilt)
    ensures var (q, res) := Malloc(p, t, size, reg);
            var u := FreeRegion(q, t, res.value, rebuilt);
            |u.areas| > 0 && forall r :: r in p.grants ==> r.lkey != u.areas[0].mr.lkey
  {
    hide PoolInv, Malloc, FreeRegion, FreshReg, CanServe, PathOf, Structure, FreshFor;
    var (q, res) := Malloc(p, t, size, reg);
    MallocKeeps(p, t, size, reg);
    MallocAreas(p, t, size, reg);
    SizeClassRoundTrip(p, t, size, reg);
    FreeAreas(q, t, res.value, rebuilt);
    NewKeyIsFresh(p, t, size, reg);
  }

  lemma NewKeyIsFresh(p: Pool, t: nat, size: nat, reg: Reg)
    requires PoolInv(p) && FreshReg(p, size, reg) && Malloc(p, t, size, reg).1.Some?
    requires Opens(p, size) || !PathOf(size).OneBlock?
    ensures reg.Registered? && forall r :: r in p.grants ==> r.lkey != reg.lkey
    ensures !PathOf(size).OneBlock? ==> Malloc(p, t, size, reg).1.value.lkey == reg.lkey
  {
    MallocAreas(p, t, size, reg);
    if !PathOf(size).OneBlock? {
      MallocAreaStep(p, t, size, reg);
      MallocAreaIs(p, t, size, reg);
    }
    hide Malloc, PathOf, CanServe;
    PoolStructure(p);
    FreshHasNoBlocks(p, MemRegion(reg.addr, NeededLength(size), reg.lkey));
  }
}
