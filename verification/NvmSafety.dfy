/** Every interleaving of malloc and free requests keeps the pool's invariant, and what that means. */
module NvmSafety {
  import opened Wrappers
  import opened Totals
  import opened Arithmetic
  import opened BuddyBlocks
  import opened BuddyLists
  import opened BuddyInvariant
  import opened BuddyArea
  import opened NvmPool
  import BuddyRuns

  // ---------- regions and blocks ----------

  lemma BlockOfRegionOf(mr: MemRegion, b: Block)
    requires b.order < MAX_ORDER
    ensures IsBlockRegion(mr, RegionOf(mr, b)) && BlockOf(mr, RegionOf(mr, b)) == b
  {
    BuddySizes(b.order);
    var r := RegionOf(mr, b);
    assert r.addr - mr.addr == UNIT * b.off;
    ModUnique(UNIT * b.off, UNIT, b.off, 0);
    assert UNIT * b.off / UNIT == b.off;
    assert OrderOf(r.length) == b.order;
  }

  lemma RegionOfBlockOf(mr: MemRegion, r: MemRegion)
    requires IsBlockRegion(mr, r)
    ensures BlockOf(mr, r).order < MAX_ORDER && RegionOf(mr, BlockOf(mr, r)) == r
  {
  }

  lemma OutBlocksAdd(mr: MemRegion, grants: map<MemRegion, nat>, b: Block, t: nat)
    requires b.order < MAX_ORDER
    ensures OutBlocks(mr, grants[RegionOf(mr, b) := t]) == OutBlocks(mr, grants) + {b}
  {
    var r := RegionOf(mr, b);
    BlockOfRegionOf(mr, b);
    var g := grants[r := t];
    assert r in g;
    forall c | c in OutBlocks(mr, grants) ensures c in OutBlocks(mr, g) {
      var q :| q in grants && IsBlockRegion(mr, q) && BlockOf(mr, q) == c;
      assert q in g;
    }
  }

  lemma OutBlocksRemove(mr: MemRegion, grants: map<MemRegion, nat>, r: MemRegion)
    requires IsBlockRegion(mr, r)
    ensures OutBlocks(mr, grants - {r}) == OutBlocks(mr, grants) - {BlockOf(mr, r)}
  {
    var g := grants - {r};
    forall c | c in OutBlocks(mr, grants) - {BlockOf(mr, r)} ensures c in OutBlocks(mr, g) {
      var q :| q in grants && IsBlockRegion(mr, q) && BlockOf(mr, q) == c;
      assert q in g;
    }
    forall c | c in OutBlocks(mr, g) ensures c in OutBlocks(mr, grants) - {BlockOf(mr, r)} {
      var q :| q in g && IsBlockRegion(mr, q) && BlockOf(mr, q) == c;
      RegionOfBlockOf(mr, q);
      RegionOfBlockOf(mr, r);
    }
  }

  lemma OutBlocksOther(mr: MemRegion, grants: map<MemRegion, nat>, r: MemRegion, t: nat)
    requires !IsBlockRegion(mr, r)
    ensures OutBlocks(mr, grants[r := t]) == OutBlocks(mr, grants)
    ensures OutBlocks(mr, grants - {r}) == OutBlocks(mr, grants)
  {
    var g, h := grants[r := t], grants - {r};
    forall c | c in OutBlocks(mr, grants) ensures c in OutBlocks(mr, g) && c in OutBlocks(mr, h) {
      var q :| q in grants && IsBlockRegion(mr, q) && BlockOf(mr, q) == c;
      assert q in g && q in h;
    }
  }

  // ---------- changes to the structure ----------

  lemma AreasHaveOwnKeys(p: Pool, k: nat, j: nat, r: MemRegion)
    requires Structure(p) && k < |p.areas| && j < |p.areas| && k != j && r.lkey == p.areas[k].mr.lkey
    ensures !IsBlockRegion(p.areas[j].mr, r) && r !in p.more
  {
    assert Separate(p.areas[if k < j then k else j].mr, p.areas[if k < j then j else k].mr);
  }

  lemma KeyNotInMore(p: Pool, k: nat, r: MemRegion)
    requires Structure(p) && k < |p.areas| && r.lkey == p.areas[k].mr.lkey
    ensures r !in p.more
  {
  }

  /** The taken block was free, and its area is in order with the block added to those held. */
  lemma TakeBlockArea(p: Pool, k: nat, index: nat, t: nat)
    requires Structure(p) && k < |p.areas| && index < MAX_ORDER && Alloc(p.areas[k].free, index).Taken?
    ensures var a, r := p.areas[k], Alloc(p.areas[k].free, index);
            var reg := RegionOf(a.mr, Block(r.off, index));
            && reg !in p.grants && IsBlockRegion(a.mr, reg)
            && |r.free| == MAX_ORDER && AreaOk(AreaState(a.mr, r.free), p.grants[reg := t])
  {
    var a, r := p.areas[k], Alloc(p.areas[k].free, index);
    var b := Block(r.off, index);
    var out := OutBlocks(a.mr, p.grants);
    assert AreaOk(a, p.grants);
    BlockOfRegionOf(a.mr, b);
    OutBlocksAdd(a.mr, p.grants, b, t);
    assert b in out <== RegionOf(a.mr, b) in p.grants;
    hide OutBlocks, Structure, IsBlockRegion;
    if BuddyLists.Strict(a.free, out) {
      AllocStrict(a.free, out, index);
    } else {
      BuddyRuns.AllocPristine(a.free, out, index);
    }
  }

  lemma TakeBlockStructure(p: Pool, k: nat, index: nat, t: nat)
    requires Structure(p) && k < |p.areas| && index < MAX_ORDER && Alloc(p.areas[k].free, index).Taken?
    ensures var (q, res) := TakeBlock(p, k, index);
            res.value !in p.grants && Structure(q.(grants := q.grants[res.value := t]))
  {
    var a, r := p.areas[k], Alloc(p.areas[k].free, index);
    var reg := RegionOf(a.mr, Block(r.off, index));
    var g := p.grants[reg := t];
    TakeBlockArea(p, k, index, t);
    forall j | 0 <= j < |p.areas| && j != k ensures AreaOk(p.areas[j], g) {
      OtherAreaOk(p, k, j, reg, t);
    }
    hide Alloc, AreaOk, Laid, IsBlockRegion;
    assert InSomeArea(p.areas, reg);
    hide InSomeArea;
    UpdateArea(p, k, AreaState(a.mr, r.free), g, a.mr.lkey);
  }

  /** One area and the grants change: what has to be shown for the pool to stay in order. */
  lemma UpdateArea(p: Pool, k: nat, a: AreaState, g: map<MemRegion, nat>, cur: nat)
    requires Structure(p) && k < |p.areas| && a.mr == p.areas[k].mr && AreaOk(a, g)
    requires forall j :: 0 <= j < |p.areas| && j != k ==> AreaOk(p.areas[j], g)
    requires forall m :: m in p.more ==> m in g
    requires forall r :: r in g ==> r in p.more || InSomeArea(p.areas, r)
    requires exists j :: 0 <= j < |p.areas| && p.areas[j].mr.lkey == cur
    ensures Structure(Pool(p.areas[k := a], p.more, cur, g, p.used))
  {
    hide AreaOk, InSomeArea;
    var areas := p.areas[k := a];
    SomeAreaKept(p.areas, areas);
    var j :| 0 <= j < |p.areas| && p.areas[j].mr.lkey == cur;
    assert areas[j].mr.lkey == cur;
  }

  lemma OtherAreaOk(p: Pool, k: nat, j: nat, reg: MemRegion, t: nat)
    requires Structure(p) && k < |p.areas| && j < |p.areas| && k != j && reg.lkey == p.areas[k].mr.lkey
    ensures AreaOk(p.areas[j], p.grants[reg := t]) && AreaOk(p.areas[j], p.grants - {reg})
  {
    AreasHaveOwnKeys(p, k, j, reg);
    OutBlocksOther(p.areas[j].mr, p.grants, reg, t);
  }

  lemma SomeAreaKept(areas: seq<AreaState>, areas1: seq<AreaState>)
    requires |areas| == |areas1| && forall i :: 0 <= i < |areas| ==> areas[i].mr == areas1[i].mr
    ensures forall r :: InSomeArea(areas, r) ==> InSomeArea(areas1, r)
  {
    forall r | InSomeArea(areas, r) ensures InSomeArea(areas1, r) {
      var i :| 0 <= i < |areas| && IsBlockRegion(areas[i].mr, r);
      assert IsBlockRegion(areas1[i].mr, r);
    }
  }

  /** Nothing registered uses this key or this memory. */
  ghost predicate FreshFor(p: Pool, mr: MemRegion) {
    && (forall k :: 0 <= k < |p.areas| ==> Separate(mr, p.areas[k].mr))
    && (forall k :: 0 <= k < |p.more| ==> Separate(mr, p.more[k]))
  }

  lemma AddAreaLaid(p: Pool, mr: MemRegion)
    requires Structure(p) && FreshFor(p, mr)
    ensures Laid(AddBuddyArea(p, mr).areas, p.more)
  {
  }

  lemma AddAreaCovers(p: Pool, mr: MemRegion, r: MemRegion)
    requires Structure(p) && r in p.grants
    ensures r in p.more || InSomeArea(AddBuddyArea(p, mr).areas, r)
  {
    if r !in p.more {
      var k :| 0 <= k < |p.areas| && IsBlockRegion(p.areas[k].mr, r);
      hide IsBlockRegion, InitialLists, AreaOk, Laid;
      assert AddBuddyArea(p, mr).areas[k + 1] == p.areas[k];
      assert IsBlockRegion(AddBuddyArea(p, mr).areas[k + 1].mr, r);
    }
  }

  lemma AddArea(p: Pool, mr: MemRegion)
    requires Structure(p) && FreshFor(p, mr) && mr.length == SINGLE_AREA_SIZE
    ensures Structure(AddBuddyArea(p, mr))
  {
    var q := AddBuddyArea(p, mr);
    AddAreaLaid(p, mr);
    FreshHasNoBlocks(p, mr);
    BuddyRuns.InitialIsPristine(MAX_ORDER);
    forall k | 0 <= k < |q.areas| ensures AreaOk(q.areas[k], q.grants) {
      if k > 0 {
        assert q.areas[k] == p.areas[k - 1] && AreaOk(p.areas[k - 1], p.grants);
      }
    }
    forall r | r in p.grants ensures r in p.more || InSomeArea(q.areas, r) {
      AddAreaCovers(p, mr, r);
    }
    var c :| 0 <= c < |p.areas| && p.areas[c].mr.lkey == p.cur;
    assert q.areas[c + 1].mr.lkey == q.cur;
  }

  lemma FreshHasNoBlocks(p: Pool, mr: MemRegion)
    requires Structure(p) && FreshFor(p, mr)
    ensures OutBlocks(mr, p.grants) == {}
    ensures mr !in p.grants
    ensures forall r :: r in p.grants ==> r.lkey != mr.lkey
  {
    forall r | r in p.grants ensures r.lkey != mr.lkey {
      if r !in p.more {
        var k :| 0 <= k < |p.areas| && IsBlockRegion(p.areas[k].mr, r);
        assert Separate(mr, p.areas[k].mr);
      }
    }
  }

  lemma AddMore(p: Pool, mr: MemRegion, t: nat)
    requires Structure(p) && FreshFor(p, mr) && mr.length >= SINGLE_AREA_SIZE
    ensures mr !in p.grants
    ensures Structure(p.(more := [mr] + p.more, grants := p.grants[mr := t]))
  {
    FreshHasNoBlocks(p, mr);
    var q := p.(more := [mr] + p.more, grants := p.grants[mr := t]);
    forall k | 0 <= k < |q.areas| ensures AreaOk(q.areas[k], q.grants) {
      assert AreaOk(p.areas[k], p.grants);
      OutBlocksOther(p.areas[k].mr, p.grants, mr, t);
    }
  }

  lemma FindAreaUnique(p: Pool, k: nat)
    requires Structure(p) && k < |p.areas|
    ensures FindArea(p.areas, p.areas[k].mr.lkey) == k
  {
    var j := FindArea(p.areas, p.areas[k].mr.lkey);
    assert j < k ==> Separate(p.areas[j].mr, p.areas[k].mr);
  }

  lemma FindMoreUnique(p: Pool, k: nat)
    requires Structure(p) && k < |p.more|
    ensures FindMore(p.more, p.more[k].lkey) == k
  {
    var j := FindMore(p.more, p.more[k].lkey);
    assert j < k ==> Separate(p.more[j], p.more[k]);
  }

  lemma OutstandingBlock(p: Pool, k: nat, r: MemRegion)
    requires Structure(p) && k < |p.areas| && r in p.grants && IsBlockRegion(p.areas[k].mr, r)
    ensures Fits(BlockOf(p.areas[k].mr, r), MAX_ORDER)
  {
    var a := p.areas[k];
    var b, out := BlockOf(a.mr, r), OutBlocks(a.mr, p.grants);
    assert b in out;
    if BuddyLists.Strict(a.free, out) {
      assert b in FreeBlocks(a.free) + out;
    } else {
      assert b in FreeBlocks(Hidden(a.free)) + (out + HiddenPair());
    }
  }

  /** The area is in order with the block back in it. */
  lemma ReturnBlockArea(p: Pool, k: nat, r: MemRegion)
    requires Structure(p) && k < |p.areas| && r in p.grants && IsBlockRegion(p.areas[k].mr, r)
    ensures var a, b := p.areas[k], BlockOf(p.areas[k].mr, r);
            && b.order < MAX_ORDER && Aligned(b.off, b.order)
            && |Free(a.free, b.off, b.order)| == MAX_ORDER
            && AreaOk(AreaState(a.mr, Free(a.free, b.off, b.order)), p.grants - {r})
  {
    var a, b := p.areas[k], BlockOf(p.areas[k].mr, r);
    var out := OutBlocks(a.mr, p.grants);
    assert AreaOk(a, p.grants);
    OutstandingBlock(p, k, r);
    OutBlocksRemove(a.mr, p.grants, r);
    assert b in out;
    hide OutBlocks, Structure, IsBlockRegion, BlockOf;
    if BuddyLists.Strict(a.free, out) {
      FreeStrict(a.free, out, b.off, b.order);
    } else {
      BuddyRuns.FreePristine(a.free, out, b);
    }
  }

  lemma ReturnGrantedBlock(p: Pool, k: nat, r: MemRegion)
    requires Structure(p) && k < |p.areas| && r in p.grants && IsBlockRegion(p.areas[k].mr, r)
    ensures Structure(FreeOneBlock(p, r).(grants := p.grants - {r}))
  {
    var a, b, g := p.areas[k], BlockOf(p.areas[k].mr, r), p.grants - {r};
    FindAreaUnique(p, k);
    ReturnBlockArea(p, k, r);
    FreeOneBlockIs(p, k, r);
    KeyNotInMore(p, k, r);
    forall j | 0 <= j < |p.areas| && j != k ensures AreaOk(p.areas[j], g) {
      OtherAreaOk(p, k, j, r, 0);
    }
    hide FreeOneBlock, Free, AreaOk, BlockOf, Aligned, IsBlockRegion, Laid, InSomeArea;
    UpdateArea(p, k, AreaState(a.mr, Free(a.free, b.off, b.order)), g, p.cur);
  }

  lemma FreeOneBlockIs(p: Pool, k: nat, r: MemRegion)
    requires k < |p.areas| && FindArea(p.areas, r.lkey) == k && IsBlockRegion(p.areas[k].mr, r)
    requires var b := BlockOf(p.areas[k].mr, r);
             Aligned(b.off, b.order) && |Free(p.areas[k].free, b.off, b.order)| == MAX_ORDER
    ensures var b := BlockOf(p.areas[k].mr, r);
            FreeOneBlock(p, r)
            == p.(areas := p.areas[k := AreaState(p.areas[k].mr, Free(p.areas[k].free, b.off, b.order))])
  {
    hide FindArea, BlockOf, Free, IsBlockRegion;
  }

  lemma WithoutLaid(areas: seq<AreaState>, more: seq<MemRegion>, k: nat)
    requires Laid(areas, more) && k < |more|
    ensures Laid(areas, Without(more, k))
    ensures forall j :: 0 <= j < |more| - 1 ==> Separate(more[k], Without(more, k)[j])
    ensures forall j :: 0 <= j < |areas| ==> Separate(more[k], areas[j].mr)
    ensures forall r :: r in Without(more, k) <==> r in more && r != more[k]
  {
    var w := Without(more, k);
    forall j | 0 <= j < |more| - 1 ensures Separate(more[k], w[j]) {
      assert j < k ==> Separate(more[j], more[k]);
      assert j >= k ==> Separate(more[k], more[j + 1]);
    }
    forall r | r in more && r != more[k] ensures r in w {
      var i :| 0 <= i < |more| && more[i] == r;
      assert r == w[if i < k then i else i - 1];
    }
    forall j | 0 <= j < |areas| ensures Separate(more[k], areas[j].mr) {
      assert Separate(areas[j].mr, more[k]);
    }
  }

  lemma DropMore(p: Pool, k: nat)
    requires Structure(p) && k < |p.more|
    ensures var q := p.(more := Without(p.more, k), grants := p.grants - {p.more[k]});
            Structure(q) && FreshFor(q, p.more[k])
  {
    var r := p.more[k];
    var q := p.(more := Without(p.more, k), grants := p.grants - {r});
    WithoutLaid(p.areas, p.more, k);
    forall j | 0 <= j < |q.areas| ensures AreaOk(q.areas[j], q.grants) {
      assert AreaOk(p.areas[j], p.grants);
      OutBlocksOther(p.areas[j].mr, p.grants, r, 0);
    }
    forall j | 0 <= j < |q.more| ensures q.more[j] in q.grants && q.more[j].length >= SINGLE_AREA_SIZE {
      assert q.more[j] in q.more;
    }
  }

  // ---------- accounting ----------

  lemma HeldWith(g: map<MemRegion, nat>, r: MemRegion, t: nat, s: nat)
    requires r !in g
    ensures r !in Held(g, t)
    ensures Held(g[r := t], s) == if s == t then Held(g, t)[r := r.length] else Held(g, s)
  {
  }

  lemma AccountsAdd(p: Pool, r: MemRegion, t: nat)
    requires Accounts(p) && r !in p.grants
    ensures Accounts(Charge(p, t, r))
  {
    var g, u := p.grants[r := t], p.used[t := Counter(p.used, t) + r.length];
    forall s ensures Counter(u, s) == Total(Held(g, s)) {
      HeldWith(p.grants, r, t, s);
      if s == t {
        hide Held;
        TotalWith(Held(p.grants, t), r, r.length);
      }
    }
  }

  lemma AccountsRemove(p: Pool, r: MemRegion, t: nat)
    requires Accounts(p) && r in p.grants && p.grants[r] == t
    ensures Accounts(Discharge(p, t, r))
  {
    var g, u := p.grants - {r}, p.used[t := Counter(p.used, t) - r.length];
    forall s ensures Counter(u, s) == Total(Held(g, s)) {
      if s == t {
        assert Held(g, t) == Held(p.grants, t) - {r};
        TotalWithout(Held(p.grants, t), r);
      } else {
        assert Held(g, s) == Held(p.grants, s);
      }
    }
  }

  // ---------- one request ----------

  /** What `dhmp_area_create` would be asked to register for this request. */
  function NeededLength(size: nat): nat {
    if PathOf(size).MoreArea? then size else SINGLE_AREA_SIZE
  }

  ghost predicate FreshReg(p: Pool, size: nat, reg: Reg) {
    reg.Registered? ==> FreshFor(p, MemRegion(reg.addr, NeededLength(size), reg.lkey))
  }

  /** Some area has a free block big enough. */
  predicate CanServe(p: Pool, size: nat) {
    exists k :: 0 <= k < |p.areas| && MaxIndex(p.areas[k].free) >= OrderFor(size)
  }

  lemma {:induction false} FirstAbleExact(areas: seq<AreaState>, index: nat)
    ensures FirstAble(areas, index) < |areas| <==> exists k :: 0 <= k < |areas| && MaxIndex(areas[k].free) >= index
  {
    var f := FirstAble(areas, index);
    if f < |areas| {
      assert MaxIndex(areas[f].free) >= index;
    }
  }

  lemma InitialServes(index: nat)
    requires index < MAX_ORDER
    ensures MaxIndex(InitialLists(MAX_ORDER)) >= index
  {
    assert InitialLists(MAX_ORDER)[MAX_ORDER - 1] != [];
  }

  lemma TakeBlockStep(p: Pool, k: nat, index: nat, t: nat)
    requires PoolInv(p) && k < |p.areas| && index < MAX_ORDER && MaxIndex(p.areas[k].free) >= index
    ensures var (q, res) := TakeBlock(p, k, index);
            && res.Some? && res.value !in p.grants && res.value.length == BUDDY_SIZE[index]
            && q.grants == p.grants
            && PoolInv(Charge(q, t, res.value))
  {
    BuddyRuns.MaxIndexDecides(p.areas[k].free, index);
    TakeBlockStructure(p, k, index, t);
    var (q, res) := TakeBlock(p, k, index);
    AccountsAdd(q, res.value, t);
  }

  lemma ChooseAreaExact(p: Pool, size: nat)
    ensures ChooseArea(p, OrderFor(size)) < |p.areas| <==> CanServe(p, size)
  {
    var k := ChooseArea(p, OrderFor(size));
    FirstAbleExact(p.areas, OrderFor(size));
    if k < |p.areas| {
      assert MaxIndex(p.areas[k].free) >= OrderFor(size);
    }
  }

  lemma MallocBlockStep(p: Pool, t: nat, size: nat, reg: Reg)
    requires PoolInv(p) && PathOf(size).OneBlock? && FreshReg(p, size, reg)
    ensures var (q, res) := Malloc(p, t, size, reg);
            && PoolInv(q)
            && (res.None? <==> reg.RegFails? && !CanServe(p, size))
            && (res.None? ==> q == p)
            && (res.Some? ==> res.value !in p.grants && q.grants == p.grants[res.value := t]
                              && res.value.length == BUDDY_SIZE[OrderFor(size)])
  {
    hide PoolInv, FreshReg, TakeBlock, MaxIndex, OrderFor, CanServe, AddBuddyArea, ChooseArea;
    var index, k := OrderFor(size), ChooseArea(p, OrderFor(size));
    ChooseAreaExact(p, size);
    BlockOrder(size);
    MallocBlockIs(p, t, size, reg);
    hide Malloc;
    if k < |p.areas| {
      TakeBlockStep(p, k, index, t);
    } else if reg.Registered? {
      var mr := MemRegion(reg.addr, SINGLE_AREA_SIZE, reg.lkey);
      AddAreaInv(p, reg, size, index);
      TakeBlockStep(AddBuddyArea(p, mr), 0, index, t);
    }
  }

  lemma BlockOrder(size: nat)
    requires PathOf(size).OneBlock?
    ensures OrderFor(size) < MAX_ORDER
  {
    assert size <= BUDDY_SIZE[4];
  }

  /** The block path, area by area. */
  lemma MallocBlockIs(p: Pool, t: nat, size: nat, reg: Reg)
    requires PathOf(size).OneBlock? && OrderFor(size) < MAX_ORDER
    ensures var index, k := OrderFor(size), ChooseArea(p, OrderFor(size));
            Malloc(p, t, size, reg)
            == if k < |p.areas| then Granted(TakeBlock(p, k, index), t)
               else if reg.RegFails? then (p, None)
               else Granted(TakeBlock(AddBuddyArea(p, MemRegion(reg.addr, SINGLE_AREA_SIZE, reg.lkey)), 0, index), t)
  {
    hide TakeBlock, ChooseArea, OrderFor, InitialLists;
  }

  /** The answer, and the pool with the region granted. */
  function Granted(answer: (Pool, Option<MemRegion>), t: nat): (Pool, Option<MemRegion>) {
    if answer.1.None? then answer else (Charge(answer.0, t, answer.1.value), answer.1)
  }

  /** A fresh area joins the pool and can serve every order. */
  lemma AddAreaInv(p: Pool, reg: Reg, size: nat, index: nat)
    requires index < MAX_ORDER && PoolInv(p) && PathOf(size).OneBlock? && reg.Registered? && FreshReg(p, size, reg)
    ensures var q := AddBuddyArea(p, MemRegion(reg.addr, SINGLE_AREA_SIZE, reg.lkey));
            && PoolInv(q) && q.grants == p.grants && |q.areas| > 0
            && MaxIndex(q.areas[0].free) >= index
  {
    var mr := MemRegion(reg.addr, SINGLE_AREA_SIZE, reg.lkey);
    AddArea(p, mr);
    assert Accounts(AddBuddyArea(p, mr));
    InitialServes(index);
  }

  lemma MallocAreaIs(p: Pool, t: nat, size: nat, reg: Reg)
    requires !PathOf(size).OneBlock? && reg.Registered?
    ensures var mr := MemRegion(reg.addr, NeededLength(size), reg.lkey);
            && NeededLength(size) >= SINGLE_AREA_SIZE
            && Malloc(p, t, size, reg) == (Charge(p.(more := [mr] + p.more), t, mr), Some(mr))
  {
  }

  lemma MallocAreaStep(p: Pool, t: nat, size: nat, reg: Reg)
    requires PoolInv(p) && !PathOf(size).OneBlock? && FreshReg(p, size, reg)
    ensures var (q, res) := Malloc(p, t, size, reg);
            && PoolInv(q)
            && (res.None? <==> reg.RegFails?)
            && (res.None? ==> q == p)
            && (res.Some? ==> res.value !in p.grants && q.grants == p.grants[res.value := t]
                              && res.value.length == NeededLength(size))
  {
    if reg.Registered? {
      var mr := MemRegion(reg.addr, NeededLength(size), reg.lkey);
      MallocAreaIs(p, t, size, reg);
      AddMore(p, mr, t);
      AccountsAdd(p.(more := [mr] + p.more), mr, t);
      hide Malloc, PathOf, NeededLength, Structure, Accounts, FreshReg;
    }
  }

  /** A region the client holds is found where the free path looks for it. */
  lemma GrantedRegion(p: Pool, r: MemRegion)
    requires Structure(p) && r in p.grants
    ensures r in p.more <==> !PathOf(r.length).OneBlock?
    ensures PathOf(r.length).OneBlock? ==> InSomeArea(p.areas, r)
    ensures PathOf(r.length).OneArea? ==> r.length == SINGLE_AREA_SIZE
  {
    if r in p.more {
      var k :| 0 <= k < |p.more| && p.more[k] == r;
    } else {
      var k :| 0 <= k < |p.areas| && IsBlockRegion(p.areas[k].mr, r);
    }
  }

  lemma SameStructure(p: Pool, q: Pool)
    requires Structure(p) && q.areas == p.areas && q.more == p.more && q.cur == p.cur && q.grants == p.grants
    ensures Structure(q)
  {
  }

  lemma FreeBlockStep(p: Pool, t: nat, r: MemRegion)
    requires PoolInv(p) && r in p.grants && p.grants[r] == t && PathOf(r.length).OneBlock?
    ensures PoolInv(Discharge(FreeOneBlock(p, r), t, r))
  {
    hide Structure, FreeOneBlock;
    GrantedRegion(p, r);
    var k :| 0 <= k < |p.areas| && IsBlockRegion(p.areas[k].mr, r);
    ReturnGrantedBlock(p, k, r);
    var q := FreeOneBlock(p, r);
    AccountsRemove(q, r, t);
    SameStructure(q.(grants := p.grants - {r}), Discharge(q, t, r));
  }

  lemma FreeAreaStructure(p: Pool, r: MemRegion, rebuilt: bool)
    requires Structure(p) && r in p.more && (rebuilt ==> r.length == SINGLE_AREA_SIZE)
    ensures Structure(FreeOneArea(p, r, rebuilt).(grants := p.grants - {r}))
  {
    var k :| 0 <= k < |p.more| && p.more[k] == r;
    FindMoreUnique(p, k);
    DropMore(p, k);
    if rebuilt {
      AddArea(p.(more := Without(p.more, k), grants := p.grants - {r}), r);
    }
  }

  lemma FreeAreaStep(p: Pool, t: nat, r: MemRegion, rebuilt: bool)
    requires PoolInv(p) && r in p.grants && p.grants[r] == t && !PathOf(r.length).OneBlock?
    requires rebuilt ==> PathOf(r.length).OneArea?
    ensures PoolInv(Discharge(FreeOneArea(p, r, rebuilt), t, r))
  {
    hide Structure, FreeOneArea;
    GrantedRegion(p, r);
    FreeAreaStructure(p, r, rebuilt);
    var q := FreeOneArea(p, r, rebuilt);
    AccountsRemove(q, r, t);
    SameStructure(q.(grants := p.grants - {r}), Discharge(q, t, r));
  }

  lemma FreeStep(p: Pool, t: nat, r: MemRegion, rebuilt: bool)
    requires PoolInv(p) && r in p.grants && p.grants[r] == t
    ensures PoolInv(FreeRegion(p, t, r, rebuilt))
  {
    match PathOf(r.length)
    case OneBlock => FreeBlockStep(p, t, r);
    case OneArea => FreeAreaStep(p, t, r, rebuilt);
    case MoreArea => FreeAreaStep(p, t, r, false);
  }

  // ---------- whole runs ----------

  datatype Request = MallocRequest(t: nat, size: nat, reg: Reg) | FreeRequest(t: nat, r: MemRegion, rebuilt: bool)

  /** Fresh memory is fresh; a client frees, over the same connection, what it was given. */
  ghost predicate Enabled(p: Pool, e: Request) {
    match e
    case MallocRequest(t, size, reg) => FreshReg(p, size, reg)
    case FreeRequest(t, r, rebuilt) => r in p.grants && p.grants[r] == t
  }

  ghost function Serve(p: Pool, e: Request): Pool
  {
    match e
    case MallocRequest(t, size, reg) => Malloc(p, t, size, reg).0
    case FreeRequest(t, r, rebuilt) => FreeRegion(p, t, r, rebuilt)
  }

  lemma ServeKeepsInv(p: Pool, e: Request)
    requires PoolInv(p) && Enabled(p, e)
    ensures PoolInv(Serve(p, e))
  {
    match e
    case MallocRequest(t, size, reg) =>
      if PathOf(size).OneBlock? { MallocBlockStep(p, t, size, reg); } else { MallocAreaStep(p, t, size, reg); }
    case FreeRequest(t, r, rebuilt) => FreeStep(p, t, r, rebuilt);
  }

  /** `ps` is a run: it starts at boot and each state follows from the one before by a request. */
  ghost predicate IsRun(ps: seq<Pool>, es: seq<Request>, boot: MemRegion) {
    && |ps| == |es| + 1
    && boot.length == SINGLE_AREA_SIZE
    && ps[0] == Boot(boot)
    && forall i :: 0 <= i < |es| ==> Enabled(ps[i], es[i]) && ps[i + 1] == Serve(ps[i], es[i])
  }

  function Boot(mr: MemRegion): Pool {
    Pool([AreaState(mr, InitialLists(MAX_ORDER))], [], mr.lkey, map[], map[])
  }

  lemma BootInv(mr: MemRegion)
    requires mr.length == SINGLE_AREA_SIZE
    ensures PoolInv(Boot(mr))
  {
    BuddyRuns.InitialIsPristine(MAX_ORDER);
    assert OutBlocks(mr, map[]) == {};
    var p := Boot(mr);
    assert p.areas[0].mr.lkey == p.cur;
    assert forall t :: Held(p.grants, t) == map[];
  }

  lemma {:induction false} EveryRunKeepsInv(ps: seq<Pool>, es: seq<Request>, boot: MemRegion, i: nat)
    requires IsRun(ps, es, boot) && i < |ps|
    ensures PoolInv(ps[i])
  {
    if i == 0 {
      BootInv(boot);
    } else {
      EveryRunKeepsInv(ps, es, boot, i - 1);
      assert ps[i - 1 + 1] == Serve(ps[i - 1], es[i - 1]);
      ServeKeepsInv(ps[i - 1], es[i - 1]);
    }
  }

  // ---------- what the invariant means for addresses ----------

  /** The memory region of a free block. */
  ghost predicate IsFreeRegion(p: Pool, r: MemRegion) {
    exists k, b :: 0 <= k < |p.areas| && b in FreeBlocks(p.areas[k].free) && b.order < MAX_ORDER
                   && r == RegionOf(p.areas[k].mr, b)
  }

  lemma BlocksApart(mr: MemRegion, b: Block, c: Block)
    requires b.order < MAX_ORDER && c.order < MAX_ORDER && Disjoint(b, c)
    ensures Apart(RegionOf(mr, b), RegionOf(mr, c))
  {
    BuddySizes(b.order);
    BuddySizes(c.order);
  }

  /** A block region lies inside its area. */
  lemma BlockWithinArea(mr: MemRegion, b: Block)
    requires Fits(b, MAX_ORDER) && mr.length == SINGLE_AREA_SIZE
    ensures var r := RegionOf(mr, b); mr.addr <= r.addr && r.addr + r.length <= mr.addr + mr.length
  {
    BuddySizes(b.order);
    BuddySizes(4);
    assert Pow2(5) == 2 * Pow2(4);
  }

  /** Every block of an area, free or held, fits; two of them are disjoint unless they are the
      same; and none is both free and held. */
  lemma AreaBlocks(p: Pool, k: nat)
    requires Structure(p) && k < |p.areas|
    ensures var a := p.areas[k];
            var out := OutBlocks(a.mr, p.grants);
            && Tiles(FreeBlocks(a.free) + out, MAX_ORDER)
            && FreeBlocks(a.free) !! out
  {
    var a := p.areas[k];
    assert AreaOk(a, p.grants);
    BuddyRuns.InvTiles(a.free, OutBlocks(a.mr, p.grants));
  }

  /** Where an allocator-managed region lies. */
  lemma RegionHome(p: Pool, r: MemRegion) returns (k: nat, b: Block)
    requires Structure(p) && (IsFreeRegion(p, r) || (r in p.grants && r !in p.more))
    ensures k < |p.areas| && Fits(b, MAX_ORDER) && r == RegionOf(p.areas[k].mr, b)
    ensures b in FreeBlocks(p.areas[k].free) + OutBlocks(p.areas[k].mr, p.grants)
    ensures r in p.grants <==> b in OutBlocks(p.areas[k].mr, p.grants)
  {
    if r in p.grants && r !in p.more {
      k :| 0 <= k < |p.areas| && IsBlockRegion(p.areas[k].mr, r);
      b := BlockOf(p.areas[k].mr, r);
      assert b in OutBlocks(p.areas[k].mr, p.grants);
    } else {
      k, b :| 0 <= k < |p.areas| && b in FreeBlocks(p.areas[k].free) && b.order < MAX_ORDER
              && r == RegionOf(p.areas[k].mr, b);
      BlockOfRegionOf(p.areas[k].mr, b);
      AreaBlocks(p, k);
    }
    AreaBlocks(p, k);
    BlockOfRegionOf(p.areas[k].mr, b);
  }

  /** Two different regions, each held by a client or free, never share a byte. */
  lemma RegionsNeverOverlap(p: Pool, r: MemRegion, s: MemRegion)
    requires Structure(p) && r != s
    requires r in p.grants || IsFreeRegion(p, r)
    requires s in p.grants || IsFreeRegion(p, s)
    ensures Apart(r, s)
  {
    hide AreaOk, IsFreeRegion;
    if r in p.more && s in p.more {
      var i :| 0 <= i < |p.more| && p.more[i] == r;
      var j :| 0 <= j < |p.more| && p.more[j] == s;
      assert Separate(p.more[if i < j then i else j], p.more[if i < j then j else i]);
    } else if r in p.more {
      MoreApart(p, r, s);
    } else if s in p.more {
      MoreApart(p, s, r);
    } else {
      var k, b := RegionHome(p, r);
      var j, c := RegionHome(p, s);
      BlocksNeverOverlap(p, k, b, j, c);
    }
  }

  lemma BlocksNeverOverlap(p: Pool, k: nat, b: Block, j: nat, c: Block)
    requires Structure(p) && k < |p.areas| && j < |p.areas| && Fits(b, MAX_ORDER) && Fits(c, MAX_ORDER)
    requires b in FreeBlocks(p.areas[k].free) + OutBlocks(p.areas[k].mr, p.grants)
    requires c in FreeBlocks(p.areas[j].free) + OutBlocks(p.areas[j].mr, p.grants)
    requires RegionOf(p.areas[k].mr, b) != RegionOf(p.areas[j].mr, c)
    ensures Apart(RegionOf(p.areas[k].mr, b), RegionOf(p.areas[j].mr, c))
  {
    assert AreaOk(p.areas[k], p.grants) && AreaOk(p.areas[j], p.grants);
    if k == j {
      AreaBlocks(p, k);
      BlocksApart(p.areas[k].mr, b, c);
    } else {
      BlockWithinArea(p.areas[k].mr, b);
      BlockWithinArea(p.areas[j].mr, c);
      assert Separate(p.areas[if k < j then k else j].mr, p.areas[if k < j then j else k].mr);
    }
  }

  lemma MoreApart(p: Pool, r: MemRegion, s: MemRegion)
    requires Structure(p) && r in p.more && s !in p.more && (s in p.grants || IsFreeRegion(p, s))
    ensures Apart(r, s)
  {
    var i :| 0 <= i < |p.more| && p.more[i] == r;
    var k, b := RegionHome(p, s);
    BlockWithinArea(p.areas[k].mr, b);
    assert Separate(p.areas[k].mr, p.more[i]);
  }

  /** No region is both held and free. */
  lemma HeldIsNotFree(p: Pool, r: MemRegion)
    requires Structure(p) && r in p.grants
    ensures !IsFreeRegion(p, r)
  {
    if IsFreeRegion(p, r) {
      var k, b :| 0 <= k < |p.areas| && b in FreeBlocks(p.areas[k].free) && b.order < MAX_ORDER
                  && r == RegionOf(p.areas[k].mr, b);
      BlockOfRegionOf(p.areas[k].mr, b);
      assert b in OutBlocks(p.areas[k].mr, p.grants);
      AreaBlocks(p, k);
      assert false;
    }
  }

  /** Over any run: regions in different hands never overlap, the current area is in the
      list, and each connection's counter is the sum of the lengths it holds. */
  lemma ServerWideSafety(ps: seq<Pool>, es: seq<Request>, boot: MemRegion, i: nat)
    requires IsRun(ps, es, boot) && i < |ps|
    ensures NothingShared(ps[i])
    ensures exists k :: 0 <= k < |ps[i].areas| && ps[i].areas[k].mr.lkey == ps[i].cur
    ensures forall t :: Counter(ps[i].used, t) == Total(Held(ps[i].grants, t))
  {
    EveryRunKeepsInv(ps, es, boot, i);
    InvSharesNothing(ps[i]);
  }

  /** Held regions are pairwise disjoint and disjoint from every free block. */
  ghost predicate NothingShared(p: Pool) {
    && (forall r, s :: r in p.grants && s in p.grants && r != s ==> Apart(r, s))
    && (forall r, s :: r in p.grants && IsFreeRegion(p, s) ==> r != s && Apart(r, s))
  }

  lemma HeldApart(p: Pool, r: MemRegion, s: MemRegion)
    requires Structure(p) && r in p.grants && s in p.grants && r != s
    ensures Apart(r, s)
  {
    RegionsNeverOverlap(p, r, s);
  }

  lemma HeldApartFromFree(p: Pool, r: MemRegion, s: MemRegion)
    requires Structure(p) && r in p.grants && IsFreeRegion(p, s)
    ensures r != s && Apart(r, s)
  {
    HeldIsNotFree(p, r);
    RegionsNeverOverlap(p, r, s);
  }

  lemma InvSharesNothing(p: Pool)
    requires Structure(p)
    ensures NothingShared(p)
  {
    hide Structure, IsFreeRegion;
    forall r, s | r in p.grants && s in p.grants && r != s ensures Apart(r, s) {
      HeldApart(p, r, s);
    }
    forall r, s | r in p.grants && IsFreeRegion(p, s) ensures r != s && Apart(r, s) {
      HeldApartFromFree(p, r, s);
    }
  }

  /** The length a request is answered with sends the later free down the same path, is the
      least class that holds the request on the block path, and is never too short. */
  lemma SizeClassRoundTrip(p: Pool, t: nat, size: nat, reg: Reg)
    requires PoolInv(p) && FreshReg(p, size, reg) && Malloc(p, t, size, reg).1.Some?
    ensures var r := Malloc(p, t, size, reg).1.value;
            && PathOf(r.length) == PathOf(size)
            && r.length >= size
            && (PathOf(size).OneBlock? ==> LeastClass(r.length, size))
            && (PathOf(size).OneArea? ==> r.length == SINGLE_AREA_SIZE)
            && (PathOf(size).MoreArea? ==> r.length == size)
  {
    if PathOf(size).OneBlock? {
      MallocBlockStep(p, t, size, reg);
      ClassOf(size);
    } else {
      MallocAreaStep(p, t, size, reg);
    }
  }

  predicate LeastClass(length: nat, size: nat) {
    && length in BUDDY_SIZE && size <= length
    && forall j :: 0 <= j < MAX_ORDER && size <= BUDDY_SIZE[j] ==> length <= BUDDY_SIZE[j]
  }

  lemma ClassOf(size: nat)
    requires PathOf(size).OneBlock?
    ensures OrderFor(size) < MAX_ORDER && LeastClass(BUDDY_SIZE[OrderFor(size)], size)
    ensures PathOf(BUDDY_SIZE[OrderFor(size)]).OneBlock?
  {
    var i := OrderFor(size);
    assert size <= BUDDY_SIZE[4];
    forall j | 0 <= j < MAX_ORDER && size <= BUDDY_SIZE[j] ensures BUDDY_SIZE[i] <= BUDDY_SIZE[j] {
      assert i <= j;
      BuddySizes(i);
      BuddySizes(j);
      Pow2Monotone(i, j);
    }
    BuddySizes(i);
    BuddySizes(4);
    Pow2Monotone(i, 4);
  }

  lemma HeldIsNotEmpty(p: Pool, r: MemRegion)
    requires Structure(p) && r in p.grants
    ensures r.length > 0
  {
    if r in p.more {
      var k :| 0 <= k < |p.more| && p.more[k] == r;
    } else {
      var k :| 0 <= k < |p.areas| && IsBlockRegion(p.areas[k].mr, r);
      BuddySizes(OrderOf(r.length));
    }
  }

  /** The address of a granted region is the address of no other held region, which is what
      lets the cache identify an object by its NVM address. */
  lemma GrantedAddressIsNew(p: Pool, t: nat, size: nat, reg: Reg, s: MemRegion)
    requires PoolInv(p) && FreshReg(p, size, reg) && Malloc(p, t, size, reg).1.Some? && s in p.grants
    ensures var r := Malloc(p, t, size, reg).1.value; r.addr != s.addr && Apart(r, s)
  {
    var (q, res) := Malloc(p, t, size, reg);
    MallocKeeps(p, t, size, reg);
    hide Malloc, PoolInv, Structure, FreshReg;
    PoolStructure(q);
    HeldApart(q, res.value, s);
    HeldIsNotEmpty(q, res.value);
    HeldIsNotEmpty(q, s);
  }

  lemma PoolStructure(p: Pool)
    requires PoolInv(p)
    ensures Structure(p)
  {
  }

  lemma MallocKeeps(p: Pool, t: nat, size: nat, reg: Reg)
    requires PoolInv(p) && FreshReg(p, size, reg) && Malloc(p, t, size, reg).1.Some?
    ensures var (q, res) := Malloc(p, t, size, reg);
            PoolInv(q) && res.value !in p.grants && q.grants == p.grants[res.value := t]
  {
    hide PoolInv, Malloc, FreshReg;
    if PathOf(size).OneBlock? {
      MallocBlockStep(p, t, size, reg);
    } else {
      MallocAreaStep(p, t, size, reg);
    }
  }

  /** An area none of whose blocks is held has its initial layout or two blocks of top order,
      whatever was allocated and freed in it before. */
  lemma IdleAreaIsWhole(p: Pool, k: nat)
    requires Structure(p) && k < |p.areas|
    requires forall r :: r in p.grants ==> r.lkey != p.areas[k].mr.lkey
    ensures p.areas[k].free == InitialLists(MAX_ORDER) || p.areas[k].free == BuddyRuns.TopLists(MAX_ORDER)
  {
    var a := p.areas[k];
    assert OutBlocks(a.mr, p.grants) == {};
    if BuddyLists.Strict(a.free, {}) {
      BuddyRuns.TopIsStrict(MAX_ORDER);
      StrictIsCanonical(a.free, BuddyRuns.TopLists(MAX_ORDER), {});
    } else {
      BuddyRuns.InitialIsPristine(MAX_ORDER);
      BuddyRuns.PristineIsCanonical(a.free, InitialLists(MAX_ORDER), {});
    }
  }
}
