/**
 The server object with its area lists, updated in place.  `pool` is its abstract
 value; every request handler is proved to change it as module NvmPool says.
 */
module NvmServer {
  import opened Wrappers
  import opened BuddyBlocks
  import opened BuddyLists
  import opened BuddyArea
  import opened NvmPool
  import opened NvmSafety

  /** The server's end of one client connection. */
  class Transport {
    const id: nat
    var nvmUsedSize: int

    constructor (id: nat)
      ensures this.id == id && nvmUsedSize == 0
    {
      this.id := id;
      nvmUsedSize := 0;
    }
  }

  ghost predicate AreaIs(a: Area, s: AreaState)
    reads a, a.blockHead
  {
    a.Built() && a.mr == s.mr && a.free == s.free
  }

  ghost predicate AreasAre(areas: seq<Area>, states: seq<AreaState>)
    reads areas, set a: Area | a in areas :: a.blockHead
  {
    |areas| == |states| && forall k :: 0 <= k < |areas| ==> AreaIs(areas[k], states[k])
  }

  /** Big areas carry no buddy system: only their registration matters. */
  ghost predicate RegionsAre(areas: seq<Area>, regions: seq<MemRegion>) {
    |areas| == |regions|
    && forall k :: 0 <= k < |areas| ==> areas[k].mr == regions[k] && areas[k].blockHead.Length == MAX_ORDER
  }

  /** No area object and no array of list heads occurs twice. */
  ghost predicate Unshared(all: seq<Area>) {
    forall i, j :: 0 <= i < j < |all| ==> all[i] != all[j] && all[i].blockHead != all[j].blockHead
  }

  ghost predicate Owned(all: seq<Area>, repr: set<object>) {
    forall i :: 0 <= i < |all| ==> all[i] in repr && all[i].blockHead in repr
  }

  class Server {
    var areaList: seq<Area>
    var moreAreaList: seq<Area>
    var curArea: Area
    ghost var pool: Pool
    ghost var repr: set<object>

    ghost predicate Represents()
      reads this, repr
    {
      && this !in repr
      && Owned(areaList + moreAreaList, repr)
      && Unshared(areaList + moreAreaList)
      && (forall k :: 0 <= k < |areaList| ==> areaList[k] in repr && areaList[k].blockHead in repr)
      && AreasAre(areaList, pool.areas)
      && RegionsAre(moreAreaList, pool.more)
      && curArea in areaList && curArea.mr.lkey == pool.cur
    }

    ghost predicate Valid()
      reads this, repr
    {
      Represents() && PoolInv(pool)
    }

    /** The allocator part of `dhmp_server_init`: one buddy area, which is current. */
    constructor (mr: MemRegion)
      requires mr.length == SINGLE_AREA_SIZE
      ensures Valid() && pool == Boot(mr) && fresh(repr)
    {
      var a := new Area(mr);
      a.maxIndex := MAX_ORDER - 1;
      a.BuildBuddySystem();
      areaList, moreAreaList, curArea := [a], [], a;
      pool := Boot(mr);
      repr := {a, a.blockHead};
      new;
      InitialServes(MAX_ORDER - 1);
      BootInv(mr);
    }

    /** `dhmp_area_create` with a buddy system. */
    method CreateBuddyArea(mr: MemRegion)
      requires Represents() && mr.length == SINGLE_AREA_SIZE
      modifies this`areaList, this`pool, this`repr
      ensures Represents() && fresh(repr - old(repr)) && |areaList| == |pool.areas|
      ensures pool == AddBuddyArea(old(pool), mr)
    {
      var a := new Area(mr);
      a.maxIndex := MAX_ORDER - 1;
      a.BuildBuddySystem();
      InitialServes(MAX_ORDER - 1);
      PushArea(a);
    }

    /** `list_add` of a built area to the area list. */
    method PushArea(a: Area)
      requires Represents() && a.Built() && a.free == InitialLists(MAX_ORDER)
      requires a !in areaList + moreAreaList && forall b :: b in areaList + moreAreaList ==> b.blockHead != a.blockHead
      requires a as object != this && a.blockHead as object != this
      modifies this`areaList, this`pool, this`repr
      ensures Represents() && repr == old(repr) + {a, a.blockHead}
      ensures pool == AddBuddyArea(old(pool), a.mr)
    {
      ghost var all := areaList + moreAreaList;
      assert AreaIs(a, AreaState(a.mr, InitialLists(MAX_ORDER)));
      hide AreaIs, InitialLists;
      areaList := [a] + areaList;
      assert areaList + moreAreaList == [a] + all;
      pool := AddBuddyArea(pool, a.mr);
      repr := repr + {a, a.blockHead};
    }

    method MakeCurrent(k: nat)
      requires Represents() && k < |areaList|
      modifies this`curArea, this`pool
      ensures Represents() && curArea == areaList[k]
      ensures pool == old(pool).(cur := old(pool).areas[k].mr.lkey)
    {
      assert AreaIs(areaList[k], pool.areas[k]);
      hide AreaIs;
      curArea := areaList[k];
      pool := pool.(cur := curArea.mr.lkey);
    }

    /** Position of the first area whose largest block is big enough. */
    method FindAble(index: nat) returns (k: nat)
      requires Represents()
      ensures k == FirstAble(pool.areas, index) && |areaList| == |pool.areas|
      ensures k < |areaList| ==> areaList[k].maxIndex >= index
      ensures forall j :: 0 <= j < k ==> areaList[j].maxIndex < index
    {
      k := 0;
      while k < |areaList| && areaList[k].maxIndex < index
        invariant k <= |areaList|
        invariant forall j :: 0 <= j < k ==> areaList[j].maxIndex < index
        invariant forall j :: 0 <= j < k ==> MaxIndex(pool.areas[j].free) < index
      {
        assert AreaIs(areaList[k], pool.areas[k]);
        k := k + 1;
      }
      assert k < |areaList| ==> AreaIs(areaList[k], pool.areas[k]);
      FirstAbleIs(pool.areas, index, k);
    }

    method CurCanServe(index: nat) returns (able: bool, ghost k: nat)
      requires Valid()
      ensures k == FindArea(pool.areas, pool.cur) < |pool.areas| == |areaList| && areaList[k] == curArea
      ensures able <==> MaxIndex(pool.areas[k].free) >= index
      ensures able <==> curArea.maxIndex >= index
    {
      k :| 0 <= k < |areaList| && areaList[k] == curArea;
      assert AreaIs(areaList[k], pool.areas[k]);
      CurPosition(pool, k);
      able := curArea.maxIndex >= index;
    }

    /** The choice of area: the current one, the first that can serve, or a new one. */
    method PickArea(index: nat, reg: Reg) returns (found: bool, ghost k: nat)
      requires Valid() && index < MAX_ORDER
      modifies this`areaList, this`curArea, this`pool, this`repr
      ensures Represents() && fresh(repr - old(repr))
      ensures found ==> k < |areaList| && areaList[k] == curArea
      ensures Picked(old(pool), index, reg, found, k, pool)
      ensures old(curArea.maxIndex) >= index ==> found && curArea == old(curArea) && areaList == old(areaList)
      ensures old(curArea.maxIndex) < index && found && areaList == old(areaList) ==>
        old(areaList[k].maxIndex) >= index && forall j :: 0 <= j < k ==> old(areaList[j].maxIndex) < index
      ensures !found || areaList != old(areaList) ==>
        forall j :: 0 <= j < |old(areaList)| ==> old(areaList[j].maxIndex) < index
    {
      hide PoolInv, AreaIs, InitialLists, MaxIndex, FirstAble, FindArea;
      found, k := CurCanServe(index);
      assert Represents();
      hide Represents;
      if found {
        return;
      }
      var f := FindAble(index);
      if f < |areaList| {
        MakeCurrent(f);
        return true, f;
      }
      if reg.RegFails? {
        return;
      }
      CreateBuddyArea(MemRegion(reg.addr, SINGLE_AREA_SIZE, reg.lkey));
      MakeCurrent(0);
      return true, 0;
    }

    /** Take one block of this order from the current area. */
    method TakeBlockFromCur(ghost k: nat, index: nat) returns (res: Option<MemRegion>)
      requires Represents() && k < |areaList| && areaList[k] == curArea && index < MAX_ORDER
      requires curArea as object in repr && curArea.blockHead as object in repr
      modifies this`pool, curArea, curArea.blockHead
      ensures Represents()
      ensures (pool, res) == TakeBlock(old(pool), k, index)
    {
      hide InitialLists, MaxIndex, FirstNonEmpty, Pow2;
      ghost var p, a := pool, curArea;
      assert AreaIs(areaList[k], p.areas[k]);
      var blk := curArea.GetFreeBlock(index);
      assert AreaIs(a, AreaState(a.mr, a.free));
      pool := TakeBlock(p, k, index).0;
      forall j | 0 <= j < |areaList| ensures AreaIs(areaList[j], pool.areas[j]) {
        if j != k { ApartInList(areaList, moreAreaList, j, k); }
      }
      match blk
      case None => res := None;
      case Some(b) => res := Some(MemRegion(b.addr, b.size, b.lkey));
    }

    ghost predicate CurOwned()
      reads this
    {
      curArea as object in repr && curArea.blockHead as object in repr
    }

    lemma CurIsOwned()
      requires Represents()
      ensures CurOwned()
    {
    }

    /** The class of a block request. */
    method ClassOfSize(size: nat) returns (index: nat)
      requires PathOf(size).OneBlock?
      ensures index == OrderFor(size) < MAX_ORDER
    {
      index := 0;
      assert size <= BUDDY_SIZE[4];
      while index < MAX_ORDER && size > BUDDY_SIZE[index]
        invariant 0 <= index <= 4
        invariant OrderFor(size) == OrderFor(size, index)
      {
        index := index + 1;
      }
    }

    method MallocOneBlock(size: nat, reg: Reg) returns (res: Option<MemRegion>)
      requires Valid() && PathOf(size).OneBlock?
      modifies this, repr
      ensures Represents() && fresh(repr - old(repr))
      ensures (pool, res) == NvmPool.MallocOneBlock(old(pool), size, reg)
    {
      hide PoolInv, Represents, MaxIndex, InitialLists;
      var index := ClassOfSize(size);
      var found, k := PickArea(index, reg);
      if !found {
        return None;
      }
      CurIsOwned();
      res := TakeBlockFromCur(k, index);
    }

    /** `dhmp_area_create` without a buddy system, and the answer built from it. */
    method MallocMoreArea(length: nat, reg: Reg) returns (res: Option<MemRegion>)
      requires Represents()
      modifies this`moreAreaList, this`pool, this`repr
      ensures Represents() && fresh(repr - old(repr))
      ensures (pool, res) == NvmPool.MallocMoreArea(old(pool), length, reg)
    {
      hide AreaIs;
      if reg.RegFails? {
        return None;
      }
      var a := new Area(MemRegion(reg.addr, length, reg.lkey));
      ghost var all, n := areaList + moreAreaList, |areaList|;
      moreAreaList := [a] + moreAreaList;
      assert areaList + moreAreaList == all[..n] + [a] + all[n..];
      pool := pool.(more := [a.mr] + pool.more);
      repr := repr + {a, a.blockHead};
      res := Some(a.mr);
    }

    ghost method SetAccounts(grants: map<MemRegion, nat>, used: map<nat, int>)
      requires Represents()
      modifies this`pool
      ensures Represents() && pool == old(pool).(grants := grants, used := used)
    {
      hide AreaIs;
      pool := pool.(grants := grants, used := used);
    }

    /** The malloc request handler; the reply is the returned region, or the error message. */
    method MallocRequestHandler(trans: Transport, size: nat, reg: Reg) returns (res: Option<MemRegion>)
      requires Valid() && trans as object !in repr && trans as object != this
      requires FreshReg(pool, size, reg)
      requires trans.nvmUsedSize == Counter(pool.used, trans.id)
      modifies this, repr, trans
      ensures Valid() && fresh(repr - old(repr))
      ensures (pool, res) == Malloc(old(pool), trans.id, size, reg)
      ensures trans.nvmUsedSize == Counter(pool.used, trans.id)
    {
      hide PoolInv, Represents, NvmPool.MallocOneBlock, NvmPool.MallocMoreArea, FreshReg;
      ServeKeepsInv(pool, MallocRequest(trans.id, size, reg));
      if size <= BUDDY_SIZE[MAX_ORDER - 1] {
        res := MallocOneBlock(size, reg);
      } else if size <= SINGLE_AREA_SIZE {
        res := MallocMoreArea(SINGLE_AREA_SIZE, reg);
      } else {
        res := MallocMoreArea(size, reg);
      }
      if res.Some? {
        trans.nvmUsedSize := trans.nvmUsedSize + res.value.length;
        ghost var q := Charge(pool, trans.id, res.value);
        SetAccounts(q.grants, q.used);
      }
    }

    /** `dhmp_free_one_block`: find the area by key and give the block back; an unknown key is
        ignored. */
    method FreeOneBlock(r: MemRegion)
      requires Represents() && DefinedFree(pool, r) && PathOf(r.length).OneBlock?
      modifies this`pool, repr
      ensures Represents()
      ensures pool == NvmPool.FreeOneBlock(old(pool), r)
    {
      hide AreaIs, MaxIndex, InitialLists;
      var k := 0;
      while k < |areaList| && r.lkey != areaList[k].mr.lkey
        invariant 0 <= k <= |areaList|
        invariant forall j :: 0 <= j < k ==> pool.areas[j].mr.lkey != r.lkey
        modifies {}
      {
        MrOf(k);
        k := k + 1;
      }
      if k < |areaList| {
        MrOf(k);
        FindAreaIs(pool.areas, r.lkey, k);
        ReturnToArea(k, r);
      } else {
        FindAreaIs(pool.areas, r.lkey, k);
      }
    }

    lemma MrOf(k: nat)
      requires Represents() && k < |areaList|
      ensures areaList[k].mr == pool.areas[k].mr
    {
      assert AreaIs(areaList[k], pool.areas[k]);
    }

    method ReturnToArea(k: nat, r: MemRegion)
      requires Represents() && k < |areaList| && FindArea(pool.areas, r.lkey) == k
      requires IsBlockRegion(areaList[k].mr, r)
      requires Aligned(BlockOf(areaList[k].mr, r).off, BlockOf(areaList[k].mr, r).order)
      modifies this`pool, areaList[k], areaList[k].blockHead
      ensures Represents()
      ensures pool == NvmPool.FreeOneBlock(old(pool), r)
    {
      hide InitialLists, MaxIndex, Pow2, Aligned;
      ghost var p, a := pool, areaList[k];
      ghost var b := BlockOf(a.mr, r);
      assert AreaIs(areaList[k], p.areas[k]);
      RegionOfBlockOf(a.mr, r);
      areaList[k].ReturnBlock(b.off, b.order, r.addr, r.length);
      assert AreaIs(a, AreaState(a.mr, a.free));
      pool := NvmPool.FreeOneBlock(p, r);
      assert pool.areas[k] == AreaState(a.mr, a.free);
      forall j | 0 <= j < |areaList| ensures AreaIs(areaList[j], pool.areas[j]) {
        if j != k { ApartInList(areaList, moreAreaList, j, k); }
      }
    }

    /** The walk along `more_area_list`. */
    method FindBig(r: MemRegion) returns (k: nat)
      requires Represents()
      ensures k == FindMore(pool.more, r.lkey) <= |moreAreaList| == |pool.more|
    {
      hide AreaIs;
      k := 0;
      while k < |moreAreaList| && r.lkey != moreAreaList[k].mr.lkey
        invariant 0 <= k <= |moreAreaList|
        invariant forall j :: 0 <= j < k ==> pool.more[j].lkey != r.lkey
      {
        k := k + 1;
      }
      FindMoreIs(pool.more, r.lkey, k);
    }

    /** `list_del` of a big area. */
    method UnlinkBig(k: nat) returns (a: Area)
      requires Represents() && k < |moreAreaList|
      modifies this`moreAreaList, this`pool
      ensures Represents()
      ensures k < |old(pool).more| && pool == old(pool).(more := Without(old(pool).more, k))
      ensures a.mr == old(pool).more[k] && a.blockHead.Length == MAX_ORDER
      ensures a as object in repr && a.blockHead as object in repr
      ensures a !in areaList + moreAreaList
      ensures forall b :: b in areaList + moreAreaList ==> b.blockHead != a.blockHead
    {
      hide AreaIs;
      a := moreAreaList[k];
      ghost var all, n := areaList + moreAreaList, |areaList| + k;
      assert all[n] == a;
      moreAreaList := moreAreaList[..k] + moreAreaList[k + 1..];
      assert areaList + moreAreaList == all[..n] + all[n + 1..];
      pool := pool.(more := Without(pool.more, k));
      assert RegionsAre(moreAreaList, pool.more);
      UnsharedWithout(all, n);
    }

    /** `dhmp_free_one_area`: the area joins the buddy areas unless the lists cannot be built. */
    method FreeOneArea(r: MemRegion, rebuilt: bool)
      requires Represents() && DefinedFree(pool, r) && PathOf(r.length).OneArea?
      modifies this, repr
      ensures Represents() && repr == old(repr)
      ensures pool == NvmPool.FreeOneArea(old(pool), r, rebuilt)
    {
      hide AreaIs, MaxIndex, InitialLists;
      var k := FindBig(r);
      var a := UnlinkBig(k);
      if rebuilt {
        a.BuildBuddySystem();
        a.maxIndex := MAX_ORDER - 1;
        BuiltFresh(a);
        PushArea(a);
      }
    }

    /** `dhmp_free_more_area` */
    method FreeMoreArea(r: MemRegion)
      requires Represents() && DefinedFree(pool, r) && PathOf(r.length).MoreArea?
      modifies this, repr
      ensures Represents() && repr == old(repr)
      ensures pool == NvmPool.FreeMoreArea(old(pool), r)
    {
      var k := FindBig(r);
      var a := UnlinkBig(k);
    }

    /** The NVM part of the free request handler: what the sender holds goes back to the pool. */
    method FreeRequestHandler(trans: Transport, r: MemRegion, rebuilt: bool)
      requires Represents() && DefinedFree(pool, r) && trans as object !in repr && trans as object != this
      requires trans.nvmUsedSize == Counter(pool.used, trans.id)
      modifies this, repr, trans
      ensures Represents()
      ensures pool == FreeRegion(old(pool), trans.id, r, rebuilt)
      ensures trans.nvmUsedSize == Counter(pool.used, trans.id)
      ensures old(Valid()) && r in old(pool).grants && old(pool).grants[r] == trans.id ==> Valid()
    {
      hide PoolInv, Represents, NvmPool.FreeOneBlock, NvmPool.FreeOneArea, DefinedFree;
      if PoolInv(pool) && r in pool.grants && pool.grants[r] == trans.id {
        ServeKeepsInv(pool, FreeRequest(trans.id, r, rebuilt));
      }
      trans.nvmUsedSize := trans.nvmUsedSize - r.length;
      if r.length <= BUDDY_SIZE[MAX_ORDER - 1] {
        FreeOneBlock(r);
      } else if r.length <= SINGLE_AREA_SIZE {
        FreeOneArea(r, rebuilt);
      } else {
        FreeMoreArea(r);
      }
      ghost var q := Discharge(pool, trans.id, r);
      SetAccounts(q.grants, q.used);
    }
  }

  /** The source's behaviour on this free is defined: a length of a block class comes with a key
      of no area or with a block of the area that has it, a larger one with the key of a large
      region. */
  ghost predicate DefinedFree(p: Pool, r: MemRegion) {
    if PathOf(r.length).OneBlock? then
      var k := FindArea(p.areas, r.lkey);
      k < |p.areas| ==> IsBlockRegion(p.areas[k].mr, r)
                        && Aligned(BlockOf(p.areas[k].mr, r).off, BlockOf(p.areas[k].mr, r).order)
    else FindMore(p.more, r.lkey) < |p.more|
  }

  /** Freeing what is outstanding is always defined. */
  lemma OutstandingIsDefined(p: Pool, r: MemRegion)
    requires PoolInv(p) && r in p.grants
    ensures DefinedFree(p, r)
  {
    if PathOf(r.length).OneBlock? {
      var k := GrantedBlock(p, r);
    } else {
      var k := GrantedBig(p, r);
    }
  }

  lemma FindAreaIs(areas: seq<AreaState>, lkey: nat, k: nat)
    requires k <= |areas| && (k < |areas| ==> areas[k].mr.lkey == lkey)
    requires forall j :: 0 <= j < k ==> areas[j].mr.lkey != lkey
    ensures FindArea(areas, lkey) == k
  {
    var f := FindArea(areas, lkey);
    assert f < |areas| ==> areas[f].mr.lkey == lkey;
  }

  lemma FindMoreIs(more: seq<MemRegion>, lkey: nat, k: nat)
    requires k <= |more| && (k < |more| ==> more[k].lkey == lkey)
    requires forall j :: 0 <= j < k ==> more[j].lkey != lkey
    ensures FindMore(more, lkey) == k
  {
    var f := FindMore(more, lkey);
    assert f < |more| ==> more[f].lkey == lkey;
  }

  lemma UnsharedWithout(all: seq<Area>, n: nat)
    requires Unshared(all) && n < |all|
    ensures var rest := all[..n] + all[n + 1..];
            && Unshared(rest)
            && all[n] !in rest
            && (forall b :: b in rest ==> b.blockHead != all[n].blockHead)
  {
    var rest := all[..n] + all[n + 1..];
    forall i | 0 <= i < |rest| ensures rest[i] != all[n] && rest[i].blockHead != all[n].blockHead {
      assert rest[i] == all[if i < n then i else i + 1];
    }
    forall i, j | 0 <= i < j < |rest| ensures rest[i] != rest[j] && rest[i].blockHead != rest[j].blockHead {
      assert rest[i] == all[if i < n then i else i + 1];
      assert rest[j] == all[if j < n then j else j + 1];
    }
  }

  lemma BuiltFresh(a: Area)
    requires a.Represents() && a.free == InitialLists(MAX_ORDER) && a.maxIndex == MAX_ORDER - 1
    ensures a.Built()
  {
    InitialServes(MAX_ORDER - 1);
  }

  lemma GrantedBlock(p: Pool, r: MemRegion) returns (k: nat)
    requires PoolInv(p) && r in p.grants && PathOf(r.length).OneBlock?
    ensures k < |p.areas| && FindArea(p.areas, r.lkey) == k && r.lkey == p.areas[k].mr.lkey
    ensures IsBlockRegion(p.areas[k].mr, r) && Fits(BlockOf(p.areas[k].mr, r), MAX_ORDER)
  {
    GrantedRegion(p, r);
    k :| 0 <= k < |p.areas| && IsBlockRegion(p.areas[k].mr, r);
    FindAreaUnique(p, k);
    OutstandingBlock(p, k, r);
  }

  lemma GrantedBig(p: Pool, r: MemRegion) returns (k: nat)
    requires PoolInv(p) && r in p.grants && !PathOf(r.length).OneBlock?
    ensures k < |p.more| && p.more[k] == r && FindMore(p.more, r.lkey) == k
  {
    GrantedRegion(p, r);
    k :| 0 <= k < |p.more| && p.more[k] == r;
    FindMoreUnique(p, k);
  }

  /** Two areas at different positions share neither object nor array. */
  lemma ApartInList(areas: seq<Area>, more: seq<Area>, j: nat, k: nat)
    requires Unshared(areas + more) && j < |areas| && k < |areas| && j != k
    ensures areas[j] != areas[k] && areas[j].blockHead != areas[k].blockHead
  {
    var all := areas + more;
    assert all[j] == areas[j] && all[k] == areas[k];
  }

  lemma {:induction false} FirstAbleIs(areas: seq<AreaState>, index: nat, k: nat)
    requires k <= |areas| && (forall j :: 0 <= j < k ==> MaxIndex(areas[j].free) < index)
    requires k < |areas| ==> MaxIndex(areas[k].free) >= index
    ensures FirstAble(areas, index) == k
  {
    var f := FirstAble(areas, index);
    assert f < |areas| ==> MaxIndex(areas[f].free) >= index;
  }

  lemma CurPosition(p: Pool, c: nat)
    requires PoolInv(p) && c < |p.areas| && p.areas[c].mr.lkey == p.cur
    ensures FindArea(p.areas, p.cur) == c
  {
    FindAreaUnique(p, c);
  }

  /** What picking an area means for the pool. */
  ghost predicate Picked(p: Pool, index: nat, reg: Reg, found: bool, k: nat, q: Pool) {
    var c := ChooseArea(p, index);
    if c < |p.areas| then found && k == c && q == p.(cur := p.areas[c].mr.lkey)
    else if reg.RegFails? then !found && q == p
    else
      var mr := MemRegion(reg.addr, SINGLE_AREA_SIZE, reg.lkey);
      found && k == 0 && q == AddBuddyArea(p, mr).(cur := mr.lkey)
  }
}
