/** Which area serves a block request, and what a request leaves alone. */
module NvmPolicy {
  import opened Wrappers
  import opened BuddyLists
  import opened BuddyArea
  import opened BuddyBlocks
  import opened NvmPool
  import opened NvmSafety

  // ---------- one request ----------

  /** The area has a block for this request. */
  predicate Serves(a: AreaState, size: nat) {
    OrderFor(size) < MAX_ORDER && Alloc(a.free, OrderFor(size)).Taken?
  }

  /** Area k answered with its next block of the order, is current, and nothing else changed. */
  predicate ServedBy(p: Pool, k: nat, size: nat, q: Pool, answer: Option<MemRegion>) {
    && k < |p.areas| == |q.areas| && Serves(p.areas[k], size) && q.areas == p.areas[k := q.areas[k]] && q.more == p.more
    && var mr, r := p.areas[k].mr, Alloc(p.areas[k].free, OrderFor(size));
    && answer == Some(MemRegion(mr.addr + UNIT * r.off, BUDDY_SIZE[OrderFor(size)], mr.lkey))
    && q.areas[k].mr == mr && q.areas[k].free == r.free && q.cur == mr.lkey
  }

  lemma ServesIs(a: AreaState, size: nat)
    requires PathOf(size).OneBlock?
    ensures Serves(a, size) <==> MaxIndex(a.free) >= OrderFor(size)
  {
    BlockOrder(size);
    BuddyRuns.MaxIndexDecides(a.free, OrderFor(size));
  }

  lemma TakenFrom(p: Pool, k: nat, size: nat, t: nat)
    requires k < |p.areas| && OrderFor(size) < MAX_ORDER && Serves(p.areas[k], size)
    ensures var (q, answer) := Granted(TakeBlock(p, k, OrderFor(size)), t); ServedBy(p, k, size, q, answer)
  {
    hide OrderFor, Alloc;
  }

  /** The current area serves as long as it can, whatever areas are in front of it. */
  lemma CurrentServesFirst(p: Pool, t: nat, size: nat, reg: Reg, k: nat)
    requires PoolInv(p) && PathOf(size).OneBlock?
    requires k < |p.areas| && p.areas[k].mr.lkey == p.cur && Serves(p.areas[k], size)
    ensures var (q, answer) := Malloc(p, t, size, reg); ServedBy(p, k, size, q, answer) && q.cur == p.cur
  {
    BlockOrder(size);
    MallocBlockIs(p, t, size, reg);
    FindAreaUnique(p, k);
    ServesIs(p.areas[k], size);
    hide PoolInv, Malloc, OrderFor, PathOf, TakeBlock, Granted, Alloc;
    TakenFrom(p, k, size, t);
  }

  /** If it cannot, the first area of the list that can serves, and becomes current. */
  lemma FirstAbleServesNext(p: Pool, t: nat, size: nat, reg: Reg, k: nat)
    requires PathOf(size).OneBlock?
    requires forall j :: 0 <= j < |p.areas| && p.areas[j].mr.lkey == p.cur ==> !Serves(p.areas[j], size)
    requires k < |p.areas| && Serves(p.areas[k], size) && forall j :: 0 <= j < k ==> !Serves(p.areas[j], size)
    ensures var (q, answer) := Malloc(p, t, size, reg); ServedBy(p, k, size, q, answer)
  {
    BlockOrder(size);
    MallocBlockIs(p, t, size, reg);
    forall j | 0 <= j < |p.areas| ensures Serves(p.areas[j], size) <==> MaxIndex(p.areas[j].free) >= OrderFor(size) {
      ServesIs(p.areas[j], size);
    }
    hide Malloc, OrderFor, PathOf, TakeBlock, Granted, Alloc, Serves, ServedBy, MaxIndex;
    TakenFrom(p, k, size, t);
    var f := FirstAble(p.areas, OrderFor(size));
    assert !(f < k) && !(k < f);
  }

  /** A new area is registered only if none can serve; it goes to the front of the list, serves
      and becomes current.  If it cannot be had the request fails and nothing changes. */
  lemma NewAreaServesLast(p: Pool, t: nat, size: nat, reg: Reg)
    requires PathOf(size).OneBlock? && forall j :: 0 <= j < |p.areas| ==> !Serves(p.areas[j], size)
    ensures var (q, answer) := Malloc(p, t, size, reg);
            match reg
            case RegFails => q == p && answer == None
            case Registered(addr, lkey) =>
              ServedBy(p.(areas := [AreaState(MemRegion(addr, SINGLE_AREA_SIZE, lkey), InitialLists(MAX_ORDER))] + p.areas),
                       0, size, q, answer)
  {
    BlockOrder(size);
    MallocBlockIs(p, t, size, reg);
    forall j | 0 <= j < |p.areas| ensures Serves(p.areas[j], size) <==> MaxIndex(p.areas[j].free) >= OrderFor(size) {
      ServesIs(p.areas[j], size);
    }
    if reg.Registered? {
      var a := AreaState(MemRegion(reg.addr, SINGLE_AREA_SIZE, reg.lkey), InitialLists(MAX_ORDER));
      InitialServes(OrderFor(size));
      ServesIs(a, size);
      hide Malloc, OrderFor, PathOf, TakeBlock, Granted, Alloc, Serves, ServedBy, MaxIndex, InitialLists;
      TakenFrom(AddBuddyArea(p, a.mr), 0, size, t);
    }
  }

  /** Larger requests take no block, and leave every area and the current one as they are. */
  lemma LargeRequestsLeaveAreas(p: Pool, t: nat, size: nat, reg: Reg)
    requires !PathOf(size).OneBlock?
    ensures var (q, answer) := Malloc(p, t, size, reg);
            && q.areas == p.areas && q.cur == p.cur
            && q.more == match reg
                         case RegFails => p.more
                         case Registered(addr, lkey) => [MemRegion(addr, NeededLength(size), lkey)] + p.more
  {
  }

  /** A freed block goes back to the area with its key, if anywhere; every other area stays, and
      so does the choice of the current one. */
  lemma FreedBlockTouchesOneArea(p: Pool, t: nat, r: MemRegion, rebuilt: bool)
    requires PathOf(r.length).OneBlock?
    ensures var q := FreeRegion(p, t, r, rebuilt);
            && q.cur == p.cur && q.more == p.more && |q.areas| == |p.areas|
            && forall j :: 0 <= j < |p.areas| ==>
                 q.areas[j].mr == p.areas[j].mr && (p.areas[j].mr.lkey != r.lkey ==> q.areas[j] == p.areas[j])
  {
    hide PathOf, Free, BlockOf, Counter;
  }

  /** A freed large region leaves its list, in which the others keep their places.  Rebuilt, it is
      a new area in front of the others; the current area stays current in any case. */
  lemma FreedRegionLeavesAreas(p: Pool, t: nat, r: MemRegion, rebuilt: bool, k: nat)
    requires PoolInv(p) && k < |p.more| && p.more[k] == r && !PathOf(r.length).OneBlock?
    ensures var q := FreeRegion(p, t, r, rebuilt);
            && q.cur == p.cur && q.more == p.more[..k] + p.more[k + 1..]
            && q.areas == (if PathOf(r.length).OneArea? && rebuilt then [AreaState(r, InitialLists(MAX_ORDER))] else [])
                          + p.areas
  {
    FindMoreUnique(p, k);
    hide PoolInv, FindMore, InitialLists, Counter;
  }

  // ---------- whole runs ----------

  /** The area that answered the last granted block request before state i, at first that of the
      server's start. */
  ghost function LastServer(ps: seq<Pool>, es: seq<Request>, boot: MemRegion, i: nat): nat
    requires i <= |es| < |ps|
  {
    if i == 0 then boot.lkey
    else
      match es[i - 1]
      case MallocRequest(t, size, reg) =>
        (match Malloc(ps[i - 1], t, size, reg).1
         case Some(r) => if PathOf(size).OneBlock? then r.lkey else LastServer(ps, es, boot, i - 1)
         case None => LastServer(ps, es, boot, i - 1))
      case FreeRequest(_, _, _) => LastServer(ps, es, boot, i - 1)
  }

  lemma FreeKeepsCurrent(p: Pool, t: nat, r: MemRegion, rebuilt: bool)
    ensures FreeRegion(p, t, r, rebuilt).cur == p.cur
  {
    hide FindArea, FindMore, BlockOf, Free, InitialLists, OrderOf, Aligned;
  }

  /** Some area answers a block request, or it fails and changes nothing. */
  lemma GrantMovesCurrent(p: Pool, t: nat, size: nat, reg: Reg)
    requires PoolInv(p) && PathOf(size).OneBlock?
    ensures var (q, answer) := Malloc(p, t, size, reg);
            match answer
            case None => q == p
            case Some(r) => q.cur == r.lkey
  {
    hide PoolInv, Serves, Malloc, PathOf;
    if k :| 0 <= k < |p.areas| && p.areas[k].mr.lkey == p.cur && Serves(p.areas[k], size) {
      CurrentServesFirst(p, t, size, reg, k);
    } else if exists k :: 0 <= k < |p.areas| && Serves(p.areas[k], size) {
      var k := FirstServer(p.areas, size);
      FirstAbleServesNext(p, t, size, reg, k);
    } else {
      NewAreaServesLast(p, t, size, reg);
    }
  }

  lemma {:induction false} FirstServer(areas: seq<AreaState>, size: nat) returns (k: nat)
    requires exists j :: 0 <= j < |areas| && Serves(areas[j], size)
    ensures k < |areas| && Serves(areas[k], size) && forall j :: 0 <= j < k ==> !Serves(areas[j], size)
    decreases |areas|
  {
    k :| 0 <= k < |areas| && Serves(areas[k], size);
    if j :| 0 <= j < k && Serves(areas[j], size) {
      assert areas[..k][j] == areas[j];
      k := FirstServer(areas[..k], size);
    }
  }

  /** In any run the current area is the one that answered the last granted block request. */
  lemma {:induction false} CurrentServedLast(ps: seq<Pool>, es: seq<Request>, boot: MemRegion, i: nat)
    requires IsRun(ps, es, boot) && i < |ps|
    ensures ps[i].cur == LastServer(ps, es, boot, i)
  {
    if i > 0 {
      CurrentServedLast(ps, es, boot, i - 1);
      EveryRunKeepsInv(ps, es, boot, i - 1);
      hide PoolInv, FreshReg, Malloc, FreeRegion, PathOf;
      assert ps[i - 1 + 1] == Serve(ps[i - 1], es[i - 1]);
      match es[i - 1]
      case MallocRequest(t, size, reg) =>
        if PathOf(size).OneBlock? {
          GrantMovesCurrent(ps[i - 1], t, size, reg);
        } else {
          LargeRequestsLeaveAreas(ps[i - 1], t, size, reg);
        }
      case FreeRequest(t, r, rebuilt) => FreeKeepsCurrent(ps[i - 1], t, r, rebuilt);
    }
  }

  /** So in any run block requests go to the area that answered the last one for as long as it has
      a block for them, whatever was allocated, freed or added to the list in between. */
  lemma BlocksStayTogether(ps: seq<Pool>, es: seq<Request>, boot: MemRegion, i: nat, t: nat, size: nat, reg: Reg, k: nat)
    requires IsRun(ps, es, boot) && i < |ps| && PathOf(size).OneBlock?
    requires k < |ps[i].areas| && ps[i].areas[k].mr.lkey == LastServer(ps, es, boot, i) && Serves(ps[i].areas[k], size)
    ensures var answer := Malloc(ps[i], t, size, reg).1;
            answer.Some? && answer.value.lkey == LastServer(ps, es, boot, i)
  {
    CurrentServedLast(ps, es, boot, i);
    EveryRunKeepsInv(ps, es, boot, i);
    hide IsRun, PoolInv, LastServer, Malloc, Serves, PathOf;
    CurrentServesFirst(ps[i], t, size, reg, k);
  }
}
