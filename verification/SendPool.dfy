/**
 The client's pool of registered staging buffers, shared by the work thread, which takes
 a buffer for every transfer, and the completion thread, which puts it back when a write
 has completed.
 */
module SendPool {
  import opened Wrappers

  const RDMA_SEND_THRESHOLD: nat := 2097152

  datatype Buf = Buf(id: nat, capacity: nat)

  datatype Kind = Read | Write

  /** A posted transfer; `buf` is its pooled buffer, None if it works on the caller's memory. */
  datatype Op = Op(kind: Kind, length: nat, buf: Option<Buf>)

  /** `created` counts the pooled buffers ever made (their ids are 0..created); `lost` holds
      those that no list and no transfer refers to any more. */
  datatype Pool = Pool(list: seq<Buf>, ops: map<nat, Op>, created: nat, lost: seq<Buf>)

  // ---------- the list ----------

  /** Position of the first buffer that is big enough, or the length of the list. */
  function FirstFit(list: seq<Buf>, length: nat): (k: nat)
    ensures k <= |list| && (k < |list| ==> list[k].capacity >= length)
    ensures forall j :: 0 <= j < k ==> list[j].capacity < length
  {
    if list == [] || list[0].capacity >= length then 0 else 1 + FirstFit(list[1..], length)
  }

  /** The buffer for a pooled transfer: the first that fits, else a new one of exactly that size. */
  function TakeFrom(list: seq<Buf>, created: nat, length: nat): (seq<Buf>, nat, Buf) {
    var k := FirstFit(list, length);
    if k < |list| then (list[..k] + list[k + 1..], created, list[k])
    else (list, created + 1, Buf(created, length))
  }

  function Take(p: Pool, length: nat): (Pool, Buf) {
    var (list, created, b) := TakeFrom(p.list, p.created, length);
    (p.(list := list, created := created), b)
  }

  // ---------- the two threads ----------

  /** How far the start of a transfer gets: it is posted, the post fails, or already the task
      that describes it cannot be allocated. */
  datatype Outcome = Posted | PostFails | TaskFails

  /** Whether the descriptor, and the memory and registration of a new buffer, can be had. */
  datatype Supply = Supply(descriptor: bool, memory: bool)

  datatype Event =
    | Post(id: nat, kind: Kind, length: nat, supply: Supply, outcome: Outcome)
    | Complete(id: nat)
    | CompleteError(id: nat)

  /** `dhmp_get_mr_from_send_list` returns something; a long transfer always registers memory. */
  predicate Obtains(p: Pool, length: nat, supply: Supply) {
    supply.descriptor
    && (supply.memory || (length <= RDMA_SEND_THRESHOLD && FirstFit(p.list, length) < |p.list|))
  }

  /** Only starts that leave the process alive: setting up the task follows the pointer that was
      obtained, and a write that cannot be posted exits. */
  predicate Enabled(p: Pool, e: Event) {
    match e
    case Post(id, kind, length, supply, outcome) =>
      && id !in p.ops
      && (outcome.TaskFails? || Obtains(p, length, supply))
      && (kind.Write? ==> !outcome.PostFails?)
    case Complete(id) => id in p.ops
    case CompleteError(id) => id in p.ops
  }

  /** A transfer up to the threshold goes through a pooled buffer, taken before the task is
      allocated; if the start fails after that, the buffer is not put back.  A completed pooled
      transfer puts its buffer in front.  A completion with an error status is only logged: that
      drops a write, which nobody waits for if it is short, and leaves any other transfer waiting. */
  function Step(p: Pool, e: Event): Pool
    requires Enabled(p, e)
  {
    match e
    case Post(id, kind, length, supply, outcome) =>
      if length > RDMA_SEND_THRESHOLD then
        (if outcome.Posted? then p.(ops := p.ops[id := Op(kind, length, None)]) else p)
      else if !Obtains(p, length, supply) then p
      else
        var (q, b) := Take(p, length);
        if outcome.Posted? then q.(ops := q.ops[id := Op(kind, length, Some(b))])
        else q.(lost := q.lost + [b])
    case Complete(id) =>
      var q := p.(ops := p.ops - {id});
      (match p.ops[id].buf
       case None => q
       case Some(b) => q.(list := [b] + q.list))
    case CompleteError(id) =>
      (match p.ops[id]
       case Op(Write, _, Some(b)) => p.(ops := p.ops - {id}, lost := p.lost + [b])
       case _ => p)
  }

  // ---------- ownership ----------

  function CountIn(list: seq<Buf>, n: nat): nat {
    if list == [] then 0 else CountIn(list[1..], n) + if list[0].id == n then 1 else 0
  }

  /** The transfers that work on buffer n. */
  function Holders(ops: map<nat, Op>, n: nat): set<nat> {
    set i | i in ops && ops[i].buf.Some? && ops[i].buf.value.id == n
  }

  /** In how many places buffer n is. */
  function Places(p: Pool, n: nat): nat {
    CountIn(p.list, n) + |Holders(p.ops, n)| + CountIn(p.lost, n)
  }

  /** Every buffer made is in exactly one place, and no other buffer anywhere. */
  ghost predicate Owned(p: Pool) {
    forall n: nat :: Places(p, n) == if n < p.created then 1 else 0
  }

  /** A transfer uses a pooled buffer iff it is short, and then the buffer is long enough. */
  predicate Fitting(p: Pool) {
    forall i :: i in p.ops ==>
      (p.ops[i].buf.Some? <==> p.ops[i].length <= RDMA_SEND_THRESHOLD)
      && (p.ops[i].buf.Some? ==> p.ops[i].buf.value.capacity >= p.ops[i].length)
  }

  ghost predicate Inv(p: Pool) { Owned(p) && Fitting(p) }

  lemma CountCons(b: Buf, list: seq<Buf>, n: nat)
    ensures CountIn([b] + list, n) == CountIn(list, n) + if b.id == n then 1 else 0
  {
    assert ([b] + list)[1..] == list;
  }

  lemma {:induction false} CountWithout(list: seq<Buf>, k: nat, n: nat)
    requires k < |list|
    ensures CountIn(list, n) == CountIn(list[..k] + list[k + 1..], n) + if list[k].id == n then 1 else 0
  {
    if k == 0 {
      assert list[..0] + list[1..] == list[1..];
    } else {
      CountWithout(list[1..], k - 1, n);
      assert list[..k] + list[k + 1..] == [list[0]] + (list[1..][..k - 1] + list[1..][k..]);
      CountCons(list[0], list[1..][..k - 1] + list[1..][k..], n);
    }
  }

  lemma {:induction false} CountAppend(list: seq<Buf>, b: Buf, n: nat)
    ensures CountIn(list + [b], n) == CountIn(list, n) + if b.id == n then 1 else 0
  {
    if list == [] {
      assert list + [b] == [b];
    } else {
      CountAppend(list[1..], b, n);
      assert (list + [b])[1..] == list[1..] + [b];
    }
  }

  lemma HoldersAdd(ops: map<nat, Op>, id: nat, op: Op, n: nat)
    requires id !in ops
    ensures |Holders(ops[id := op], n)|
         == |Holders(ops, n)| + if op.buf.Some? && op.buf.value.id == n then 1 else 0
  {
    var h := Holders(ops[id := op], n);
    if op.buf.Some? && op.buf.value.id == n {
      assert h == Holders(ops, n) + {id};
    } else {
      assert h == Holders(ops, n);
    }
  }

  lemma HoldersRemove(ops: map<nat, Op>, id: nat, n: nat)
    requires id in ops
    ensures |Holders(ops, n)|
         == |Holders(ops - {id}, n)| + if ops[id].buf.Some? && ops[id].buf.value.id == n then 1 else 0
  {
    var op, rest := ops[id], ops - {id};
    assert rest[id := op] == ops;
    HoldersAdd(rest, id, op, n);
  }

  /** Every buffer made is in exactly one place, counting b as in somebody's hand. */
  ghost predicate OwnedBut(p: Pool, b: Buf) {
    forall n: nat :: Places(p, n) + (if b.id == n then 1 else 0) == if n < p.created then 1 else 0
  }

  /** Taking leaves the buffer in hand and nowhere else. */
  lemma TakeOwned(p: Pool, length: nat, n: nat)
    requires Owned(p)
    ensures var (q, b) := Take(p, length);
            Places(q, n) + (if b.id == n then 1 else 0) == if n < q.created then 1 else 0
  {
    var k := FirstFit(p.list, length);
    assert Places(p, n) == if n < p.created then 1 else 0;
    if k < |p.list| {
      CountWithout(p.list, k, n);
    }
  }

  /** What a transfer takes: the first listed buffer that is big enough, which leaves the list;
      a new one of exactly the transfer's length only if there is none. */
  lemma TakeIsFirstFit(p: Pool, length: nat, k: nat)
    requires k <= |p.list| && (k < |p.list| ==> p.list[k].capacity >= length)
    requires forall j :: 0 <= j < k ==> p.list[j].capacity < length
    ensures Take(p, length) == if k < |p.list| then (p.(list := p.list[..k] + p.list[k + 1..]), p.list[k])
                               else (p.(created := p.created + 1), Buf(p.created, length))
  {
    var f := FirstFit(p.list, length);
    assert f == k by { assert !(f < k) && !(k < f); }
  }

  lemma TakeInHand(p: Pool, length: nat)
    ensures Owned(p) ==> OwnedBut(Take(p, length).0, Take(p, length).1)
  {
    var (q, b) := Take(p, length);
    if Owned(p) {
      forall n: nat ensures Places(q, n) + (if b.id == n then 1 else 0) == if n < q.created then 1 else 0 {
        TakeOwned(p, length, n);
      }
    }
  }

  lemma EmptyInv()
    ensures Inv(Pool([], map[], 0, []))
  {
    var p := Pool([], map[], 0, []);
    forall n: nat ensures Places(p, n) == 0 {
      assert Holders(map[], n) == {};
    }
  }

  lemma StepKeepsInv(p: Pool, e: Event)
    requires Inv(p) && Enabled(p, e)
    ensures Inv(Step(p, e))
  {
    var t := Step(p, e);
    forall n: nat ensures Places(t, n) == if n < t.created then 1 else 0 {
      assert Places(p, n) == if n < p.created then 1 else 0;
      match e {
        case Post(id, kind, length, supply, outcome) =>
          if length <= RDMA_SEND_THRESHOLD {
            var (q, b) := Take(p, length);
            TakeOwned(p, length, n);
            HoldersAdd(q.ops, id, Op(kind, length, Some(b)), n);
            CountAppend(q.lost, b, n);
          } else {
            HoldersAdd(p.ops, id, Op(kind, length, None), n);
          }
        case Complete(id) =>
          HoldersRemove(p.ops, id, n);
          if p.ops[id].buf.Some? {
            CountCons(p.ops[id].buf.value, p.list, n);
          }
        case CompleteError(id) =>
          HoldersRemove(p.ops, id, n);
          if p.ops[id].buf.Some? {
            CountAppend(p.lost, p.ops[id].buf.value, n);
          }
      }
    }
  }

  /** A finished transfer leaves its buffer in hand and nowhere else. */
  lemma ReleaseOwned(p: Pool, id: nat)
    requires Owned(p) && id in p.ops && p.ops[id].buf.Some?
    ensures OwnedBut(p.(ops := p.ops - {id}), p.ops[id].buf.value)
  {
    var q, b := p.(ops := p.ops - {id}), p.ops[id].buf.value;
    forall n: nat ensures Places(q, n) + (if b.id == n then 1 else 0) == if n < q.created then 1 else 0 {
      assert Places(p, n) == if n < p.created then 1 else 0;
      HoldersRemove(p.ops, id, n);
    }
  }

  /** A buffer put back is the one handed out next for every length it can hold. */
  lemma PutBackThenTake(list: seq<Buf>, created: nat, b: Buf, length: nat)
    ensures TakeFrom([b] + list, created, length) == (list, created, b) <==> length <= b.capacity
  {
    var all := [b] + list;
    assert all[1..] == list;
    if length <= b.capacity {
      assert all[..0] + all[1..] == list;
    } else {
      var k := FirstFit(all, length);
      assert k > 0;
      assert k < |all| ==> |all[..k] + all[k + 1..]| == |list| && (all[..k] + all[k + 1..])[0] == b;
    }
  }

  /** A transfer that has completed leaves its buffer to the next one it is big enough for. */
  lemma CompletedIsNext(p: Pool, id: nat, length: nat)
    requires Inv(p) && id in p.ops && p.ops[id].length <= RDMA_SEND_THRESHOLD
    ensures p.ops[id].buf.Some?
    ensures length <= p.ops[id].buf.value.capacity ==>
              Take(Step(p, Complete(id)), length) == (p.(ops := p.ops - {id}), p.ops[id].buf.value)
  {
    PutBackThenTake(p.list, p.created, p.ops[id].buf.value, length);
  }

  // ---------- the client object ----------

  /** `send_mr_list` and the posted transfers, as both threads update them. */
  class SendMrList {
    var list: seq<Buf>
    var ops: map<nat, Op>
    var created: nat
    ghost var lost: seq<Buf>

    ghost function Value(): Pool
      reads this
    {
      Pool(list, ops, created, lost)
    }

    constructor ()
      ensures Value() == Pool([], map[], 0, []) && Inv(Value())
    {
      list, ops, created, lost := [], map[], 0, [];
      new;
      EmptyInv();
    }

    /** The pooled branch of `dhmp_get_mr_from_send_list`. */
    method GetMr(length: nat, supply: Supply) returns (buf: Option<Buf>)
      modifies this`list, this`created
      ensures buf.Some? <==> supply.descriptor && (supply.memory || exists b :: b in old(list) && b.capacity >= length)
      ensures buf.None? ==> Value() == old(Value())
      ensures buf.Some? ==> (Value(), buf.value) == Take(old(Value()), length)
      ensures (exists b :: b in old(list) && b.capacity >= length) && buf.Some? ==>
        created == old(created)
        && exists k :: 0 <= k < |old(list)| && buf.value == old(list)[k] && buf.value.capacity >= length
                       && (forall j :: 0 <= j < k ==> old(list)[j].capacity < length)
                       && list == old(list)[..k] + old(list)[k + 1..]
      ensures (forall b :: b in old(list) ==> b.capacity < length) && buf.Some? ==>
        buf.value == Buf(old(created), length) && list == old(list) && created == old(created) + 1
      ensures buf.Some? && Owned(old(Value())) ==> OwnedBut(Value(), buf.value) && buf.value.capacity >= length
    {
      if !supply.descriptor {
        return None;
      }
      ghost var p := Value();
      hide Owned, OwnedBut, FirstFit;
      var k := 0;
      while k < |list| && list[k].capacity < length
        invariant k <= |list|
        invariant forall j :: 0 <= j < k ==> list[j].capacity < length
        modifies {}
      {
        k := k + 1;
      }
      TakeIsFirstFit(p, length, k);
      TakeInHand(p, length);
      hide Take;
      if k == |list| {
        if !supply.memory {
          return None;
        }
        buf := Some(Buf(created, length));
        created := created + 1;
      } else {
        buf := Some(list[k]);
        list := list[..k] + list[k + 1..];
      }
    }

    /** `list_add` of a buffer in hand: nothing is in hand any more and nothing else moved. */
    method PutBack(buf: Buf)
      requires OwnedBut(Value(), buf)
      modifies this`list
      ensures Owned(Value())
      ensures Value() == old(Value()).(list := [buf] + old(list))
    {
      ghost var p := Value();
      list := [buf] + list;
      forall n: nat ensures Places(Value(), n) == if n < created then 1 else 0 {
        assert Places(p, n) + (if buf.id == n then 1 else 0) == if n < created then 1 else 0;
        CountCons(buf, p.list, n);
      }
    }

    /** `dhmp_rdma_read` and `dhmp_rdma_write` up to the point where the transfer is posted or
        given up; true means that it is under way. */
    method Start(id: nat, kind: Kind, length: nat, supply: Supply, outcome: Outcome) returns (started: bool)
      requires Inv(Value()) && Enabled(Value(), Post(id, kind, length, supply, outcome))
      modifies this
      ensures Value() == Step(old(Value()), Post(id, kind, length, supply, outcome)) && Inv(Value())
      ensures started <==> outcome.Posted?
      ensures if started then ops.Keys == old(ops).Keys + {id} && ops - {id} == old(ops)
                              && ops[id].kind == kind && ops[id].length == length
              else ops == old(ops)
    {
      hide Inv, Owned, OwnedBut, FirstFit;
      StepKeepsInv(Value(), Post(id, kind, length, supply, outcome));
      var buf := None;
      if length <= RDMA_SEND_THRESHOLD {
        buf := GetMr(length, supply);
      }
      if outcome == TaskFails || outcome == PostFails {
        if buf.Some? {
          lost := lost + [buf.value];
        }
        return false;
      }
      ops := ops[id := Op(kind, length, buf)];
      return true;
    }

    /** The completion handler for an error status. */
    method Drop(id: nat)
      requires Inv(Value()) && Enabled(Value(), CompleteError(id))
      modifies this
      ensures Value() == Step(old(Value()), CompleteError(id)) && Inv(Value())
      ensures list == old(list) && created == old(created)
      ensures ops == if old(ops)[id].kind == Write && old(ops)[id].length <= RDMA_SEND_THRESHOLD then old(ops) - {id} else old(ops)
    {
      StepKeepsInv(Value(), CompleteError(id));
      var op := ops[id];
      if op.kind == Write && op.buf.Some? {
        ops := ops - {id};
        lost := lost + [op.buf.value];
      }
    }

    /** The completion handler for a write, and what a read does once it is done. */
    method Finish(id: nat)
      requires Inv(Value()) && Enabled(Value(), Complete(id))
      modifies this
      ensures Value() == Step(old(Value()), Complete(id)) && Inv(Value())
      ensures ops == old(ops) - {id} && created == old(created)
      ensures var op := old(ops)[id];
              if op.length <= RDMA_SEND_THRESHOLD then op.buf.Some? && list == [op.buf.value] + old(list) else list == old(list)
    {
      StepKeepsInv(Value(), Complete(id));
      var op := ops[id];
      if op.length <= RDMA_SEND_THRESHOLD {
        ReleaseOwned(Value(), id);
        ops := ops - {id};
        PutBack(op.buf.value);
      } else {
        ops := ops - {id};
      }
    }
  }

  // ---------- whole runs ----------

  ghost predicate IsRun(ps: seq<Pool>, es: seq<Event>) {
    && |ps| == |es| + 1
    && ps[0] == Pool([], map[], 0, [])
    && forall i :: 0 <= i < |es| ==> Enabled(ps[i], es[i]) && ps[i + 1] == Step(ps[i], es[i])
  }

  lemma {:induction false} EveryRunKeepsInv(ps: seq<Pool>, es: seq<Event>, i: nat)
    requires IsRun(ps, es) && i < |ps|
    ensures Inv(ps[i])
  {
    if i == 0 {
      EmptyInv();
    } else {
      EveryRunKeepsInv(ps, es, i - 1);
      hide Inv, Enabled, Step;
      assert ps[i - 1 + 1] == Step(ps[i - 1], es[i - 1]);
      StepKeepsInv(ps[i - 1], es[i - 1]);
    }
  }

  /** Over any interleaving of transfers and completions no two transfers share a buffer, no
      buffer in use is in the list, and each is as long as its transfer. */
  lemma NeverSharedInRun(ps: seq<Pool>, es: seq<Event>, i: nat, a: nat, b: nat)
    requires IsRun(ps, es) && i < |ps| && a in ps[i].ops && ps[i].ops[a].buf.Some?
    ensures ps[i].ops[a].buf.value.capacity >= ps[i].ops[a].length
    ensures CountIn(ps[i].list, ps[i].ops[a].buf.value.id) == 0
    ensures a != b && b in ps[i].ops && ps[i].ops[b].buf.Some?
            ==> ps[i].ops[b].buf.value.id != ps[i].ops[a].buf.value.id
  {
    EveryRunKeepsInv(ps, es, i);
    var p := ps[i];
    var n := p.ops[a].buf.value.id;
    var h := Holders(p.ops, n);
    assert a in h;
    assert Places(p, n) <= 1;
    if a != b && b in h {
      TwoElements(h, a, b);
    }
  }

  lemma TwoElements(h: set<nat>, a: nat, b: nat)
    requires a in h && b in h && a != b
    ensures |h| >= 2
  {
    assert |h - {a}| == |h| - 1 && |h - {a} - {b}| == |h| - 2;
  }

  /** The events that lose a buffer: the start of a short transfer fails although its buffer
      was obtained, or a short write completes with an error. */
  predicate Loses(p: Pool, e: Event) {
    match e
    case Post(id, kind, length, supply, outcome) =>
      !outcome.Posted? && length <= RDMA_SEND_THRESHOLD && Obtains(p, length, supply)
    case Complete(id) => false
    case CompleteError(id) => id in p.ops && p.ops[id].kind.Write? && p.ops[id].length <= RDMA_SEND_THRESHOLD
  }

  function CountLosses(ps: seq<Pool>, es: seq<Event>): nat
    requires |ps| == |es| + 1
    decreases |es|
  {
    if es == [] then 0
    else
      var n := |es| - 1;
      CountLosses(ps[..|es|], es[..n]) + if Loses(ps[n], es[n]) then 1 else 0
  }

  /** Buffers get lost at these events and nowhere else. */
  lemma {:induction false} LossesExactly(ps: seq<Pool>, es: seq<Event>)
    requires IsRun(ps, es)
    ensures |ps[|es|].lost| == CountLosses(ps, es)
    decreases |es|
  {
    if es != [] {
      var n := |es| - 1;
      LossesExactly(ps[..|es|], es[..n]);
      EveryRunKeepsInv(ps, es, n);
      LossStep(ps[n], es[n]);
      hide Inv, Step, Loses, Enabled;
      assert ps[n + 1] == Step(ps[n], es[n]);
    }
  }

  lemma LossStep(p: Pool, e: Event)
    requires Inv(p) && Enabled(p, e)
    ensures |Step(p, e).lost| == |p.lost| + if Loses(p, e) then 1 else 0
  {
    assert Take(p, 0).0.lost == p.lost;
  }

  /** A buffer in use stays with its transfer until that completes or is lost as above; so in a
      run without losses every buffer ever made is in the list or in a transfer. */
  lemma NothingLost(ps: seq<Pool>, es: seq<Event>, n: nat)
    requires IsRun(ps, es) && CountLosses(ps, es) == 0 && n < ps[|es|].created
    ensures CountIn(ps[|es|].list, n) + |Holders(ps[|es|].ops, n)| == 1
  {
    LossesExactly(ps, es);
    EveryRunKeepsInv(ps, es, |es|);
    assert Places(ps[|es|], n) == 1;
  }

  // ---------- how big the buffers are ----------

  predicate InPool(p: Pool, b: Buf) {
    b in p.list || b in p.lost || exists i :: i in p.ops && p.ops[i].buf == Some(b)
  }

  /** The start of a short transfer for which no listed buffer is big enough adds the buffer b. */
  ghost predicate Makes(p: Pool, e: Event, b: Buf) {
    && e.Post? && e.length <= RDMA_SEND_THRESHOLD && e.supply.descriptor && e.supply.memory
    && (forall x :: x in p.list ==> x.capacity < e.length)
    && b == Buf(p.created, e.length)
  }

  /** A step makes at most one buffer, and puts nothing else in circulation. */
  lemma StepMakes(p: Pool, e: Event, b: Buf)
    requires Enabled(p, e) && InPool(Step(p, e), b)
    ensures InPool(p, b) || (Makes(p, e, b) && Step(p, e).created == p.created + 1)
  {
    match e
    case Post(id, kind, length, supply, outcome) =>
      if length <= RDMA_SEND_THRESHOLD && Obtains(p, length, supply) {
        TakeIsFirstFit(p, length, FirstFit(p.list, length));
      }
    case Complete(id) =>
    case CompleteError(id) =>
  }

  /** In any run every buffer, wherever it is, was made for a transfer of exactly its capacity,
      at a moment when no listed buffer was big enough for that transfer. */
  lemma {:induction false} MadeToMeasure(ps: seq<Pool>, es: seq<Event>, i: nat, b: Buf)
    requires IsRun(ps, es) && i < |ps| && InPool(ps[i], b)
    ensures exists j :: 0 <= j < i && Makes(ps[j], es[j], b)
  {
    assert i > 0;
    hide Enabled, Step, Makes, InPool;
    assert ps[i - 1 + 1] == Step(ps[i - 1], es[i - 1]);
    StepMakes(ps[i - 1], es[i - 1], b);
    if InPool(ps[i - 1], b) {
      MadeToMeasure(ps, es, i - 1, b);
    }
  }

  /** The number of buffers grows exactly when a short transfer finds none that is big enough. */
  lemma CreatedGrows(p: Pool, e: Event)
    requires Enabled(p, e)
    ensures Step(p, e).created == p.created + if exists b :: Makes(p, e, b) then 1 else 0
  {
    if e.Post? && e.length <= RDMA_SEND_THRESHOLD && Obtains(p, e.length, e.supply) {
      var k := FirstFit(p.list, e.length);
      TakeIsFirstFit(p, e.length, k);
      if k == |p.list| {
        assert Makes(p, e, Buf(p.created, e.length));
      }
    }
  }
}
