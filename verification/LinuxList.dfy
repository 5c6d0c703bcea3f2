/**
 The intrusive lists underneath the allocator, the pools and the hash tables: circular
 doubly linked lists with a head element, and hash chains whose nodes point back at the
 pointer that refers to them.  Each operation is proved against the sequence it stands for.
 */
module LinuxList {

  // ---------- circular lists ----------

  class ListHead {
    var next: ListHead?
    var prev: ListHead?

    /** A fresh element is not linked anywhere. */
    constructor ()
      ensures next == null && prev == null
    {
      next, prev := null, null;
    }
  }

  function After(i: nat, n: nat): (j: nat)
    ensures n > 0 ==> j < n
  {
    if i + 1 < n then i + 1 else 0
  }

  function Before(i: nat, n: nat): (j: int)
    ensures i < n ==> 0 <= j < n
  {
    if i == 0 then n - 1 else i - 1
  }

  predicate NoDup<T(==)>(s: seq<T>) {
    forall i, j :: 0 <= i < j < |s| ==> s[i] != s[j]
  }

  /** `ring` lists the elements in `next` order, beginning with the head; `prev` is the inverse. */
  ghost predicate Ring(ring: seq<ListHead>)
    reads ring
  {
    && ring != [] && NoDup(ring)
    && (forall i {:trigger ring[i].next} :: 0 <= i < |ring| ==> ring[i].next == ring[After(i, |ring|)])
    && (forall i {:trigger ring[i].prev} :: 0 <= i < |ring| ==> ring[i].prev == ring[Before(i, |ring|)])
  }

  function InsertAt<T>(s: seq<T>, k: nat, x: T): (r: seq<T>)
    requires k <= |s|
    ensures |r| == |s| + 1 && r[k] == x
    ensures forall i :: 0 <= i < k ==> r[i] == s[i]
    ensures forall i :: k < i < |r| ==> r[i] == s[i - 1]
  {
    s[..k] + [x] + s[k..]
  }

  function RemoveAt<T>(s: seq<T>, k: nat): (r: seq<T>)
    requires k < |s|
    ensures |r| == |s| - 1
    ensures forall i :: 0 <= i < k ==> r[i] == s[i]
    ensures forall i :: k <= i < |r| ==> r[i] == s[i + 1]
  {
    s[..k] + s[k + 1..]
  }

  lemma NotSame<T>(s: seq<T>, k: nat)
    requires NoDup(s) && k < |s|
    ensures forall i :: 0 <= i < |s| && i != k ==> s[i] != s[k]
  {
  }

  lemma NotIn<T>(s: seq<T>, x: T)
    requires x !in s
    ensures forall i :: 0 <= i < |s| ==> s[i] != x
  {
  }

  lemma InsertNoDup<T>(s: seq<T>, k: nat, x: T)
    requires NoDup(s) && k <= |s| && x !in s
    ensures NoDup(InsertAt(s, k, x))
  {
    var r := InsertAt(s, k, x);
    forall i, j | 0 <= i < j < |r| ensures r[i] != r[j] {
      assert i != k ==> r[i] == s[if i < k then i else i - 1];
      assert j != k ==> r[j] == s[if j < k then j else j - 1];
    }
  }

  lemma RemoveNoDup<T>(s: seq<T>, k: nat)
    requires NoDup(s) && k < |s|
    ensures NoDup(RemoveAt(s, k)) && s[k] !in RemoveAt(s, k)
  {
    var r := RemoveAt(s, k);
    forall i | 0 <= i < |r| ensures r[i] != s[k] {
      assert r[i] == s[if i < k then i else i + 1];
    }
    forall i, j | 0 <= i < j < |r| ensures r[i] != r[j] {
      assert r[i] == s[if i < k then i else i + 1] && r[j] == s[if j < k then j else j + 1];
    }
  }

  /** Place i of the list without element k was place `Kept(i, k)` of the list. */
  function Kept(i: nat, k: nat): nat { if i < k then i else i + 1 }

  /** Without element k every element has the neighbours it had, but for the two next to k. */
  lemma NeighboursAfterRemove<T>(s: seq<T>, k: nat, i: nat)
    requires 0 < k < |s| && i < |s| - 1
    ensures var r, n, m := RemoveAt(s, k), |s|, Kept(i, k);
            && r[i] == s[m]
            && r[After(i, n - 1)] == (if m == k - 1 then s[After(k, n)] else s[After(m, n)])
            && r[Before(i, n - 1)] == (if m == After(k, n) then s[k - 1] else s[Before(m, n)])
  {
  }

  /** With x behind element k every element has the neighbours it had, but for the two next to x. */
  lemma NeighboursAfterInsert<T>(s: seq<T>, k: nat, x: T, i: nat)
    requires k < |s| && i <= |s|
    ensures var r, n := InsertAt(s, k + 1, x), |s|;
            if i == k + 1 then
              r[i] == x && r[After(i, n + 1)] == s[After(k, n)] && r[Before(i, n + 1)] == s[k]
            else
              var m := if i <= k then i else i - 1;
              && r[i] == s[m]
              && r[After(i, n + 1)] == (if m == k then x else s[After(m, n)])
              && r[Before(i, n + 1)] == (if m == After(k, n) then x else s[Before(m, n)])
  {
  }

  /** `INIT_LIST_HEAD` */
  method InitListHead(list: ListHead)
    modifies list
    ensures Ring([list])
  {
    list.next := list;
    list.prev := list;
  }

  /** `__list_add` between two neighbours. */
  method AddBetween(entry: ListHead, prev: ListHead, next: ListHead, ghost ring: seq<ListHead>, ghost k: nat)
    requires Ring(ring) && entry !in ring
    requires k < |ring| && prev == ring[k] && next == ring[After(k, |ring|)]
    modifies entry, prev, next
    ensures Ring(InsertAt(ring, k + 1, entry))
  {
    ghost var n := |ring|;
    NotSame(ring, k);
    NotSame(ring, After(k, n));
    NotIn(ring, entry);
    hide NoDup, After, Before;
    next.prev := entry;
    entry.next := next;
    entry.prev := prev;
    prev.next := entry;
    forall m {:trigger ring[m].next} | 0 <= m < n ensures ring[m].next == if m == k then entry else ring[After(m, n)] {}
    forall m {:trigger ring[m].prev} | 0 <= m < n
      ensures ring[m].prev == if m == After(k, n) then entry else ring[Before(m, n)]
    {
    }
    RingInserted(ring, k, entry);
  }

  /** Links that are those of a ring but for x between elements k and its successor. */
  lemma RingInserted(ring: seq<ListHead>, k: nat, x: ListHead)
    requires NoDup(ring) && x !in ring && k < |ring|
    requires x.next == ring[After(k, |ring|)] && x.prev == ring[k]
    requires forall m {:trigger ring[m].next} :: 0 <= m < |ring| ==>
               ring[m].next == if m == k then x else ring[After(m, |ring|)]
    requires forall m {:trigger ring[m].prev} :: 0 <= m < |ring| ==>
               ring[m].prev == if m == After(k, |ring|) then x else ring[Before(m, |ring|)]
    ensures Ring(InsertAt(ring, k + 1, x))
  {
    var r, n := InsertAt(ring, k + 1, x), |ring|;
    InsertNoDup(ring, k + 1, x);
    hide NoDup, InsertAt, After, Before;
    forall i {:trigger r[i].next} | 0 <= i <= n ensures r[i].next == r[After(i, n + 1)] {
      NeighboursAfterInsert(ring, k, x, i);
    }
    forall i {:trigger r[i].prev} | 0 <= i <= n ensures r[i].prev == r[Before(i, n + 1)] {
      NeighboursAfterInsert(ring, k, x, i);
    }
  }

  /** `list_add`: behind element k of the list, which is the head for k = 0. */
  method ListAdd(entry: ListHead, head: ListHead, ghost ring: seq<ListHead>, ghost k: nat)
    requires Ring(ring) && entry !in ring && k < |ring| && head == ring[k]
    modifies entry, head, head.next
    ensures Ring(InsertAt(ring, k + 1, entry))
  {
    AddBetween(entry, head, head.next, ring, k);
  }

  /** `list_add_tail`: in front of element k, which means at the end for the head. */
  method ListAddTail(entry: ListHead, head: ListHead, ghost ring: seq<ListHead>, ghost k: nat)
    requires Ring(ring) && entry !in ring && k < |ring| && head == ring[k]
    modifies entry, head, head.prev
    ensures Ring(InsertAt(ring, if k == 0 then |ring| else k, entry))
  {
    AddBetween(entry, head.prev, head, ring, Before(k, |ring|));
  }

  /** `__list_del`: the two neighbours of element k are linked to each other. */
  method Unlink(prev: ListHead, next: ListHead, ghost ring: seq<ListHead>, ghost k: nat)
    requires Ring(ring) && 0 < k < |ring| && prev == ring[k - 1] && next == ring[After(k, |ring|)]
    modifies prev, next
    ensures Ring(RemoveAt(ring, k))
  {
    ghost var n := |ring|;
    NotSame(ring, After(k, n));
    NotSame(ring, k - 1);
    hide NoDup, After, Before;
    next.prev := prev;
    prev.next := next;
    forall m {:trigger ring[m].next} | 0 <= m < n
      ensures ring[m].next == ring[if m == k - 1 then After(k, n) else After(m, n)]
    {
    }
    forall m {:trigger ring[m].prev} | 0 <= m < n
      ensures ring[m].prev == ring[if m == After(k, n) then k - 1 else Before(m, n)]
    {
    }
    RingRemoved(ring, k);
  }

  /** Links that are those of a ring but pass over element k. */
  lemma RingRemoved(ring: seq<ListHead>, k: nat)
    requires NoDup(ring) && 0 < k < |ring|
    requires forall m {:trigger ring[m].next} :: 0 <= m < |ring| ==>
               ring[m].next == ring[if m == k - 1 then After(k, |ring|) else After(m, |ring|)]
    requires forall m {:trigger ring[m].prev} :: 0 <= m < |ring| ==>
               ring[m].prev == ring[if m == After(k, |ring|) then k - 1 else Before(m, |ring|)]
    ensures Ring(RemoveAt(ring, k))
  {
    var r, n := RemoveAt(ring, k), |ring|;
    RemoveNoDup(ring, k);
    hide NoDup, RemoveAt, After, Before;
    forall i {:trigger r[i].next} | 0 <= i < n - 1 ensures r[i].next == r[After(i, n - 1)] {
      NeighboursAfterRemove(ring, k, i);
    }
    forall i {:trigger r[i].prev} | 0 <= i < n - 1 ensures r[i].prev == r[Before(i, n - 1)] {
      NeighboursAfterRemove(ring, k, i);
    }
  }

  /** `list_del`: the links of the removed element are poisoned. */
  method ListDel(entry: ListHead, ghost ring: seq<ListHead>, ghost k: nat)
    requires Ring(ring) && 0 < k < |ring| && entry == ring[k]
    modifies entry, entry.prev, entry.next
    ensures Ring(RemoveAt(ring, k))
    ensures entry.next == null && entry.prev == null && entry !in RemoveAt(ring, k)
  {
    RemoveNoDup(ring, k);
    assert entry.prev == ring[k - 1];
    Unlink(entry.prev, entry.next, ring, k);
    hide Ring, RemoveAt, NoDup;
    entry.next := null;
    entry.prev := null;
  }

  /** `list_empty` */
  method ListEmpty(head: ListHead, ghost ring: seq<ListHead>) returns (empty: bool)
    requires Ring(ring) && head == ring[0]
    ensures empty <==> ring[1..] == []
  {
    empty := head.next == head;
  }

  /** What the two insertions and the removal mean for the entries behind the head. */
  lemma EntriesAfter(ring: seq<ListHead>, entry: ListHead, k: nat)
    requires ring != []
    ensures InsertAt(ring, 1, entry)[1..] == [entry] + ring[1..]
    ensures InsertAt(ring, |ring|, entry)[1..] == ring[1..] + [entry]
    ensures 0 < k < |ring| ==> RemoveAt(ring, k)[1..] == ring[1..k] + ring[k + 1..]
    ensures 0 < k < |ring| ==> RemoveAt(InsertAt(ring, k, entry), k) == ring
  {
  }

  /** Moving an entry from one list to the front of another, as the free of a whole area does,
      changes those two lists and no third one. */
  method MoveToFront(entry: ListHead, to: ListHead, ghost source: seq<ListHead>, ghost k: nat,
                     ghost target: seq<ListHead>, ghost third: seq<ListHead>)
    requires Ring(source) && Ring(target) && Ring(third)
    requires 0 < k < |source| && entry == source[k] && to == target[0]
    requires forall x :: x in source ==> x !in target && x !in third
    requires forall x :: x in target ==> x !in third
    modifies entry, entry.prev, entry.next, to, to.next
    ensures Ring(RemoveAt(source, k)) && Ring(InsertAt(target, 1, entry)) && Ring(third)
  {
    assert entry.prev in source && entry.next in source && to.next in target;
    ListDel(entry, source, k);
    ghost var rest := RemoveAt(source, k);
    assert forall i :: 0 <= i < |rest| ==> rest[i] in source;
    assert forall i :: 0 <= i < |target| ==> target[i] in target;
    ListAdd(entry, to, target, 0);
  }

  // ---------- hash chains ----------

  class HlistHead {
    var first: HlistNode?

    constructor ()
      ensures first == null
    {
      first := null;
    }
  }

  /** Which pointer variable a `pprev` field points at. */
  datatype Slot = HeadSlot(head: HlistHead) | NextSlot(node: HlistNode) | Poison

  class HlistNode {
    var next: HlistNode?
    var pprev: Slot

    constructor ()
      ensures next == null && pprev == Poison
    {
      next, pprev := null, Poison;
    }
  }

  function NodeAt(nodes: seq<HlistNode>, i: nat): HlistNode? {
    if i < |nodes| then nodes[i] else null
  }

  function SlotOf(h: HlistHead, nodes: seq<HlistNode>, i: nat): Slot
    requires i <= |nodes|
  {
    if i == 0 then HeadSlot(h) else NextSlot(nodes[i - 1])
  }

  /** `nodes` lists the chain of `h`; each node knows the pointer that refers to it. */
  ghost predicate Chain(h: HlistHead, nodes: seq<HlistNode>)
    reads h, nodes
  {
    && NoDup(nodes)
    && h.first == NodeAt(nodes, 0)
    && (forall i {:trigger nodes[i].next} :: 0 <= i < |nodes| ==> nodes[i].next == NodeAt(nodes, i + 1))
    && (forall i {:trigger nodes[i].pprev} :: 0 <= i < |nodes| ==> nodes[i].pprev == SlotOf(h, nodes, i))
  }

  /** `hlist_add_head` */
  method HlistAddHead(n: HlistNode, h: HlistHead, ghost nodes: seq<HlistNode>)
    requires Chain(h, nodes) && n !in nodes
    modifies n, h, nodes
    ensures Chain(h, [n] + nodes)
  {
    ghost var r := [n] + nodes;
    InsertNoDup(nodes, 0, n);
    assert r == InsertAt(nodes, 0, n);
    if nodes != [] { NotSame(nodes, 0); }
    hide NoDup;
    var first := h.first;
    n.next := first;
    if first != null {
      first.pprev := NextSlot(n);
    }
    h.first := n;
    n.pprev := HeadSlot(h);
    forall i | 0 <= i < |r| ensures r[i].next == NodeAt(r, i + 1) && r[i].pprev == SlotOf(h, r, i) {
      if i > 0 { assert r[i] == nodes[i - 1]; }
    }
  }

  lemma SlotAfterRemove(h: HlistHead, nodes: seq<HlistNode>, k: nat, i: nat)
    requires k < |nodes| && i < |nodes| - 1
    ensures var r := RemoveAt(nodes, k);
            && r[i] == nodes[Kept(i, k)]
            && NodeAt(r, i + 1) == NodeAt(nodes, if i + 1 < k then i + 1 else i + 2)
            && SlotOf(h, r, i) == if i <= k then SlotOf(h, nodes, i) else SlotOf(h, nodes, i + 1)
  {
  }

  /** Links that are those of a chain but pass over node k. */
  lemma ChainRemoved(h: HlistHead, nodes: seq<HlistNode>, k: nat)
    requires NoDup(nodes) && k < |nodes| && h.first == NodeAt(nodes, if k == 0 then 1 else 0)
    requires forall m {:trigger nodes[m].next} :: 0 <= m < |nodes| && m != k ==>
               nodes[m].next == NodeAt(nodes, if m + 1 == k then k + 1 else m + 1)
    requires forall m {:trigger nodes[m].pprev} :: 0 <= m < |nodes| && m != k ==>
               nodes[m].pprev == if m == k + 1 then SlotOf(h, nodes, k) else SlotOf(h, nodes, m)
    ensures Chain(h, RemoveAt(nodes, k))
  {
    var r := RemoveAt(nodes, k);
    RemoveNoDup(nodes, k);
    assert NodeAt(r, 0) == NodeAt(nodes, if k == 0 then 1 else 0);
    hide NoDup, RemoveAt, NodeAt, SlotOf;
    forall i {:trigger r[i].next} | 0 <= i < |r| ensures r[i].next == NodeAt(r, i + 1) {
      SlotAfterRemove(h, nodes, k, i);
    }
    forall i {:trigger r[i].pprev} | 0 <= i < |r| ensures r[i].pprev == SlotOf(h, r, i) {
      SlotAfterRemove(h, nodes, k, i);
    }
  }

  /** `hlist_del`: no list head is needed, the node finds the pointer to itself. */
  method HlistDel(n: HlistNode, ghost h: HlistHead, ghost nodes: seq<HlistNode>, ghost k: nat)
    requires Chain(h, nodes) && k < |nodes| && n == nodes[k]
    modifies h, nodes
    ensures Chain(h, RemoveAt(nodes, k))
    ensures n.next == null && n.pprev == Poison
  {
    NotSame(nodes, k);
    if k > 0 { NotSame(nodes, k - 1); }
    if k + 1 < |nodes| { NotSame(nodes, k + 1); }
    hide NoDup;
    var next, pprev := n.next, n.pprev;
    match pprev {
      case HeadSlot(head) => head.first := next;
      case NextSlot(node) => node.next := next;
      case Poison => assert false;
    }
    if next != null {
      next.pprev := pprev;
    }
    n.next := null;
    n.pprev := Poison;
    forall m {:trigger nodes[m].next} | 0 <= m < |nodes| && m != k
      ensures nodes[m].next == NodeAt(nodes, if m + 1 == k then k + 1 else m + 1)
    {
    }
    forall m {:trigger nodes[m].pprev} | 0 <= m < |nodes| && m != k
      ensures nodes[m].pprev == if m == k + 1 then SlotOf(h, nodes, k) else SlotOf(h, nodes, m)
    {
    }
    ChainRemoved(h, nodes, k);
  }
}
