/**
 The client's address table.  A pool address carries its server's number above bit 48;
 the table is indexed by the whole address but compares only the part below.
 */
module AddrTable {
  import opened Wrappers
  import opened DramCache
  import opened HashIndex

  const NODE_UNIT: nat := 0x1_0000_0000_0000

  // ---------- addresses ----------

  /** `dhmp_transfer_dhmp_addr` */
  function ToPoolAddr(node: nat, a: nat): nat {
    if node == 0 then a else a + node * NODE_UNIT
  }

  /** `dhmp_get_node_index_from_addr` */
  function NodeOf(d: nat): nat { d / NODE_UNIT }

  /** `dhmp_transfer_normal_addr` */
  function NormalAddr(d: nat): nat { d - d / NODE_UNIT * NODE_UNIT }

  lemma DivideBack(node: nat, a: nat)
    requires a < NODE_UNIT
    ensures (a + node * NODE_UNIT) / NODE_UNIT == node
  {
  }

  /** Node and address come back from a pool address iff the address has no bits above 47. */
  lemma PoolAddrRoundTrip(node: nat, a: nat)
    ensures (NodeOf(ToPoolAddr(node, a)) == node && NormalAddr(ToPoolAddr(node, a)) == a) <==> a < NODE_UNIT
  {
    if a < NODE_UNIT {
      DivideBack(node, a);
    } else {
      var d := ToPoolAddr(node, a);
      assert d == a + node * NODE_UNIT;
      assert d >= (node + 1) * NODE_UNIT;
    }
  }

  // ---------- chains ----------

  /** An address record: the server, the address there, the length and where a copy is. */
  datatype Record = Record(node: nat, nvmAddr: nat, info: Info)

  function PoolAddrOf(r: Record): nat { ToPoolAddr(r.node, r.nvmAddr) }

  /** Position of the first record of a chain with this server-side address, or its length. */
  function Position(chain: seq<Record>, a: nat): (k: nat)
    ensures k <= |chain| && (k < |chain| ==> chain[k].nvmAddr == a)
    ensures forall j :: 0 <= j < k ==> chain[j].nvmAddr != a
  {
    if chain == [] || chain[0].nvmAddr == a then 0 else 1 + Position(chain[1..], a)
  }

  function FirstWith(chain: seq<Record>, a: nat): Option<Record> {
    var k := Position(chain, a);
    if k < |chain| then Some(chain[k]) else None
  }

  function Removed(chain: seq<Record>, a: nat): seq<Record> {
    var k := Position(chain, a);
    if k < |chain| then chain[..k] + chain[k + 1..] else chain
  }

  /** The record of this address now says where the copy is. */
  function Marked(chain: seq<Record>, a: nat, dram: Option<Key>): seq<Record> {
    var k := Position(chain, a);
    if k < |chain| then chain[k := chain[k].(info := chain[k].info.(dram := dram))] else chain
  }

  /** The position is the only one that passes over other addresses and stops at this one. */
  lemma PositionIs(chain: seq<Record>, a: nat, k: nat)
    requires k <= |chain| && (k < |chain| ==> chain[k].nvmAddr == a) && forall j :: 0 <= j < k ==> chain[j].nvmAddr != a
    ensures Position(chain, a) == k
  {
    var p := Position(chain, a);
    assert p < |chain| ==> chain[p].nvmAddr == a;
  }

  /** Records are in the bucket of their pool address, addresses are below bit 48, and no
      object has two records. */
  predicate ChainOk(chain: seq<Record>, i: nat) {
    && (forall k :: 0 <= k < |chain| ==> chain[k].nvmAddr < NODE_UNIT && IndexOf(PoolAddrOf(chain[k])) == i)
    && (forall j, k :: 0 <= j < k < |chain| ==> PoolAddrOf(chain[j]) != PoolAddrOf(chain[k]))
  }

  lemma RemovedOk(chain: seq<Record>, i: nat, a: nat)
    requires ChainOk(chain, i)
    ensures ChainOk(Removed(chain, a), i)
    ensures forall r :: r in Removed(chain, a) ==> r in chain
  {
    hide IndexOf, PoolAddrOf, Position;
    var k, rest := Position(chain, a), Removed(chain, a);
    forall j | 0 <= j < |rest| ensures rest[j] == chain[if j < k then j else j + 1] {}
  }

  lemma MarkedOk(chain: seq<Record>, i: nat, a: nat, dram: Option<Key>)
    requires ChainOk(chain, i)
    ensures ChainOk(Marked(chain, a, dram), i)
    ensures |Marked(chain, a, dram)| == |chain|
    ensures forall j :: 0 <= j < |chain| ==> Marked(chain, a, dram)[j].node == chain[j].node
  {
    hide IndexOf, Position;
    var marked := Marked(chain, a, dram);
    forall j | 0 <= j < |chain| ensures PoolAddrOf(marked[j]) == PoolAddrOf(chain[j]) {}
    hide PoolAddrOf;
  }

  lemma ConsOk(chain: seq<Record>, i: nat, r: Record)
    requires ChainOk(chain, i) && r.nvmAddr < NODE_UNIT && IndexOf(PoolAddrOf(r)) == i
    requires forall x :: x in chain ==> PoolAddrOf(x) != PoolAddrOf(r)
    ensures ChainOk([r] + chain, i)
  {
    hide IndexOf, PoolAddrOf;
    assert forall k :: 0 <= k < |chain| ==> chain[k] in chain;
  }

  // ---------- when the lookup is right ----------

  /** The lookup of a stored object finds its own record iff no newer record of the bucket
      carries the same server-side address for another server. */
  lemma LookupIsRightIff(chain: seq<Record>, i: nat, k: nat)
    requires ChainOk(chain, i) && k < |chain|
    ensures NormalAddr(PoolAddrOf(chain[k])) == chain[k].nvmAddr
    ensures FirstWith(chain, chain[k].nvmAddr) == Some(chain[k])
            <==> forall j :: 0 <= j < k ==> chain[j].nvmAddr != chain[k].nvmAddr
  {
    hide IndexOf;
    PoolAddrRoundTrip(chain[k].node, chain[k].nvmAddr);
    hide NormalAddr;
    var p := Position(chain, chain[k].nvmAddr);
    if forall j :: 0 <= j < k ==> chain[j].nvmAddr != chain[k].nvmAddr {
      PositionIs(chain, chain[k].nvmAddr, k);
    } else {
      assert p < k;
      assert PoolAddrOf(chain[p]) != PoolAddrOf(chain[k]);
    }
  }

  /** With a single server every lookup is right, and an unknown address is not found. */
  lemma OneServerLookup(chain: seq<Record>, i: nat, node: nat, d: nat)
    requires ChainOk(chain, i) && forall r :: r in chain ==> r.node == node
    requires NodeOf(d) == node
    ensures match FirstWith(chain, NormalAddr(d))
            case Some(r) => r in chain && PoolAddrOf(r) == d
            case None => forall r :: r in chain ==> PoolAddrOf(r) != d
  {
    hide IndexOf;
    var a := NormalAddr(d);
    assert d == ToPoolAddr(node, a);
    forall r | r in chain && PoolAddrOf(r) == d ensures r.nvmAddr == a {
      PoolAddrRoundTrip(node, r.nvmAddr);
    }
    hide NormalAddr, ToPoolAddr;
  }

  /** Two servers handing out the address 0x7f5a01c00010 suffice to go wrong: once the object
      of server 1 is inserted, looking up the object of server 0 returns the other record. */
  lemma TwoServersCanAlias(x: Info, y: Info)
    ensures var r0, r1 := Record(0, 0x7f5a01c00010, x), Record(1, 0x7f5a01c00010, y);
            && ChainOk([r1, r0], IndexOf(PoolAddrOf(r0)))
            && FirstWith([r1, r0], NormalAddr(PoolAddrOf(r0))) == Some(r1)
  {
    SameBucketForTwoNodes();
    hide IndexOf;
    var r0, r1 := Record(0, 0x7f5a01c00010, x), Record(1, 0x7f5a01c00010, y);
    assert PoolAddrOf(r1) == 0x17f5a01c00010 && PoolAddrOf(r0) == 0x7f5a01c00010;
    PoolAddrRoundTrip(0, 0x7f5a01c00010);
    PositionIs([r1, r0], 0x7f5a01c00010, 0);
  }

  // ---------- the table ----------

  class Table {
    const buckets: array<seq<Record>>

    ghost predicate Shaped()
      reads this
    {
      buckets.Length == TABLE_SIZE
    }

    ghost predicate Valid()
      reads this, buckets
    {
      Shaped() && forall i :: 0 <= i < TABLE_SIZE ==> ChainOk(buckets[i], i)
    }

    /** Every record is one of this server. */
    ghost predicate OneServer(node: nat)
      requires Shaped()
      reads this, buckets
    {
      forall i, r :: 0 <= i < TABLE_SIZE && r in buckets[i] ==> r.node == node
    }

    constructor ()
      ensures Valid() && fresh(buckets) && forall i :: 0 <= i < TABLE_SIZE ==> buckets[i] == []
    {
      buckets := new seq<Record>[TABLE_SIZE](_ => []);
    }

    /** `dhmp_addr_info_insert_ht`; the table stays in order if the object is new. */
    method Insert(r: Record)
      requires Shaped()
      modifies buckets
      ensures forall i :: 0 <= i < TABLE_SIZE ==>
                buckets[i] == if i == IndexOf(PoolAddrOf(r)) then [r] + old(buckets[i]) else old(buckets[i])
      ensures old(Valid()) && r.nvmAddr < NODE_UNIT
              && (forall x :: x in old(buckets[IndexOf(PoolAddrOf(r))]) ==> PoolAddrOf(x) != PoolAddrOf(r))
              ==> Valid()
    {
      hide IndexOf, ChainOk, PoolAddrOf;
      var index := IndexOf(PoolAddrOf(r));
      ghost var chain := buckets[index];
      buckets[index] := [r] + buckets[index];
      if ChainOk(chain, index) && r.nvmAddr < NODE_UNIT && forall x :: x in chain ==> PoolAddrOf(x) != PoolAddrOf(r) {
        ConsOk(chain, index, r);
      }
    }

    /** The walk along one chain. */
    method Seek(i: nat, a: nat) returns (k: nat)
      requires Shaped() && i < TABLE_SIZE
      ensures k == Position(buckets[i], a)
    {
      k := 0;
      while k < |buckets[i]| && buckets[i][k].nvmAddr != a
        invariant k <= |buckets[i]| && forall j :: 0 <= j < k ==> buckets[i][j].nvmAddr != a
      {
        k := k + 1;
      }
      PositionIs(buckets[i], a, k);
    }

    /** `dhmp_get_addr_info_from_ht` with the index of the same address: right for a stored
        object iff no newer record shadows it, and always right with a single server. */
    method Lookup(d: nat) returns (res: Option<Record>)
      requires Shaped()
      ensures res == FirstWith(buckets[IndexOf(d)], NormalAddr(d))
      ensures forall k :: Valid() && 0 <= k < |buckets[IndexOf(d)]| && PoolAddrOf(buckets[IndexOf(d)][k]) == d ==>
                (res == Some(buckets[IndexOf(d)][k])
                 <==> forall j :: 0 <= j < k ==> buckets[IndexOf(d)][j].nvmAddr != NormalAddr(d))
      ensures Valid() && OneServer(NodeOf(d)) ==>
                match res
                case Some(r) => r in buckets[IndexOf(d)] && PoolAddrOf(r) == d
                case None => forall i, r :: 0 <= i < TABLE_SIZE && r in buckets[i] ==> PoolAddrOf(r) != d
    {
      var i := IndexOf(d);
      var k := Seek(i, NormalAddr(d));
      res := if k < |buckets[i]| then Some(buckets[i][k]) else None;
      hide IndexOf, NormalAddr, ToPoolAddr, Position;
      if Valid() {
        forall j | 0 <= j < |buckets[i]| && PoolAddrOf(buckets[i][j]) == d
          ensures res == Some(buckets[i][j]) <==> forall m :: 0 <= m < j ==> buckets[i][m].nvmAddr != NormalAddr(d)
        {
          LookupIsRightIff(buckets[i], i, j);
        }
        if OneServer(NodeOf(d)) {
          OneServerLookup(buckets[i], i, NodeOf(d), d);
        }
      }
    }

    /** The lookup and the `hlist_del` that open the free handler. */
    method Remove(d: nat) returns (res: Option<Record>)
      requires Shaped()
      modifies buckets
      ensures res == FirstWith(old(buckets[IndexOf(d)]), NormalAddr(d))
      ensures forall i :: 0 <= i < TABLE_SIZE ==>
                buckets[i] == if i == IndexOf(d) then Removed(old(buckets[i]), NormalAddr(d)) else old(buckets[i])
      ensures old(Valid()) ==> Valid()
    {
      hide IndexOf, NormalAddr, Position, ChainOk;
      var i := IndexOf(d);
      ghost var chain := buckets[i];
      var k := Seek(i, NormalAddr(d));
      if k == |buckets[i]| {
        return None;
      }
      res := Some(buckets[i][k]);
      buckets[i] := buckets[i][..k] + buckets[i][k + 1..];
      if ChainOk(chain, i) {
        RemovedOk(chain, i, NormalAddr(d));
      }
    }

    /** The lookup of a reply handler and its assignment to the record found. */
    method Mark(d: nat, dram: Option<Key>) returns (found: bool)
      requires Shaped()
      modifies buckets
      ensures found == FirstWith(old(buckets[IndexOf(d)]), NormalAddr(d)).Some?
      ensures forall i :: 0 <= i < TABLE_SIZE ==>
                buckets[i] == if i == IndexOf(d) then Marked(old(buckets[i]), NormalAddr(d), dram) else old(buckets[i])
      ensures old(Valid()) ==> Valid()
    {
      hide IndexOf, NormalAddr, Position, ChainOk;
      var i := IndexOf(d);
      ghost var chain := buckets[i];
      var k := Seek(i, NormalAddr(d));
      found := k < |buckets[i]|;
      if found {
        var r := buckets[i][k];
        buckets[i] := buckets[i][k := r.(info := r.info.(dram := dram))];
      }
      if ChainOk(chain, i) {
        MarkedOk(chain, i, NormalAddr(d), dram);
      }
    }
  }
}
