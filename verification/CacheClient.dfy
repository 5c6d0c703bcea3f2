/**
 The client's records of its objects on one server, kept in its address table: what the
 work handlers look up, insert and remove, and the handlers of cache replies.
 */
module CacheClient {
  import opened Wrappers
  import opened DramCache
  import opened CacheProtocol
  import opened HashIndex
  import opened AddrTable

  // ---------- chains ----------

  lemma MarkedFirst(chain: seq<Record>, a: nat, dram: Option<Key>, b: nat)
    ensures FirstWith(Marked(chain, a, dram), b)
            == match FirstWith(chain, b) {
                 case None => None
                 case Some(r) => Some(if b == a then r.(info := r.info.(dram := dram)) else r)
               }
  {
    PositionIs(Marked(chain, a, dram), b, Position(chain, b));
  }

  /** In a bucket of one server's records no two have the same server-side address. */
  lemma OwnAddresses(chain: seq<Record>, i: nat, node: nat, j: nat, k: nat)
    requires ChainOk(chain, i) && (forall r :: r in chain ==> r.node == node) && j < |chain| && k < |chain| && j != k
    ensures chain[j].nvmAddr != chain[k].nvmAddr
  {
    hide IndexOf;
    assert chain[j] in chain && chain[k] in chain;
    assert PoolAddrOf(chain[j]) != PoolAddrOf(chain[k]);
  }

  lemma RemovedFirst(chain: seq<Record>, i: nat, node: nat, a: nat, b: nat)
    requires ChainOk(chain, i) && forall r :: r in chain ==> r.node == node
    ensures FirstWith(Removed(chain, a), b) == if b == a then None else FirstWith(chain, b)
  {
    hide ChainOk, Position;
    var k := Position(chain, a);
    if k < |chain| {
      forall j | 0 <= j < |chain| && j != k ensures chain[j].nvmAddr != chain[k].nvmAddr {
        OwnAddresses(chain, i, node, j, k);
      }
      WithoutFirst(chain, k, b);
    }
  }

  lemma WithoutFirst(chain: seq<Record>, k: nat, b: nat)
    requires k < |chain| && forall j :: 0 <= j < |chain| && j != k ==> chain[j].nvmAddr != chain[k].nvmAddr
    ensures FirstWith(chain[..k] + chain[k + 1..], b) == if b == chain[k].nvmAddr then None else FirstWith(chain, b)
  {
    hide Position;
    var p, rest := Position(chain, b), chain[..k] + chain[k + 1..];
    assert forall j :: 0 <= j < |rest| ==> rest[j] == chain[if j < k then j else j + 1];
    PositionIs(rest, b, if b == chain[k].nvmAddr then |rest| else if p < k then p else p - 1);
  }

  lemma ConsFirst(chain: seq<Record>, r: Record, b: nat)
    ensures FirstWith([r] + chain, b) == if b == r.nvmAddr then Some(r) else FirstWith(chain, b)
  {
    assert ([r] + chain)[1..] == chain;
  }

  // ---------- the records ----------

  class ClientRecords {
    const table: Table
    const node: nat
    var pollNum: int
    ghost var infos: map<Addr, Info>

    /** What a lookup of the object at server-side address a finds. */
    ghost function Found(a: Addr): Option<Record>
      requires table.Shaped()
      reads this, table, table.buckets
    {
      FirstWith(table.buckets[IndexOf(ToPoolAddr(node, a))], a)
    }

    /** The table holds the records of `infos`, all of this server, and nothing else. */
    ghost predicate Represents()
      reads this, table, table.buckets
    {
      && table.Valid() && table.OneServer(node)
      && (forall a :: a in infos ==> a < NODE_UNIT)
      && (forall a: Addr :: a < NODE_UNIT ==> Found(a) == if a in infos then Some(Record(node, a, infos[a])) else None)
    }

    constructor (node: nat)
      ensures Represents() && fresh(table) && fresh(table.buckets) && this.node == node && infos == map[] && pollNum == 0
    {
      table := new Table();
      this.node := node;
      infos := map[];
      pollNum := 0;
    }

    /** How the read and write handlers find out where an object is. */
    method Locate(a: Addr) returns (info: Option<Info>)
      requires Represents() && a < NODE_UNIT
      ensures info == if a in infos then Some(infos[a]) else None
    {
      PoolAddrRoundTrip(node, a);
      hide IndexOf, NormalAddr, ToPoolAddr;
      var res := table.Lookup(ToPoolAddr(node, a));
      assert Found(a) == res;
      info := if res.Some? then Some(res.value.info) else None;
    }

    /** The end of the malloc handler: a record without a copy. */
    method AddRecord(a: Addr, length: nat)
      requires Represents() && a < NODE_UNIT && a !in infos
      modifies this`infos, table.buckets
      ensures Represents() && infos == old(infos)[a := Info(length, None)]
    {
      hide IndexOf, ToPoolAddr, ChainOk, FirstWith;
      var r := Record(node, a, Info(length, None));
      ghost var i := IndexOf(PoolAddrOf(r));
      NoneStored(a);
      forall b ensures FirstWith([r] + table.buckets[i], b) == if b == a then Some(r) else FirstWith(table.buckets[i], b) {
        ConsFirst(table.buckets[i], r, b);
      }
      table.Insert(r);
      infos := infos[a := Info(length, None)];
    }

    lemma NoneStored(a: Addr)
      requires Represents() && a < NODE_UNIT && a !in infos
      ensures forall x :: x in table.buckets[IndexOf(ToPoolAddr(node, a))] ==> PoolAddrOf(x) != ToPoolAddr(node, a)
    {
      var chain := table.buckets[IndexOf(ToPoolAddr(node, a))];
      PoolAddrRoundTrip(node, a);
      assert Found(a) == None;
      hide IndexOf, NormalAddr, ToPoolAddr;
      OneServerLookup(chain, IndexOf(ToPoolAddr(node, a)), node, ToPoolAddr(node, a));
    }

    /** The start of the free handler. */
    method TakeRecord(a: Addr) returns (info: Option<Info>)
      requires Represents() && a < NODE_UNIT
      modifies this`infos, table.buckets
      ensures Represents() && info == (if a in old(infos) then Some(old(infos)[a]) else None)
      ensures infos == old(infos) - {a}
    {
      PoolAddrRoundTrip(node, a);
      hide IndexOf, NormalAddr, ToPoolAddr, ChainOk, FirstWith, Removed;
      ghost var i := IndexOf(ToPoolAddr(node, a));
      ghost var chain := table.buckets[i];
      RemovedOk(chain, i, a);
      forall b ensures FirstWith(Removed(chain, a), b) == if b == a then None else FirstWith(chain, b) {
        RemovedFirst(chain, i, node, a, b);
      }
      assert Found(a) == if a in infos then Some(Record(node, a, infos[a])) else None;
      var res := table.Remove(ToPoolAddr(node, a));
      infos := infos - {a};
      info := if res.Some? then Some(res.value.info) else None;
    }

    /** One assignment of a reply handler; an unknown object is only logged. */
    method SetDram(a: Addr, dram: Option<Key>)
      requires Represents() && a < NODE_UNIT
      modifies this`infos, table.buckets
      ensures Represents()
      ensures infos == if a in old(infos) then old(infos)[a := old(infos)[a].(dram := dram)] else old(infos)
    {
      PoolAddrRoundTrip(node, a);
      hide IndexOf, NormalAddr, ToPoolAddr, ChainOk, FirstWith, Marked;
      ghost var i := IndexOf(ToPoolAddr(node, a));
      ghost var chain := table.buckets[i];
      MarkedOk(chain, i, a, dram);
      forall b ensures FirstWith(Marked(chain, a, dram), b)
                       == match FirstWith(chain, b) {
                            case None => None
                            case Some(r) => Some(if b == a then r.(info := r.info.(dram := dram)) else r)
                          }
      {
        MarkedFirst(chain, a, dram, b);
      }
      var found := table.Mark(ToPoolAddr(node, a), dram);
      infos := if a in infos then infos[a := infos[a].(dram := dram)] else infos;
    }

    /** `dhmp_clear_dram_response_handler` */
    method ClearDramResponse(cold: seq<NvmInfo>)
      requires Represents() && forall x :: x in cold ==> x.addr < NODE_UNIT
      modifies this, table.buckets
      ensures Represents() && infos == Hear(old(infos), ClearResp(cold)) && pollNum == old(pollNum) - 1
    {
      hide Represents;
      var i := 0;
      while i < |cold|
        invariant 0 <= i <= |cold| && pollNum == old(pollNum) && Represents()
        invariant ForgetAll(infos, cold[i..]) == ForgetAll(old(infos), cold)
      {
        assert cold[i..][0] == cold[i] && cold[i..][1..] == cold[i + 1..];
        assert cold[i] in cold;
        SetDram(cold[i].addr, None);
        i := i + 1;
      }
      KeepsRecords(pollNum - 1);
    }

    /** `dhmp_apply_dram_response_handler` */
    method ApplyDramResponse(granted: seq<DramInfo>)
      requires Represents() && forall x :: x in granted ==> x.addr < NODE_UNIT
      modifies this, table.buckets
      ensures Represents() && infos == Hear(old(infos), ApplyResp(granted)) && pollNum == old(pollNum) - 1
    {
      hide Represents;
      var i := 0;
      while i < |granted|
        invariant 0 <= i <= |granted| && pollNum == old(pollNum) && Represents()
        invariant LearnAll(infos, granted[i..]) == LearnAll(old(infos), granted)
      {
        assert granted[i..][0] == granted[i] && granted[i..][1..] == granted[i + 1..];
        assert granted[i] in granted;
        if granted[i].key == None {
          SetDram(granted[i].addr, None);
        } else {
          SetDram(granted[i].addr, granted[i].key);
        }
        i := i + 1;
      }
      KeepsRecords(pollNum - 1);
    }

    method KeepsRecords(n: int)
      requires Represents()
      modifies this`pollNum
      ensures Represents() && pollNum == n
    {
      pollNum := n;
    }
  }
}
