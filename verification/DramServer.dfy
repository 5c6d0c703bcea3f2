/**
 The DRAM side of the server object: a hash table of 251 chained buckets, updated in
 place by the message handlers.  `sv` is its abstract value; every handler is proved to
 change it as module DramCache says, whatever the hash function does with the addresses.
 */
module DramServer {
  import opened Wrappers
  import opened DramCache
  import opened HashIndex

  const DRAM_HT_SIZE: nat := TABLE_SIZE

  /** `dhmp_hash_in_server`: the bucket of an address. */
  function HashInServer(a: Addr): (i: nat)
    ensures i < DRAM_HT_SIZE
  {
    IndexOf(a)
  }

  /** The entries of one bucket, in chain order. */
  function Bucket(entries: seq<DramEntry>, i: nat): seq<DramEntry> {
    if entries == [] then []
    else if HashInServer(entries[0].addr) == i then [entries[0]] + Bucket(entries[1..], i)
    else Bucket(entries[1..], i)
  }

  lemma BucketCons(e: DramEntry, entries: seq<DramEntry>, i: nat)
    ensures Bucket([e] + entries, i)
         == if HashInServer(e.addr) == i then [e] + Bucket(entries, i) else Bucket(entries, i)
  {
    hide HashInServer;
    assert ([e] + entries)[1..] == entries;
  }

  /** Looking into the one bucket finds what a search of the whole table would find. */
  lemma {:induction false} BucketFind(entries: seq<DramEntry>, a: Addr)
    ensures Find(Bucket(entries, HashInServer(a)), a) == Find(entries, a)
  {
    hide HashInServer;
    if entries != [] {
      BucketFind(entries[1..], a);
      var r := Bucket(entries[1..], HashInServer(a));
      assert ([entries[0]] + r)[1..] == r;
    }
  }

  /** Unlinking from the bucket removes the entry from the table and touches no other bucket. */
  lemma {:induction false} BucketRemove(entries: seq<DramEntry>, a: Addr, i: nat)
    ensures Bucket(RemoveFirst(entries, a), i)
         == if i == HashInServer(a) then RemoveFirst(Bucket(entries, i), a) else Bucket(entries, i)
  {
    hide HashInServer;
    if entries != [] {
      BucketRemove(entries[1..], a, i);
      var r, t := Bucket(entries[1..], i), RemoveFirst(entries[1..], a);
      assert ([entries[0]] + r)[1..] == r && ([entries[0]] + t)[1..] == t;
    }
  }

  /** The first k entries are not about a: the search goes on behind them. */
  lemma {:induction false} SkipFind(entries: seq<DramEntry>, a: Addr, k: nat)
    requires k <= |entries| && forall j :: 0 <= j < k ==> entries[j].addr != a
    ensures Find(entries, a) == Find(entries[k..], a)
    decreases k
  {
    if k == 0 {
      assert entries[0..] == entries;
    } else {
      SkipFind(entries[1..], a, k - 1);
      assert entries[1..][k - 1..] == entries[k..];
    }
  }

  lemma {:induction false} SkipRemove(entries: seq<DramEntry>, a: Addr, k: nat)
    requires k <= |entries| && forall j :: 0 <= j < k ==> entries[j].addr != a
    ensures RemoveFirst(entries, a) == entries[..k] + RemoveFirst(entries[k..], a)
    decreases k
  {
    if k == 0 {
      assert entries[0..] == entries;
    } else {
      var tail := entries[1..];
      SkipRemove(tail, a, k - 1);
      var rest := RemoveFirst(tail[k - 1..], a);
      assert tail[k - 1..] == entries[k..];
      assert RemoveFirst(entries, a) == [entries[0]] + (tail[..k - 1] + rest);
      assert entries[..k] == [entries[0]] + tail[..k - 1];
    }
  }

  /** The server's end of a connection of one client. */
  class Transport {
    const client: nat
    var dramUsedSize: int

    constructor (client: nat)
      ensures this.client == client && dramUsedSize == 0
    {
      this.client := client;
      dramUsedSize := 0;
    }
  }

  class DramTable {
    const dramHt: array<seq<DramEntry>>
    var nvm: map<Addr, NvmObj>
    var dramUsedSize: int
    ghost var sv: Server

    ghost predicate Valid()
      reads this, dramHt
    {
      && dramHt.Length == DRAM_HT_SIZE
      && (forall i :: 0 <= i < DRAM_HT_SIZE ==> dramHt[i] == Bucket(sv.entries, i))
      && nvm == sv.nvm
      && dramUsedSize == sv.dramUsed
    }

    constructor (nvm: map<Addr, NvmObj>)
      ensures Valid() && fresh(dramHt) && sv == Server([], nvm, 0, map[], map[])
    {
      dramHt := new seq<DramEntry>[DRAM_HT_SIZE](_ => []);
      this.nvm := nvm;
      dramUsedSize := 0;
      sv := Server([], nvm, 0, map[], map[]);
    }

    /** The successful end of `dhmp_create_new_dram_entry`. */
    method CreateDramEntry(e: DramEntry)
      requires Valid()
      modifies this`sv, dramHt
      ensures Valid() && sv == old(sv).(entries := [e] + old(sv).entries)
    {
      hide HashInServer;
      var index := HashInServer(e.addr);
      forall i | 0 <= i < DRAM_HT_SIZE
        ensures Bucket([e] + sv.entries, i) == if index == i then [e] + Bucket(sv.entries, i) else Bucket(sv.entries, i)
      {
        BucketCons(e, sv.entries, i);
      }
      dramHt[index] := [e] + dramHt[index];
      sv := sv.(entries := [e] + sv.entries);
    }

    /** `dhmp_destroy_dram_entry` */
    method DestroyDramEntry(a: Addr) returns (found: bool)
      requires Valid()
      modifies this`sv, this`nvm, dramHt
      ensures Valid() && (sv, found) == Destroy(old(sv), a)
    {
      hide HashInServer, Bucket;
      var index := HashInServer(a);
      var k := 0;
      while k < |dramHt[index]| && dramHt[index][k].addr != a
        invariant k <= |dramHt[index]|
        invariant forall j :: 0 <= j < k ==> dramHt[index][j].addr != a
        modifies {}
      {
        k := k + 1;
      }
      SkipFind(dramHt[index], a, k);
      SkipRemove(dramHt[index], a, k);
      BucketFind(sv.entries, a);
      if k == |dramHt[index]| {
        return false;
      }
      assert dramHt[index][k..][1..] == dramHt[index][k + 1..];
      forall i | 0 <= i < DRAM_HT_SIZE
        ensures Bucket(RemoveFirst(sv.entries, a), i)
             == if i == index then RemoveFirst(Bucket(sv.entries, i), a) else Bucket(sv.entries, i)
      {
        BucketRemove(sv.entries, a, i);
      }
      var e := dramHt[index][k];
      dramHt[index] := dramHt[index][..k] + dramHt[index][k + 1..];
      if a in nvm {
        nvm := nvm[a := nvm[a].(data := e.data)];
      }
      sv := Destroy(sv, a).0;
      return true;
    }

    /** A granted request: the new entry and both counters. */
    method Grant(trans: Transport, info: NvmInfo, key: Key, fill: seq<Byte>)
      requires Valid() && trans.dramUsedSize == Used(sv.pollUsed, trans.client)
      modifies this`sv, this`dramUsedSize, dramHt, trans
      ensures Valid() && sv == Create(old(sv), trans.client, info, key, fill)
      ensures trans.dramUsedSize == Used(sv.pollUsed, trans.client)
    {
      hide Bucket;
      ghost var before := sv;
      CreateDramEntry(DramEntry(info.addr, info.length, key, trans.client, fill));
      trans.dramUsedSize := trans.dramUsedSize + info.length;
      dramUsedSize := dramUsedSize + info.length;
      sv := Create(before, trans.client, info, key, fill);
    }

    /** The apply handler on the poll connection of a client. */
    method ApplyDramRequest(trans: Transport, hot: seq<NvmInfo>, allocs: seq<DramAlloc>, connections: nat)
      returns (reply: seq<DramInfo>)
      requires Valid() && connections > 0 && |allocs| >= |hot|
      requires trans.dramUsedSize == Used(sv.pollUsed, trans.client)
      modifies this`sv, this`dramUsedSize, dramHt, trans
      ensures Valid()
      ensures (sv, reply) == Apply(old(sv), trans.client, hot, allocs, Share(connections))
      ensures trans.dramUsedSize == Used(sv.pollUsed, trans.client)
      ensures StopsAtShare(hot, allocs, reply, trans.dramUsedSize, connections)
    {
      hide Valid, Used, Create, Apply, Progress, Share, StopsAtShare;
      ShareIs(connections);
      ghost var start, c, share := sv, trans.client, Share(connections);
      ReplyBound(start, c, hot, allocs, connections);
      reply := [];
      var i := 0;
      ProgressStart(start, c, hot, allocs, share);
      while i < |hot|
        invariant 0 <= i <= |hot| && Valid()
        invariant trans.dramUsedSize == Used(sv.pollUsed, c)
        invariant Progress(start, sv, c, hot, allocs, share, i, reply)
      {
        var info := hot[i];
        var threshold := SERVER_DRAM_TH;
        threshold := threshold * 2 / connections;
        ProgressStep(start, sv, c, hot, allocs, share, i, reply);
        if trans.dramUsedSize + info.length > threshold {
          return;
        }
        match allocs[i] {
          case Allocated(key, fill) =>
            Grant(trans, info, key, fill);
            reply := reply + [DramInfo(info.addr, Some(key))];
          case AllocFails =>
            reply := reply + [DramInfo(info.addr, None)];
        }
        i := i + 1;
      }
      ProgressEnd(start, sv, c, hot, allocs, share, reply);
    }

    /** The clear handler on the poll connection of a client. */
    method ClearDramRequest(trans: Transport, cold: seq<NvmInfo>)
      requires Valid() && trans.dramUsedSize == Used(sv.pollUsed, trans.client)
      modifies this`sv, this`nvm, this`dramUsedSize, dramHt, trans
      ensures Valid() && sv == Clear(old(sv), trans.client, cold)
      ensures trans.dramUsedSize == Used(sv.pollUsed, trans.client)
    {
      hide Bucket, Find, RemoveFirst;
      ghost var start, c := sv, trans.client;
      var i := 0;
      while i < |cold|
        invariant 0 <= i <= |cold| && Valid()
        invariant trans.dramUsedSize == Used(sv.pollUsed, c)
        invariant Clear(start, c, cold) == Clear(sv, c, cold[i..])
      {
        assert cold[i..][0] == cold[i] && cold[i..][1..] == cold[i + 1..];
        ghost var before := sv;
        var found := DestroyDramEntry(cold[i].addr);
        DestroyKeepsCounters(before, cold[i].addr);
        trans.dramUsedSize := trans.dramUsedSize - cold[i].length;
        dramUsedSize := dramUsedSize - cold[i].length;
        sv := ClearOne(before, c, cold[i]);
        i := i + 1;
      }
      assert cold[i..] == [];
    }

    /** The DRAM part of the free handler, on the normal connection of a client. */
    method FreeDram(trans: Transport, info: NvmInfo)
      requires Valid() && trans.dramUsedSize == Used(sv.normUsed, trans.client)
      modifies this`sv, this`nvm, this`dramUsedSize, dramHt, trans
      ensures Valid() && sv == Free(old(sv), trans.client, info)
      ensures trans.dramUsedSize == Used(sv.normUsed, trans.client)
    {
      hide Bucket, Find, RemoveFirst;
      ghost var start := sv;
      var found := DestroyDramEntry(info.addr);
      DestroyKeepsCounters(start, info.addr);
      if found {
        dramUsedSize := dramUsedSize - info.length;
        trans.dramUsedSize := trans.dramUsedSize - info.length;
      }
      nvm := nvm - {info.addr};
      sv := Free(start, trans.client, info);
    }
  }

  lemma ShareIs(connections: nat)
    requires connections > 0
    ensures Share(connections) == SERVER_DRAM_TH * 2 / connections
  {
  }

  /** The reply names the first requests with the regions they got.  It ends before the first one
      that would have taken the connection's use, times the number of connections, beyond twice the
      threshold. */
  predicate StopsAtShare(hot: seq<NvmInfo>, allocs: seq<DramAlloc>, reply: seq<DramInfo>, used: int, connections: nat)
    requires |allocs| >= |hot|
  {
    && |reply| <= |hot|
    && (forall i :: 0 <= i < |reply| ==>
          reply[i] == DramInfo(hot[i].addr, if allocs[i].Allocated? then Some(allocs[i].key) else None))
    && (|reply| < |hot| ==> connections * (used + hot[|reply|].length) > 2 * SERVER_DRAM_TH)
    && (|reply| > 0 ==> connections * used <= 2 * SERVER_DRAM_TH)
  }

  /** How far the reply gets, by the threshold and the number of connections. */
  lemma ReplyBound(s: Server, c: nat, hot: seq<NvmInfo>, allocs: seq<DramAlloc>, connections: nat)
    requires connections > 0 && |allocs| >= |hot|
    ensures var (t, reply) := Apply(s, c, hot, allocs, Share(connections));
            StopsAtShare(hot, allocs, reply, Used(t.pollUsed, c), connections)
  {
    var (t, reply) := Apply(s, c, hot, allocs, Share(connections));
    ApplyAnswersPrefix(s, c, hot, allocs, Share(connections));
    hide Apply, Share, Used;
    ShareIsLargest(connections, Used(t.pollUsed, c));
    if |reply| < |hot| {
      ShareIsLargest(connections, Used(t.pollUsed, c) + hot[|reply|].length);
    }
  }

  lemma DestroyKeepsCounters(s: Server, a: Addr)
    ensures var t := Destroy(s, a).0;
            t.dramUsed == s.dramUsed && t.pollUsed == s.pollUsed && t.normUsed == s.normUsed
  {
  }

  /** Handling the requests from i on in state s completes what was begun in state `start`. */
  ghost predicate Progress(start: Server, s: Server, c: nat, hot: seq<NvmInfo>, allocs: seq<DramAlloc>,
                           share: nat, i: nat, reply: seq<DramInfo>)
    requires i <= |hot| <= |allocs|
  {
    var (t, rest) := Apply(s, c, hot[i..], allocs[i..], share);
    Apply(start, c, hot, allocs, share) == (t, reply + rest)
  }

  lemma ProgressStart(s: Server, c: nat, hot: seq<NvmInfo>, allocs: seq<DramAlloc>, share: nat)
    requires |hot| <= |allocs|
    ensures Progress(s, s, c, hot, allocs, share, 0, [])
  {
    assert hot[0..] == hot && allocs[0..] == allocs;
    var rest := Apply(s, c, hot, allocs, share).1;
    assert [] + rest == rest;
  }

  lemma ProgressEnd(start: Server, s: Server, c: nat, hot: seq<NvmInfo>, allocs: seq<DramAlloc>,
                    share: nat, reply: seq<DramInfo>)
    requires |hot| <= |allocs| && Progress(start, s, c, hot, allocs, share, |hot|, reply)
    ensures Apply(start, c, hot, allocs, share) == (s, reply)
  {
    assert hot[|hot|..] == [] && reply + [] == reply;
  }

  lemma ProgressStep(start: Server, s: Server, c: nat, hot: seq<NvmInfo>, allocs: seq<DramAlloc>,
                     share: nat, i: nat, reply: seq<DramInfo>)
    requires i < |hot| <= |allocs| && Progress(start, s, c, hot, allocs, share, i, reply)
    ensures
      if Used(s.pollUsed, c) + hot[i].length > share then Apply(start, c, hot, allocs, share) == (s, reply)
      else match allocs[i]
           case AllocFails => Progress(start, s, c, hot, allocs, share, i + 1, reply + [DramInfo(hot[i].addr, None)])
           case Allocated(key, fill) =>
             Progress(start, Create(s, c, hot[i], key, fill), c, hot, allocs, share, i + 1,
                      reply + [DramInfo(hot[i].addr, Some(key))])
  {
    hide Used, Create;
    var h, l := hot[i..], allocs[i..];
    assert h[0] == hot[i] && h[1..] == hot[i + 1..] && l[0] == allocs[i] && l[1..] == allocs[i + 1..];
    var rest := Apply(s, c, h, l, share).1;
    if rest == [] {
      assert reply + [] == reply;
    } else {
      assert reply + rest == reply + [rest[0]] + rest[1..];
    }
  }
}
