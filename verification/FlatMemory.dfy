/**
 The server's memory as one array of bytes: what writes, write-backs and allocations do to
 it, and that it keeps holding each object's bytes as long as objects occupy separate ranges.
 */
module FlatMemory {
  import opened Wrappers
  import opened DramCache
  import opened CacheProtocol

  type Memory = nat -> Byte

  ghost function Store(mem: Memory, a: nat, data: seq<Byte>): Memory {
    (x: nat) => if a <= x < a + |data| then data[x - a] else mem(x)
  }

  ghost function Load(mem: Memory, a: nat, n: nat): (data: seq<Byte>)
    ensures |data| == n && forall i :: 0 <= i < n ==> data[i] == mem(a + i)
  {
    seq(n, i requires 0 <= i => mem(a + i))
  }

  predicate Inside(x: nat, a: nat, n: nat) { a <= x < a + n }

  /** No two live objects share a byte. */
  ghost predicate Separated(nvm: map<Addr, NvmObj>) {
    forall a, b :: a in nvm && b in nvm && a != b ==> a + nvm[a].length <= b || b + nvm[b].length <= a
  }

  ghost predicate Holds(mem: Memory, nvm: map<Addr, NvmObj>) {
    forall a :: a in nvm ==> nvm[a].data == Load(mem, a, nvm[a].length)
  }

  /** Outside the live objects nothing was written. */
  ghost predicate NoStray(mem: Memory, mem1: Memory, nvm: map<Addr, NvmObj>) {
    forall x: nat :: (forall a :: a in nvm ==> !Inside(x, a, nvm[a].length)) ==> mem1(x) == mem(x)
  }

  lemma LoadApart(mem: Memory, a: nat, data: seq<Byte>, b: nat, n: nat)
    requires a + |data| <= b || b + n <= a
    ensures Load(Store(mem, a, data), b, n) == Load(mem, b, n)
  {
  }

  lemma LoadStored(mem: Memory, a: nat, data: seq<Byte>, n: nat)
    requires |data| <= n
    ensures Load(Store(mem, a, data), a, n) == Overlay(Load(mem, a, n), data)
  {
  }

  /** A write into an object changes that object's bytes and no other's. */
  lemma StoreInObject(mem: Memory, nvm: map<Addr, NvmObj>, a: Addr, data: seq<Byte>)
    requires Separated(nvm) && Holds(mem, nvm) && a in nvm && |data| <= nvm[a].length
    ensures Holds(Store(mem, a, data), nvm[a := nvm[a].(data := Overlay(nvm[a].data, data))])
    ensures NoStray(mem, Store(mem, a, data), nvm)
  {
    var nvm1 := nvm[a := nvm[a].(data := Overlay(nvm[a].data, data))];
    forall b | b in nvm1 ensures nvm1[b].data == Load(Store(mem, a, data), b, nvm1[b].length) {
      if b == a {
        LoadStored(mem, a, data, nvm[a].length);
      } else {
        LoadApart(mem, a, data, b, nvm[b].length);
      }
    }
    forall x: nat | forall b :: b in nvm ==> !Inside(x, b, nvm[b].length) ensures Store(mem, a, data)(x) == mem(x) {
      assert !Inside(x, a, nvm[a].length);
    }
  }

  /** A new object in a range of its own leaves the others alone. */
  lemma StoreNewObject(mem: Memory, nvm: map<Addr, NvmObj>, a: Addr, obj: NvmObj)
    requires Holds(mem, nvm) && a !in nvm && |obj.data| == obj.length
    requires forall b :: b in nvm ==> a + obj.length <= b || b + nvm[b].length <= a
    ensures Holds(Store(mem, a, obj.data), nvm[a := obj])
    ensures NoStray(mem, Store(mem, a, obj.data), nvm[a := obj])
  {
    var nvm1 := nvm[a := obj];
    forall b | b in nvm1 ensures nvm1[b].data == Load(Store(mem, a, obj.data), b, nvm1[b].length) {
      if b == a {
        LoadStored(mem, a, obj.data, obj.length);
      } else {
        LoadApart(mem, a, obj.data, b, nvm[b].length);
      }
    }
    forall x: nat | forall b :: b in nvm1 ==> !Inside(x, b, nvm1[b].length)
      ensures Store(mem, a, obj.data)(x) == mem(x)
    {
      assert !Inside(x, a, nvm1[a].length);
    }
  }

  // ---------- evictions ----------

  /** The `memcpy` of `dhmp_destroy_dram_entry`. */
  ghost function WriteBack(mem: Memory, s: Server, a: Addr): Memory {
    match Find(s.entries, a)
    case None => mem
    case Some(e) => Store(mem, a, e.data)
  }

  lemma WriteBackHolds(mem: Memory, s: Server, a: Addr)
    requires TableOk(s) && Separated(s.nvm) && Holds(mem, s.nvm)
    ensures Holds(WriteBack(mem, s, a), Destroy(s, a).0.nvm) && NoStray(mem, WriteBack(mem, s, a), s.nvm)
  {
    if Find(s.entries, a).Some? {
      var e := Find(s.entries, a).value;
      assert EntryOk(e, s.nvm);
      StoreInObject(mem, s.nvm, a, e.data);
      assert Overlay(s.nvm[a].data, e.data) == e.data;
    }
  }

  ghost function ClearMemory(mem: Memory, s: Server, c: nat, cold: seq<NvmInfo>): Memory
    decreases |cold|
  {
    if cold == [] then mem
    else ClearMemory(WriteBack(mem, s, cold[0].addr), ClearOne(s, c, cold[0]), c, cold[1..])
  }

  lemma SeparatedSame(nvm: map<Addr, NvmObj>, nvm1: map<Addr, NvmObj>)
    requires Separated(nvm) && nvm1.Keys == nvm.Keys && forall a :: a in nvm ==> nvm1[a].length == nvm[a].length
    ensures Separated(nvm1)
  {
  }

  lemma StrayTrans(mem: Memory, mem1: Memory, mem2: Memory, nvm: map<Addr, NvmObj>, nvm1: map<Addr, NvmObj>)
    requires NoStray(mem, mem1, nvm) && NoStray(mem1, mem2, nvm1)
    requires nvm1.Keys == nvm.Keys && forall a :: a in nvm ==> nvm1[a].length == nvm[a].length
    ensures NoStray(mem, mem2, nvm)
  {
  }

  lemma {:induction false} ClearHolds(mem: Memory, s: Server, c: nat, infos: map<Addr, Info>, cold: seq<NvmInfo>, share: nat)
    requires ServerOk(s, share) && Owns(s, c, infos) && Agree(s, infos) && ColdOk(s, infos, cold)
    requires Separated(s.nvm) && Holds(mem, s.nvm)
    ensures Holds(ClearMemory(mem, s, c, cold), Clear(s, c, cold).nvm)
    ensures NoStray(mem, ClearMemory(mem, s, c, cold), s.nvm)
    decreases |cold|
  {
    if cold != [] {
      var a := cold[0].addr;
      var u, mem1 := ClearOne(s, c, cold[0]), WriteBack(mem, s, a);
      ClearHead(s, c, infos, cold, share);
      WriteBackHolds(mem, s, a);
      hide ServerOk, Owns, Agree, ColdOk, SameForOthers, Holds, NoStray, WriteBack, Find, Separated, Content;
      SeparatedSame(s.nvm, u.nvm);
      ClearHolds(mem1, u, c, infos[a := infos[a].(dram := None)], cold[1..], share);
      StrayTrans(mem, mem1, ClearMemory(mem, s, c, cold), s.nvm, u.nvm);
    }
  }
}
