/** Round-robin choice of the server node for an allocation. */
module NodeSelect {
  import opened Wrappers
  import opened Arithmetic

  // ---------- specification ----------

  /** First connected node in lo..hi, or hi. */
  function FirstConnected(conn: seq<bool>, lo: nat, hi: nat): (a: nat)
    requires lo <= hi <= |conn|
    ensures lo <= a <= hi && (a < hi ==> conn[a])
    ensures forall i :: lo <= i < a ==> !conn[i]
    decreases hi - lo
  {
    if lo == hi || conn[lo] then lo else FirstConnected(conn, lo + 1, hi)
  }

  function Wrap(conn: seq<bool>, fifo: nat): (s: nat)
    ensures s <= |conn| && (conn != [] ==> s < |conn|)
  {
    if fifo >= |conn| then 0 else fifo
  }

  /** The node chosen, and the index the next choice starts from. */
  function Select(conn: seq<bool>, fifo: nat): (Option<nat>, nat)
    requires conn != []
  {
    var s := Wrap(conn, fifo);
    var a, b := FirstConnected(conn, s, |conn|), FirstConnected(conn, 0, s);
    if a < |conn| then (Some(a), a + 1)
    else if b < s then (Some(b), b + 1)
    else (None, if s == 0 then |conn| else s)
  }

  // ---------- the loop ----------

  class NodeChooser {
    var fifoNodeIndex: nat

    constructor ()
      ensures fifoNodeIndex == 0
    {
      fifoNodeIndex := 0;
    }

    /** `dhmp_node_select`; `conn[i]` says that transport i exists and is connected. */
    method Choose(conn: seq<bool>) returns (r: Option<nat>)
      requires conn != []
      modifies this
      ensures (r, fifoNodeIndex) == Select(conn, old(fifoNodeIndex))
    {
      ghost var s := Wrap(conn, fifoNodeIndex);
      for i := 0 to |conn|
        invariant i == 0 ==> fifoNodeIndex == old(fifoNodeIndex)
        invariant 0 < i ==> fifoNodeIndex == if s + i <= |conn| then s + i else s + i - |conn|
        invariant forall j :: s <= j < |conn| && j < s + i ==> !conn[j]
        invariant forall j :: 0 <= j < s + i - |conn| ==> !conn[j]
      {
        if fifoNodeIndex >= |conn| {
          fifoNodeIndex := 0;
        }
        if conn[fifoNodeIndex] {
          fifoNodeIndex := fifoNodeIndex + 1;
          return Some(fifoNodeIndex - 1);
        }
        fifoNodeIndex := fifoNodeIndex + 1;
      }
      return None;
    }
  }

  // ---------- fairness ----------

  /** The connected nodes below `hi`, ascending. */
  function Connected(conn: seq<bool>, hi: nat): (r: seq<nat>)
    requires hi <= |conn|
    ensures |r| <= hi
  {
    if hi == 0 then [] else Connected(conn, hi - 1) + if conn[hi - 1] then [hi - 1] else []
  }

  /** Number of connected nodes below `hi`. */
  function Rank(conn: seq<bool>, hi: nat): nat
    requires hi <= |conn|
  {
    |Connected(conn, hi)|
  }

  /** Position, in the list of connected nodes, of the one chosen next. */
  function NextPos(conn: seq<bool>, fifo: nat): (j: nat)
    requires Rank(conn, |conn|) > 0
    ensures j < Rank(conn, |conn|)
  {
    var j, k := Rank(conn, Wrap(conn, fifo)), Rank(conn, |conn|);
    if j < k then j else 0
  }

  function Succ(j: nat, k: nat): nat {
    if j + 1 < k then j + 1 else 0
  }

  lemma {:induction false} ConnectedAt(conn: seq<bool>, c: nat, hi: nat)
    requires c < hi <= |conn| && conn[c]
    ensures Rank(conn, c) < Rank(conn, hi) && Connected(conn, hi)[Rank(conn, c)] == c
    ensures Rank(conn, c + 1) == Rank(conn, c) + 1
    decreases hi
  {
    if c + 1 < hi {
      ConnectedAt(conn, c, hi - 1);
    }
  }

  lemma {:induction false} RankSkips(conn: seq<bool>, lo: nat, hi: nat)
    requires lo <= hi <= |conn| && forall i :: lo <= i < hi ==> !conn[i]
    ensures Rank(conn, lo) == Rank(conn, hi)
    decreases hi
  {
    if lo < hi {
      RankSkips(conn, lo, hi - 1);
    }
  }

  /** One choice: the node at the next position, and the position moves on by one. */
  lemma SelectAdvances(conn: seq<bool>, fifo: nat)
    requires Rank(conn, |conn|) > 0
    ensures var (r, next) := Select(conn, fifo);
            && r == Some(Connected(conn, |conn|)[NextPos(conn, fifo)])
            && NextPos(conn, next) == Succ(NextPos(conn, fifo), Rank(conn, |conn|))
  {
    hide Connected, Rank, NextPos, FirstConnected, Wrap;
    var s := Wrap(conn, fifo);
    var a, b := FirstConnected(conn, s, |conn|), FirstConnected(conn, 0, s);
    if a < |conn| {
      NextIsHere(conn, fifo, a);
      Chosen(conn, a);
    } else {
      NextIsWrapped(conn, fifo, b);
      Chosen(conn, b);
    }
  }

  lemma NextIsHere(conn: seq<bool>, fifo: nat, a: nat)
    requires Wrap(conn, fifo) <= a < |conn| && conn[a] && Rank(conn, |conn|) > 0
    requires forall i :: Wrap(conn, fifo) <= i < a ==> !conn[i]
    ensures NextPos(conn, fifo) == Rank(conn, a)
  {
    hide Rank, Connected;
    RankSkips(conn, Wrap(conn, fifo), a);
    Chosen(conn, a);
  }

  lemma NextIsWrapped(conn: seq<bool>, fifo: nat, b: nat)
    requires Rank(conn, |conn|) > 0 && b <= Wrap(conn, fifo) <= |conn|
    requires forall i :: Wrap(conn, fifo) <= i < |conn| ==> !conn[i]
    requires forall i :: 0 <= i < b ==> !conn[i]
    ensures b < Wrap(conn, fifo) && NextPos(conn, fifo) == Rank(conn, b) == 0
  {
    hide Rank, Connected;
    RankSkips(conn, Wrap(conn, fifo), |conn|);
    RankSkips(conn, 0, b);
    NothingBelow(conn);
  }

  lemma NothingBelow(conn: seq<bool>)
    ensures Rank(conn, 0) == 0
  {
  }

  /** After choosing c the next position is one behind that of c. */
  lemma Chosen(conn: seq<bool>, c: nat)
    requires c < |conn| && conn[c]
    ensures var k := Rank(conn, |conn|);
            && 0 <= Rank(conn, c) < k && Connected(conn, |conn|)[Rank(conn, c)] == c
            && NextPos(conn, c + 1) == Succ(Rank(conn, c), k)
  {
    hide Connected;
    ConnectedAt(conn, c, |conn|);
    NothingBelow(conn);
    RankMonotone(conn, c + 1, |conn|);
  }

  lemma {:induction false} RankMonotone(conn: seq<bool>, lo: nat, hi: nat)
    requires lo <= hi <= |conn|
    ensures Rank(conn, lo) <= Rank(conn, hi)
    decreases hi
  {
    if lo < hi {
      RankMonotone(conn, lo, hi - 1);
    }
  }

  /** The results of m consecutive choices. */
  ghost function Choices(conn: seq<bool>, fifo: nat, m: nat): (r: seq<Option<nat>>)
    requires conn != []
    ensures |r| == m
    decreases m
  {
    if m == 0 then []
    else var (r, next) := Select(conn, fifo); [r] + Choices(conn, next, m - 1)
  }

  lemma ModStep(j: nat, t: nat, k: nat)
    requires j < k
    ensures (Succ(j, k) + t) % k == (j + (t + 1)) % k
  {
    if j + 1 == k {
      ModShift(t, k);
    }
  }

  lemma ModShift(x: nat, k: nat)
    requires k > 0
    ensures (x + k) % k == x % k
  {
    var q := x / k;
    assert (q + 1) * k == q * k + k;
    ModUnique(x + k, k, q + 1, x % k);
  }

  /** The t-th of any number of consecutive choices walks the connected nodes cyclically. */
  lemma {:induction false} ChoicesCycle(conn: seq<bool>, fifo: nat, m: nat, t: nat)
    requires Rank(conn, |conn|) > 0 && t < m
    ensures var k := Rank(conn, |conn|);
            Choices(conn, fifo, m)[t] == Some(Connected(conn, |conn|)[(NextPos(conn, fifo) + t) % k])
    decreases t
  {
    hide Connected, NextPos, Select;
    var k := Rank(conn, |conn|);
    var (r, next) := Select(conn, fifo);
    SelectAdvances(conn, fifo);
    if t == 0 {
      ModUnique(NextPos(conn, fifo), k, 0, NextPos(conn, fifo));
    } else {
      ChoicesCycle(conn, next, m - 1, t - 1);
      ModStep(NextPos(conn, fifo), t - 1, k);
    }
  }

  /** Any k consecutive choices, k nodes being connected, return each of them exactly once. */
  lemma RoundRobinIsFair(conn: seq<bool>, fifo: nat, c: nat)
    requires c < |conn| && conn[c]
    ensures var k := Rank(conn, |conn|);
            var picks := Choices(conn, fifo, k);
            exists t :: 0 <= t < k && picks[t] == Some(c) && forall u :: 0 <= u < k && u != t ==> picks[u] != Some(c)
  {
    hide Choices, NextPos, Select;
    ConnectedAt(conn, c, |conn|);
    var k, a, j := Rank(conn, |conn|), NextPos(conn, fifo), Rank(conn, c);
    var picks := Choices(conn, fifo, k);
    var t := if j >= a then j - a else j + k - a;
    CycleHits(a, t, k, j);
    ChoicesCycle(conn, fifo, k, t);
    forall u | 0 <= u < k && u != t ensures picks[u] != Some(c) {
      ChoicesCycle(conn, fifo, k, u);
      CycleIs(a, u, k);
      NoRepeat(conn, (a + u) % k, j);
    }
  }

  lemma CycleIs(a: nat, t: nat, k: nat)
    requires a < k && t < k
    ensures (a + t) % k == if a + t < k then a + t else a + t - k
  {
    if a + t < k { ModUnique(a + t, k, 0, a + t); } else { ModUnique(a + t, k, 1, a + t - k); }
  }

  lemma CycleHits(a: nat, t: nat, k: nat, j: nat)
    requires a < k && j < k && t == if j >= a then j - a else j + k - a
    ensures t < k && (a + t) % k == j
  {
    CycleIs(a, t, k);
  }

  /** No node is listed twice. */
  lemma NoRepeat(conn: seq<bool>, i: nat, j: nat)
    requires i < Rank(conn, |conn|) && j < Rank(conn, |conn|) && i != j
    ensures Connected(conn, |conn|)[i] != Connected(conn, |conn|)[j]
  {
    Ascends(conn, |conn|, if i < j then i else j, if i < j then j else i);
  }

  lemma {:induction false} Ascends(conn: seq<bool>, hi: nat, i: nat, j: nat)
    requires hi <= |conn| && i < j < Rank(conn, hi)
    ensures Connected(conn, hi)[i] < Connected(conn, hi)[j] < hi
    decreases hi
  {
    Below(conn, hi, j);
    if j < Rank(conn, hi - 1) {
      Ascends(conn, hi - 1, i, j);
    } else {
      Below(conn, hi - 1, i);
    }
  }

  lemma {:induction false} Below(conn: seq<bool>, hi: nat, i: nat)
    requires hi <= |conn| && i < Rank(conn, hi)
    ensures Connected(conn, hi)[i] < hi
    decreases hi
  {
    if i < Rank(conn, hi - 1) {
      Below(conn, hi - 1, i);
    }
  }

  /** No node is returned exactly when none is connected, and the one returned is connected. */
  lemma NullIffNoneConnected(conn: seq<bool>, fifo: nat)
    requires conn != []
    ensures Select(conn, fifo).0 == None <==> forall i :: 0 <= i < |conn| ==> !conn[i]
    ensures Select(conn, fifo).0.Some? ==> var c := Select(conn, fifo).0.value; c < |conn| && conn[c]
  {
    var s := Wrap(conn, fifo);
    var a, b := FirstConnected(conn, s, |conn|), FirstConnected(conn, 0, s);
    if a == |conn| && b == s {
      forall i | 0 <= i < |conn| ensures !conn[i] {
        assert i < b || s <= i < a;
      }
    }
  }

  // ---------- runs in which connections come and go ----------

  /** Number of nodes from s on, cyclically, that lie before x. */
  function Ahead(n: nat, s: nat, x: nat): (d: nat)
    requires s < n && x < n
    ensures d < n
  {
    if s <= x then x - s else x + n - s
  }

  /** Each choice sees the connections as they are then, and starts where the one before it
      left the index. */
  ghost function Outcomes(conns: seq<seq<bool>>, fifo: nat): (r: seq<Option<nat>>)
    requires forall i :: 0 <= i < |conns| ==> conns[i] != []
    ensures |r| == |conns|
  {
    if conns == [] then []
    else var (r, next) := Select(conns[0], fifo); [r] + Outcomes(conns[1..], next)
  }

  predicate Outage(conn: seq<bool>) {
    forall i :: 0 <= i < |conn| ==> !conn[i]
  }

  /** Whatever is connected, the node chosen is the connected one nearest to the index, and the
      next choice starts behind it. */
  lemma SelectIsNearest(conn: seq<bool>, fifo: nat, c: nat)
    requires c < |conn| && conn[c]
    ensures var (r, next) := Select(conn, fifo);
            && r.Some? && r.value < |conn| && next == r.value + 1
            && Ahead(|conn|, Wrap(conn, fifo), r.value) <= Ahead(|conn|, Wrap(conn, fifo), c)
  {
  }

  /** A choice that finds no node connected leaves the turn where it was, for whatever is
      connected next. */
  lemma FailedChoiceKeepsTurn(conn: seq<bool>, conn1: seq<bool>, fifo: nat)
    requires conn != [] && Outage(conn) && |conn1| == |conn|
    ensures Select(conn, fifo).0 == None
    ensures Select(conn1, Select(conn, fifo).1) == Select(conn1, fifo)
  {
    NullIffNoneConnected(conn, fifo);
    hide FirstConnected;
  }

  /** While c waits, every node chosen lies before it, seen from where the wait began. */
  lemma {:induction false} ChosenBefore(conns: seq<seq<bool>>, fifo: nat, n: nat, base: nat, c: nat, j: nat)
    requires base < n && c < n && j < |conns| && forall t :: 0 <= t < |conns| ==> |conns[t]| == n
    requires forall t :: 0 <= t <= j ==> conns[t][c] || Outage(conns[t])
    requires Ahead(n, base, if fifo >= n then 0 else fifo) <= Ahead(n, base, c)
    requires forall t :: 0 <= t <= j ==> Outcomes(conns, fifo)[t] != Some(c)
    ensures var r := Outcomes(conns, fifo)[j];
            r.Some? ==> r.value < n && Ahead(n, base, r.value) < Ahead(n, base, c)
    decreases j
  {
    hide FirstConnected, Select;
    var (r, next) := Select(conns[0], fifo);
    assert Outcomes(conns, fifo)[0] == r;
    if conns[0][c] {
      SelectIsNearest(conns[0], fifo, c);
    } else {
      FailedTurn(conns[0], fifo);
    }
    if j > 0 {
      assert forall t :: 0 <= t < j ==> Outcomes(conns[1..], next)[t] == Outcomes(conns, fifo)[t + 1]
                                        && conns[1..][t] == conns[t + 1];
      ChosenBefore(conns[1..], next, n, base, c, j - 1);
    }
  }

  lemma FailedTurn(conn: seq<bool>, fifo: nat)
    requires conn != [] && Outage(conn)
    ensures Select(conn, fifo).0 == None && Wrap(conn, Select(conn, fifo).1) == Wrap(conn, fifo)
  {
    NullIffNoneConnected(conn, fifo);
  }

  lemma OutcomesTail(conns: seq<seq<bool>>, fifo: nat)
    requires conns != [] && forall t :: 0 <= t < |conns| ==> conns[t] != []
    ensures var (r, next) := Select(conns[0], fifo);
            && Outcomes(conns, fifo)[0] == r
            && (forall t :: 0 <= t < |conns| - 1 ==> Outcomes(conns[1..], next)[t] == Outcomes(conns, fifo)[t + 1])
  {
    hide Select;
  }

  /** If node d is chosen first and never c, d is not chosen again. */
  lemma NotAgainBefore(conns: seq<seq<bool>>, fifo: nat, n: nat, j: nat, c: nat, d: nat)
    requires 0 < j < |conns| && forall t :: 0 <= t < |conns| ==> |conns[t]| == n
    requires c < n && c != d && forall t :: 0 < t <= j ==> conns[t][c] || Outage(conns[t])
    requires n > 0 && Outcomes(conns, fifo)[0] == Some(d)
    requires forall t :: 0 < t <= j ==> Outcomes(conns, fifo)[t] != Some(c)
    ensures Outcomes(conns, fifo)[j] != Some(d)
  {
    hide Outcomes, Select;
    var rest, next := conns[1..], Select(conns[0], fifo).1;
    OutcomesTail(conns, fifo);
    NullIffNoneConnected(conns[0], fifo);
    SelectIsNearest(conns[0], fifo, d);
    assert forall t :: 0 <= t <= j - 1 ==> Outcomes(rest, next)[t] == Outcomes(conns, fifo)[t + 1];
    ChosenBefore(rest, next, n, if d + 1 == n then 0 else d + 1, c, j - 1);
  }

  /** Through any coming and going of connections, no node is chosen twice without every other
      one in between that was connected whenever any node was. */
  lemma {:induction false} NoneIsOvertaken(conns: seq<seq<bool>>, fifo: nat, n: nat, i: nat, j: nat, c: nat, d: nat)
    requires n > 0 && i < j < |conns| && forall t :: 0 <= t < |conns| ==> |conns[t]| == n
    requires c < n && c != d && forall t :: i < t <= j ==> conns[t][c] || Outage(conns[t])
    requires Outcomes(conns, fifo)[i] == Outcomes(conns, fifo)[j] == Some(d)
    ensures exists t :: i < t < j && Outcomes(conns, fifo)[t] == Some(c)
    decreases i
  {
    hide Outcomes, Select;
    var out := Outcomes(conns, fifo);
    if i > 0 {
      var rest, next := conns[1..], Select(conns[0], fifo).1;
      OutcomesTail(conns, fifo);
      assert Outcomes(rest, next)[i - 1] == out[i] && Outcomes(rest, next)[j - 1] == out[j];
      NoneIsOvertaken(rest, next, n, i - 1, j - 1, c, d);
      var t :| i - 1 < t < j - 1 && Outcomes(rest, next)[t] == Some(c);
      assert out[t + 1] == Some(c);
    } else if forall t :: 0 < t < j ==> out[t] != Some(c) {
      NotAgainBefore(conns, fifo, n, j, c, d);
    }
  }

  /** The answers that name a node. */
  ghost function Found(out: seq<Option<nat>>): seq<Option<nat>> {
    if out == [] then [] else (if out[0].Some? then [out[0]] else []) + Found(out[1..])
  }

  /** How often something was connected. */
  ghost function Up(conns: seq<seq<bool>>): (m: nat)
    ensures m <= |conns|
  {
    if conns == [] then 0 else (if Outage(conns[0]) then 0 else 1) + Up(conns[1..])
  }

  lemma NotAnOutage(conn: seq<bool>)
    requires Rank(conn, |conn|) > 0
    ensures !Outage(conn)
  {
    hide Rank;
    if Outage(conn) {
      RankSkips(conn, 0, |conn|);
      NothingBelow(conn);
      assert false;
    }
  }

  /** Outages between the choices change nothing but their own answers: the others are those of
      as many choices in a row. */
  lemma {:induction false} OutagesAreSkipped(conn: seq<bool>, conns: seq<seq<bool>>, fifo: nat)
    requires Rank(conn, |conn|) > 0
    requires forall t :: 0 <= t < |conns| ==> conns[t] == conn || (|conns[t]| == |conn| && Outage(conns[t]))
    ensures Found(Outcomes(conns, fifo)) == Choices(conn, fifo, Up(conns))
    decreases |conns|
  {
    if conns != [] {
      hide Rank, Select;
      var (r, next) := Select(conns[0], fifo);
      assert Outcomes(conns, fifo)[0] == r && Outcomes(conns, fifo)[1..] == Outcomes(conns[1..], next);
      OutagesAreSkipped(conn, conns[1..], next);
      NotAnOutage(conn);
      if Outage(conns[0]) {
        FailedChoiceKeepsTurn(conns[0], conn, fifo);
      } else {
        NullIffNoneConnected(conn, fifo);
      }
    }
  }

  lemma {:induction false} FoundCount(out: seq<Option<nat>>, c: nat)
    ensures multiset(Found(out))[Some(c)] == multiset(out)[Some(c)]
  {
    if out != [] {
      assert out == [out[0]] + out[1..];
      FoundCount(out[1..], c);
    }
  }

  lemma CountOne(s: seq<Option<nat>>, t: nat, x: Option<nat>)
    requires t < |s| && s[t] == x && forall u :: 0 <= u < |s| && u != t ==> s[u] != x
    ensures multiset(s)[x] == 1
  {
    assert s == s[..t] + [x] + s[t + 1..];
    assert x !in s[..t] && x !in s[t + 1..];
  }

  /** Any stretch of choices in which the same k nodes are connected exactly k times, and
      otherwise none is, returns each of the k exactly once. */
  lemma FairThroughOutages(conn: seq<bool>, conns: seq<seq<bool>>, fifo: nat, c: nat)
    requires c < |conn| && conn[c] && Up(conns) == Rank(conn, |conn|)
    requires forall t :: 0 <= t < |conns| ==> conns[t] == conn || (|conns[t]| == |conn| && Outage(conns[t]))
    ensures multiset(Outcomes(conns, fifo))[Some(c)] == 1
  {
    ConnectedAt(conn, c, |conn|);
    RoundRobinIsFair(conn, fifo, c);
    OutagesAreSkipped(conn, conns, fifo);
    FoundCount(Outcomes(conns, fifo), c);
    hide Rank, Choices, Outcomes, Found, Up;
    var k := Rank(conn, |conn|);
    var picks := Choices(conn, fifo, k);
    var t :| 0 <= t < k && picks[t] == Some(c) && forall u :: 0 <= u < k && u != t ==> picks[u] != Some(c);
    CountOne(picks, t, Some(c));
  }
}
