/** The port allocator: `GetNextPort` over 32-bit ports. */
module Ports {
  import opened Common
  import opened Api

  const INT32_MIN: int := -0x8000_0000
  const INT32_MAX: int := 0x7fff_ffff

  /** Two's-complement truncation. */
  function Wrap32(x: int): (r: int32) {
    (x + 0x8000_0000) % 0x1_0000_0000 - 0x8000_0000
  }

  /** 32-bit addition. */
  function Add32(x: int, y: int): (r: int32) {
    Wrap32(x + y)
  }

  /** 32-bit subtraction. */
  function Sub32(x: int, y: int): (r: int32) {
    Wrap32(x - y)
  }

  // ---------------------------------------------------------------- sorting

  predicate Sorted(s: seq<int32>) {
    forall i, j :: 0 <= i < j < |s| ==> s[i] <= s[j]
  }

  function Insert(x: int32, s: seq<int32>): (r: seq<int32>)
    ensures multiset(r) == multiset(s) + multiset{x}
  {
    if s == [] || x <= s[0] then [x] + s
    else
      assert s == [s[0]] + s[1..];
      [s[0]] + Insert(x, s[1..])
  }

  lemma ConsKeepsSorted(x: int32, s: seq<int32>)
    requires Sorted(s) && forall y :: y in s ==> x <= y
    ensures Sorted([x] + s)
  {
    var r := [x] + s;
    forall i, j | 0 <= i < j < |r| ensures r[i] <= r[j] {
      assert r[j] == s[j - 1] && s[j - 1] in s;
      if i > 0 { assert r[i] == s[i - 1]; }
    }
  }

  lemma SortedTail(s: seq<int32>)
    requires Sorted(s) && s != []
    ensures Sorted(s[1..])
    ensures forall y :: y in s[1..] ==> s[0] <= y
  {
  }

  lemma {:induction false} InsertKeepsSorted(x: int32, s: seq<int32>)
    requires Sorted(s)
    ensures Sorted(Insert(x, s))
  {
    if s == [] {
    } else {
      SortedTail(s);
      if x <= s[0] {
        assert s == [s[0]] + s[1..];
        ConsKeepsSorted(x, s);
      } else {
        var t := Insert(x, s[1..]);
        InsertKeepsSorted(x, s[1..]);
        forall y | y in t ensures s[0] <= y {
          assert y in multiset(t);
          assert y == x || y in multiset(s[1..]);
        }
        ConsKeepsSorted(s[0], t);
      }
    }
  }

  /** The library sort: the increasing arrangement of the ports. */
  function Sort(s: seq<int32>): (r: seq<int32>)
    ensures Sorted(r)
    ensures multiset(r) == multiset(s)
  {
    if s == [] then []
    else
      assert s == [s[0]] + s[1..];
      InsertKeepsSorted(s[0], Sort(s[1..]));
      Insert(s[0], Sort(s[1..]))
  }

  // ------------------------------------------------------------- the search

  /** The scan for the first gap, in 32-bit arithmetic. */
  function Scan(s: seq<int32>, i: nat): (r: int32)
    requires i < |s|
    decreases |s| - i
  {
    if i == |s| - 1 then Add32(s[i], 1)
    else if Sub32(s[i + 1], s[i]) > 1 then Add32(s[i], 1)
    else Scan(s, i + 1)
  }

  /** What `GetNextPort` returns for the given ports in use. */
  function NextPort(ports: seq<int32>, minPort: int32): (r: int32) {
    var s := Sort(ports);
    if |s| == 0 || s[0] > minPort then minPort else Scan(s, 0)
  }

  // ------------------------------------------------------- what it computes

  /** The least port at or above `minPort` that is not in use. */
  ghost predicate IsLeastFree(ports: seq<int32>, minPort: int, r: int) {
    && minPort <= r
    && r !in ports
    && forall v: int {:trigger v in ports} :: minPort <= v < r ==> v in ports
  }

  /** The 32-bit sums and differences that the search forms cannot overflow. */
  ghost predicate NoOverflow(ports: seq<int32>) {
    && INT32_MAX !in ports
    && forall p, q :: p in ports && q in ports ==> q - p <= INT32_MAX
  }

  /** Every value from the lowest port in use up to `minPort` is in use. */
  ghost predicate NoHoleBelow(ports: seq<int32>, minPort: int) {
    forall p, v: int :: p in ports && p <= v < minPort ==> v in ports
  }

  /** The only port sets on which the search goes round: both ends of the range
      are in use and after each port the next one is adjacent or too far away
      for a 32-bit difference. */
  ghost predicate GoesRound(ports: seq<int32>) {
    && INT32_MIN in ports
    && INT32_MAX in ports
    && forall p :: p in ports && p < INT32_MAX ==> p + 1 in ports || FarFromNext(ports, p)
  }

  ghost predicate FarFromNext(ports: seq<int32>, p: int) {
    forall q :: q in ports && p < q ==> q - p > INT32_MAX
  }

  lemma SortKeepsMembers(ports: seq<int32>)
    ensures |Sort(ports)| == |ports|
    ensures forall p :: p in Sort(ports) <==> p in ports
  {
    SameMultisetSameElements(Sort(ports), ports);
  }

  /** Nothing lies between two neighbours of a sorted sequence. */
  lemma NothingBetween(s: seq<int32>, i: nat, v: int)
    requires Sorted(s) && i + 1 < |s| && s[i] < v < s[i + 1]
    ensures v !in s
  {
  }

  /** The 32-bit difference of two ports in order shows a gap unless it overflows. */
  lemma GapTest(p: int32, q: int32)
    requires p <= q
    ensures Sub32(q, p) > 1 <==> 1 < q - p <= INT32_MAX
  {
    var gap: int := q as int - p as int;
    assert 0 <= gap <= 0xffff_ffff;
  }

  /** The scan returns either the top of the first detected gap's lower run or,
      when there is no such gap, the wrapped successor of the highest port. */
  lemma {:induction false} ScanCases(s: seq<int32>, i: nat)
    requires Sorted(s) && i < |s|
    ensures
      || (exists k :: i <= k < |s| - 1 && 1 < s[k + 1] - s[k] <= INT32_MAX && Scan(s, i) == s[k] + 1)
      || ((forall k :: i <= k < |s| - 1 ==> !(1 < s[k + 1] - s[k] <= INT32_MAX))
          && Scan(s, i) == Add32(s[|s| - 1], 1))
    decreases |s| - i
  {
    if i < |s| - 1 {
      GapTest(s[i], s[i + 1]);
      if 1 < s[i + 1] - s[i] <= INT32_MAX {
        assert Scan(s, i) == s[i] + 1;
      } else {
        ScanCases(s, i + 1);
      }
    }
  }

  lemma GapExcludesRound(s: seq<int32>, k: nat)
    requires Sorted(s) && k < |s| - 1 && 1 < s[k + 1] - s[k] <= INT32_MAX
    ensures s[k] + 1 !in s
    ensures !GoesRound(s)
  {
    NothingBetween(s, k, s[k] as int + 1);
    assert s[k] in s && s[k + 1] in s;
    assert !FarFromNext(s, s[k]);
  }

  lemma FreshOnSorted(s: seq<int32>)
    requires Sorted(s) && |s| > 0
    ensures Scan(s, 0) in s <==> GoesRound(s)
  {
    ScanCases(s, 0);
    if k :| 0 <= k < |s| - 1 && 1 < s[k + 1] - s[k] <= INT32_MAX && Scan(s, 0) == s[k] as int + 1 {
      GapExcludesRound(s, k);
    } else {
      LastPortCase(s);
    }
  }

  lemma SameMembersSameRound(s: seq<int32>, t: seq<int32>)
    requires forall p :: p in s <==> p in t
    requires GoesRound(s)
    ensures GoesRound(t)
  {
  }

  /** Freshness, for every input: the port returned is already in use exactly
      when the search goes round. */
  lemma NextPortFreshExactly(ports: seq<int32>, minPort: int32)
    ensures NextPort(ports, minPort) in ports <==> GoesRound(ports)
  {
    var s := Sort(ports);
    SortKeepsMembers(ports);
    if |s| == 0 || s[0] > minPort {
      assert minPort !in s;
      assert INT32_MIN !in s;
    } else {
      FreshOnSorted(s);
      if GoesRound(s) { SameMembersSameRound(s, ports); }
      if GoesRound(ports) { SameMembersSameRound(ports, s); }
    }
  }

  /** Without a detected gap, the successor of the highest port is in use only
      if it wrapped onto the lowest possible port. */
  lemma LastPortCase(s: seq<int32>)
    requires Sorted(s) && |s| > 0
    requires forall k :: 0 <= k < |s| - 1 ==> !(1 < s[k + 1] - s[k] <= INT32_MAX)
    ensures Add32(s[|s| - 1], 1) in s <==> GoesRound(s)
  {
    var top := s[|s| - 1];
    assert forall p :: p in s ==> p <= top;
    if top == INT32_MAX {
      assert Add32(top, 1) == INT32_MIN;
      forall p | p in s && p < INT32_MAX ensures p + 1 in s || FarFromNext(s, p) {
        RunOrJump(s, p);
      }
    } else {
      assert Add32(top, 1) == top as int + 1;
      assert INT32_MAX !in s;
    }
  }

  lemma RunOrJump(s: seq<int32>, p: int32)
    requires Sorted(s) && p in s && p < s[|s| - 1]
    requires forall k :: 0 <= k < |s| - 1 ==> !(1 < s[k + 1] - s[k] <= INT32_MAX)
    ensures p + 1 in s || FarFromNext(s, p)
  {
    // the last position that holds p
    var k :| 0 <= k < |s| && s[k] == p;
    while s[k + 1] == p
      invariant 0 <= k < |s| - 1 && s[k] == p
      decreases |s| - k
    {
      k := k + 1;
    }
    assert s[k + 1] > p;
    if s[k + 1] != p + 1 {
      assert s[k + 1] - s[k] > INT32_MAX;
      forall q | q in s && p < q ensures q - p > INT32_MAX {
        var j :| 0 <= j < |s| && s[j] == q;
        assert j > k;
        assert s[k + 1] <= s[j];
      }
    }
  }

  /** From a position below which there are no gaps, the scan finds the end of
      the run that starts at the lowest port. */
  lemma {:induction false} ScanEndsRun(s: seq<int32>, i: nat)
    requires Sorted(s) && i < |s| && NoOverflow(s)
    requires forall v: int {:trigger v in s} :: s[0] <= v <= s[i] ==> v in s
    ensures s[0] < Scan(s, i)
    ensures Scan(s, i) !in s
    ensures forall v: int {:trigger v in s} :: s[0] <= v < Scan(s, i) ==> v in s
    decreases |s| - i
  {
    assert s[i] in s && s[0] <= s[i];
    if i == |s| - 1 {
      assert forall p :: p in s ==> p <= s[i];
    } else {
      assert s[i + 1] in s && s[i] <= s[i + 1];
      if Sub32(s[i + 1], s[i]) > 1 {
        NothingBetween(s, i, s[i] + 1);
      } else {
        ScanEndsRun(s, i + 1);
      }
    }
  }

  /** Without overflow the result is fresh, and it is the least free port at or
      above `minPort` exactly when no value between the lowest port in use and
      `minPort` is free. */
  lemma NextPortLeastFreeExactly(ports: seq<int32>, minPort: int32)
    requires NoOverflow(ports)
    ensures NextPort(ports, minPort) !in ports
    ensures IsLeastFree(ports, minPort, NextPort(ports, minPort)) <==> NoHoleBelow(ports, minPort)
  {
    var s := Sort(ports);
    SortKeepsMembers(ports);
    if |s| == 0 || s[0] > minPort {
      assert forall p :: p in s ==> s[0] <= p;
    } else {
      assert NoOverflow(s);
      ScanEndsRun(s, 0);
      assert s[0] in ports;
      assert forall p :: p in ports ==> s[0] <= p;
      var r := NextPort(ports, minPort);
      if NoHoleBelow(ports, minPort) && r < minPort {
        assert false;
      }
    }
  }

  /** The case the callers rely on: all ports in use are at or above `minPort`. */
  lemma NextPortIsLeastFree(ports: seq<int32>, minPort: int32)
    requires NoOverflow(ports)
    requires forall p :: p in ports ==> minPort <= p
    ensures IsLeastFree(ports, minPort, NextPort(ports, minPort))
  {
    NextPortLeastFreeExactly(ports, minPort);
  }

  /** A least free port is at most as far above `minPort` as there are ports in
      use: everything in between is taken. */
  lemma LeastFreeBound(ports: seq<int32>, minPort: int, r: int)
    requires IsLeastFree(ports, minPort, r)
    ensures r <= minPort + |ports|
  {
    var taken := Interval(minPort, r);
    assert taken <= Elements(ports);
    SubsetSize(taken, Elements(ports));
    ElementsBound(ports);
  }

  /** A free value above the lowest port in use bounds the result. */
  lemma HoleBoundsScan(s: seq<int32>, v: int)
    requires Sorted(s) && |s| > 0 && NoOverflow(s) && s[0] <= v && v !in s
    ensures Scan(s, 0) <= v
  {
    ScanEndsRun(s, 0);
  }

  lemma HoleDrawsBelow(ports: seq<int32>, minPort: int32, p: int32, v: int)
    requires NoOverflow(ports) && p in ports && p <= v < minPort && v !in ports
    ensures NextPort(ports, minPort) < minPort
  {
    var s := Sort(ports);
    SortKeepsMembers(ports);
    assert p in s && s[0] <= p;
    HoleBoundsScan(s, v);
  }

  /** Exactly when a port below the minimum is returned, without overflow: when
      something between the lowest port in use and the minimum is free. */
  lemma NextPortBelowMinimumExactly(ports: seq<int32>, minPort: int32)
    requires NoOverflow(ports)
    ensures NextPort(ports, minPort) < minPort <==> !NoHoleBelow(ports, minPort)
  {
    if NoHoleBelow(ports, minPort) {
      NextPortLeastFreeExactly(ports, minPort);
    } else {
      var p, v: int :| p in ports && p <= v < minPort && v !in ports;
      HoleDrawsBelow(ports, minPort, p, v);
    }
  }

  /** The least free port at or above a bound is unique. */
  lemma LeastFreeUnique(ports: seq<int32>, bound: int, r: int, q: int)
    requires IsLeastFree(ports, bound, r) && IsLeastFree(ports, bound, q)
    ensures r == q
  {
  }

  /** The value, without overflow: the least free port at or above the smaller of the
      minimum and the lowest port in use. */
  lemma NextPortValue(ports: seq<int32>, minPort: int32, bound: int)
    requires NoOverflow(ports)
    requires bound == minPort || bound in ports
    requires bound <= minPort && forall p :: p in ports ==> bound <= p
    ensures IsLeastFree(ports, bound, NextPort(ports, minPort))
  {
    var s := Sort(ports);
    SortKeepsMembers(ports);
    if |s| == 0 || s[0] > minPort {
      assert forall p :: p in s ==> s[0] <= p;
    } else {
      assert s[0] in ports && forall p :: p in s ==> s[0] <= p;
      ScanEndsRun(s, 0);
      assert bound == s[0];
    }
  }

  /** The search stops at a port: it is the highest in use, or its successor is free
      and the next port is near enough for a 32-bit difference. */
  ghost predicate StopsAt(ports: seq<int32>, p: int) {
    && p in ports
    && ((forall q :: q in ports ==> q <= p) || (p + 1 !in ports && !FarFromNext(ports, p)))
  }

  ghost predicate FirstStop(ports: seq<int32>, p: int) {
    StopsAt(ports, p) && forall q :: q in ports && q < p ==> !StopsAt(ports, q)
  }

  lemma StopOnSorted(s: seq<int32>, k: nat)
    requires Sorted(s) && k < |s| - 1 && s[k] < s[k + 1]
    ensures StopsAt(s, s[k]) <==> 1 < s[k + 1] - s[k] <= INT32_MAX
  {
    assert s[k] in s && s[k + 1] in s;
    assert forall q :: q in s && s[k] < q ==> s[k + 1] <= q;
    if 1 < s[k + 1] as int - s[k] as int {
      NothingBetween(s, k, s[k] as int + 1);
    }
  }

  /** The 32-bit successor of the first stop. */
  ghost predicate StopGives(ports: seq<int32>, r: int) {
    exists p :: FirstStop(ports, p) && r == if p == INT32_MAX then INT32_MIN else p + 1
  }

  lemma SuccessorWraps(p: int32)
    ensures Add32(p, 1) == if p == INT32_MAX then INT32_MIN else p + 1
  {
  }

  lemma StopIsFirst(s: seq<int32>, p: int32)
    requires StopsAt(s, p) && forall q :: q in s && q < p ==> !StopsAt(s, q)
    ensures StopGives(s, Add32(p, 1))
  {
    SuccessorWraps(p);
    assert FirstStop(s, p);
  }

  lemma LastStops(s: seq<int32>)
    requires Sorted(s) && |s| > 0
    ensures StopsAt(s, s[|s| - 1])
  {
    assert s[|s| - 1] in s;
  }

  /** Without a visible gap after position `i`, the search does not stop below the
      next one either. */
  lemma StopsLater(s: seq<int32>, i: nat)
    requires Sorted(s) && i + 1 < |s| && !(1 < s[i + 1] - s[i] <= INT32_MAX)
    requires forall q :: q in s && q < s[i] ==> !StopsAt(s, q)
    ensures forall q :: q in s && q < s[i + 1] ==> !StopsAt(s, q)
  {
    if s[i] < s[i + 1] {
      StopOnSorted(s, i);
    }
    forall q | q in s && q < s[i + 1] ensures !StopsAt(s, q) {
      var k :| 0 <= k < |s| && s[k] == q;
      assert k <= i;
      assert q <= s[i];
    }
  }

  /** From a position below which the search does not stop, it returns the wrapped
      successor of the first port it stops at. */
  lemma {:induction false} ScanStops(s: seq<int32>, i: nat)
    requires Sorted(s) && i < |s|
    requires forall q :: q in s && q < s[i] ==> !StopsAt(s, q)
    ensures StopGives(s, Scan(s, i))
    decreases |s| - i
  {
    if i == |s| - 1 {
      LastStops(s);
      StopIsFirst(s, s[i]);
    } else {
      GapTest(s[i], s[i + 1]);
      if 1 < s[i + 1] - s[i] <= INT32_MAX {
        StopOnSorted(s, i);
        StopIsFirst(s, s[i]);
      } else {
        StopsLater(s, i);
        ScanStops(s, i + 1);
      }
    }
  }

  lemma SameMembersSameStops(s: seq<int32>, t: seq<int32>, r: int)
    requires forall q :: q in s <==> q in t
    requires StopGives(s, r)
    ensures StopGives(t, r)
  {
    var p :| FirstStop(s, p) && r == if p == INT32_MAX then INT32_MIN else p + 1;
    assert forall q :: StopsAt(s, q) <==> StopsAt(t, q);
    assert FirstStop(t, p);
  }

  /** The value, for every input: the minimum if no port in use is at or below it, and
      otherwise the 32-bit successor of the first port that the search stops at. */
  lemma NextPortExactly(ports: seq<int32>, minPort: int32)
    ensures (forall p :: p in ports ==> minPort < p) ==> NextPort(ports, minPort) == minPort
    ensures (exists p :: p in ports && p <= minPort) ==> StopGives(ports, NextPort(ports, minPort))
  {
    var s := Sort(ports);
    SortKeepsMembers(ports);
    if |s| > 0 {
      assert s[0] in s && forall p :: p in s ==> s[0] <= p;
      if s[0] <= minPort {
        ScanStops(s, 0);
        SameMembersSameStops(s, ports, Scan(s, 0));
      }
    }
  }

  /** The failing side: one low port draws the search below the minimum. */
  lemma NextPortFollowsLowPort(p: int32, minPort: int32)
    requires p < minPort
    ensures NextPort([p], minPort) == p + 1
  {
  }

  /** An input on which the search returns a port in use. */
  lemma NextPortGoesRound()
    ensures NextPort([INT32_MIN, INT32_MAX], 10240) in [INT32_MIN, INT32_MAX]
  {
    var ports: seq<int32> := [INT32_MIN, INT32_MAX];
    assert ports[0] == INT32_MIN && ports[1] == INT32_MAX;
    forall p | p in ports && p < INT32_MAX ensures FarFromNext(ports, p) {
      assert p == INT32_MIN;
    }
    NextPortFreshExactly(ports, 10240);
  }

  // ------------------------------------------------------ the code as written

  /** The ports set in a list of frontends, in list order. */
  function PortsOf(frontends: seq<Frontend>): (r: seq<int32>)
    ensures |r| <= |frontends|
    ensures forall p :: p in r <==> exists i :: 0 <= i < |frontends| && frontends[i].port == Some(p)
  {
    if frontends == [] then []
    else
      var front := frontends[..|frontends| - 1];
      var last := frontends[|frontends| - 1];
      assert forall i :: 0 <= i < |front| ==> front[i] == frontends[i];
      if last.port.Some? then PortsOf(front) + [last.port.value] else PortsOf(front)
  }

  /** The loop that collects the ports in use. */
  method CollectPorts(frontends: seq<Frontend>) returns (ports: seq<int32>)
    ensures ports == PortsOf(frontends)
  {
    ports := [];
    for i := 0 to |frontends|
      invariant ports == PortsOf(frontends[..i])
    {
      assert frontends[..i + 1][..i] == frontends[..i];
      if frontends[i].port.Some? {
        ports := ports + [frontends[i].port.value];
      }
    }
    assert frontends[..|frontends|] == frontends;
  }

  method GetNextPort(frontends: seq<Frontend>, minPort: int32) returns (r: int32)
    ensures r == NextPort(PortsOf(frontends), minPort)
    ensures r in PortsOf(frontends) <==> GoesRound(PortsOf(frontends))
  {
    ghost var inUse := PortsOf(frontends);
    NextPortFreshExactly(inUse, minPort);
    if |frontends| == 0 {
      return minPort;
    }
    var ports := CollectPorts(frontends);
    ports := Sort(ports);
    if |ports| == 0 || ports[0] > minPort {
      return minPort;
    }
    var i := 0;
    while i < |ports| - 1
      invariant 0 <= i < |ports|
      invariant Scan(ports, 0) == Scan(ports, i)
    {
      if Sub32(ports[i + 1], ports[i]) > 1 {
        return Add32(ports[i], 1);
      }
      i := i + 1;
    }
    return Add32(ports[|ports| - 1], 1);
  }
}
