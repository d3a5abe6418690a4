/** The health cache: per-frontend endpoint lists and the order-insensitive test
    that decides whether a list changed. */
module HealthCache {
  import opened Common
  import opened Api

  datatype Endpoint = Endpoint(nodeName: string, ipAddress: string, healthy: bool)

  /** The fields that count as health state; the node name does not. */
  datatype Health = Health(ipAddress: string, healthy: bool)

  function HealthOf(ep: Endpoint): (h: Health) {
    Health(ep.ipAddress, ep.healthy)
  }

  function Healths(eps: seq<Endpoint>): (r: seq<Health>)
    ensures |r| == |eps|
    ensures forall i :: 0 <= i < |eps| ==> r[i] == HealthOf(eps[i])
  {
    seq(|eps|, i requires 0 <= i < |eps| => HealthOf(eps[i]))
  }

  function Ips(eps: seq<Endpoint>): (r: seq<string>)
    ensures |r| == |eps|
    ensures forall i :: 0 <= i < |eps| ==> r[i] == eps[i].ipAddress
  {
    seq(|eps|, i requires 0 <= i < |eps| => eps[i].ipAddress)
  }

  ghost predicate DistinctIps(eps: seq<Endpoint>) {
    NoDuplicates(Ips(eps))
  }

  /** Equal as multisets of (address, healthy). */
  ghost predicate SameHealth(a: seq<Endpoint>, b: seq<Endpoint>) {
    multiset(Healths(a)) == multiset(Healths(b))
  }

  // -------------------------------------------------------------- the test

  /** The lookup table of `Update`: for each address the health of its last entry. */
  function LastHealth(eps: seq<Endpoint>): (m: map<string, bool>)
    ensures forall ip :: ip in m <==> ip in Ips(eps)
  {
    if eps == [] then map[]
    else
      var n := |eps| - 1;
      assert forall i :: 0 <= i < n ==> Ips(eps)[i] == Ips(eps[..n])[i];
      assert Ips(eps) == Ips(eps[..n]) + [eps[n].ipAddress];
      LastHealth(eps[..n])[eps[n].ipAddress := eps[n].healthy]
  }

  predicate Found(table: map<string, bool>, ep: Endpoint) {
    ep.ipAddress in table && table[ep.ipAddress] == ep.healthy
  }

  /** Whether `Update` takes the new list for a change of the stored one. */
  predicate Changed(stored: seq<Endpoint>, updated: seq<Endpoint>) {
    |stored| != |updated| || exists i :: 0 <= i < |updated| && !Found(LastHealth(stored), updated[i])
  }

  /** The table answers with the health of some entry of the address. */
  lemma {:induction false} LastHealthIsStored(eps: seq<Endpoint>, ip: string) returns (i: nat)
    requires ip in LastHealth(eps)
    ensures i < |eps| && eps[i].ipAddress == ip && eps[i].healthy == LastHealth(eps)[ip]
  {
    var n := |eps| - 1;
    if eps[n].ipAddress == ip {
      i := n;
    } else {
      i := LastHealthIsStored(eps[..n], ip);
    }
  }

  /** Entry `j` is the last one of its address, and has this health. */
  ghost predicate IsLastEntry(eps: seq<Endpoint>, j: int, h: Health) {
    && 0 <= j < |eps| && eps[j].ipAddress == h.ipAddress && eps[j].healthy == h.healthy
    && forall k :: j < k < |eps| ==> eps[k].ipAddress != h.ipAddress
  }

  lemma LastEntryStep(eps: seq<Endpoint>, j: int, h: Health)
    requires eps != []
    ensures var n := |eps| - 1;
      IsLastEntry(eps, j, h) <==>
        if eps[n].ipAddress == h.ipAddress then j == n && eps[n].healthy == h.healthy
        else IsLastEntry(eps[..n], j, h)
  {
  }

  /** The last entry of the address says this health. */
  ghost predicate LastEntrySays(eps: seq<Endpoint>, h: Health) {
    exists j :: IsLastEntry(eps, j, h)
  }

  lemma {:induction false} FoundIsLastEntry(eps: seq<Endpoint>, ep: Endpoint)
    ensures Found(LastHealth(eps), ep) <==> LastEntrySays(eps, Health(ep.ipAddress, ep.healthy))
  {
    if eps != [] {
      var n := |eps| - 1;
      var h := Health(ep.ipAddress, ep.healthy);
      FoundIsLastEntry(eps[..n], ep);
      LastEntryStep(eps, n, h);
      forall j ensures IsLastEntry(eps, j, h) <==>
        if eps[n].ipAddress == h.ipAddress then j == n && eps[n].healthy == h.healthy else IsLastEntry(eps[..n], j, h)
      {
        LastEntryStep(eps, j, h);
      }
    }
  }

  /** The verdict, for all lists: there is no change if and only if the lengths agree
      and each new entry has the health of the last stored entry of its address. */
  lemma ChangedExactly(stored: seq<Endpoint>, updated: seq<Endpoint>)
    ensures !Changed(stored, updated) <==>
      (&& |stored| == |updated|
       && forall i :: 0 <= i < |updated| ==> LastEntrySays(stored, Health(updated[i].ipAddress, updated[i].healthy)))
  {
    forall i | 0 <= i < |updated|
      ensures Found(LastHealth(stored), updated[i]) <==> LastEntrySays(stored, Health(updated[i].ipAddress, updated[i].healthy))
    {
      FoundIsLastEntry(stored, updated[i]);
    }
  }

  /** With distinct addresses the table is exactly the list. */
  lemma LastHealthExact(eps: seq<Endpoint>, i: nat)
    requires DistinctIps(eps) && i < |eps|
    ensures Found(LastHealth(eps), eps[i])
  {
    assert Ips(eps)[i] == eps[i].ipAddress;
    var j := LastHealthIsStored(eps, eps[i].ipAddress);
    assert Ips(eps)[j] == Ips(eps)[i];
  }

  lemma HealthsDistinct(eps: seq<Endpoint>)
    requires DistinctIps(eps)
    ensures NoDuplicates(Healths(eps))
  {
  }

  /** Pigeonhole: if every address of a distinct list is found in a stored list
      of the same length, the stored addresses are distinct as well. */
  lemma StoredIpsDistinct(stored: seq<Endpoint>, updated: seq<Endpoint>)
    requires |stored| == |updated| && DistinctIps(updated)
    requires forall i :: 0 <= i < |updated| ==> updated[i].ipAddress in Ips(stored)
    ensures DistinctIps(stored)
  {
    assert Elements(Ips(updated)) <= Elements(Ips(stored)) by {
      forall ip | ip in Elements(Ips(updated)) ensures ip in Elements(Ips(stored)) {
        var i :| 0 <= i < |updated| && Ips(updated)[i] == ip;
      }
    }
    PigeonHole(Ips(updated));
    SubsetSize(Elements(Ips(updated)), Elements(Ips(stored)));
    ElementsBound(Ips(stored));
    PigeonHole(Ips(stored));
  }

  /** Two duplicate-free sequences of one length, one inside the other, are
      permutations of each other. */
  lemma InsideIsPermutation<T>(a: seq<T>, b: seq<T>)
    requires |a| == |b| && NoDuplicates(a) && NoDuplicates(b)
    requires forall x :: x in a ==> x in b
    ensures multiset(a) == multiset(b)
  {
    PigeonHole(a);
    PigeonHole(b);
    SubsetSize(Elements(a), Elements(b));
    forall x ensures multiset(a)[x] == multiset(b)[x] {
      MultiplicityOne(a, x);
      MultiplicityOne(b, x);
      assert x in Elements(a) <==> x in Elements(b);
    }
  }

  lemma UnchangedMeansSame(stored: seq<Endpoint>, updated: seq<Endpoint>)
    requires DistinctIps(updated) && !Changed(stored, updated)
    ensures SameHealth(stored, updated)
  {
    var table := LastHealth(stored);
    forall i | 0 <= i < |updated| ensures updated[i].ipAddress in Ips(stored) {
      assert Found(table, updated[i]);
    }
    StoredIpsDistinct(stored, updated);
    HealthsDistinct(stored);
    HealthsDistinct(updated);
    forall h | h in Healths(updated) ensures h in Healths(stored) {
      var i :| 0 <= i < |updated| && Healths(updated)[i] == h;
      assert Found(table, updated[i]);
      var j := LastHealthIsStored(stored, updated[i].ipAddress);
      assert Healths(stored)[j] == h;
    }
    InsideIsPermutation(Healths(updated), Healths(stored));
  }

  /** Distinct addresses survive a permutation of the health states. */
  lemma SameHealthKeepsDistinct(a: seq<Endpoint>, b: seq<Endpoint>)
    requires SameHealth(a, b) && DistinctIps(a)
    ensures DistinctIps(b)
  {
    SameMultisetSameElements(Healths(a), Healths(b));
    forall i | 0 <= i < |a| ensures a[i].ipAddress in Ips(b) {
      assert Healths(a)[i] in Healths(b);
      var j :| 0 <= j < |b| && Healths(b)[j] == Healths(a)[i];
      assert Ips(b)[j] == a[i].ipAddress;
    }
    StoredIpsDistinct(b, a);
  }

  lemma SameMeansUnchanged(stored: seq<Endpoint>, updated: seq<Endpoint>)
    requires DistinctIps(updated) && SameHealth(stored, updated)
    ensures !Changed(stored, updated)
  {
    SameHealthKeepsDistinct(updated, stored);
    SameMultisetSameElements(Healths(stored), Healths(updated));
    forall i | 0 <= i < |updated| ensures Found(LastHealth(stored), updated[i]) {
      assert Healths(updated)[i] in Healths(stored);
      var j :| 0 <= j < |stored| && Healths(stored)[j] == Healths(updated)[i];
      LastHealthExact(stored, j);
    }
  }

  /** Change detection is exact for every new list with distinct addresses,
      whatever is stored. */
  lemma ChangeDetectionExact(stored: seq<Endpoint>, updated: seq<Endpoint>)
    requires DistinctIps(updated)
    ensures Changed(stored, updated) <==> !SameHealth(stored, updated)
  {
    if Changed(stored, updated) {
      if SameHealth(stored, updated) { SameMeansUnchanged(stored, updated); }
    } else {
      UnchangedMeansSame(stored, updated);
    }
  }

  // ------------------------------------------------- when the test is inexact

  /** An address that occurs in no entry. */
  ghost function UnusedIp(eps: seq<Endpoint>): (r: string)
    ensures forall i :: 0 <= i < |eps| ==> |eps[i].ipAddress| < |r|
  {
    if eps == [] then "x"
    else
      var n := |eps| - 1;
      UnusedIp(eps[..n]) + eps[n].ipAddress + "x"
  }

  /** Entries of one address that disagree: the list differs from itself. */
  lemma DisagreeingEntries(eps: seq<Endpoint>, i: nat, j: nat)
    requires i < j < |eps| && eps[i].ipAddress == eps[j].ipAddress && eps[i].healthy != eps[j].healthy
    ensures Changed(eps, eps)
  {
  }

  /** Entries of one address agree on its health. */
  ghost predicate Agreeing(eps: seq<Endpoint>) {
    forall i, k :: 0 <= i < k < |eps| && eps[i].ipAddress == eps[k].ipAddress ==> eps[i].healthy == eps[k].healthy
  }

  lemma AgreeingFound(eps: seq<Endpoint>, k: nat)
    requires Agreeing(eps) && k < |eps|
    ensures Found(LastHealth(eps), eps[k])
  {
    assert Ips(eps)[k] == eps[k].ipAddress;
    var b := LastHealthIsStored(eps, eps[k].ipAddress);
    assert b < k || k < b || b == k;
  }

  /** The table of a list that differs from an agreeing one at a single position, of
      another address. */
  lemma LookupOutside(eps: seq<Endpoint>, t: seq<Endpoint>, j: nat, ip: string, i: nat)
    requires Agreeing(eps) && |t| == |eps| && i < |eps| && i != j
    requires forall a :: 0 <= a < |eps| && a != j ==> t[a] == eps[a]
    requires eps[i].ipAddress == ip && (j < |t| ==> t[j].ipAddress != ip)
    ensures ip in LastHealth(t) && LastHealth(t)[ip] == eps[i].healthy
  {
    assert Ips(t)[i] == ip;
    var a := LastHealthIsStored(t, ip);
    assert t[a] == eps[a];
    assert a < i || i < a || a == i;
  }

  /** A repeated address, all of whose entries agree, hides a real change: one
      of the repeats can be stored under another address. */
  lemma HiddenChangeUnseen(eps: seq<Endpoint>, i: nat, j: nat, unused: string)
    requires i < j < |eps| && eps[i].ipAddress == eps[j].ipAddress && Agreeing(eps)
    requires unused !in Ips(eps)
    ensures !Changed(eps[j := eps[j].(ipAddress := unused)], eps)
  {
    var stored := eps[j := eps[j].(ipAddress := unused)];
    forall k | 0 <= k < |eps| ensures Found(LastHealth(stored), eps[k]) {
      var other := if k == j then i else k;
      assert Ips(eps)[k] == eps[k].ipAddress;
      LookupOutside(eps, stored, j, eps[k].ipAddress, other);
    }
  }

  lemma HiddenChangeReal(eps: seq<Endpoint>, j: nat, unused: string)
    requires j < |eps| && unused !in Ips(eps)
    ensures !SameHealth(eps[j := eps[j].(ipAddress := unused)], eps)
  {
    var stored := eps[j := eps[j].(ipAddress := unused)];
    var h := Healths(stored)[j];
    assert h in Healths(stored);
    forall k | 0 <= k < |eps| ensures Healths(eps)[k] != h {
      assert Ips(eps)[k] == eps[k].ipAddress;
    }
    if SameHealth(stored, eps) {
      SameMultisetSameElements(Healths(stored), Healths(eps));
    }
  }

  /** Exactly when the test can be trusted: a new list is judged correctly
      against every stored list if and only if its addresses are distinct. */
  lemma ChangeDetectionExactIff(updated: seq<Endpoint>)
    ensures (forall stored :: Changed(stored, updated) <==> !SameHealth(stored, updated)) <==> DistinctIps(updated)
  {
    if DistinctIps(updated) {
      forall stored ensures Changed(stored, updated) <==> !SameHealth(stored, updated) {
        ChangeDetectionExact(stored, updated);
      }
    } else {
      var i, j :| 0 <= i < j < |updated| && Ips(updated)[i] == Ips(updated)[j];
      assert updated[i].ipAddress == updated[j].ipAddress;
      if a, b :| 0 <= a < b < |updated| && updated[a].ipAddress == updated[b].ipAddress && updated[a].healthy != updated[b].healthy {
        DisagreeingEntries(updated, a, b);
        assert SameHealth(updated, updated);
      } else {
        var unused := UnusedIp(updated);
        assert unused !in Ips(updated);
        HiddenChangeUnseen(updated, i, j, unused);
        HiddenChangeReal(updated, j, unused);
      }
    }
  }

  // --------------------------------------------------------------- the class

  /** The entry of a frontend; absent keys read as the empty list. */
  function Entry(endpoints: map<Key, seq<Endpoint>>, frontend: Key): (r: seq<Endpoint>) {
    if frontend in endpoints then endpoints[frontend] else []
  }

  predicate Signals(endpoints: map<Key, seq<Endpoint>>, frontend: Key, updated: seq<Endpoint>) {
    frontend !in endpoints || Changed(endpoints[frontend], updated)
  }

  function Updated(endpoints: map<Key, seq<Endpoint>>, frontend: Key, updated: seq<Endpoint>): (r: map<Key, seq<Endpoint>>) {
    if Signals(endpoints, frontend, updated) then endpoints[frontend := updated] else endpoints
  }

  /** `Update` reports no change exactly when the key is present and the stored
      and the new list are equal as multisets of (address, healthy). */
  lemma SignalsExactly(endpoints: map<Key, seq<Endpoint>>, frontend: Key, updated: seq<Endpoint>)
    requires DistinctIps(updated)
    ensures !Signals(endpoints, frontend, updated) <==> (frontend in endpoints && SameHealth(endpoints[frontend], updated))
  {
    if frontend in endpoints {
      ChangeDetectionExact(endpoints[frontend], updated);
    }
  }

  function HealthyPart(eps: seq<Endpoint>): (r: seq<Endpoint>)
    ensures forall ep :: ep in r <==> ep in eps && ep.healthy
  {
    if eps == [] then []
    else
      var n := |eps| - 1;
      if eps[n].healthy then HealthyPart(eps[..n]) + [eps[n]] else HealthyPart(eps[..n])
  }

  function IfHealthy(ep: Endpoint): (r: seq<Endpoint>) {
    if ep.healthy then [ep] else []
  }

  lemma HealthyPartLast(eps: seq<Endpoint>, ep: Endpoint)
    ensures HealthyPart(eps + [ep]) == HealthyPart(eps) + IfHealthy(ep)
  {
    assert (eps + [ep])[..|eps|] == eps;
  }

  /** The healthy entries, each as often as it occurs and in list order. */
  lemma {:induction false} HealthyPartConcat(a: seq<Endpoint>, b: seq<Endpoint>)
    ensures HealthyPart(a + b) == HealthyPart(a) + HealthyPart(b)
    decreases |b|
  {
    if b == [] {
      assert a + b == a;
    } else {
      var n := |b| - 1;
      HealthyPartConcat(a, b[..n]);
      HealthyPartLast(a + b[..n], b[n]);
      HealthyPartLast(b[..n], b[n]);
      SplitLast(a, b);
      ConcatAssociative(HealthyPart(a), HealthyPart(b[..n]), IfHealthy(b[n]));
    }
  }

  class HealthCache {
    var endpoints: map<Key, seq<Endpoint>>

    constructor ()
      ensures endpoints == map[]
    {
      endpoints := map[];
    }

    method Get(frontend: Key) returns (r: seq<Endpoint>)
      ensures r == Entry(endpoints, frontend)
    {
      r := if frontend in endpoints then endpoints[frontend] else [];
    }

    method GetHealthy(frontend: Key) returns (healthy: seq<Endpoint>)
      ensures healthy == HealthyPart(Entry(endpoints, frontend))
    {
      var eps := if frontend in endpoints then endpoints[frontend] else [];
      healthy := [];
      for i := 0 to |eps|
        invariant healthy == HealthyPart(eps[..i])
      {
        assert eps[..i + 1][..i] == eps[..i];
        if eps[i].healthy {
          healthy := healthy + [eps[i]];
        }
      }
      assert eps[..|eps|] == eps;
    }

    method Update(frontend: Key, updatedEndpoints: seq<Endpoint>) returns (changed: bool)
      modifies this
      ensures changed == Signals(old(endpoints), frontend, updatedEndpoints)
      ensures endpoints == Updated(old(endpoints), frontend, updatedEndpoints)
    {
      if frontend !in endpoints {
        endpoints := endpoints[frontend := updatedEndpoints];
        return true;
      }
      var existing := endpoints[frontend];
      if |existing| != |updatedEndpoints| {
        endpoints := endpoints[frontend := updatedEndpoints];
        return true;
      }
      var existingMap: map<string, bool> := map[];
      for i := 0 to |existing|
        invariant existingMap == LastHealth(existing[..i])
      {
        assert existing[..i + 1][..i] == existing[..i];
        existingMap := existingMap[existing[i].ipAddress := existing[i].healthy];
      }
      assert existing[..|existing|] == existing;
      for i := 0 to |updatedEndpoints|
        invariant endpoints == old(endpoints)
        invariant forall j :: 0 <= j < i ==> Found(existingMap, updatedEndpoints[j])
      {
        var ep := updatedEndpoints[i];
        if ep.ipAddress !in existingMap || existingMap[ep.ipAddress] != ep.healthy {
          assert !Found(existingMap, updatedEndpoints[i]);
          endpoints := endpoints[frontend := updatedEndpoints];
          return true;
        }
      }
      return false;
    }
  }

  // ---------------------------------------------------------------- over runs

  datatype Call = Call(frontend: Key, endpoints: seq<Endpoint>)

  /** The cache after a sequence of `Update` calls. */
  function After(calls: seq<Call>): (m: map<Key, seq<Endpoint>>) {
    if calls == [] then map[]
    else
      var n := |calls| - 1;
      Updated(After(calls[..n]), calls[n].frontend, calls[n].endpoints)
  }

  /** The position of the last call for a frontend. */
  ghost predicate IsLastCall(calls: seq<Call>, frontend: Key, i: int) {
    && 0 <= i < |calls|
    && calls[i].frontend == frontend
    && forall j :: i < j < |calls| ==> calls[j].frontend != frontend
  }

  /** After any sequence of calls a frontend has an entry exactly when it was
      updated, and the entry is one of the lists given for it. */
  lemma {:induction false} CacheHoldsAGivenList(calls: seq<Call>, frontend: Key)
    ensures frontend in After(calls) <==> exists i :: 0 <= i < |calls| && calls[i].frontend == frontend
    ensures frontend in After(calls) ==>
      exists i :: 0 <= i < |calls| && calls[i] == Call(frontend, After(calls)[frontend])
  {
    if calls != [] {
      var n := |calls| - 1;
      var front := calls[..n];
      CacheHoldsAGivenList(front, frontend);
      assert forall i :: 0 <= i < n ==> front[i] == calls[i];
      if calls[n].frontend == frontend {
        if After(calls)[frontend] == calls[n].endpoints {
          assert calls[n] == Call(frontend, After(calls)[frontend]);
        }
      }
    }
  }

  /** If only non-empty lists are given, an entry is empty only for a frontend that
      was never updated. */
  lemma EntryEmptyExactly(calls: seq<Call>, frontend: Key)
    requires forall i :: 0 <= i < |calls| && calls[i].frontend == frontend ==> calls[i].endpoints != []
    ensures Entry(After(calls), frontend) == [] <==> forall i :: 0 <= i < |calls| ==> calls[i].frontend != frontend
  {
    CacheHoldsAGivenList(calls, frontend);
  }

  lemma HealthsAppend(eps: seq<Endpoint>, ep: Endpoint)
    ensures multiset(Healths(eps + [ep])) == multiset(Healths(eps)) + multiset{HealthOf(ep)}
  {
    assert Healths(eps + [ep]) == Healths(eps) + [HealthOf(ep)];
  }

  lemma {:induction false} HealthyPartCounts(eps: seq<Endpoint>, h: Health)
    ensures multiset(Healths(HealthyPart(eps)))[h] == if h.healthy then multiset(Healths(eps))[h] else 0
  {
    if eps != [] {
      var n := |eps| - 1;
      var front, last := eps[..n], eps[n];
      HealthyPartCounts(front, h);
      assert eps == front + [last];
      HealthsAppend(front, last);
      HealthsAppend(HealthyPart(front), last);
      assert HealthyPart(eps) == if last.healthy then HealthyPart(front) + [last] else HealthyPart(front);
    }
  }

  lemma HealthyPartOfPermutation(a: seq<Endpoint>, b: seq<Endpoint>)
    requires SameHealth(a, b)
    ensures SameHealth(HealthyPart(a), HealthyPart(b))
  {
    forall h: Health
      ensures multiset(Healths(HealthyPart(a)))[h] == multiset(Healths(HealthyPart(b)))[h]
    {
      HealthyPartCounts(a, h);
      HealthyPartCounts(b, h);
    }
  }

  /** Cache over runs: if the last list given for a frontend has distinct
      addresses, then `Get` is that list and `GetHealthy` its healthy part, up to
      order and node names. */
  lemma {:induction false} CacheTracksLastList(calls: seq<Call>, frontend: Key, i: nat)
    requires IsLastCall(calls, frontend, i) && DistinctIps(calls[i].endpoints)
    ensures SameHealth(Entry(After(calls), frontend), calls[i].endpoints)
    ensures SameHealth(HealthyPart(Entry(After(calls), frontend)), HealthyPart(calls[i].endpoints))
  {
    var n := |calls| - 1;
    var front := calls[..n];
    if i == n {
      if frontend in After(front) {
        ChangeDetectionExact(After(front)[frontend], calls[i].endpoints);
      }
    } else {
      assert forall j :: 0 <= j < n ==> front[j] == calls[j];
      CacheTracksLastList(front, frontend, i);
    }
    HealthyPartOfPermutation(Entry(After(calls), frontend), calls[i].endpoints);
  }
}
