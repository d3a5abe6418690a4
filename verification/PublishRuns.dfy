/** Publishing over runs: the cache after a round of `updateHealthManager`, when
    it equals what was published, when re-publishing is silent, and when every
    published endpoint has an address. */
module PublishRuns {
  import opened Common
  import opened Api
  import opened Monitor
  import opened Publish
  import Cache = HealthCache
  import Manager = HealthManager
  import Runs = MonitorRuns

  // ------------------------------------------------------------- one round

  /** The cache after the lists of the keys in `done` have been handed over. */
  function PublishPart(cache: Lists, lists: Lists, done: set<Key>): (r: Lists)
    requires done <= lists.Keys
  {
    map k | k in cache.Keys + done ::
      if k in done && Cache.Signals(cache, k, lists[k]) then lists[k] else Cache.Entry(cache, k)
  }

  function PublishAll(cache: Lists, lists: Lists): (r: Lists) {
    PublishPart(cache, lists, lists.Keys)
  }

  lemma PublishStep(cache: Lists, lists: Lists, done: set<Key>, k: Key)
    requires done <= lists.Keys && k in lists && k !in done
    ensures Cache.Signals(PublishPart(cache, lists, done), k, lists[k]) == Cache.Signals(cache, k, lists[k])
    ensures Cache.Updated(PublishPart(cache, lists, done), k, lists[k]) == PublishPart(cache, lists, done + {k})
  {
  }

  /** The frontends a round sends an event for: those whose list changed and
      whose receiver was ready. */
  ghost function Signalled(cache: Lists, lists: Lists, ready: Key -> bool): (r: set<Key>) {
    set k | k in lists && Cache.Signals(cache, k, lists[k]) && ready(k)
  }

  /** Each of some frontends, once. */
  ghost predicate EachOnce(sent: seq<Key>, keys: set<Key>) {
    NoDuplicates(sent) && Elements(sent) == keys
  }

  /** One round: consolidate, join and hand every list to the health manager, in
      any order. `None` stands for a failed listing. */
  method UpdateHealthManager(
    monitor: HAProxyMonitor, manager: Manager.HealthManager, matches: Matcher,
    backendList: Option<seq<Backend>>, frontendList: Option<seq<Frontend>>, ready: Key -> bool)
    returns (ok: bool, lists: Lists)
    requires monitor.Valid()
    modifies manager, manager.cache
    ensures ok <==> backendList.Some? && frontendList.Some?
    ensures !ok ==> lists == map[] && manager.cache.endpoints == old(manager.cache.endpoints) && manager.delivered == old(manager.delivered)
    ensures ok ==> Joined(View(monitor.endpointStates, monitor.scrapeTargets, matches, backendList.value, frontendList.value), lists)
    ensures ok ==> manager.cache.endpoints == PublishAll(old(manager.cache.endpoints), lists)
    ensures old(manager.delivered) <= manager.delivered
    ensures ok ==> EachOnce(manager.delivered[|old(manager.delivered)|..], Signalled(old(manager.cache.endpoints), lists, ready))
  {
    lists := map[];
    if backendList.None? || frontendList.None? {
      return false, lists;
    }
    var consolidated := Consolidate(monitor.endpointStates);
    lists := Join(View(consolidated, monitor.scrapeTargets, matches, backendList.value, frontendList.value));
    HandOver(manager, lists, ready);
    return true, lists;
  }

  lemma EachOnceStep(sent: seq<Key>, done: set<Key>, signalled: set<Key>, k: Key)
    requires EachOnce(sent, done * signalled) && k !in done
    ensures EachOnce(sent + (if k in signalled then [k] else []), (done + {k}) * signalled)
  {
    assert k !in Elements(sent);
    if k in signalled {
      assert Elements(sent + [k]) == Elements(sent) + {k};
      assert (done + {k}) * signalled == done * signalled + {k};
    } else {
      assert sent + [] == sent;
      assert (done + {k}) * signalled == done * signalled;
    }
  }

  /** What holds between iterations: `done` has been handed over. */
  ghost predicate HandedOver(cache: Lists, delivered: seq<Key>, before: Lists, earlier: seq<Key>, lists: Lists, done: set<Key>, signalled: set<Key>)
    requires done <= lists.Keys
  {
    && cache == PublishPart(before, lists, done)
    && earlier <= delivered
    && EachOnce(delivered[|earlier|..], done * signalled)
  }

  lemma DeliveredStep(delivered: seq<Key>, earlier: seq<Key>, done: set<Key>, signalled: set<Key>, k: Key, more: seq<Key>)
    requires earlier <= delivered && EachOnce(delivered[|earlier|..], done * signalled) && k !in done
    requires more == if k in signalled then [k] else []
    ensures earlier <= delivered + more && EachOnce((delivered + more)[|earlier|..], (done + {k}) * signalled)
  {
    EachOnceStep(delivered[|earlier|..], done, signalled, k);
    assert (delivered + more)[|earlier|..] == delivered[|earlier|..] + more;
  }

  /** One iteration of the loop that hands the lists over. */
  method HandOverOne(
    manager: Manager.HealthManager, lists: Lists, frontend: Key, ready: Key -> bool,
    ghost before: Lists, ghost earlier: seq<Key>, ghost todo: set<Key>)
    requires todo <= lists.Keys && frontend in todo
    requires HandedOver(manager.cache.endpoints, manager.delivered, before, earlier, lists, lists.Keys - todo, Signalled(before, lists, ready))
    modifies manager, manager.cache
    ensures HandedOver(manager.cache.endpoints, manager.delivered, before, earlier, lists, lists.Keys - (todo - {frontend}), Signalled(before, lists, ready))
  {
    ghost var done := lists.Keys - todo;
    PublishStep(before, lists, done, frontend);
    ghost var signalled := Signalled(before, lists, ready);
    DeliveredStep(manager.delivered, earlier, done, signalled, frontend, if frontend in signalled then [frontend] else []);
    manager.Update(frontend, lists[frontend], ready(frontend));
    assert lists.Keys - (todo - {frontend}) == done + {frontend};
  }

  lemma NothingHandedOver(before: Lists, earlier: seq<Key>, lists: Lists, signalled: set<Key>)
    ensures HandedOver(before, earlier, before, earlier, lists, lists.Keys - lists.Keys, signalled)
  {
  }

  lemma AllHandedOver(cache: Lists, delivered: seq<Key>, before: Lists, earlier: seq<Key>, lists: Lists, ready: Key -> bool)
    requires HandedOver(cache, delivered, before, earlier, lists, lists.Keys - {}, Signalled(before, lists, ready))
    ensures cache == PublishAll(before, lists)
    ensures earlier <= delivered && EachOnce(delivered[|earlier|..], Signalled(before, lists, ready))
  {
  }

  /** The loop that hands the lists over. */
  method HandOver(manager: Manager.HealthManager, lists: Lists, ready: Key -> bool)
    modifies manager, manager.cache
    ensures manager.cache.endpoints == PublishAll(old(manager.cache.endpoints), lists)
    ensures old(manager.delivered) <= manager.delivered
    ensures EachOnce(manager.delivered[|old(manager.delivered)|..], Signalled(old(manager.cache.endpoints), lists, ready))
  {
    ghost var before, earlier := manager.cache.endpoints, manager.delivered;
    ghost var signalled := Signalled(before, lists, ready);
    var todo := lists.Keys;
    NothingHandedOver(before, earlier, lists, signalled);
    while todo != {}
      invariant todo <= lists.Keys
      invariant HandedOver(manager.cache.endpoints, manager.delivered, before, earlier, lists, lists.Keys - todo, signalled)
      decreases |todo|
    {
      var frontend :| frontend in todo;
      HandOverOne(manager, lists, frontend, ready, before, earlier, todo);
      todo := todo - {frontend};
    }
    AllHandedOver(manager.cache.endpoints, manager.delivered, before, earlier, lists, ready);
  }

  // --------------------------------------------------------------- over runs

  /** The cache after a sequence of rounds. */
  function CacheAfter(rounds: seq<Lists>): (r: Lists) {
    if rounds == [] then map[]
    else PublishAll(CacheAfter(rounds[..|rounds| - 1]), rounds[|rounds| - 1])
  }

  /** Round `i` is the last one that published for a frontend. */
  ghost predicate IsLatest(rounds: seq<Lists>, key: Key, i: int) {
    && 0 <= i < |rounds| && key in rounds[i]
    && forall j :: i < j < |rounds| ==> key !in rounds[j]
  }

  /** The calls that the rounds make for one frontend. */
  function CallsFor(rounds: seq<Lists>, key: Key): (calls: seq<Cache.Call>) {
    if rounds == [] then []
    else
      var n := |rounds| - 1;
      CallsFor(rounds[..n], key) + if key in rounds[n] then [Cache.Call(key, rounds[n][key])] else []
  }

  ghost predicate SameEntry(a: Lists, b: Lists, key: Key) {
    (key in a <==> key in b) && Cache.Entry(a, key) == Cache.Entry(b, key)
  }

  /** The entry of a frontend after any rounds is the one after its own calls. */
  lemma {:induction false} RoundsAreCalls(rounds: seq<Lists>, key: Key)
    ensures SameEntry(CacheAfter(rounds), Cache.After(CallsFor(rounds, key)), key)
  {
    if rounds != [] {
      var n := |rounds| - 1;
      var calls := CallsFor(rounds, key);
      RoundsAreCalls(rounds[..n], key);
      if key in rounds[n] {
        assert calls[..|calls| - 1] == CallsFor(rounds[..n], key);
      } else {
        assert calls == CallsFor(rounds[..n], key);
      }
    }
  }

  lemma {:induction false} LatestIsLastCall(rounds: seq<Lists>, key: Key, i: nat)
    requires IsLatest(rounds, key, i)
    ensures var calls := CallsFor(rounds, key);
      calls != [] && calls[|calls| - 1] == Cache.Call(key, rounds[i][key])
  {
    var n := |rounds| - 1;
    var earlier := CallsFor(rounds[..n], key);
    if i < n {
      assert forall j :: 0 <= j < n ==> rounds[..n][j] == rounds[j];
      LatestIsLastCall(rounds[..n], key, i);
      assert CallsFor(rounds, key) == earlier + [];
    } else {
      assert CallsFor(rounds, key) == earlier + [Cache.Call(key, rounds[n][key])];
    }
  }

  /** The cache equals the latest published list up to order and node names, if
      that list has distinct addresses, whatever earlier lists were. */
  lemma CacheMatchesLatest(rounds: seq<Lists>, key: Key, i: nat)
    requires IsLatest(rounds, key, i) && Cache.DistinctIps(rounds[i][key])
    ensures key in CacheAfter(rounds) && Cache.SameHealth(CacheAfter(rounds)[key], rounds[i][key])
    ensures Cache.SameHealth(Cache.HealthyPart(CacheAfter(rounds)[key]), Cache.HealthyPart(rounds[i][key]))
  {
    var calls := CallsFor(rounds, key);
    RoundsAreCalls(rounds, key);
    LatestIsLastCall(rounds, key, i);
    Cache.CacheHoldsAGivenList(calls, key);
    Cache.CacheTracksLastList(calls, key, |calls| - 1);
  }

  /** Two rounds over the same recorded states publish permutations of each
      other. */
  lemma SameViewSameBags(w: View, lists: Lists, again: Lists, key: Key)
    requires Joined(w, lists) && Joined(w, again) && key in lists
    ensures key in again && multiset(lists[key]) == multiset(again[key])
    ensures Cache.SameHealth(lists[key], again[key])
  {
    assert JoinedUpTo(w, lists, |w.backends|, key);
    assert JoinedUpTo(w, again, |w.backends|, key);
    PermutedHealths(lists[key], again[key]);
  }

  lemma {:induction false} PermutedHealths(a: seq<Cache.Endpoint>, b: seq<Cache.Endpoint>)
    requires multiset(a) == multiset(b)
    ensures Cache.SameHealth(a, b)
    decreases |a|
  {
    SameMultisetSameElements(a, b);
    if a == [] {
      assert b == [];
    } else {
      var x := a[0];
      assert x in a;
      var i :| 0 <= i < |b| && b[i] == x;
      WithoutAtBag(a, 0);
      WithoutAtBag(b, i);
      CancelOne(multiset(WithoutAt(a, 0)), multiset(WithoutAt(b, i)), x);
      PermutedHealths(WithoutAt(a, 0), WithoutAt(b, i));
      HealthsWithoutAt(a, 0);
      HealthsWithoutAt(b, i);
    }
  }

  lemma HealthsWithoutAt(b: seq<Cache.Endpoint>, i: nat)
    requires i < |b|
    ensures multiset(Cache.Healths(b)) == multiset(Cache.Healths(WithoutAt(b, i))) + multiset{Cache.HealthOf(b[i])}
  {
    WithoutAtBag(Cache.Healths(b), i);
    assert Cache.Healths(WithoutAt(b, i)) == WithoutAt(Cache.Healths(b), i);
  }

  /** A list whose entries all pass the test against some stored list agrees with
      itself. */
  lemma UnchangedAgrees(stored: seq<Cache.Endpoint>, updated: seq<Cache.Endpoint>)
    requires !Cache.Changed(stored, updated)
    ensures Cache.Agreeing(updated)
  {
    var table := Cache.LastHealth(stored);
    assert forall i :: 0 <= i < |updated| ==> Cache.Found(table, updated[i]);
  }

  /** The verdict of the test does not depend on the order of the new list. */
  lemma PermutedVerdict(stored: seq<Cache.Endpoint>, a: seq<Cache.Endpoint>, b: seq<Cache.Endpoint>)
    requires multiset(a) == multiset(b) && !Cache.Changed(stored, a)
    ensures !Cache.Changed(stored, b)
  {
    SameMultisetSameElements(a, b);
    forall i | 0 <= i < |b| ensures Cache.Found(Cache.LastHealth(stored), b[i]) {
      assert b[i] in a;
      var k :| 0 <= k < |a| && a[k] == b[i];
    }
  }

  /** A list against a permutation of itself. */
  lemma ChangedAgainstItself(a: seq<Cache.Endpoint>, b: seq<Cache.Endpoint>)
    requires multiset(a) == multiset(b)
    ensures Cache.Changed(a, b) <==> !Cache.Agreeing(a)
  {
    if Cache.Agreeing(a) {
      forall i | 0 <= i < |a| ensures Cache.Found(Cache.LastHealth(a), a[i]) {
        Cache.AgreeingFound(a, i);
      }
      PermutedVerdict(a, a, b);
    } else if !Cache.Changed(a, b) {
      PermutedVerdict(a, b, a);
      UnchangedAgrees(a, a);
    }
  }

  /** Exactly when a further round over unchanged states is silent, for every
      frontend and whatever was cached: when the contributors of one address agree
      on its health. Otherwise every round reports a change. */
  lemma RepublishingSignalsExactly(w: View, cache: Lists, lists: Lists, again: Lists, key: Key)
    requires Joined(w, lists) && Joined(w, again) && key in lists
    ensures key in again
    ensures Cache.Signals(PublishAll(cache, lists), key, again[key]) <==> !AgreeingContributors(w, key)
  {
    SameViewSameBags(w, lists, again, key);
    PublishedAgreeingExactly(w, lists, key);
    if Cache.Signals(cache, key, lists[key]) {
      ChangedAgainstItself(lists[key], again[key]);
    } else {
      UnchangedAgrees(cache[key], lists[key]);
      PermutedVerdict(cache[key], lists[key], again[key]);
    }
  }

  /** Over runs: while the states stay the same, round after round signals or is
      silent, as the contributors disagree or agree. */
  lemma EveryRoundSignalsExactly(w: View, rounds: seq<Lists>, key: Key, n: nat)
    requires 0 < n < |rounds| && Joined(w, rounds[n - 1]) && Joined(w, rounds[n]) && key in rounds[n]
    ensures Cache.Signals(CacheAfter(rounds[..n]), key, rounds[n][key]) <==> !AgreeingContributors(w, key)
  {
    var before := rounds[..n];
    assert before[..n - 1] == rounds[..n - 1];
    SameViewSameBags(w, rounds[n], rounds[n - 1], key);
    RepublishingSignalsExactly(w, CacheAfter(rounds[..n - 1]), rounds[n - 1], rounds[n], key);
  }

  /** The failing side: a pod that two matching backends record with different
      health makes every round over unchanged states report a change. */
  lemma DisagreeingBackendsAlwaysSignal(
    w: View, cache: Lists, lists: Lists, again: Lists, key: Key, i: nat, j: nat, k: nat, l: nat, u: Uid)
    requires Joined(w, lists) && Joined(w, again)
    requires Contributes(w, key, i, j, u) && Contributes(w, key, k, l, u) && w.Recorded(i)[u] != w.Recorded(k)[u]
    ensures key in lists && key in again && Cache.Signals(PublishAll(cache, lists), key, again[key])
  {
    assert SameAddress(w, key, i, j, u, k, l, u);
    var _ := ContributorIsListed(w, lists, key, i, j, u);
    RepublishingSignalsExactly(w, cache, lists, again, key);
  }

  /** Composed exactness: with distinct addresses a round leaves the cache equal to
      the published list up to order and node names, and a further round over
      unchanged states signals nothing and changes nothing, in whatever order its
      maps are visited. */
  lemma RepublishingIsSilent(w: View, cache: Lists, lists: Lists, again: Lists, key: Key)
    requires Joined(w, lists) && Joined(w, again) && key in lists && DistinctContributors(w, key)
    ensures key in again
    ensures var after := PublishAll(cache, lists);
      && key in after
      && Cache.SameHealth(after[key], lists[key])
      && !Cache.Signals(after, key, again[key])
      && PublishAll(after, again)[key] == after[key]
  {
    PublishedDistinctExactly(w, lists, key);
    Cache.SignalsExactly(cache, key, lists[key]);
    assert AgreeingContributors(w, key);
    RepublishingSignalsExactly(w, cache, lists, again, key);
  }

  /** The health a contributor is recorded with. */
  function HealthAt(w: View, i: nat, u: Uid): (h: Cache.Health)
    requires i < |w.backends| && u in w.Recorded(i)
  {
    Cache.Health(AddressOf(w.targets, u), w.Recorded(i)[u])
  }

  /** Some contributor is recorded with this health. */
  ghost predicate IsContributed(w: View, key: Key, h: Cache.Health) {
    exists i, j, u :: Contributes(w, key, i, j, u) && HealthAt(w, i, u) == h
  }

  /** Each contributed health once, and nothing else. */
  ghost predicate ShowsContributors(hs: seq<Cache.Health>, w: View, key: Key) {
    NoDuplicates(hs) && forall h :: h in hs <==> IsContributed(w, key, h)
  }

  lemma PublishedHealths(w: View, lists: Lists, key: Key, h: Cache.Health)
    requires Joined(w, lists) && key in lists
    ensures h in Cache.Healths(lists[key]) <==> IsContributed(w, key, h)
  {
    var hs := Cache.Healths(lists[key]);
    if h in hs {
      var n :| 0 <= n < |hs| && hs[n] == h;
      var i, j, u := ListedHasContributor(w, lists, key, n);
      assert HealthAt(w, i, u) == h;
    }
    if i: nat, j: nat, u :| Contributes(w, key, i, j, u) && HealthAt(w, i, u) == h {
      var n := ContributorIsListed(w, lists, key, i, j, u);
      assert hs[n] == h;
    }
  }

  /** Any list with the health of a published one shows the contributors, if these
      have distinct addresses. */
  lemma SameHealthShows(w: View, lists: Lists, key: Key, eps: seq<Cache.Endpoint>)
    requires Joined(w, lists) && key in lists && DistinctContributors(w, key)
    requires Cache.SameHealth(eps, lists[key])
    ensures ShowsContributors(Cache.Healths(eps), w, key)
  {
    PublishedDistinctExactly(w, lists, key);
    Cache.SameHealthKeepsDistinct(lists[key], eps);
    Cache.HealthsDistinct(eps);
    SameMultisetSameElements(Cache.Healths(eps), Cache.Healths(lists[key]));
    forall h ensures h in Cache.Healths(eps) <==> IsContributed(w, key, h) {
      PublishedHealths(w, lists, key, h);
    }
  }

  /** Over any sequence of rounds: if no two contributors of a frontend shared an
      address in its latest round, the cache holds exactly the health they were
      recorded with, one entry per contributor. */
  lemma CacheHoldsRecordedHealth(w: View, rounds: seq<Lists>, key: Key, n: nat)
    requires IsLatest(rounds, key, n)
    requires Joined(w, rounds[n]) && DistinctContributors(w, key)
    ensures key in CacheAfter(rounds)
    ensures ShowsContributors(Cache.Healths(CacheAfter(rounds)[key]), w, key)
    ensures |CacheAfter(rounds)[key]| == JoinCount(w, |w.backends|, key)
  {
    PublishedDistinctExactly(w, rounds[n], key);
    CacheMatchesLatest(rounds, key, n);
    SameHealthShows(w, rounds[n], key, CacheAfter(rounds)[key]);
    SameMultisetSameElements(Cache.Healths(CacheAfter(rounds)[key]), Cache.Healths(rounds[n][key]));
    PublishedLength(w, rounds[n], key);
  }

  // ------------------------------------------------------ stale entries

  /** If a round publishes nothing for a frontend, nothing contributes to it, and only
      an empty list shows that. */
  lemma NothingContributed(w: View, lists: Lists, key: Key, eps: seq<Cache.Endpoint>)
    requires Joined(w, lists) && key !in lists
    ensures ShowsContributors(Cache.Healths(eps), w, key) <==> eps == []
  {
    forall h ensures !IsContributed(w, key, h) {
      if i: nat, j: nat, u :| Contributes(w, key, i, j, u) && HealthAt(w, i, u) == h {
        var _ := ContributorIsListed(w, lists, key, i, j, u);
      }
    }
    if eps != [] {
      assert Cache.Healths(eps)[0] in Cache.Healths(eps);
    }
  }

  ghost predicate NeverPublished(rounds: seq<Lists>, key: Key) {
    forall i :: 0 <= i < |rounds| ==> key !in rounds[i]
  }

  /** Published lists are not empty, as `Publish.PublishedNonEmpty` has it. */
  ghost predicate NonEmptyRounds(rounds: seq<Lists>, key: Key) {
    forall i :: 0 <= i < |rounds| && key in rounds[i] ==> rounds[i][key] != []
  }

  lemma {:induction false} CallsForNonEmpty(rounds: seq<Lists>, key: Key)
    requires NonEmptyRounds(rounds, key)
    ensures var calls := CallsFor(rounds, key);
      && (forall i :: 0 <= i < |calls| ==> calls[i].frontend == key && calls[i].endpoints != [])
      && (calls == [] <==> NeverPublished(rounds, key))
  {
    if rounds != [] {
      var n := |rounds| - 1;
      CallsForNonEmpty(rounds[..n], key);
      assert forall i :: 0 <= i < n ==> rounds[..n][i] == rounds[i];
      assert NeverPublished(rounds, key) <==> NeverPublished(rounds[..n], key) && key !in rounds[n];
    }
  }

  /** Exactly when the cache shows the present state of a frontend after any rounds:
      if the latest round published for it, or none ever did. Otherwise the entry of
      the last publishing round stays for ever. */
  lemma LatestRoundShownExactly(w: View, rounds: seq<Lists>, key: Key)
    requires rounds != [] && Joined(w, rounds[|rounds| - 1]) && DistinctContributors(w, key)
    requires NonEmptyRounds(rounds, key)
    ensures ShowsContributors(Cache.Healths(Cache.Entry(CacheAfter(rounds), key)), w, key) <==>
      (key in rounds[|rounds| - 1] || NeverPublished(rounds, key))
  {
    var n := |rounds| - 1;
    if key in rounds[n] {
      CacheHoldsRecordedHealth(w, rounds, key, n);
    } else {
      RoundsAreCalls(rounds, key);
      CallsForNonEmpty(rounds, key);
      Cache.EntryEmptyExactly(CallsFor(rounds, key), key);
      NothingContributed(w, rounds[n], key, Cache.Entry(CacheAfter(rounds), key));
    }
  }

  /** The cache after one round that publishes for a frontend and one that does not. */
  lemma SkippedRoundKeepsEntry(first: Lists, second: Lists, key: Key)
    requires key in first && key !in second
    ensures Cache.Entry(CacheAfter([first, second]), key) == first[key]
  {
    assert [first, second][..1] == [first] && [first][..0] == [];
    assert CacheAfter([first]) == PublishAll(map[], first);
    assert CacheAfter([first, second]) == PublishAll(CacheAfter([first]), second);
  }

  /** The failing side is reachable: whatever pod with an address and matching backend
      and frontend there are, a pod that is sampled, published and then deleted stays
      in the cache although nothing is recorded any more. */
  lemma DeletedPodStaysCached(
    p: Pod, up: bool, matches: Matcher, backends: seq<Backend>, frontends: seq<Frontend>, i: nat, j: nat)
    returns (es: seq<Runs.Event>)
    requires p.ip != "" && i < |backends| && j < |frontends|
    requires matches(frontends[j].selector, backends[i].labels) == Some(true)
    ensures Runs.AllowedRun(es) && Runs.AllowedRun(es + [Runs.Deleted(p)])
    ensures Runs.After(es + [Runs.Deleted(p)]).states == map[]
    ensures var later := Runs.After(es + [Runs.Deleted(p)]);
      forall first, second ::
        (&& Joined(View(Runs.After(es).states, Runs.After(es).targets, matches, backends, frontends), first)
         && Joined(View(later.states, later.targets, matches, backends, frontends), second)) ==>
        (&& frontends[j].key !in second
         && Cache.Endpoint(p.nodeName, p.ip, up) in Cache.Entry(CacheAfter([first, second]), frontends[j].key))
  {
    es := Runs.SampledThenDeleted(p, backends[i].name, up);
    var later := Runs.After(es + [Runs.Deleted(p)]);
    var w := View(Runs.After(es).states, Runs.After(es).targets, matches, backends, frontends);
    var v := View(later.states, later.targets, matches, backends, frontends);
    var key, ep := frontends[j].key, Cache.Endpoint(p.nodeName, p.ip, up);
    assert Origin(w, key, ep, i, j, p.uid);
    forall first, second | Joined(w, first) && Joined(v, second)
      ensures key !in second && ep in Cache.Entry(CacheAfter([first, second]), key)
    {
      PublishedExactly(w, first, key, ep);
      NoStatesNoLists(v, second, key);
      SkippedRoundKeepsEntry(first, second, key);
    }
  }

  lemma NoStatesNoLists(w: View, lists: Lists, key: Key)
    requires Joined(w, lists) && w.states == map[]
    ensures key !in lists
  {
    assert JoinedUpTo(w, lists, |w.backends|, key);
  }

  // -------------------------------------------------------- real endpoints

  /** No recorded pod was sampled after its delete in an earlier tick. */
  ghost predicate NoLateSamples(es: seq<Runs.Event>) {
    forall u :: !Runs.LateInEarlierTick(es, u)
  }

  /** Published endpoints are real: in every run without late samples, every
      published endpoint has an address, and it is the address and node that some
      pod had at the latest snapshot. */
  lemma PublishedEndpointsAreReal(es: seq<Runs.Event>, w: View, lists: Lists, key: Key, ep: Cache.Endpoint)
    requires Runs.AllowedRun(es) && NoLateSamples(es)
    requires w.states == Runs.After(es).states && w.targets == Runs.After(es).targets
    requires Joined(w, lists) && key in lists && ep in lists[key]
    ensures ep.ipAddress != ""
    ensures exists k, u :: Runs.SeenAtSnapshot(es, k, u, ep.ipAddress, ep.nodeName)
  {
    PublishedExactly(w, lists, key, ep);
    var i: nat, j: nat, u :| Origin(w, key, ep, i, j, u);
    assert Lookup(w.states, w.backends[i].name, u).Some?;
    Runs.GhostsExactly(es, u);
    assert !Runs.LateInEarlierTick(es, u);
    Runs.TargetsAreLastSnapshot(es, u);
  }

  /** Exactly when an endpoint without an address is published: some pod that was
      sampled after its delete in an earlier tick is recorded for a backend that
      contributes to the frontend. */
  lemma EmptyAddressExactly(es: seq<Runs.Event>, w: View, lists: Lists, key: Key)
    requires Runs.AllowedRun(es)
    requires w.states == Runs.After(es).states && w.targets == Runs.After(es).targets
    requires Joined(w, lists)
    ensures (key in lists && exists n :: 0 <= n < |lists[key]| && lists[key][n].ipAddress == "") <==>
      exists i: nat, j: nat, u ::
        i < |w.backends| && j < |w.frontends| && w.Pairs(i, j, key) && u in w.Recorded(i) && Runs.LateInEarlierTick(es, u)
  {
    if key in lists && exists n :: 0 <= n < |lists[key]| && lists[key][n].ipAddress == "" {
      var n :| 0 <= n < |lists[key]| && lists[key][n].ipAddress == "";
      var ep := lists[key][n];
      PublishedExactly(w, lists, key, ep);
      var i: nat, j: nat, u :| Origin(w, key, ep, i, j, u);
      assert Lookup(w.states, w.backends[i].name, u).Some?;
      Runs.GhostsExactly(es, u);
    }
    if i: nat, j: nat, u :| i < |w.backends| && j < |w.frontends| && w.Pairs(i, j, key) && u in w.Recorded(i) && Runs.LateInEarlierTick(es, u) {
      Runs.GhostsExactly(es, u);
      var ep := EndpointOf(w.targets, u, w.Recorded(i)[u]);
      assert Origin(w, key, ep, i, j, u);
      PublishedExactly(w, lists, key, ep);
      var n :| 0 <= n < |lists[key]| && lists[key][n] == ep;
    }
  }

  /** Such endpoints do occur: whatever a pod with an address and a backend that
      matches a frontend are, one delete between a snapshot and a sample makes the
      next round publish an endpoint without an address. */
  lemma EmptyAddressReachable(
    p: Pod, up: bool, matches: Matcher, backends: seq<Backend>, frontends: seq<Frontend>, i: nat, j: nat)
    returns (es: seq<Runs.Event>)
    requires p.ip != "" && i < |backends| && j < |frontends|
    requires matches(frontends[j].selector, backends[i].labels) == Some(true)
    ensures Runs.AllowedRun(es) && Runs.LateInEarlierTick(es, p.uid)
    ensures forall lists ::
      Joined(View(Runs.After(es).states, Runs.After(es).targets, matches, backends, frontends), lists) ==>
      var key := frontends[j].key;
      key in lists && Cache.Endpoint("", "", up) in lists[key]
  {
    es := Runs.LateSampleRun(p, backends[i].name, up);
    var w := View(Runs.After(es).states, Runs.After(es).targets, matches, backends, frontends);
    var key, ep := frontends[j].key, Cache.Endpoint("", "", up);
    assert Origin(w, key, ep, i, j, p.uid);
    forall lists | Joined(w, lists) ensures key in lists && ep in lists[key] {
      PublishedExactly(w, lists, key, ep);
    }
  }
}
