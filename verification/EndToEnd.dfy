/** The whole path composed: from the samples of the scrapes to the endpoints of
    an EndpointSlice. */
module EndToEnd {
  import opened Common
  import opened Api
  import opened Monitor
  import opened Publish
  import opened PublishRuns
  import Cache = HealthCache
  import Controller = FrontendController
  import Pipeline = HealthPipeline
  import Runs = MonitorRuns

  // ------------------------------------------------- from samples to lists

  /** Sample `m` of pod `u` for backend `i` is current, and frontend object `j` of
      the key selects that backend. */
  ghost predicate IsSource(es: seq<Runs.Event>, w: View, key: Key, h: Cache.Health, i: nat, j: nat, u: Uid, m: int) {
    && i < |w.backends| && j < |w.frontends|
    && w.frontends[j].key == key
    && w.matches(w.frontends[j].selector, w.backends[i].labels) == Some(true)
    && Runs.IsCurrentSample(es, w.backends[i].name, u, m)
    && h == Cache.Health(AddressOf(w.targets, u), es[m].up)
  }

  /** Some selected backend has a current sample of this health. */
  ghost predicate IsSampled(es: seq<Runs.Event>, w: View, key: Key, h: Cache.Health) {
    exists i: nat, j: nat, u, m :: IsSource(es, w, key, h, i, j, u, m)
  }

  lemma RecordedIsCurrent(es: seq<Runs.Event>, b: string, u: Uid, up: bool)
    ensures Lookup(Runs.After(es).states, b, u) == Some(up) <==>
      exists m :: Runs.IsCurrentSample(es, b, u, m) && es[m].up == up
  {
    Runs.AfterReplays(es);
    Runs.LogRefinement(es, b, u);
  }

  /** What is contributed to a frontend is what was last sampled for the backends
      that it selects. */
  lemma ContributedIsSampled(es: seq<Runs.Event>, w: View, key: Key, h: Cache.Health)
    requires w.states == Runs.After(es).states
    ensures IsContributed(w, key, h) <==> IsSampled(es, w, key, h)
  {
    if i: nat, j: nat, u :| Contributes(w, key, i, j, u) && HealthAt(w, i, u) == h {
      assert Lookup(w.states, w.backends[i].name, u) == Some(h.healthy);
      RecordedIsCurrent(es, w.backends[i].name, u, h.healthy);
      var m :| Runs.IsCurrentSample(es, w.backends[i].name, u, m) && es[m].up == h.healthy;
      assert IsSource(es, w, key, h, i, j, u, m);
    }
    if i: nat, j: nat, u, m :| IsSource(es, w, key, h, i, j, u, m) {
      RecordedIsCurrent(es, w.backends[i].name, u, es[m].up);
      assert Lookup(w.states, w.backends[i].name, u) == Some(es[m].up);
      assert Contributes(w, key, i, j, u) && HealthAt(w, i, u) == h;
    }
  }

  // ------------------------------------------------- from lists to the cache

  /** The updates of one frontend among the steps of a run. */
  function CallsIn(es: seq<Pipeline.Event>, key: Key): (calls: seq<Cache.Call>) {
    if es == [] then []
    else
      var n := |es| - 1;
      CallsIn(es[..n], key) + if es[n].Published? && es[n].key == key then [Cache.Call(key, es[n].list)] else []
  }

  /** One step changes the entry of a frontend only if it publishes for it. */
  lemma StepUpdates(s: Pipeline.System, e: Pipeline.Event, other: Lists, key: Key)
    requires Pipeline.Enabled(s, e) && SameEntry(s.cache, other, key)
    ensures var t := Pipeline.Apply(s, e);
      SameEntry(t.cache, if e.Published? && e.key == key then Cache.Updated(other, key, e.list) else other, key)
  {
    if e.Published? {
      UpdateIsLocal(s.cache, other, e.key, e.list, key);
    } else {
      OtherStepsKeepCache(s, e);
    }
  }

  lemma OtherStepsKeepCache(s: Pipeline.System, e: Pipeline.Event)
    requires Pipeline.Enabled(s, e) && !e.Published?
    ensures Pipeline.Apply(s, e).cache == s.cache
  {
  }

  lemma UpdateIsLocal(cache: Lists, other: Lists, k: Key, list: seq<Cache.Endpoint>, key: Key)
    requires SameEntry(cache, other, key)
    ensures SameEntry(Cache.Updated(cache, k, list), if k == key then Cache.Updated(other, key, list) else other, key)
  {
  }

  lemma {:induction false} RunCallsUpdate(es: seq<Pipeline.Event>, key: Key)
    requires Pipeline.ValidRun(Pipeline.INITIAL, es)
    ensures SameEntry(Pipeline.RunOf(Pipeline.INITIAL, es).cache, Cache.After(CallsIn(es, key)), key)
  {
    if es != [] {
      var n := |es| - 1;
      var calls, earlier := CallsIn(es, key), CallsIn(es[..n], key);
      Pipeline.RunLast(Pipeline.INITIAL, es);
      RunCallsUpdate(es[..n], key);
      StepUpdates(Pipeline.RunOf(Pipeline.INITIAL, es[..n]), es[n], Cache.After(earlier), key);
      if es[n].Published? && es[n].key == key {
        assert calls[..|calls| - 1] == earlier;
      } else {
        assert calls == earlier;
      }
    }
  }

  /** Step `n` is the last that publishes for a frontend. */
  ghost predicate IsLastPublish(es: seq<Pipeline.Event>, key: Key, n: int) {
    && 0 <= n < |es| && es[n].Published? && es[n].key == key
    && forall m :: n < m < |es| ==> !(es[m].Published? && es[m].key == key)
  }

  lemma {:induction false} LastPublishIsLastCall(es: seq<Pipeline.Event>, key: Key, n: nat)
    requires IsLastPublish(es, key, n)
    ensures var calls := CallsIn(es, key);
      calls != [] && calls[|calls| - 1] == Cache.Call(key, es[n].list)
  {
    var last := |es| - 1;
    if n < last {
      assert forall m :: 0 <= m < last ==> es[..last][m] == es[m];
      LastPublishIsLastCall(es[..last], key, n);
    }
  }

  lemma CacheTracksLastPublish(es: seq<Pipeline.Event>, key: Key, n: nat)
    requires Pipeline.ValidRun(Pipeline.INITIAL, es) && IsLastPublish(es, key, n) && Cache.DistinctIps(es[n].list)
    ensures Cache.SameHealth(Cache.Entry(Pipeline.RunOf(Pipeline.INITIAL, es).cache, key), es[n].list)
  {
    var calls := CallsIn(es, key);
    RunCallsUpdate(es, key);
    LastPublishIsLastCall(es, key, n);
    Cache.CacheTracksLastList(calls, key, |calls| - 1);
  }

  // ------------------------------------------------- from the cache to the slice

  /** The addresses of a slice with their readiness. */
  function SliceHealths(slice: Controller.Slice): (hs: seq<Cache.Health>)
    ensures |hs| == |slice.endpoints|
    ensures forall n :: 0 <= n < |hs| ==> hs[n] == Cache.Health(slice.endpoints[n].address, slice.endpoints[n].ready)
  {
    seq(|slice.endpoints|, n requires 0 <= n < |slice.endpoints| =>
      Cache.Health(slice.endpoints[n].address, slice.endpoints[n].ready))
  }

  lemma SliceKeepsHealths(eps: seq<Cache.Endpoint>, port: int32)
    ensures SliceHealths(Controller.SliceOf(eps, port)) == Cache.Healths(eps)
  {
  }

  /** Each current sample of a selected backend once, and nothing else. */
  ghost predicate ShowsSamples(hs: seq<Cache.Health>, es: seq<Runs.Event>, w: View, key: Key) {
    NoDuplicates(hs) && forall h :: h in hs <==> IsSampled(es, w, key, h)
  }

  /** End to end: take any run of the monitor, the lists that a round joins from
      it, and any run of the pipeline whose last publish for a frontend is its list.
      If no two contributors share an address, then once nothing is under way for
      the frontend and no event of it is lost, its slice has the frontend's port and
      shows, once each, the addresses and the latest samples of the pods of the
      backends it selects, and nothing else. */
  lemma SliceShowsLatestSamples(
    samples: seq<Runs.Event>, w: View, lists: Lists, es: seq<Pipeline.Event>, key: Key, n: nat)
    requires w.states == Runs.After(samples).states && w.targets == Runs.After(samples).targets
    requires Joined(w, lists) && key in lists && DistinctContributors(w, key)
    requires Pipeline.ValidRun(Pipeline.INITIAL, es) && IsLastPublish(es, key, n) && es[n].list == lists[key]
    requires var s := Pipeline.RunOf(Pipeline.INITIAL, es);
      Pipeline.Ported(s, key) && Pipeline.Quiet(s, key) && key !in s.dropped
    ensures var s := Pipeline.RunOf(Pipeline.INITIAL, es);
      && key in s.slices
      && s.slices[key].port == s.frontends[key].value
      && ShowsSamples(SliceHealths(s.slices[key]), samples, w, key)
  {
    var s := Pipeline.RunOf(Pipeline.INITIAL, es);
    var entry := Cache.Entry(s.cache, key);
    Pipeline.QuietMeansAgreed(es, key);
    PublishedDistinctExactly(w, lists, key);
    CacheTracksLastPublish(es, key, n);
    SameHealthShows(w, lists, key, entry);
    SliceKeepsHealths(entry, s.frontends[key].value);
    ContributedShown(Cache.Healths(entry), samples, w, key);
  }

  lemma ContributedShown(hs: seq<Cache.Health>, es: seq<Runs.Event>, w: View, key: Key)
    requires w.states == Runs.After(es).states && ShowsContributors(hs, w, key)
    ensures ShowsSamples(hs, es, w, key)
  {
    forall h ensures h in hs <==> IsSampled(es, w, key, h) {
      ContributedIsSampled(es, w, key, h);
    }
  }

  ghost predicate NeverPublishes(es: seq<Pipeline.Event>, key: Key) {
    forall m :: 0 <= m < |es| ==> !(es[m].Published? && es[m].key == key)
  }

  ghost predicate NonEmptyPublishes(es: seq<Pipeline.Event>, key: Key) {
    forall m :: 0 <= m < |es| && es[m].Published? && es[m].key == key ==> es[m].list != []
  }

  lemma {:induction false} CallsInNonEmpty(es: seq<Pipeline.Event>, key: Key)
    requires NonEmptyPublishes(es, key)
    ensures var calls := CallsIn(es, key);
      && (forall m :: 0 <= m < |calls| ==> calls[m].frontend == key && calls[m].endpoints != [])
      && (calls == [] <==> NeverPublishes(es, key))
  {
    if es != [] {
      var n := |es| - 1;
      CallsInNonEmpty(es[..n], key);
      assert forall m :: 0 <= m < n ==> es[..n][m] == es[m];
      assert NeverPublishes(es, key) <==> NeverPublishes(es[..n], key) && !(es[n].Published? && es[n].key == key);
    }
  }

  /** The slice of a frontend that the latest round publishes nothing for. */
  lemma UnpublishedSliceShowsExactly(
    samples: seq<Runs.Event>, w: View, lists: Lists, es: seq<Pipeline.Event>, key: Key)
    requires w.states == Runs.After(samples).states && Joined(w, lists) && key !in lists
    requires Pipeline.ValidRun(Pipeline.INITIAL, es) && NonEmptyPublishes(es, key)
    ensures var entry := Cache.Entry(Pipeline.RunOf(Pipeline.INITIAL, es).cache, key);
      ShowsSamples(Cache.Healths(entry), samples, w, key) <==> NeverPublishes(es, key)
  {
    var entry := Cache.Entry(Pipeline.RunOf(Pipeline.INITIAL, es).cache, key);
    RunCallsUpdate(es, key);
    CallsInNonEmpty(es, key);
    Cache.EntryEmptyExactly(CallsIn(es, key), key);
    NothingContributed(w, lists, key, entry);
    if ShowsSamples(Cache.Healths(entry), samples, w, key) {
      SampledContributes(Cache.Healths(entry), samples, w, key);
    }
    if NeverPublishes(es, key) {
      ContributedShown(Cache.Healths(entry), samples, w, key);
    }
  }

  lemma SampledContributes(hs: seq<Cache.Health>, es: seq<Runs.Event>, w: View, key: Key)
    requires w.states == Runs.After(es).states && ShowsSamples(hs, es, w, key)
    ensures ShowsContributors(hs, w, key)
  {
    forall h ensures h in hs <==> IsContributed(w, key, h) {
      ContributedIsSampled(es, w, key, h);
    }
  }

  /** The list that the latest round joined for a frontend, if any, is the last one
      published for it. */
  ghost predicate PublishesLatest(es: seq<Pipeline.Event>, lists: Lists, key: Key) {
    key in lists ==> exists n :: IsLastPublish(es, key, n) && es[n].list == lists[key]
  }

  /** End to end, exactly: once nothing is under way for a frontend and no event of it
      is lost, its slice shows the latest samples of the backends it selects if and
      only if the latest round published for it or none ever did. A frontend whose
      backends have lost all their data keeps its old endpoints. */
  lemma SliceShowsLatestSamplesExactly(
    samples: seq<Runs.Event>, w: View, lists: Lists, es: seq<Pipeline.Event>, key: Key)
    requires w.states == Runs.After(samples).states && w.targets == Runs.After(samples).targets
    requires Joined(w, lists) && DistinctContributors(w, key)
    requires Pipeline.ValidRun(Pipeline.INITIAL, es) && PublishesLatest(es, lists, key) && NonEmptyPublishes(es, key)
    requires var s := Pipeline.RunOf(Pipeline.INITIAL, es);
      Pipeline.Ported(s, key) && Pipeline.Quiet(s, key) && key !in s.dropped
    ensures var s := Pipeline.RunOf(Pipeline.INITIAL, es);
      && key in s.slices
      && (ShowsSamples(SliceHealths(s.slices[key]), samples, w, key) <==> key in lists || NeverPublishes(es, key))
  {
    var s := Pipeline.RunOf(Pipeline.INITIAL, es);
    Pipeline.QuietMeansAgreed(es, key);
    if key in lists {
      var n :| IsLastPublish(es, key, n) && es[n].list == lists[key];
      SliceShowsLatestSamples(samples, w, lists, es, key, n);
    } else {
      SliceKeepsHealths(Cache.Entry(s.cache, key), s.frontends[key].value);
      UnpublishedSliceShowsExactly(samples, w, lists, es, key);
    }
  }

  /** ... and if no pod was sampled late, every address in the slice is the one its
      pod had at the latest snapshot. */
  lemma SliceAddressesAreReal(
    samples: seq<Runs.Event>, w: View, lists: Lists, es: seq<Pipeline.Event>, key: Key, n: nat, h: Cache.Health)
    requires Runs.AllowedRun(samples) && NoLateSamples(samples)
    requires w.states == Runs.After(samples).states && w.targets == Runs.After(samples).targets
    requires Joined(w, lists) && key in lists && DistinctContributors(w, key)
    requires Pipeline.ValidRun(Pipeline.INITIAL, es) && IsLastPublish(es, key, n) && es[n].list == lists[key]
    requires var s := Pipeline.RunOf(Pipeline.INITIAL, es);
      && Pipeline.Ported(s, key) && Pipeline.Quiet(s, key) && key !in s.dropped
      && key in s.slices && h in SliceHealths(s.slices[key])
    ensures h.ipAddress != "" && exists k, u, node :: Runs.SeenAtSnapshot(samples, k, u, h.ipAddress, node)
  {
    SliceShowsLatestSamples(samples, w, lists, es, key, n);
    ContributedIsSampled(samples, w, key, h);
    PublishedHealths(w, lists, key, h);
    var hs := Cache.Healths(lists[key]);
    var m :| 0 <= m < |hs| && hs[m] == h;
    var ep := lists[key][m];
    PublishedEndpointsAreReal(samples, w, lists, key, ep);
    var k, u :| Runs.SeenAtSnapshot(samples, k, u, ep.ipAddress, ep.nodeName);
  }

  // -------------------------------------------------- nodes and addresses

  /** Where a published list came from: a run of the monitor, what the round read, and
      the lists it joined. */
  datatype Publication = Publication(samples: seq<Runs.Event>, view: View, lists: Lists)

  /** The list of a key is that of a round over a run without late samples. */
  ghost predicate IsPublication(p: Publication, key: Key, list: seq<Cache.Endpoint>) {
    && Runs.AllowedRun(p.samples) && NoLateSamples(p.samples)
    && p.view.states == Runs.After(p.samples).states && p.view.targets == Runs.After(p.samples).targets
    && Joined(p.view, p.lists) && key in p.lists && p.lists[key] == list
  }

  /** The endpoint is that of a contributing pod: with the address and the node that
      this pod had at the latest snapshot, and the health it is recorded with. */
  ghost predicate IsOwnEndpoint(p: Publication, key: Key, address: string, node: string, ready: bool) {
    exists i: nat, j: nat, u, k ::
      && Contributes(p.view, key, i, j, u) && p.view.Recorded(i)[u] == ready
      && Runs.SeenAtSnapshot(p.samples, k, u, address, node)
  }

  lemma PublishedOwnEndpoint(p: Publication, key: Key, list: seq<Cache.Endpoint>, n: nat)
    requires IsPublication(p, key, list) && n < |list|
    ensures list[n].ipAddress != "" && IsOwnEndpoint(p, key, list[n].ipAddress, list[n].nodeName, list[n].healthy)
  {
    var i, j, u := ListedHasContributor(p.view, p.lists, key, n);
    assert Lookup(p.view.states, p.view.backends[i].name, u).Some?;
    Runs.GhostsExactly(p.samples, u);
    assert !Runs.LateInEarlierTick(p.samples, u);
    Runs.TargetsAreLastSnapshot(p.samples, u);
  }

  /** The entry of a frontend is the list of one of the publishes for it. */
  lemma EntryIsPublished(es: seq<Pipeline.Event>, key: Key)
    requires Pipeline.ValidRun(Pipeline.INITIAL, es)
    ensures var entry := Cache.Entry(Pipeline.RunOf(Pipeline.INITIAL, es).cache, key);
      entry == [] || exists m :: 0 <= m < |es| && es[m] == Pipeline.Published(key, entry)
  {
    var entry := Cache.Entry(Pipeline.RunOf(Pipeline.INITIAL, es).cache, key);
    RunCallsUpdate(es, key);
    Cache.CacheHoldsAGivenList(CallsIn(es, key), key);
    if entry != [] {
      CallWasPublished(es, key, entry);
    }
  }

  lemma {:induction false} CallWasPublished(es: seq<Pipeline.Event>, key: Key, list: seq<Cache.Endpoint>)
    requires Cache.Call(key, list) in CallsIn(es, key)
    ensures exists m :: 0 <= m < |es| && es[m] == Pipeline.Published(key, list)
  {
    var n := |es| - 1;
    if es[n].Published? && es[n].key == key && es[n].list == list {
      assert es[n] == Pipeline.Published(key, list);
    } else {
      assert Cache.Call(key, list) in CallsIn(es[..n], key);
      CallWasPublished(es[..n], key, list);
      var m :| 0 <= m < n && es[..n][m] == Pipeline.Published(key, list);
      assert es[m] == es[..n][m];
    }
  }

  /** Publish `m` is where the slice comes from: the slice shows its list, and each
      endpoint has the address, node and health of its own pod of then. */
  ghost predicate ComesFrom(slice: Controller.Slice, es: seq<Pipeline.Event>, origin: int -> Publication, key: Key, m: int) {
    && 0 <= m < |es| && es[m].Published? && es[m].key == key
    && |slice.endpoints| == |es[m].list|
    && forall n :: 0 <= n < |slice.endpoints| ==>
         var e := slice.endpoints[n];
         e.address != "" && IsOwnEndpoint(origin(m), key, e.address, e.nodeName, e.ready)
  }

  lemma ShownComesFrom(
    slice: Controller.Slice, port: int32, es: seq<Pipeline.Event>, origin: int -> Publication, key: Key, m: nat)
    requires m < |es| && es[m].Published? && es[m].key == key && IsPublication(origin(m), key, es[m].list)
    requires Controller.ShowsEntry(slice, es[m].list, port)
    ensures ComesFrom(slice, es, origin, key, m)
  {
    forall n | 0 <= n < |slice.endpoints|
      ensures var e := slice.endpoints[n];
        e.address != "" && IsOwnEndpoint(origin(m), key, e.address, e.nodeName, e.ready)
    {
      PublishedOwnEndpoint(origin(m), key, es[m].list, n);
    }
  }

  /** End to end, field by field: if every list that is published for a frontend comes
      from a round over a run without late samples, then once nothing is under way and
      no event is lost, its slice is empty or comes from one of these publishes, the
      one that was stored: each endpoint has the address, the node and the health that
      its own pod had there. */
  lemma SliceEndpointsAreOwn(es: seq<Pipeline.Event>, origin: int -> Publication, key: Key)
    requires Pipeline.ValidRun(Pipeline.INITIAL, es)
    requires forall m :: 0 <= m < |es| && es[m].Published? && es[m].key == key ==> IsPublication(origin(m), key, es[m].list)
    requires var s := Pipeline.RunOf(Pipeline.INITIAL, es);
      Pipeline.Ported(s, key) && Pipeline.Quiet(s, key) && key !in s.dropped
    ensures var s := Pipeline.RunOf(Pipeline.INITIAL, es);
      && key in s.slices
      && (s.slices[key].endpoints == [] || exists m :: ComesFrom(s.slices[key], es, origin, key, m))
  {
    var s := Pipeline.RunOf(Pipeline.INITIAL, es);
    var entry := Cache.Entry(s.cache, key);
    Pipeline.QuietMeansAgreed(es, key);
    Controller.SliceShowsEntry(entry, s.frontends[key].value);
    EntryIsPublished(es, key);
    if entry != [] {
      var m :| 0 <= m < |es| && es[m] == Pipeline.Published(key, entry);
      ShownComesFrom(s.slices[key], s.frontends[key].value, es, origin, key, m);
    }
  }

  /** The stored publish need not be the latest: a list that differs only in its nodes
      is not taken for a change, so the slice keeps the nodes of the stored one. */
  lemma NodeChangeIsSilent(cache: Lists, key: Key, list: seq<Cache.Endpoint>)
    requires key in cache && Cache.DistinctIps(list)
    requires |list| == |cache[key]| && forall n :: 0 <= n < |list| ==> Cache.HealthOf(list[n]) == Cache.HealthOf(cache[key][n])
    ensures !Cache.Signals(cache, key, list) && Cache.Updated(cache, key, list) == cache
  {
    assert Cache.Healths(list) == Cache.Healths(cache[key]);
    Cache.SignalsExactly(cache, key, list);
  }
}
