/** From a published list to the EndpointSlice: the cache write and the lossy
    send of the monitor, the event channel, the work queue and the steps of the
    reconcilers, interleaved in any order. */
module HealthPipeline {
  import opened Common
  import opened Api
  import opened FrontendController
  import Cache = HealthCache
  import Manager = HealthManager

  /** A reconcile in progress: it has taken its key; it has read a ported
      Frontend; it has read the cache and is about to write the slice. */
  datatype Worker =
    | Started
    | HavePort(port: int32)
    | HaveList(port: int32, list: seq<Cache.Endpoint>)

  /** `frontends` is the informer's view: each frontend with its port. `pending`
      is the update between its cache write and its send. `channel` holds events
      that were received but not yet queued. `dropped` holds the frontends with an
      event lost since the cache was last read for them. */
  datatype System = System(
    cache: map<Key, seq<Cache.Endpoint>>,
    pending: Option<Key>,
    channel: seq<Key>,
    queue: set<Key>,
    workers: map<Key, Worker>,
    frontends: map<Key, Option<int32>>,
    slices: map<Key, Slice>,
    dropped: set<Key>)

  const INITIAL: System := System(map[], None, [], {}, map[], map[], map[], {})

  datatype Event =
    | Published(key: Key, list: seq<Cache.Endpoint>)
    | Sent
    | Dropped
    | Enqueued
    | FrontendSeen(key: Key, port: Option<int32>)
    | FrontendGone(key: Key)
    | SliceCollected(key: Key)
    | Taken(key: Key)
    | FrontendRead(key: Key, ok: bool)
    | ServiceFailed(key: Key)
    | CacheRead(key: Key)
    | SliceWritten(key: Key, ok: bool)

  predicate Enabled(s: System, e: Event) {
    match e
    case Published(_, _) => s.pending.None?
    case Sent => s.pending.Some?
    case Dropped => s.pending.Some?
    case Enqueued => s.channel != []
    case FrontendSeen(_, _) => true
    case FrontendGone(k) => k in s.frontends
    case SliceCollected(k) => k !in s.frontends
    case Taken(k) => k in s.queue && k !in s.workers
    case FrontendRead(k, _) => k in s.workers && s.workers[k].Started?
    case ServiceFailed(k) => k in s.workers && s.workers[k].HavePort?
    case CacheRead(k) => k in s.workers && s.workers[k].HavePort?
    case SliceWritten(k, _) => k in s.workers && s.workers[k].HaveList?
  }

  /** A reconcile that ends with an error is queued again. */
  function Finish(s: System, k: Key, ok: bool): (r: System) {
    s.(workers := s.workers - {k}, queue := if ok then s.queue else s.queue + {k})
  }

  function Apply(s: System, e: Event): (r: System)
    requires Enabled(s, e)
  {
    match e
    case Published(k, list) =>
      s.(cache := Cache.Updated(s.cache, k, list),
         pending := if Cache.Signals(s.cache, k, list) then Some(k) else None)
    case Sent => s.(pending := None, channel := s.channel + [s.pending.value])
    case Dropped => s.(pending := None, dropped := s.dropped + {s.pending.value})
    case Enqueued => s.(channel := s.channel[1..], queue := s.queue + {s.channel[0]})
    case FrontendSeen(k, port) => s.(frontends := s.frontends[k := port], queue := s.queue + {k})
    case FrontendGone(k) => s.(frontends := s.frontends - {k}, queue := s.queue + {k})
    case SliceCollected(k) => s.(slices := s.slices - {k})
    case Taken(k) => s.(queue := s.queue - {k}, workers := s.workers[k := Started])
    case FrontendRead(k, ok) =>
      if !ok then Finish(s, k, false)
      else if k !in s.frontends || s.frontends[k].None? then Finish(s, k, true)
      else s.(workers := s.workers[k := HavePort(s.frontends[k].value)])
    case ServiceFailed(k) => Finish(s, k, false)
    case CacheRead(k) =>
      s.(workers := s.workers[k := HaveList(s.workers[k].port, Cache.Entry(s.cache, k))], dropped := s.dropped - {k})
    case SliceWritten(k, ok) =>
      if !ok then Finish(s, k, false)
      else Finish(s, k, true).(slices := s.slices[k := SliceOf(s.workers[k].list, s.workers[k].port)])
  }

  ghost predicate ValidRun(s: System, es: seq<Event>)
    decreases |es|
  {
    es == [] || (Enabled(s, es[0]) && ValidRun(Apply(s, es[0]), es[1..]))
  }

  ghost function RunOf(s: System, es: seq<Event>): (r: System)
    requires ValidRun(s, es)
    decreases |es|
  {
    if es == [] then s else RunOf(Apply(s, es[0]), es[1..])
  }

  // ----------------------------------------------------------- the invariant

  predicate Ported(s: System, k: Key) {
    k in s.frontends && s.frontends[k].Some?
  }

  /** The slice is the image of the cache entry, with the frontend's port. */
  predicate UpToDate(s: System, k: Key)
    requires Ported(s, k)
  {
    k in s.slices && s.slices[k] == SliceOf(Cache.Entry(s.cache, k), s.frontends[k].value)
  }

  /** A wake-up is under way, or was lost since the last read of the cache. */
  predicate Woken(s: System, k: Key) {
    s.pending == Some(k) || k in s.channel || k in s.queue || k in s.dropped
  }

  /** The reconcile in progress will write, or will still read, current data. */
  predicate OnTrack(s: System, k: Key)
    requires Ported(s, k)
  {
    k in s.workers && match s.workers[k]
      case Started => true
      case HavePort(port) => port == s.frontends[k].value
      case HaveList(port, list) => port == s.frontends[k].value && list == Cache.Entry(s.cache, k)
  }

  ghost predicate KeyInv(s: System, k: Key) {
    Ported(s, k) ==>
      && (k in s.workers ==> OnTrack(s, k) || Woken(s, k))
      && (k in s.workers && s.workers[k].HavePort? ==> OnTrack(s, k) || k in s.queue)
      && (UpToDate(s, k) || Woken(s, k) || k in s.workers)
  }

  lemma PublisherKeepsKeyInv(s: System, e: Event, k: Key)
    requires Enabled(s, e) && KeyInv(s, k)
    requires e.Published? || e.Sent? || e.Dropped? || e.Enqueued?
    ensures KeyInv(Apply(s, e), k)
  {
    if e.Sent? { ChannelGrows(s, k); }
    if e.Enqueued? { ChannelShrinks(s, k); }
  }

  lemma ClusterKeepsKeyInv(s: System, e: Event, k: Key)
    requires Enabled(s, e) && KeyInv(s, k)
    requires e.FrontendSeen? || e.FrontendGone? || e.SliceCollected? || e.Taken?
    ensures KeyInv(Apply(s, e), k)
  {
  }

  lemma FetchKeepsKeyInv(s: System, e: Event, k: Key)
    requires Enabled(s, e) && KeyInv(s, k)
    requires e.FrontendRead? || e.ServiceFailed?
    ensures KeyInv(Apply(s, e), k)
  {
  }

  lemma ReadKeepsKeyInv(s: System, e: Event, k: Key)
    requires Enabled(s, e) && KeyInv(s, k) && e.CacheRead?
    ensures KeyInv(Apply(s, e), k)
  {
  }

  lemma WriteKeepsKeyInv(s: System, e: Event, k: Key)
    requires Enabled(s, e) && KeyInv(s, k) && e.SliceWritten?
    ensures KeyInv(Apply(s, e), k)
  {
  }

  lemma StepKeepsKeyInv(s: System, e: Event, k: Key)
    requires Enabled(s, e) && KeyInv(s, k)
    ensures KeyInv(Apply(s, e), k)
  {
    if e.Published? || e.Sent? || e.Dropped? || e.Enqueued? {
      PublisherKeepsKeyInv(s, e, k);
    } else if e.FrontendSeen? || e.FrontendGone? || e.SliceCollected? || e.Taken? {
      ClusterKeepsKeyInv(s, e, k);
    } else if e.FrontendRead? || e.ServiceFailed? {
      FetchKeepsKeyInv(s, e, k);
    } else if e.CacheRead? {
      ReadKeepsKeyInv(s, e, k);
    } else {
      WriteKeepsKeyInv(s, e, k);
    }
  }

  lemma ChannelGrows(s: System, k: Key)
    requires s.pending.Some?
    ensures k in s.channel + [s.pending.value] <==> k in s.channel || s.pending == Some(k)
  {
  }

  lemma ChannelShrinks(s: System, k: Key)
    requires s.channel != []
    ensures k in s.channel <==> k == s.channel[0] || k in s.channel[1..]
  {
  }

  lemma {:induction false} RunKeepsKeyInv(s: System, es: seq<Event>, k: Key)
    requires ValidRun(s, es) && KeyInv(s, k)
    ensures KeyInv(RunOf(s, es), k)
    decreases |es|
  {
    if es != [] {
      StepKeepsKeyInv(s, es[0], k);
      RunKeepsKeyInv(Apply(s, es[0]), es[1..], k);
    }
  }

  /** End-to-end agreement: in every reachable state, if the EndpointSlice of a
      ported frontend is not the image of its cache entry, then an update is
      between its cache write and its send, an event is on its way to the queue, a
      reconcile is queued, or has not yet read the cache, or is about to write
      exactly the current entry, or an event was dropped since the cache was last
      read. */
  lemma SliceAgreesUnlessWoken(es: seq<Event>, k: Key)
    requires ValidRun(INITIAL, es) && Ported(RunOf(INITIAL, es), k)
    ensures var s := RunOf(INITIAL, es);
      || UpToDate(s, k)
      || s.pending == Some(k)
      || k in s.channel
      || k in s.queue
      || OnTrack(s, k)
      || k in s.dropped
  {
    RunKeepsKeyInv(INITIAL, es, k);
  }

  /** Nothing is under way for a frontend. */
  predicate Quiet(s: System, k: Key) {
    s.pending != Some(k) && k !in s.channel && k !in s.queue && k !in s.workers
  }

  /** When nothing is under way and no event was dropped, the slice is current. */
  lemma QuietMeansAgreed(es: seq<Event>, k: Key)
    requires ValidRun(INITIAL, es)
    ensures var s := RunOf(INITIAL, es);
      Ported(s, k) && Quiet(s, k) && k !in s.dropped ==> UpToDate(s, k)
  {
    RunKeepsKeyInv(INITIAL, es, k);
  }

  // ------------------------------------------------------ what a slice shows

  lemma {:induction false} RunLast(s: System, es: seq<Event>)
    requires es != [] && ValidRun(s, es)
    ensures var n := |es| - 1;
      && ValidRun(s, es[..n]) && Enabled(RunOf(s, es[..n]), es[n])
      && RunOf(s, es) == Apply(RunOf(s, es[..n]), es[n])
    decreases |es|
  {
    var n := |es| - 1;
    if n > 0 {
      RunLast(Apply(s, es[0]), es[1..]);
      assert es[1..][..n - 1] == es[..n][1..];
    }
  }

  /** What a reconcile goes by: a cache entry and a port. */
  datatype Basis = Basis(list: seq<Cache.Endpoint>, port: int32)

  /** What a read of the cache finds, given what the one before it found. */
  function NextRead(s: System, e: Event, k: Key, read: Option<Basis>): (r: Option<Basis>)
    requires Enabled(s, e)
  {
    if e == CacheRead(k) then Some(Basis(Cache.Entry(s.cache, k), s.workers[k].port)) else read
  }

  /** What the slice was written from, given what was read last. */
  function NextWrite(e: Event, k: Key, read: Option<Basis>, written: Option<Basis>): (r: Option<Basis>) {
    if e == SliceWritten(k, true) then read else if e == SliceCollected(k) then None else written
  }

  /** What the last read of the cache for a frontend found. */
  ghost function LastRead(es: seq<Event>, k: Key): (r: Option<Basis>)
    requires ValidRun(INITIAL, es)
    decreases |es|
  {
    if es == [] then None
    else
      RunLast(INITIAL, es);
      var n := |es| - 1;
      NextRead(RunOf(INITIAL, es[..n]), es[n], k, LastRead(es[..n], k))
  }

  /** What the last successful write of a frontend's slice was made from: the read
      before it. `None` if there is no such write, or the slice was collected. */
  ghost function LastWrite(es: seq<Event>, k: Key): (r: Option<Basis>)
    requires ValidRun(INITIAL, es)
    decreases |es|
  {
    if es == [] then None
    else
      RunLast(INITIAL, es);
      var n := |es| - 1;
      NextWrite(es[n], k, LastRead(es[..n], k), LastWrite(es[..n], k))
  }

  predicate BasisOk(s: System, k: Key, read: Option<Basis>, written: Option<Basis>) {
    && (k in s.workers && s.workers[k].HaveList? ==> read == Some(Basis(s.workers[k].list, s.workers[k].port)))
    && (k in s.slices <==> written.Some?)
    && (k in s.slices ==> s.slices[k] == SliceOf(written.value.list, written.value.port))
  }

  lemma StepKeepsBasis(s: System, e: Event, k: Key, read: Option<Basis>, written: Option<Basis>)
    requires Enabled(s, e) && BasisOk(s, k, read, written)
    ensures BasisOk(Apply(s, e), k, NextRead(s, e, k, read), NextWrite(e, k, read, written))
  {
  }

  lemma {:induction false} RunKeepsBasis(es: seq<Event>, k: Key)
    requires ValidRun(INITIAL, es)
    ensures BasisOk(RunOf(INITIAL, es), k, LastRead(es, k), LastWrite(es, k))
  {
    if es != [] {
      var n := |es| - 1;
      RunLast(INITIAL, es);
      RunKeepsBasis(es[..n], k);
      StepKeepsBasis(RunOf(INITIAL, es[..n]), es[n], k, LastRead(es[..n], k), LastWrite(es[..n], k));
    }
  }

  /** Exactly when a slice is current, in every reachable state and whatever was
      dropped when: if and only if the cache entry and the port are those that its
      last successful write went by. */
  lemma CurrentExactly(es: seq<Event>, k: Key)
    requires ValidRun(INITIAL, es) && Ported(RunOf(INITIAL, es), k)
    ensures var s := RunOf(INITIAL, es);
      UpToDate(s, k) <==> LastWrite(es, k) == Some(Basis(Cache.Entry(s.cache, k), s.frontends[k].value))
  {
    var s := RunOf(INITIAL, es);
    RunKeepsBasis(es, k);
    if LastWrite(es, k).Some? {
      var b := LastWrite(es, k).value;
      SliceDeterminesHealth(b.list, Cache.Entry(s.cache, k), b.port, s.frontends[k].value);
    }
  }

  // ------------------------------------------------- the code takes the steps

  /** What fetching a frontend can return, given the informer's view. */
  predicate Fetches(s: System, k: Key, fetch: Fetch) {
    match fetch
    case NotFound => k !in s.frontends
    case Failed => true
    case Found(f) => k in s.frontends && s.frontends[k] == f.port
  }

  /** The steps of an uninterrupted reconcile, whichever way it ends. */
  function ReconcileSteps(k: Key, fetch: Fetch, serviceOk: bool, sliceOk: bool): (es: seq<Event>) {
    [Taken(k)] + [FrontendRead(k, !fetch.Failed?)] +
      if !Proceeds(fetch) then []
      else if !serviceOk then [ServiceFailed(k)]
      else [CacheRead(k)] + [SliceWritten(k, sliceOk)]
  }

  /** The state that `FrontendReconciler.Reconcile` leaves. */
  function Reconciled(s: System, k: Key, fetch: Fetch, serviceOk: bool, sliceOk: bool): (t: System) {
    s.(queue := if Requeues(fetch, serviceOk, sliceOk) then s.queue else s.queue - {k},
       slices := SlicesAfter(s.slices, k, Cache.Entry(s.cache, k), fetch, serviceOk, sliceOk),
       dropped := if Proceeds(fetch) && serviceOk then s.dropped - {k} else s.dropped)
  }

  lemma RunTwo(s: System, a: Event, b: Event)
    requires Enabled(s, a) && Enabled(Apply(s, a), b)
    ensures ValidRun(s, [a] + [b]) && RunOf(s, [a] + [b]) == Apply(Apply(s, a), b)
  {
    RunFirst(Apply(s, a), b, []);
    RunFirst(s, a, [b]);
  }

  /** A reconcile that ends after the fetch. */
  lemma FetchSteps(s: System, k: Key, fetch: Fetch, serviceOk: bool, sliceOk: bool)
    requires k in s.queue && k !in s.workers && Fetches(s, k, fetch) && !Proceeds(fetch)
    ensures var es := ReconcileSteps(k, fetch, serviceOk, sliceOk);
      ValidRun(s, es) && RunOf(s, es) == Reconciled(s, k, fetch, serviceOk, sliceOk)
  {
    var t := Apply(s, Taken(k));
    var u := Apply(t, FrontendRead(k, !fetch.Failed?));
    assert u.workers == s.workers;
    assert fetch.Failed? ==> u.queue == s.queue;
    RunTwo(s, Taken(k), FrontendRead(k, !fetch.Failed?));
    assert ReconcileSteps(k, fetch, serviceOk, sliceOk) == [Taken(k)] + [FrontendRead(k, !fetch.Failed?)];
  }

  /** The first two steps of a reconcile that proceeds. */
  lemma HavePortSteps(s: System, k: Key, fetch: Fetch)
    requires k in s.queue && k !in s.workers && Fetches(s, k, fetch) && Proceeds(fetch)
    ensures var es := [Taken(k)] + [FrontendRead(k, true)];
      && ValidRun(s, es)
      && RunOf(s, es) == s.(queue := s.queue - {k}, workers := s.workers[k := HavePort(fetch.frontend.port.value)])
  {
    RunTwo(s, Taken(k), FrontendRead(k, true));
  }

  /** Whether fetch, Service write and slice write go through or fail: taken
      without interruption, the steps leave what `FrontendReconciler.Reconcile`
      leaves, the request is queued again exactly if it asks for a retry, and on
      success the frontend is up to date. */
  lemma ReconcileTakesTheSteps(s: System, k: Key, fetch: Fetch, serviceOk: bool, sliceOk: bool)
    requires k in s.queue && k !in s.workers && Fetches(s, k, fetch)
    ensures var es := ReconcileSteps(k, fetch, serviceOk, sliceOk);
      ValidRun(s, es) && RunOf(s, es) == Reconciled(s, k, fetch, serviceOk, sliceOk)
    ensures var t := Reconciled(s, k, fetch, serviceOk, sliceOk);
      && (k in t.queue <==> Requeues(fetch, serviceOk, sliceOk))
      && (Proceeds(fetch) && serviceOk && sliceOk ==> Ported(t, k) && UpToDate(t, k))
  {
    if !Proceeds(fetch) {
      FetchSteps(s, k, fetch, serviceOk, sliceOk);
    } else {
      var first := [Taken(k)] + [FrontendRead(k, true)];
      HavePortSteps(s, k, fetch);
      var mid := RunOf(s, first);
      if !serviceOk {
        RunFirst(mid, ServiceFailed(k), []);
        RunConcat(s, first, [ServiceFailed(k)]);
        assert RunOf(mid, [ServiceFailed(k)]).queue == s.queue;
        assert RunOf(mid, [ServiceFailed(k)]).workers == s.workers;
      } else {
        LastSteps(s, mid, k, fetch, sliceOk);
        RunConcat(s, first, [CacheRead(k)] + [SliceWritten(k, sliceOk)]);
      }
    }
  }

  lemma LastSteps(s: System, mid: System, k: Key, fetch: Fetch, sliceOk: bool)
    requires k in s.queue && k !in s.workers && Proceeds(fetch)
    requires mid == s.(queue := s.queue - {k}, workers := s.workers[k := HavePort(fetch.frontend.port.value)])
    ensures var es := [CacheRead(k)] + [SliceWritten(k, sliceOk)];
      ValidRun(mid, es) && RunOf(mid, es) == Reconciled(s, k, fetch, true, sliceOk)
  {
    var t := Apply(mid, CacheRead(k));
    var u := Apply(t, SliceWritten(k, sliceOk));
    assert u.workers == s.workers;
    assert !sliceOk ==> u.queue == s.queue;
    RunTwo(mid, CacheRead(k), SliceWritten(k, sliceOk));
  }

  lemma RunFirst(s: System, e: Event, es: seq<Event>)
    requires Enabled(s, e) && ValidRun(Apply(s, e), es)
    ensures ValidRun(s, [e] + es) && RunOf(s, [e] + es) == RunOf(Apply(s, e), es)
  {
  }

  /** The steps of one call of `HealthManager.Update`. */
  function PublishSteps(s: System, k: Key, list: seq<Cache.Endpoint>, ready: bool): (es: seq<Event>) {
    if !Cache.Signals(s.cache, k, list) then [Published(k, list)]
    else [Published(k, list)] + [if ready then Sent else Dropped]
  }

  lemma PublishRun(s: System, k: Key, list: seq<Cache.Endpoint>, ready: bool)
    requires s.pending.None?
    ensures var es := PublishSteps(s, k, list, ready);
      && ValidRun(s, es)
      && RunOf(s, es).cache == Cache.Updated(s.cache, k, list)
      && RunOf(s, es).channel == s.channel + (if Cache.Signals(s.cache, k, list) && ready then [k] else [])
      && RunOf(s, es).pending.None?
  {
    if Cache.Signals(s.cache, k, list) {
      RunTwo(s, Published(k, list), if ready then Sent else Dropped);
    } else {
      RunFirst(s, Published(k, list), []);
    }
  }

  /** Each call of `HealthManager.Update` takes the steps: the same cache, and an event
      on its way exactly if one was delivered. */
  method PublishTakesTheSteps(manager: Manager.HealthManager, k: Key, list: seq<Cache.Endpoint>, ready: bool, ghost s: System)
    requires s.pending.None? && manager.cache.endpoints == s.cache
    modifies manager, manager.cache
    ensures old(manager.delivered) <= manager.delivered
    ensures var es := PublishSteps(s, k, list, ready);
      && ValidRun(s, es)
      && manager.cache.endpoints == RunOf(s, es).cache
      && s.channel + manager.delivered[|old(manager.delivered)|..] == RunOf(s, es).channel
  {
    PublishRun(s, k, list, ready);
    manager.Update(k, list, ready);
  }

  // ---------------------------------------------------------- a lost event

  lemma {:induction false} RunConcat(s: System, es: seq<Event>, fs: seq<Event>)
    requires ValidRun(s, es) && ValidRun(RunOf(s, es), fs)
    ensures ValidRun(s, es + fs) && RunOf(s, es + fs) == RunOf(RunOf(s, es), fs)
    decreases |es|
  {
    if es == [] {
      assert es + fs == fs;
    } else {
      assert (es + fs)[1..] == es[1..] + fs;
      RunConcat(Apply(s, es[0]), es[1..], fs);
    }
  }

  /** A new ported frontend gets an empty slice. */
  lemma FirstSlice(k: Key, port: int32) returns (es: seq<Event>)
    ensures ValidRun(INITIAL, es)
    ensures var s := RunOf(INITIAL, es);
      && s == System(map[], None, [], {}, map[], map[k := Some(port)], map[k := SliceOf([], port)], {})
  {
    var s := Apply(INITIAL, FrontendSeen(k, Some(port)));
    var fetch := Found(Frontend(k, 0, 0, port, "", None, Some(port)));
    ReconcileTakesTheSteps(s, k, fetch, true, true);
    es := [FrontendSeen(k, Some(port))] + ReconcileSteps(k, fetch, true, true);
    RunFirst(INITIAL, FrontendSeen(k, Some(port)), ReconcileSteps(k, fetch, true, true));
  }

  /** No reconcile of a frontend is queued or in progress. */
  predicate NothingQueued(s: System, k: Key) {
    k !in s.channel && k !in s.queue && k !in s.workers
  }

  /** An event of a run that does not wake the reconciler for a frontend: it is not
      the sending of its update, nor a change of the Frontend object. */
  predicate LeavesAsleep(s: System, e: Event, k: Key) {
    match e
    case Sent => s.pending != Some(k)
    case FrontendSeen(l, _) => l != k
    case FrontendGone(l) => l != k
    case _ => true
  }

  ghost predicate Asleep(s: System, es: seq<Event>, k: Key)
    requires ValidRun(s, es)
    decreases |es|
  {
    es == [] || (LeavesAsleep(s, es[0], k) && Asleep(Apply(s, es[0]), es[1..], k))
  }

  /** The frontend and its slice are the same in two states. */
  predicate SameSlice(s: System, t: System, k: Key) {
    && Ported(s, k) && Ported(t, k) && s.frontends[k] == t.frontends[k]
    && (k in s.slices <==> k in t.slices) && (k in s.slices ==> s.slices[k] == t.slices[k])
  }

  lemma AsleepStep(s: System, e: Event, k: Key)
    requires Enabled(s, e) && LeavesAsleep(s, e, k) && Ported(s, k) && NothingQueued(s, k)
    ensures SameSlice(s, Apply(s, e), k) && NothingQueued(Apply(s, e), k)
  {
    if e.Sent? { ChannelGrows(s, k); }
    if e.Enqueued? { ChannelShrinks(s, k); }
  }

  lemma {:induction false} AsleepRun(s: System, es: seq<Event>, k: Key)
    requires ValidRun(s, es) && Asleep(s, es, k) && Ported(s, k) && NothingQueued(s, k)
    ensures SameSlice(s, RunOf(s, es), k) && NothingQueued(RunOf(s, es), k)
    decreases |es|
  {
    if es != [] {
      AsleepStep(s, es[0], k);
      AsleepRun(Apply(s, es[0]), es[1..], k);
    }
  }

  /** Lost updates, exactly: over any run in which no update of a frontend is sent
      and its object does not change, whatever is published and dropped, a slice
      that was current stays so if and only if the cache entry is in the end what
      it was. */
  lemma LostUpdatesExactly(s: System, es: seq<Event>, k: Key)
    requires ValidRun(s, es) && Asleep(s, es, k)
    requires Ported(s, k) && NothingQueued(s, k) && UpToDate(s, k)
    ensures var t := RunOf(s, es);
      && Ported(t, k) && NothingQueued(t, k)
      && (UpToDate(t, k) <==> Cache.Entry(t.cache, k) == Cache.Entry(s.cache, k))
  {
    AsleepRun(s, es, k);
    var t := RunOf(s, es);
    SliceDeterminesHealth(Cache.Entry(s.cache, k), Cache.Entry(t.cache, k), s.frontends[k].value, s.frontends[k].value);
  }

  /** Publishes for a frontend that are not taken for a change. */
  ghost predicate SilentFor(s: System, es: seq<Event>, k: Key)
    requires ValidRun(s, es)
    decreases |es|
  {
    es != [] ==>
      && (es[0].Published? && es[0].key == k ==> !Cache.Signals(s.cache, k, es[0].list))
      && SilentFor(Apply(s, es[0]), es[1..], k)
  }

  lemma {:induction false} SilentKeepsEntry(s: System, es: seq<Event>, k: Key)
    requires ValidRun(s, es) && SilentFor(s, es, k)
    ensures Cache.Entry(RunOf(s, es).cache, k) == Cache.Entry(s.cache, k)
    decreases |es|
  {
    if es != [] {
      assert Cache.Entry(Apply(s, es[0]).cache, k) == Cache.Entry(s.cache, k);
      SilentKeepsEntry(Apply(s, es[0]), es[1..], k);
    }
  }

  /** A change whose event is dropped. */
  lemma LossyPublish(s: System, k: Key, list: seq<Cache.Endpoint>)
    requires s.pending.None? && Cache.Signals(s.cache, k, list)
    ensures var es := [Published(k, list)] + [Dropped];
      && ValidRun(s, es) && Asleep(s, es, k)
      && RunOf(s, es) == s.(cache := s.cache[k := list], dropped := s.dropped + {k})
  {
    RunTwo(s, Published(k, list), Dropped);
    assert ([Published(k, list)] + [Dropped])[1..] == [Dropped];
  }

  /** One dropped event, exactly: from every state in which the slice is current,
      after a change is published and its event dropped, and for as long as only
      silent publishes and steps of other frontends follow, the slice is current if
      and only if the new list is the entry that it replaced. */
  lemma DroppedUpdateExactly(s: System, k: Key, list: seq<Cache.Endpoint>, later: seq<Event>)
    requires s.pending.None? && Ported(s, k) && NothingQueued(s, k) && UpToDate(s, k)
    requires Cache.Signals(s.cache, k, list)
    requires var t := s.(cache := s.cache[k := list], dropped := s.dropped + {k});
      ValidRun(t, later) && Asleep(t, later, k) && SilentFor(t, later, k)
    ensures var es := [Published(k, list)] + [Dropped] + later;
      && ValidRun(s, es)
      && var u := RunOf(s, es);
      && Ported(u, k) && NothingQueued(u, k)
      && (UpToDate(u, k) <==> list == Cache.Entry(s.cache, k))
  {
    var t := s.(cache := s.cache[k := list], dropped := s.dropped + {k});
    LossyPublish(s, k, list);
    RunConcat(s, [Published(k, list)] + [Dropped], later);
    SilentKeepsEntry(t, later, k);
    AsleepRun(t, later, k);
    var u := RunOf(t, later);
    SliceDeterminesHealth(Cache.Entry(s.cache, k), list, s.frontends[k].value, s.frontends[k].value);
    assert Cache.Entry(u.cache, k) == list;
  }

  /** A change that is dropped while a reconcile is about to write: the write goes by
      what was read before it, and then nothing is under way. */
  lemma DroppedDuringReconcile(s: System, k: Key, list: seq<Cache.Endpoint>)
    requires s.pending.None? && Ported(s, k) && OnTrack(s, k) && s.workers[k].HaveList?
    requires k !in s.channel && k !in s.queue && Cache.Signals(s.cache, k, list)
    ensures var es := [Published(k, list)] + [Dropped] + [SliceWritten(k, true)];
      && ValidRun(s, es)
      && var t := RunOf(s, es);
      && Ported(t, k) && Quiet(t, k)
      && (UpToDate(t, k) <==> list == Cache.Entry(s.cache, k))
  {
    var t := s.(cache := s.cache[k := list], dropped := s.dropped + {k});
    LossyPublish(s, k, list);
    RunFirst(t, SliceWritten(k, true), []);
    RunConcat(s, [Published(k, list)] + [Dropped], [SliceWritten(k, true)]);
    SliceDeterminesHealth(Cache.Entry(s.cache, k), list, s.frontends[k].value, s.frontends[k].value);
  }

  /** A dropped event does not always leave the slice behind: a change and its
      reversal, both dropped, cancel out. */
  lemma DroppedReversalCancels(s: System, k: Key, list: seq<Cache.Endpoint>)
    requires s.pending.None? && Ported(s, k) && NothingQueued(s, k) && UpToDate(s, k) && k in s.cache
    requires Cache.Changed(s.cache[k], list) && Cache.Changed(list, s.cache[k])
    ensures var es := [Published(k, list)] + [Dropped] + ([Published(k, s.cache[k])] + [Dropped]);
      && ValidRun(s, es)
      && var t := RunOf(s, es);
      && Ported(t, k) && Quiet(t, k) && k in t.dropped && UpToDate(t, k)
  {
    var t := s.(cache := s.cache[k := list], dropped := s.dropped + {k});
    LossyPublish(s, k, list);
    LossyPublish(t, k, s.cache[k]);
    RunConcat(s, [Published(k, list)] + [Dropped], [Published(k, s.cache[k])] + [Dropped]);
  }

  /** The failing side is reachable: there is a run after which nothing is under
      way and yet the slice is not the image of the cache entry. */
  lemma DroppedEventLosesUpdate(k: Key, port: int32, ep: Cache.Endpoint) returns (es: seq<Event>)
    ensures ValidRun(INITIAL, es)
    ensures var s := RunOf(INITIAL, es);
      && Ported(s, k) && Quiet(s, k) && !UpToDate(s, k)
      && s.cache == map[k := [ep]]
  {
    var first := FirstSlice(k, port);
    var mid := RunOf(INITIAL, first);
    LossyPublish(mid, k, [ep]);
    RunConcat(INITIAL, first, [Published(k, [ep])] + [Dropped]);
    es := first + ([Published(k, [ep])] + [Dropped]);
    SliceDeterminesHealth([], [ep], port, port);
  }

  /** ... and re-publishing the same health, in any order and any number of times,
      never repairs it. */
  lemma {:induction false} RepublishingDoesNotRepair(s: System, es: seq<Event>)
    requires ValidRun(s, es)
    requires forall i :: 0 <= i < |es| ==>
      && es[i].Published? && es[i].key in s.cache
      && Cache.DistinctIps(es[i].list) && Cache.SameHealth(s.cache[es[i].key], es[i].list)
    requires s.pending.None?
    ensures RunOf(s, es) == s
    decreases |es|
  {
    if es != [] {
      Cache.SignalsExactly(s.cache, es[0].key, es[0].list);
      assert Apply(s, es[0]) == s;
      RepublishingDoesNotRepair(s, es[1..]);
    }
  }
}
