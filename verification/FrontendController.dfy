/** The frontend reconciler: a Service and an EndpointSlice per ported frontend,
    the slice being the image of the cache entry. */
module FrontendController {
  import opened Common
  import opened Api
  import Cache = HealthCache

  datatype SliceEndpoint = SliceEndpoint(address: string, ready: bool, nodeName: string)

  datatype Slice = Slice(endpoints: seq<SliceEndpoint>, port: int32)

  datatype Service = Service(port: int32, targetPort: int32)

  function Project(ep: Cache.Endpoint): (r: SliceEndpoint) {
    SliceEndpoint(ep.ipAddress, ep.healthy, ep.nodeName)
  }

  /** The pointwise image of an endpoint list. */
  function Image(eps: seq<Cache.Endpoint>): (r: seq<SliceEndpoint>)
    ensures |r| == |eps|
    ensures forall i :: 0 <= i < |eps| ==> r[i] == Project(eps[i])
  {
    seq(|eps|, i requires 0 <= i < |eps| => Project(eps[i]))
  }

  function SliceOf(eps: seq<Cache.Endpoint>, port: int32): (r: Slice) {
    Slice(Image(eps), port)
  }

  /** Endpoint by endpoint: address, readiness and node are those of the entry. */
  lemma SliceFields(eps: seq<Cache.Endpoint>, port: int32, i: nat)
    requires i < |eps|
    ensures |SliceOf(eps, port).endpoints| == |eps| && SliceOf(eps, port).port == port
    ensures var e := SliceOf(eps, port).endpoints[i];
      e.address == eps[i].ipAddress && e.ready == eps[i].healthy && e.nodeName == eps[i].nodeName
  {
  }

  /** A slice determines the health states it was made from, in order. */
  lemma SliceDeterminesHealth(a: seq<Cache.Endpoint>, b: seq<Cache.Endpoint>, p: int32, q: int32)
    ensures SliceOf(a, p) == SliceOf(b, q) <==> a == b && p == q
  {
  }

  /** The slice has the port and shows each entry, in order, with its fields. */
  predicate ShowsEntry(slice: Slice, eps: seq<Cache.Endpoint>, port: int32) {
    && slice.port == port && |slice.endpoints| == |eps|
    && forall i :: 0 <= i < |eps| ==>
         && slice.endpoints[i].address == eps[i].ipAddress
         && slice.endpoints[i].ready == eps[i].healthy
         && slice.endpoints[i].nodeName == eps[i].nodeName
  }

  lemma SliceShowsEntry(eps: seq<Cache.Endpoint>, port: int32)
    ensures ShowsEntry(SliceOf(eps, port), eps, port)
  {
    forall i | 0 <= i < |eps| ensures SliceOf(eps, port).endpoints[i].nodeName == eps[i].nodeName {
      SliceFields(eps, port, i);
    }
  }

  /** How fetching the Frontend went. */
  datatype Fetch = NotFound | Failed | Found(frontend: Frontend)

  /** There is a frontend with a port to work on. */
  predicate Proceeds(fetch: Fetch) {
    fetch.Found? && fetch.frontend.port.Some?
  }

  /** A reconcile is retried after a failed fetch or a failed write. */
  predicate Requeues(fetch: Fetch, serviceOk: bool, sliceOk: bool) {
    fetch.Failed? || (Proceeds(fetch) && !(serviceOk && sliceOk))
  }

  /** Only a reconcile that succeeds throughout writes the slice. */
  function SlicesAfter(
    slices: map<Key, Slice>, req: Key, entry: seq<Cache.Endpoint>, fetch: Fetch, serviceOk: bool, sliceOk: bool)
    : (r: map<Key, Slice>)
  {
    if Proceeds(fetch) && serviceOk && sliceOk then slices[req := SliceOf(entry, fetch.frontend.port.value)] else slices
  }

  class FrontendReconciler {
    const cache: Cache.HealthCache
    var services: map<Key, Service>
    var slices: map<Key, Slice>

    constructor (cache: Cache.HealthCache)
      ensures this.cache == cache && services == map[] && slices == map[]
    {
      this.cache := cache;
      services := map[];
      slices := map[];
    }

    /** `requeue` is the error return: the request is retried. */
    method Reconcile(req: Key, fetch: Fetch, serviceOk: bool, sliceOk: bool) returns (requeue: bool)
      modifies this
      ensures requeue <==> Requeues(fetch, serviceOk, sliceOk)
      ensures services == if Proceeds(fetch) && serviceOk
        then old(services)[req := Service(fetch.frontend.servicePort, fetch.frontend.port.value)] else old(services)
      ensures slices == SlicesAfter(old(slices), req, Cache.Entry(cache.endpoints, req), fetch, serviceOk, sliceOk)
      ensures fetch.NotFound? ==> !requeue && services == old(services) && slices == old(slices)
      ensures fetch.Failed? ==> requeue && services == old(services) && slices == old(slices)
      ensures fetch.Found? && fetch.frontend.port.None? ==> !requeue && services == old(services) && slices == old(slices)
      ensures fetch.Found? && fetch.frontend.port.Some? ==> (requeue <==> !serviceOk || !sliceOk)
      ensures fetch.Found? && fetch.frontend.port.Some? && !requeue ==>
        req in slices && ShowsEntry(slices[req], Cache.Entry(cache.endpoints, req), fetch.frontend.port.value)
    {
      match fetch
      case NotFound => return false;
      case Failed => return true;
      case Found(frontend) => requeue := ReconcileService(req, frontend, serviceOk, sliceOk);
    }

    method ReconcileService(req: Key, frontend: Frontend, serviceOk: bool, sliceOk: bool) returns (failed: bool)
      modifies this
      ensures failed <==> frontend.port.Some? && !(serviceOk && sliceOk)
      ensures services == if frontend.port.Some? && serviceOk
        then old(services)[req := Service(frontend.servicePort, frontend.port.value)] else old(services)
      ensures slices == if frontend.port.Some? && serviceOk && sliceOk
        then old(slices)[req := SliceOf(Cache.Entry(cache.endpoints, req), frontend.port.value)] else old(slices)
    {
      if frontend.port.None? {
        return false;
      }
      if !serviceOk {
        return true;
      }
      services := services[req := Service(frontend.servicePort, frontend.port.value)];
      var endpointHealth := cache.Get(req);
      var endpoints: seq<SliceEndpoint> := [];
      for i := 0 to |endpointHealth|
        invariant endpoints == Image(endpointHealth)[..i]
        invariant slices == old(slices)
      {
        var ep := endpointHealth[i];
        endpoints := endpoints + [SliceEndpoint(ep.ipAddress, ep.healthy, ep.nodeName)];
      }
      assert endpoints == Image(endpointHealth);
      if !sliceOk {
        return true;
      }
      slices := slices[req := Slice(endpoints, frontend.port.value)];
      return false;
    }
  }
}
