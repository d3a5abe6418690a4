/** Publishing: a cache update followed, if the list changed, by an event that is
    dropped when nobody is ready to receive it. */
module HealthManager {
  import opened Common
  import opened Api
  import Cache = HealthCache

  class HealthManager {
    const cache: Cache.HealthCache
    /** The frontends named by the events that a receiver took, oldest first. */
    var delivered: seq<Key>

    constructor (cache: Cache.HealthCache)
      ensures this.cache == cache && delivered == []
    {
      this.cache := cache;
      delivered := [];
    }

    /** `ready` says whether a receiver waits on the unbuffered channel. */
    method Update(frontend: Key, endpoints: seq<Cache.Endpoint>, ready: bool)
      modifies this, cache
      ensures cache.endpoints == Cache.Updated(old(cache.endpoints), frontend, endpoints)
      ensures delivered == old(delivered)
        + if Cache.Signals(old(cache.endpoints), frontend, endpoints) && ready then [frontend] else []
    {
      var changed := cache.Update(frontend, endpoints);
      if !changed {
        return;
      }
      if ready {
        delivered := delivered + [frontend];
      }
    }
  }
}
