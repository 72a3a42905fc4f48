/** The shared response cache and the handler that NewCacheMiddleware returns. */
module ResponseCaches {
  import opened Wrappers
  import opened Headers
  import opened Recorders
  import opened ResponseRecorders
  import opened Caches

  // The store of github.com/patrickmn/go-cache, as far as cache.go uses it.
  class ResponseCache {
    var items: Store

    constructor ()
      ensures items == map[]
    {
      items := map[];
    }

    method Find(url: string, now: int) returns (response: Option<Response>)
      ensures response == Lookup(items, url, now)
    {
      if url in items && now <= items[url].expiration {
        return Some(items[url].response);
      }
      return None;
    }

    method Put(url: string, response: Response, now: int, ttl: int)
      requires ttl > 0
      modifies this
      ensures items == old(items)[url := Entry(response, now + ttl)]
    {
      items := items[url := Entry(response, now + ttl)];
    }

    method DeleteExpired(now: int)
      modifies this
      ensures items == Clean(old(items), now)
    {
      items := map url | url in items && now <= items[url].expiration :: items[url];
    }
  }

  // What a writer holds after response has been forwarded to it; ok is false when that panics.
  ghost predicate Sent(response: Response, before: Recorder, after: Recorder, sniff: Sniffer, ok: bool) {
    var forwarded := Forward(response, before, sniff);
    ok == forwarded.Some? && (ok ==> after == forwarded.value)
  }

  // A stored response is sent the way a recorder forwards its own.
  method Replay(response: Response, w: ResponseRecorder) returns (ok: bool)
    modifies w
    ensures Sent(response, old(w.Abstract()), w.Abstract(), w.sniff, ok)
  {
    SetFirstValues(response.header, w);
    ok := w.WriteHeader(response.status);
    if ok {
      w.Write(response.body);
    }
  }

  // The lifetime of the response that the wrapped handler has left in rc.
  method LifetimeOf(rc: ResponseRecorder, now: int, parse: ExpiresParser) returns (ttl: int)
    ensures ttl == StoreTtl(rc.Abstract(), now, parse)
  {
    var cacheControl := Get(rc.headerMap, "Cache-Control");
    var maxAge := GetCacheMaxAge(cacheControl);
    var expires := parse(Get(rc.headerMap, "Expires"));
    ttl := Ttl(maxAge, expires, now);
  }

  // The end of a miss: keep the response for ttl if that is positive, and send it.
  method StoreAndRelay(cache: ResponseCache, url: string, now: int, ttl: int, rc: ResponseRecorder, w: ResponseRecorder)
    returns (ok: bool)
    requires rc != w && rc.result == None
    modifies cache, rc, w
    ensures var response := ResultOf(old(rc.Abstract()));
            && cache.items == Keep(old(cache.items), url, response, now, ttl)
            && Sent(response, old(w.Abstract()), w.Abstract(), w.sniff, ok)
  {
    if ttl > 0 {
      var response := rc.Result();
      cache.Put(url, response, now, ttl);
    }
    ok := rc.WriteTo(w);
  }

  // One request. rc is the recorder as the wrapped handler leaves it if it is called, parse reads
  // an Expires header, w is the client's writer, whatever it holds already. ok is false when
  // forwarding panics.
  method ServeHTTP(cache: ResponseCache, url: string, now: int, parse: ExpiresParser,
                   rc: ResponseRecorder, w: ResponseRecorder)
    returns (ok: bool)
    requires rc != w && rc.result == None
    modifies cache, rc, w
    ensures cache.items ==
            Advance(old(cache.items), Client(Request(url, now, old(rc.Abstract()))), ByHeaders(parse))
    ensures var chosen := Chosen(old(cache.items), Request(url, now, old(rc.Abstract())));
            Sent(chosen, old(w.Abstract()), w.Abstract(), w.sniff, ok)
  {
    var cachedResponse := cache.Find(url, now);
    if cachedResponse.Some? {
      ok := Replay(cachedResponse.value, w);
      return;
    }
    var lifetime := LifetimeOf(rc, now, parse);
    ok := StoreAndRelay(cache, url, now, lifetime, rc, w);
  }
}
