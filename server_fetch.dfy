/** The upstream fetch client (src/util/serverFetch.ts): a cache-aside GET. A URL
    already in the process cache is answered from it with a shallow copy; any
    other URL is requested from upstream and a successful body is cached under
    that exact URL. Every upstream failure becomes the same 500 error. */
module ServerFetch {
  import opened Common
  import opened JsValue
  import opened ProcessCache

  /** What upstream answers: the parsed JSON body for each URL that responds
      with a success status and a readable body. A URL outside the map stands
      for a non-success status, a transport failure or an unreadable body. */
  type Network = map<string, Value>

  /** The single error every upstream failure is reported as. */
  const FetchFailed: Error := HttpError("something went wrong.", 500)

  /** The answer of a fetch whose cache agrees with upstream and whose body is
      a plain object (a shallow copy of it is then equal to it); the resolver
      is written over this function. */
  function Fetch(net: Network, url: string): (r: Result<Value>)
    ensures r.Ok? <==> url in net
    ensures r.Err? ==> r.error == FetchFailed
  {
    if url in net then Ok(net[url]) else Err(FetchFailed)
  }

  /** Every cached entry is the body upstream answers for its URL. */
  ghost predicate Agrees(entries: map<string, Value>, net: Network) {
    forall k | k in entries :: k in net && entries[k] == net[k]
  }

  /** The network, seen from the fetch client: a fixed answer per URL and a log
      of the requests sent to it. */
  class Upstream {
    const responses: Network
    ghost var requested: seq<string>

    constructor(responses: Network)
      ensures this.responses == responses && requested == []
    {
      this.responses := responses;
      requested := [];
    }

    /** `fetch(url)` followed by `response.json()`: `ok` is false when either fails. */
    method Request(url: string) returns (ok: bool, body: Value)
      modifies this
      ensures requested == old(requested) + [url]
      ensures ok == (url in responses)
      ensures ok ==> body == responses[url]
    {
      requested := requested + [url];
      ok := url in responses;
      body := if ok then responses[url] else Undefined;
    }
  }

  /** `serverFetch(url)`. */
  method ServerFetch(cache: Cache, upstream: Upstream, url: string) returns (r: Result<Value>)
    modifies cache, upstream
    // a hit: no request, a shallow copy of the cached value, the cache untouched
    ensures old(cache.Has(url)) ==>
              && r == Ok(ShallowCopy(old(cache.Get(url))))
              && upstream.requested == old(upstream.requested)
              && cache.entries == old(cache.entries)
    // a miss: exactly one request, for this URL
    ensures !old(cache.Has(url)) ==> upstream.requested == old(upstream.requested) + [url]
    ensures !old(cache.Has(url)) && url in upstream.responses ==>
              && r == Ok(upstream.responses[url])
              && cache.entries == old(cache.entries)[url := upstream.responses[url]]
    ensures !old(cache.Has(url)) && url !in upstream.responses ==>
              && r == Err(FetchFailed)
              && cache.entries == old(cache.entries)
    // only the entry for this URL can change
    ensures forall k | k != url :: cache.Has(k) == old(cache.Has(k)) && cache.Get(k) == old(cache.Get(k))
    // a cache that agrees with upstream keeps agreeing, and is transparent for object bodies
    ensures Agrees(old(cache.entries), upstream.responses) ==>
              && Agrees(cache.entries, upstream.responses)
              && (r.Ok? <==> url in upstream.responses)
              && (url in upstream.responses && upstream.responses[url].Obj? ==>
                    r == Fetch(upstream.responses, url))
  {
    if cache.Has(url) {
      r := Ok(ShallowCopy(cache.Get(url)));
      return;
    }
    var ok, data := upstream.Request(url);
    if !ok {
      r := Err(FetchFailed);
      return;
    }
    cache.Set(url, data, 0);
    r := Ok(data);
  }

  /** The same URL fetched twice: the second answer comes from the cache when
      the first succeeded, so at most one request goes out and both answers are
      structurally equal (up to the shallow copy, which changes nothing for an
      object body). */
  method FetchTwice(cache: Cache, upstream: Upstream, url: string)
      returns (first: Result<Value>, second: Result<Value>)
    modifies cache, upstream
    ensures first.Ok? ==> second == Ok(ShallowCopy(first.value))
    ensures first.Ok? && first.value.Obj? ==> second == first
    ensures first.Ok? ==>
              upstream.requested == old(upstream.requested) + (if old(cache.Has(url)) then [] else [url])
  {
    first := ServerFetch(cache, upstream, url);
    second := ServerFetch(cache, upstream, url);
    if first.Ok? {
      ShallowCopyIdempotent(old(cache.Get(url)));
    }
  }
}
