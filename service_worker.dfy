/** The site's service worker: which fetches it answers, the stale-while-revalidate answer
    with its background cache write, the clean-up on activation and the pre-cache on
    install. The browser's CacheStorage is a class over maps, and the outcome of each
    network fetch is an input. */
module ServiceWorker {
  import opened Wrappers
  import JsText

  const CACHE_NAME: string := "drive-in-tokyo-v1"

  /** The CDN that serves Bootstrap. */
  const JSDELIVR: string := "https://cdn.jsdelivr.net"

  /** The page shell pre-cached on install, in the order given to `cache.addAll`. */
  const CORE_ASSETS: seq<string> := [
    "/",
    "/index.html",
    "/css/styles.css",
    "/js/carousel.js",
    JSDELIVR + "/npm/bootstrap@5.3.2/dist/css/bootstrap.min.css",
    JSDELIVR + "/npm/bootstrap@5.3.2/dist/js/bootstrap.bundle.min.js"
  ]

  /** The parts of `new URL(req.url)` the worker reads. */
  datatype Url = Url(href: string, origin: string, hostname: string)
  /** `verb` is `req.method`. */
  datatype Request = Request(verb: string, url: Url, destination: string)
  datatype Response = Response(status: int, body: string)

  /** What `fetch(req)` does: it resolves with a response (of any HTTP status) or rejects. */
  datatype NetOutcome = Delivered(response: Response) | NetworkError

  /** Whether the handler calls `event.respondWith`, and with what the promise resolves;
      `None` is the `undefined` that a failed fetch with no cached entry resolves to. */
  datatype FetchResult = FallThrough | Responded(answer: Option<Response>)

  /** One cache: the stored response per request URL. */
  type Store = map<string, Response>

  predicate AllowedCdn(hostname: string) {
    JsText.Includes(hostname, "cdn.jsdelivr.net") || JsText.Includes(hostname, "cdnjs.cloudflare.com")
  }

  predicate CustomDestination(destination: string) {
    destination == "image" || destination == "style" || destination == "script"
  }

  /** The fetch handler's early returns, in order: not a GET, a foreign origin that is not
      an allow-listed CDN, a destination other than image, style or script. */
  function Handles(req: Request, workerOrigin: string): (b: bool)
    ensures b ==> req.verb == "GET"
    ensures b ==> req.url.origin == workerOrigin || AllowedCdn(req.url.hostname)
    ensures b ==> req.destination in {"image", "style", "script"}
    ensures req.verb == "GET" && req.url.origin == workerOrigin && CustomDestination(req.destination) ==> b
    ensures req.verb == "GET" && AllowedCdn(req.url.hostname) && CustomDestination(req.destination) ==> b
  {
    if req.verb != "GET" then false
    else if req.url.origin != workerOrigin && !AllowedCdn(req.url.hostname) then false
    else CustomDestination(req.destination)
  }

  /** The value `fetchPromise` resolves to: the network response, or on a network error
      the cached value again. */
  function Revalidated(cached: Option<Response>, net: NetOutcome): Option<Response> {
    match net
    case Delivered(res) => Some(res)
    case NetworkError => cached
  }

  /** `cached || fetchPromise`: a cached response wins whatever the network does. */
  function Answer(cached: Option<Response>, net: NetOutcome): (r: Option<Response>)
    ensures cached.Some? ==> r == cached
    ensures cached.None? && net.Delivered? ==> r == Some(net.response)
    ensures cached.None? && net.NetworkError? ==> r == None
  {
    if cached.Some? then cached else Revalidated(cached, net)
  }

  /** The cache called `name` exists and has an entry for `key`. */
  predicate Holds(stores: map<string, Store>, name: string, key: string) {
    name in stores && key in stores[name]
  }

  /** `caches.match`: the entry of the first cache, in creation order, that has one. */
  function MatchIn(names: seq<string>, stores: map<string, Store>, key: string): (r: Option<Response>)
    ensures r.Some? ==> exists n :: n in names && n in stores && key in stores[n] && r.value == stores[n][key]
    ensures r.None? ==> forall n :: n in names && n in stores ==> key !in stores[n]
    ensures r.Some? ==>
      exists i :: 0 <= i < |names| && Holds(stores, names[i], key) && r.value == stores[names[i]][key] &&
        forall j :: 0 <= j < i ==> !Holds(stores, names[j], key)
  {
    if names == [] then None
    else if names[0] in stores && key in stores[names[0]] then Some(stores[names[0]][key])
    else MatchIn(names[1..], stores, key)
  }

  /** The cache names after `caches.open(name)`: a new cache is added last. */
  function Opened(names: seq<string>, name: string): (r: seq<string>)
    ensures |names| <= |r| <= |names| + 1 && r[..|names|] == names
    ensures forall k :: k in r <==> k in names || k == name
  {
    if name in names then names else names + [name]
  }

  function StoreOf(stores: map<string, Store>, name: string): Store {
    if name in stores then stores[name] else map[]
  }

  /** The caches after `caches.open(name).then(cache => cache.put(key, res))`. */
  function PutEntry(stores: map<string, Store>, name: string, key: string, res: Response): (r: map<string, Store>)
    ensures r.Keys == stores.Keys + {name}
    ensures key in r[name] && r[name][key] == res
    ensures r[name].Keys == StoreOf(stores, name).Keys + {key}
    ensures forall k :: k in StoreOf(stores, name) && k != key ==> k in r[name] && r[name][k] == StoreOf(stores, name)[k]
    ensures forall n :: n in stores && n != name ==> r[n] == stores[n]
  {
    stores[name := StoreOf(stores, name)[key := res]]
  }

  /** `keys.filter(k => k !== CACHE_NAME)`: the caches activation deletes. */
  function StaleNames(keys: seq<string>): (r: seq<string>)
    ensures forall k :: k in r <==> k in keys && k != CACHE_NAME
    ensures |r| <= |keys|
  {
    if keys == [] then []
    else (if keys[0] != CACHE_NAME then [keys[0]] else []) + StaleNames(keys[1..])
  }

  predicate Distinct(s: seq<string>) {
    forall i, j :: 0 <= i < j < |s| ==> s[i] != s[j]
  }

  lemma DistinctAppend(s: seq<string>, x: string)
    requires Distinct(s) && x !in s
    ensures Distinct(s + [x])
  {
    forall i, j | 0 <= i < j < |s| + 1
      ensures (s + [x])[i] != (s + [x])[j]
    {
      if j == |s| {
        assert s[i] in s;
      }
    }
  }

  /** `names` without `name`. */
  function Without(names: seq<string>, name: string): (r: seq<string>)
    ensures forall k :: k in r <==> k in names && k != name
    ensures Distinct(names) ==> Distinct(r)
  {
    if names == [] then []
    else
      var rest := Without(names[1..], name);
      if names[0] == name then rest
      else
        assert Distinct(names) ==> names[0] !in names[1..];
        [names[0]] + rest
  }

  /** An install fetch is usable by `addAll` only if it delivered a 2xx response. */
  predicate AddAllAccepts(net: NetOutcome) {
    net.Delivered? && 200 <= net.response.status <= 299
  }

  /** The request URL of a core asset: a path is resolved against the worker's origin. */
  function AssetUrl(origin: string, asset: string): string {
    if |asset| > 0 && asset[0] == '/' then origin + asset else asset
  }

  function AssetUrls(origin: string): (r: seq<string>)
    ensures |r| == |CORE_ASSETS|
    ensures forall i :: 0 <= i < |r| ==> r[i] == AssetUrl(origin, CORE_ASSETS[i])
    ensures forall i :: 0 <= i < 4 ==> r[i] == origin + CORE_ASSETS[i]
    ensures r[4..] == CORE_ASSETS[4..]
  {
    var r := seq(|CORE_ASSETS|, i requires 0 <= i < |CORE_ASSETS| => AssetUrl(origin, CORE_ASSETS[i]));
    assert forall i :: 0 <= i < 4 ==> CORE_ASSETS[i][0] == '/';
    assert CORE_ASSETS[4][0] == JSDELIVR[0] == CORE_ASSETS[5][0] != '/';
    r
  }

  /** The cache after a successful `cache.addAll(urls)`: every URL holds what was fetched
      for it, and nothing else changes. */
  function AddAll(store: Store, urls: seq<string>, fetch: string -> NetOutcome): (r: Store)
    requires forall u :: u in urls ==> fetch(u).Delivered?
    ensures forall u :: u in urls ==> u in r && r[u] == fetch(u).response
    ensures forall k :: k !in urls ==> (k in r <==> k in store) && (k in store ==> r[k] == store[k])
  {
    if urls == [] then store
    else AddAll(store, urls[..|urls| - 1], fetch)[urls[|urls| - 1] := fetch(urls[|urls| - 1]).response]
  }

  lemma DistinctHeads(s: seq<string>)
    requires Distinct(s) && |s| >= 2
    ensures s[0] != s[1]
  {
  }

  /** A distinct sequence whose only possible element is `x` is `[x]` or empty. */
  lemma DistinctAtMostOne(s: seq<string>, x: string)
    requires Distinct(s)
    requires forall i :: 0 <= i < |s| ==> s[i] == x
    ensures s == if x in s then [x] else []
  {
    if |s| >= 2 {
      DistinctHeads(s);
      assert false;
    } else if |s| == 1 {
      assert s == [x];
    }
  }

  /** After every stale name is deleted, at most the current cache is left, with its
      contents untouched. */
  lemma OnlyCurrentRemains(names: seq<string>, stores: map<string, Store>, keys: seq<string>,
                           stale: seq<string>, before: map<string, Store>)
    requires Distinct(names) && forall n :: n in stores <==> n in names
    requires forall n :: n in before <==> n in keys
    requires forall k :: k in stale <==> k in keys && k != CACHE_NAME
    requires forall n :: n in names <==> n in keys && n !in stale
    requires forall n :: n in stores ==> stores[n] == before[n]
    ensures names == if CACHE_NAME in keys then [CACHE_NAME] else []
    ensures stores == if CACHE_NAME in before then map[CACHE_NAME := before[CACHE_NAME]] else map[]
  {
    assert forall i :: 0 <= i < |names| ==> names[i] in names;
    DistinctAtMostOne(names, CACHE_NAME);
    if CACHE_NAME in before {
      assert stores.Keys == {CACHE_NAME};
    } else {
      assert stores.Keys == {};
    }
  }

  /** Once the latest cache is the only one holding a URL, the entry a successful
      revalidation writes is what the next `caches.match` for that URL returns. */
  lemma {:induction false} RevalidatedEntryMatchesNext(names: seq<string>, stores: map<string, Store>, key: string, res: Response)
    requires forall n :: n in names && n != CACHE_NAME && n in stores ==> key !in stores[n]
    ensures MatchIn(Opened(names, CACHE_NAME), PutEntry(stores, CACHE_NAME, key, res), key) == Some(res)
  {
    var after := PutEntry(stores, CACHE_NAME, key, res);
    if names == [] {
      assert Opened(names, CACHE_NAME) == [CACHE_NAME];
    } else if names[0] != CACHE_NAME {
      RevalidatedEntryMatchesNext(names[1..], stores, key, res);
      assert Opened(names, CACHE_NAME) == [names[0]] + Opened(names[1..], CACHE_NAME);
      assert Opened(names, CACHE_NAME)[1..] == Opened(names[1..], CACHE_NAME);
      assert !(names[0] in after && key in after[names[0]]);
    }
  }

  /** The browser's CacheStorage for this origin. */
  class CacheStorage {
    /** `caches.keys()`, in creation order. */
    var names: seq<string>
    var stores: map<string, Store>

    ghost predicate Valid()
      reads this
    {
      Distinct(names) &&
      (forall n :: n in stores <==> n in names)
    }

    constructor ()
      ensures Valid() && names == [] && stores == map[]
    {
      names := [];
      stores := map[];
    }

    function Match(key: string): Option<Response>
      reads this
    {
      MatchIn(names, stores, key)
    }

    /** `caches.open(name).then(cache => cache.put(key, res))` */
    method Put(name: string, key: string, res: Response)
      requires Valid()
      modifies this
      ensures Valid()
      ensures names == Opened(old(names), name)
      ensures stores == PutEntry(old(stores), name, key, res)
    {
      if name !in names {
        DistinctAppend(names, name);
        names := names + [name];
      }
      stores := PutEntry(stores, name, key, res);
    }

    /** `caches.delete(name)` */
    method Delete(name: string) returns (existed: bool)
      requires Valid()
      modifies this
      ensures Valid()
      ensures existed == (name in old(names))
      ensures names == Without(old(names), name)
      ensures stores == old(stores) - {name}
    {
      existed := name in names;
      names := Without(names, name);
      stores := stores - {name};
    }

    /** The `activate` handler: every cache whose name is not CACHE_NAME is deleted. */
    method Activate()
      requires Valid()
      modifies this
      ensures Valid()
      ensures names == if CACHE_NAME in old(names) then [CACHE_NAME] else []
      ensures stores == if CACHE_NAME in old(stores) then map[CACHE_NAME := old(stores)[CACHE_NAME]] else map[]
    {
      var keys := names;
      var stale := StaleNames(keys);
      for i := 0 to |stale|
        invariant Valid()
        invariant forall n :: n in names <==> n in keys && n !in stale[..i]
        invariant forall n :: n in stores <==> n in keys && n !in stale[..i]
        invariant forall n :: n in stores ==> stores[n] == old(stores)[n]
      {
        var _ := Delete(stale[i]);
        assert stale[..i + 1] == stale[..i] + [stale[i]];
      }
      assert stale[..|stale|] == stale;
      OnlyCurrentRemains(names, stores, keys, stale, old(stores));
    }

    /** The `install` handler: `caches.open(CACHE_NAME)` and then `cache.addAll` of the core
        assets, which stores all of them or, if any fetch fails or is not a 2xx response,
        none. */
    method Install(origin: string, fetch: string -> NetOutcome) returns (ok: bool)
      requires Valid()
      modifies this
      ensures Valid()
      ensures ok <==> forall u :: u in AssetUrls(origin) ==> AddAllAccepts(fetch(u))
      ensures names == Opened(old(names), CACHE_NAME)
      ensures stores == old(stores)[CACHE_NAME :=
        if ok then AddAll(StoreOf(old(stores), CACHE_NAME), AssetUrls(origin), fetch)
        else StoreOf(old(stores), CACHE_NAME)]
    {
      if CACHE_NAME !in names {
        DistinctAppend(names, CACHE_NAME);
        names := names + [CACHE_NAME];
      }
      var cache := StoreOf(stores, CACHE_NAME);
      var urls := AssetUrls(origin);
      ok := forall u :: u in urls ==> AddAllAccepts(fetch(u));
      if ok {
        cache := AddAll(cache, urls, fetch);
      }
      stores := stores[CACHE_NAME := cache];
    }

    /** The `fetch` handler. The cached entry is looked up first; the network fetch is
        issued even when there is one, and on success its response is stored under the
        request's URL in CACHE_NAME. */
    method HandleFetch(req: Request, workerOrigin: string, net: NetOutcome) returns (result: FetchResult)
      requires Valid()
      modifies this
      ensures Valid()
      ensures result.FallThrough? <==> !Handles(req, workerOrigin)
      ensures result.FallThrough? ==> names == old(names) && stores == old(stores)
      ensures result.Responded? ==> result.answer == Answer(old(Match(req.url.href)), net)
      ensures result.Responded? && net.Delivered? ==>
        names == Opened(old(names), CACHE_NAME) &&
        stores == PutEntry(old(stores), CACHE_NAME, req.url.href, net.response)
      ensures net.NetworkError? ==> names == old(names) && stores == old(stores)
    {
      if !Handles(req, workerOrigin) {
        return FallThrough;
      }
      var cached := Match(req.url.href);
      var fetched: Option<Response>;
      match net {
        case Delivered(res) =>
          Put(CACHE_NAME, req.url.href, res);
          fetched := Some(res);
        case NetworkError =>
          fetched := cached;
      }
      result := Responded(if cached.Some? then cached else fetched);
    }
  }
}
