/**
 * The `resources` closure (veld.js:70-130): an image cache keyed by URL, the
 * list of callbacks to run on readiness, and the operations `load`, `_load`,
 * `get`, `isReady`, `onReady` and the `onload` handler that `_load` installs on
 * every image it creates. Fetching is asynchronous: `_load` only issues a fetch
 * and the host later delivers that image's `onload`.
 */
module Resources {
  import opened Wrappers

  /** A loaded image, identified by the URL it was fetched from. */
  datatype Image = Image(src: string)

  /** `resourceCache[url]`: `false` while the fetch is outstanding, the image once loaded. */
  datatype Slot = Pending | Loaded(image: Image)

  /** The argument of `load`: one URL or an array of URLs. */
  datatype UrlOrArray = Url(url: string) | UrlArray(urls: seq<string>)

  function Urls(arg: UrlOrArray): seq<string>
  {
    match arg
    case Url(url) => [url]
    case UrlArray(urls) => urls
  }

  /** `resourceCache[url]` is truthy: it holds an image. */
  predicate IsLoaded(cache: map<string, Slot>, url: string)
  {
    url in cache && cache[url].Loaded?
  }

  /** What `isReady` computes: no cached URL is still Pending. */
  predicate AllLoaded(cache: map<string, Slot>)
  {
    forall u :: u in cache ==> cache[u].Loaded?
  }

  /** The cache after `_load(url)` (veld.js:87-103). */
  function AfterLoadUrl(cache: map<string, Slot>, url: string): (c: map<string, Slot>)
    ensures c.Keys == cache.Keys + {url}
    ensures IsLoaded(cache, url) ==> c == cache
    ensures !IsLoaded(cache, url) ==> c[url] == Pending
    ensures forall u :: u in cache && u != url ==> c[u] == cache[u]
  {
    if IsLoaded(cache, url) then cache else cache[url := Pending]
  }

  /** The cache after `_load` has been applied to each of `urls` in turn. */
  function AfterLoadUrls(cache: map<string, Slot>, urls: seq<string>): map<string, Slot>
  {
    if urls == [] then cache
    else AfterLoadUrl(AfterLoadUrls(cache, urls[..|urls| - 1]), urls[|urls| - 1])
  }

  /** The URLs, in order, for which those `_load` calls created an image and issued a fetch. */
  function Fetches(cache: map<string, Slot>, urls: seq<string>): seq<string>
  {
    if urls == [] then []
    else
      var n := |urls| - 1;
      Fetches(cache, urls[..n]) + (if IsLoaded(AfterLoadUrls(cache, urls[..n]), urls[n]) then [] else [urls[n]])
  }

  /** `s` with its first occurrence of `x` taken out. */
  function RemoveOne<T(==)>(s: seq<T>, x: T): (r: seq<T>)
    ensures multiset(r) == multiset(s) - multiset{x}
  {
    if s == [] then []
    else
      assert s == [s[0]] + s[1..];
      if s[0] == x then s[1..] else [s[0]] + RemoveOne(s[1..], x)
  }

  /** Loading leaves Loaded URLs alone, makes every other requested URL Pending,
      and touches nothing else. */
  lemma AfterLoadUrlsEffect(cache: map<string, Slot>, urls: seq<string>)
    ensures AfterLoadUrls(cache, urls).Keys == cache.Keys + set u | u in urls
    ensures forall u :: IsLoaded(cache, u) ==> AfterLoadUrls(cache, urls)[u] == cache[u]
    ensures forall u :: u in urls && !IsLoaded(cache, u) ==> AfterLoadUrls(cache, urls)[u] == Pending
    ensures forall u :: u in cache && u !in urls ==> AfterLoadUrls(cache, urls)[u] == cache[u]
  {
    AfterLoadUrlsKeys(cache, urls);
    forall u ensures IsLoaded(cache, u) || u in urls || u in cache ==> AfterLoadUrlsAt(cache, urls, u) {
      AfterLoadUrlsValue(cache, urls, u);
    }
  }

  lemma {:induction false} AfterLoadUrlsKeys(cache: map<string, Slot>, urls: seq<string>)
    ensures AfterLoadUrls(cache, urls).Keys == cache.Keys + set u | u in urls
  {
    if urls != [] {
      var n := |urls| - 1;
      AfterLoadUrlsKeys(cache, urls[..n]);
      assert urls == urls[..n] + [urls[n]];
      assert (set u | u in urls) == (set u | u in urls[..n]) + {urls[n]};
    }
  }

  /** The entry of `u` after loading `urls`, as AfterLoadUrlsEffect describes it. */
  ghost predicate AfterLoadUrlsAt(cache: map<string, Slot>, urls: seq<string>, u: string)
  {
    var c := AfterLoadUrls(cache, urls);
    (IsLoaded(cache, u) ==> u in c && c[u] == cache[u]) &&
    (u in urls && !IsLoaded(cache, u) ==> u in c && c[u] == Pending) &&
    (u in cache && u !in urls ==> u in c && c[u] == cache[u])
  }

  lemma {:induction false} AfterLoadUrlsValue(cache: map<string, Slot>, urls: seq<string>, u: string)
    ensures AfterLoadUrlsAt(cache, urls, u)
  {
    if urls != [] {
      var n := |urls| - 1;
      AfterLoadUrlsValue(cache, urls[..n], u);
      AfterLoadUrlsKeys(cache, urls[..n]);
      assert urls == urls[..n] + [urls[n]];
      if u != urls[n] && u in urls {
        assert u in urls[..n];
      }
    }
  }

  /** `load` is idempotent: loading the same URLs again changes nothing. */
  lemma LoadIdempotent(cache: map<string, Slot>, urls: seq<string>)
    ensures AfterLoadUrls(AfterLoadUrls(cache, urls), urls) == AfterLoadUrls(cache, urls)
  {
    var c := AfterLoadUrls(cache, urls);
    AfterLoadUrlsEffect(cache, urls);
    AfterLoadUrlsEffect(c, urls);
    var d := AfterLoadUrls(c, urls);
    assert d.Keys == c.Keys;
    forall u | u in d ensures d[u] == c[u] {
      if !IsLoaded(cache, u) && u in urls {
        assert c[u] == Pending;
      }
    }
  }

  /** A fetch is issued exactly for the requested URLs that were not already loaded. */
  lemma {:induction false} FetchesExactly(cache: map<string, Slot>, urls: seq<string>)
    ensures forall u :: u in Fetches(cache, urls) <==> u in urls && !IsLoaded(cache, u)
  {
    if urls != [] {
      var n := |urls| - 1;
      var front := urls[..n];
      FetchesExactly(cache, front);
      AfterLoadUrlsEffect(cache, front);
      assert urls == front + [urls[n]];
      var c := AfterLoadUrls(cache, front);
      assert IsLoaded(c, urls[n]) <==> IsLoaded(cache, urls[n]) by {
        if urls[n] in front {
          if !IsLoaded(cache, urls[n]) { assert c[urls[n]] == Pending; }
        } else if urls[n] in cache {
          assert c[urls[n]] == cache[urls[n]];
        }
      }
    }
  }

  /** Requesting a URL that is not loaded blocks readiness until its `onload`. */
  lemma LoadBlocksReadiness(cache: map<string, Slot>, urls: seq<string>, url: string)
    requires url in urls && !IsLoaded(cache, url)
    ensures !AllLoaded(AfterLoadUrls(cache, urls))
  {
    AfterLoadUrlsEffect(cache, urls);
  }

  /** After `onload` for `url`, readiness holds iff every other URL was already loaded. */
  lemma ReadyAfterOnLoad(cache: map<string, Slot>, url: string)
    ensures AllLoaded(cache[url := Loaded(Image(url))]) <==>
            forall u :: u in cache && u != url ==> cache[u].Loaded?
  {
    var c := cache[url := Loaded(Image(url))];
    if forall u :: u in cache && u != url ==> cache[u].Loaded? {
      forall u | u in c ensures c[u].Loaded? {
        if u != url { assert cache[u].Loaded?; }
      }
    }
    if AllLoaded(c) {
      forall u | u in cache && u != url ensures cache[u].Loaded? {
        assert c[u] == cache[u];
      }
    }
  }

  /** The cache with its outstanding fetches and the ready callbacks it runs on readiness. */
  class ResourceCache<C> {
    var cache: map<string, Slot>
    var readyCallbacks: seq<C>
    /** One entry per image created by `_load` whose `onload` has not run yet. */
    var inFlight: seq<string>

    /** Every outstanding fetch has a cache entry, every Pending URL has an outstanding
        fetch, and every loaded entry holds the image fetched for its own URL. */
    ghost predicate Valid()
      reads this
    {
      (forall i :: 0 <= i < |inFlight| ==> inFlight[i] in cache) &&
      (forall u :: u in cache && cache[u] == Pending ==> u in inFlight) &&
      (forall u :: u in cache && cache[u].Loaded? ==> cache[u].image == Image(u))
    }

    constructor ()
      ensures Valid()
      ensures cache == map[] && readyCallbacks == [] && inFlight == []
    {
      cache, readyCallbacks, inFlight := map[], [], [];
    }

    /** `_load(url)` (veld.js:87-103): returns the cached image, or issues a fetch. */
    method LoadUrl(url: string) returns (cached: Option<Image>)
      requires Valid()
      modifies this
      ensures Valid()
      ensures cache == AfterLoadUrl(old(cache), url)
      ensures IsLoaded(old(cache), url) ==> cached == Some(old(cache)[url].image) && inFlight == old(inFlight)
      ensures !IsLoaded(old(cache), url) ==> cached == None && inFlight == old(inFlight) + [url]
      ensures readyCallbacks == old(readyCallbacks)
      ensures Get(url) == (if IsLoaded(old(cache), url) then old(Get(url)) else Some(Pending))
    {
      if url in cache && cache[url].Loaded? {
        return Some(cache[url].image);
      }
      cache := cache[url := Pending];
      inFlight := inFlight + [url];
      cached := None;
    }

    /** `load(urlOrArr)` (veld.js:76-85). */
    method Load(arg: UrlOrArray)
      requires Valid()
      modifies this
      ensures Valid()
      ensures cache == AfterLoadUrls(old(cache), Urls(arg))
      ensures inFlight == old(inFlight) + Fetches(old(cache), Urls(arg))
      ensures readyCallbacks == old(readyCallbacks)
      ensures forall u :: Get(u).None? <==> old(Get(u)).None? && u !in Urls(arg)
    {
      var urls := Urls(arg);
      for i := 0 to |urls|
        invariant Valid()
        invariant cache == AfterLoadUrls(old(cache), urls[..i])
        invariant inFlight == old(inFlight) + Fetches(old(cache), urls[..i])
        invariant readyCallbacks == old(readyCallbacks)
      {
        assert urls[..i + 1][..i] == urls[..i];
        var _ := LoadUrl(urls[i]);
      }
      assert urls[..|urls|] == urls;
      AfterLoadUrlsKeys(old(cache), urls);
    }

    /** `get(url)` (veld.js:105-107): `None` stands for `undefined`, a URL never requested.
        In a consistent cache a Pending answer has a fetch outstanding, and a loaded
        answer is the image fetched for `url`. */
    function Get(url: string): (r: Option<Slot>)
      reads this
      ensures Valid() && r == Some(Pending) ==> url in inFlight
      ensures Valid() && r.Some? && r.value.Loaded? ==> r.value.image == Image(url)
    {
      if url in cache then Some(cache[url]) else None
    }

    /** `isReady()` (veld.js:109-118): clears a flag for each Pending entry. */
    method IsReady() returns (ready: bool)
      ensures ready == AllLoaded(cache)
    {
      ready := true;
      var keys := cache.Keys;
      while keys != {}
        invariant keys <= cache.Keys
        invariant ready <==> forall u :: u in cache && u !in keys ==> cache[u].Loaded?
        decreases keys
      {
        var k :| k in keys;
        if cache[k] == Pending {
          ready := false;
        }
        keys := keys - {k};
      }
    }

    /** `onReady(func)` (veld.js:120-122). */
    method OnReady(func: C)
      modifies this
      ensures readyCallbacks == old(readyCallbacks) + [func]
      ensures cache == old(cache) && inFlight == old(inFlight)
    {
      readyCallbacks := readyCallbacks + [func];
    }

    /** The `onload` handler of an image fetched for `url` (veld.js:93-98). Returns the
        ready callbacks it invokes, in the order it invokes them. */
    method OnLoad(url: string) returns (fired: seq<C>)
      requires Valid() && url in inFlight
      modifies this
      ensures Valid()
      ensures cache == old(cache)[url := Loaded(Image(url))]
      ensures inFlight == RemoveOne(old(inFlight), url)
      ensures readyCallbacks == old(readyCallbacks)
      ensures fired == if AllLoaded(cache) then readyCallbacks else []
    {
      cache := cache[url := Loaded(Image(url))];
      inFlight := RemoveOne(inFlight, url);
      forall i | 0 <= i < |inFlight| ensures inFlight[i] in cache {
        assert inFlight[i] in multiset(inFlight);
      }
      forall u | u in cache && cache[u] == Pending ensures u in inFlight {
        assert u != url && old(cache)[u] == Pending;
        assert u in multiset(old(inFlight));
        assert multiset(inFlight)[u] == multiset(old(inFlight))[u];
      }
      var ready := IsReady();
      fired := if ready then readyCallbacks else [];
    }
  }

  /** Readiness is not final: from a ready cache, requesting a URL that is not loaded
      makes it not ready, and that image's `onload` makes it ready again. */
  lemma ReadinessRecurs(cache: map<string, Slot>, url: string)
    requires AllLoaded(cache) && !IsLoaded(cache, url)
    ensures !AllLoaded(AfterLoadUrl(cache, url))
    ensures AllLoaded(AfterLoadUrl(cache, url)[url := Loaded(Image(url))])
  {
    ReadyAfterOnLoad(AfterLoadUrl(cache, url), url);
  }
}
