/** internal/middlewares/cache.go on values: what is stored for how long, and what a client gets. */
module Caches {
  import opened Wrappers
  import opened GoInts
  import opened GoStrings
  import opened Headers
  import opened Recorders

  const SECOND: int := 1_000_000_000

  // ---------- freshness ----------

  const PREFIX := "max-age="

  // The number of one directive, if it is a max-age with a number.
  function DirectiveAge(directive: string): Option<int> {
    var d := TrimSpace(directive);
    if !HasPrefix(d, PREFIX) then None
    else
      match Atoi(TrimPrefix(d, PREFIX))
      case Err(_) => None
      case Ok(n) => Some(n)
  }

  // The first directive that has a number decides.
  function FirstAge(directives: seq<string>): Option<int> {
    if directives == [] then None
    else if DirectiveAge(directives[0]).Some? then DirectiveAge(directives[0])
    else FirstAge(directives[1..])
  }

  function MaxAge(cacheControl: string): int {
    var age := FirstAge(Split(cacheControl, ','));
    if age.Some? then age.value else 0
  }

  method GetCacheMaxAge(cacheControl: string) returns (maxAge: int)
    ensures maxAge == MaxAge(cacheControl)
  {
    var directives := Split(cacheControl, ',');
    for k := 0 to |directives|
      invariant FirstAge(directives) == FirstAge(directives[k..])
    {
      var directive := TrimSpace(directives[k]);
      assert directives[k..][0] == directives[k] && directives[k..][1..] == directives[k + 1..];
      if HasPrefix(directive, PREFIX) {
        var parsed := Atoi(TrimPrefix(directive, PREFIX));
        if parsed.Ok? {
          return parsed.value;
        }
      }
    }
    return 0;
  }

  // Which texts are a max-age with a number, once the blanks around them are cut off.
  lemma DirectiveMeaning(directive: string, n: int)
    ensures DirectiveAge(directive) == Some(n) <==>
              exists number :: TrimSpace(directive) == "max-age=" + number && Atoi(number) == Ok(n)
  {
    var d := TrimSpace(directive);
    if HasPrefix(d, PREFIX) { assert d == "max-age=" + d[|PREFIX|..]; }
    if number :| d == "max-age=" + number && Atoi(number) == Ok(n) {
      assert HasPrefix(d, PREFIX) && d[|PREFIX|..] == number;
    }
  }

  function Spaces(n: nat): string {
    if n == 0 then [] else [' '] + Spaces(n - 1)
  }

  lemma {:induction false} TrimLeftSpaces(n: nat, s: string)
    requires s == [] || !IsSpace(s[0])
    ensures TrimLeft(Spaces(n) + s) == s
  {
    if n == 0 {
      assert Spaces(n) + s == s;
    } else {
      TrimLeftSpaces(n - 1, s);
      assert (Spaces(n) + s)[1..] == Spaces(n - 1) + s;
    }
  }

  lemma {:induction false} TrimRightSpaces(n: nat, s: string)
    requires s != [] && !IsSpace(s[|s| - 1])
    ensures TrimRight(s + Spaces(n)) == s
  {
    if n == 0 {
      assert s + Spaces(0) == s;
    } else {
      OneSpaceLess(n - 1, s);
      TrimRightSpaces(n - 1, s);
    }
  }

  lemma OneSpaceLess(n: nat, s: string)
    ensures TrimRight(s + Spaces(n + 1)) == TrimRight(s + Spaces(n))
  {
    SpacesSnoc(n);
    TextAssociates(s, Spaces(n), [' ']);
    TrimRightOne(s + Spaces(n));
  }

  lemma TrimRightOne(s: string)
    ensures TrimRight(s + [' ']) == TrimRight(s)
  {
    assert (s + [' '])[..|s|] == s;
  }

  lemma {:induction false} SpacesSnoc(n: nat)
    ensures Spaces(n + 1) == Spaces(n) + [' ']
  {
    if n > 0 { SpacesSnoc(n - 1); }
  }

  lemma TextAssociates(a: string, b: string, c: string)
    ensures a + (b + c) == (a + b) + c
  {
  }

  // A max-age directive is read whatever blanks surround it.
  lemma PrintedAge(n: int, before: nat, after: nat)
    requires IsInt64(n)
    ensures DirectiveAge(Spaces(before) + (PREFIX + Itoa(n) + Spaces(after))) == Some(n)
  {
    var text := PREFIX + Itoa(n);
    var last := text[|text| - 1];
    assert last == Itoa(n)[|Itoa(n)| - 1] && IsDigit(last);
    assert text[0] == 'm';
    TrimLeftSpaces(before, text + Spaces(after));
    TrimRightSpaces(after, text);
    assert text[|PREFIX|..] == Itoa(n);
    AtoiItoa(n);
  }

  lemma {:induction false} FirstAgeFound(directives: seq<string>, k: nat)
    requires k < |directives| && DirectiveAge(directives[k]).Some?
    requires forall i | 0 <= i < k :: DirectiveAge(directives[i]).None?
    ensures FirstAge(directives) == DirectiveAge(directives[k])
  {
    if k > 0 { FirstAgeFound(directives[1..], k - 1); }
  }

  // In a list of directives the first max-age with a number is the one that counts.
  lemma MaxAgeMeaning(directives: seq<string>, k: nat)
    requires k < |directives| && forall d | d in directives :: ',' !in d
    requires DirectiveAge(directives[k]).Some?
    requires forall i | 0 <= i < k :: DirectiveAge(directives[i]).None?
    ensures MaxAge(Join(directives, ',')) == DirectiveAge(directives[k]).value
  {
    SplitJoin(directives, ',');
    FirstAgeFound(directives, k);
  }

  // expires is the parsed Expires header as a time.
  function Ttl(maxAge: int, expires: Option<int>, now: int): int {
    if maxAge > 0 then Wrap64(maxAge * SECOND)
    else if expires.Some? then expires.value - now
    else 0
  }

  // ---------- the store ----------

  // The response, the last time at which it may be replayed, and the request that stored it.
  datatype Entry = Entry(response: Response, expiration: int)

  type Store = map<string, Entry>

  // One request: the URL, the time, and what the wrapped handler would produce if called.
  datatype Request = Request(url: string, time: int, produced: Recorder)

  type ExpiresParser = string -> Option<int>

  function StoreTtl(produced: Recorder, now: int, parse: ExpiresParser): int {
    Ttl(MaxAge(Get(produced.header, "Cache-Control")), parse(Get(produced.header, "Expires")), now)
  }

  function Lookup(store: Store, url: string, now: int): Option<Response> {
    if url in store && now <= store[url].expiration then Some(store[url].response) else None
  }

  // The response that is sent on: the stored one, or that of the wrapped handler.
  function Chosen(store: Store, r: Request): Response {
    match Lookup(store, r.url, r.time)
    case Some(response) => response
    case None => ResultOf(r.produced)
  }

  function Keep(store: Store, url: string, response: Response, now: int, ttl: int): Store {
    if ttl > 0 then store[url := Entry(response, now + ttl)] else store
  }

  // ttl is the lifetime of the response of the wrapped handler.
  function Serve(store: Store, r: Request, ttl: int): Store {
    if Lookup(store, r.url, r.time).Some? then store
    else Keep(store, r.url, ResultOf(r.produced), r.time, ttl)
  }

  // The janitor of the cache drops what has expired.
  function Clean(store: Store, now: int): Store {
    map url | url in store && now <= store[url].expiration :: store[url]
  }

  lemma CleanInvisible(store: Store, now: int, url: string, t: int)
    requires now <= t
    ensures Lookup(Clean(store, now), url, t) == Lookup(store, url, t)
    ensures url in Clean(store, now) <==> Lookup(store, url, now).Some?
  {
  }

  // ---------- runs, under any rule for the lifetime of a response ----------

  type Lifetime = (Recorder, int) -> int

  // The rule of the middleware.
  function ByHeaders(parse: ExpiresParser): Lifetime {
    (produced: Recorder, now: int) => StoreTtl(produced, now, parse)
  }

  datatype Event = Client(request: Request) | Cleanup(time: int)

  function Advance(store: Store, e: Event, life: Lifetime): Store {
    match e
    case Client(r) => Serve(store, r, life(r.produced, r.time))
    case Cleanup(t) => Clean(store, t)
  }

  function After(es: seq<Event>, life: Lifetime): Store {
    if es == [] then map[] else Advance(After(es[..|es| - 1], life), es[|es| - 1], life)
  }

  // Request k was answered from the cache.
  predicate Hit(es: seq<Event>, k: nat, life: Lifetime)
    requires k < |es| && es[k].Client?
  {
    Lookup(After(es[..k], life), es[k].request.url, es[k].request.time).Some?
  }

  // What client k gets with the cache, and without it.
  function Cached(es: seq<Event>, k: nat, life: Lifetime): Response
    requires k < |es| && es[k].Client?
  {
    Relayed(Chosen(After(es[..k], life), es[k].request))
  }

  function Uncached(es: seq<Event>, k: nat): Response
    requires k < |es| && es[k].Client?
  {
    Relayed(ResultOf(es[k].request.produced))
  }

  // Request i missed and was stored.
  predicate Stored(es: seq<Event>, i: nat, life: Lifetime)
    requires i < |es|
  {
    && es[i].Client? && !Hit(es, i, life)
    && life(es[i].request.produced, es[i].request.time) > 0
  }

  // A stored copy of request i covers request k.
  predicate Covers(es: seq<Event>, i: nat, k: nat, life: Lifetime)
    requires i < |es| && k < |es|
  {
    && i < k && es[k].Client? && Stored(es, i, life)
    && es[i].request.url == es[k].request.url
    && es[k].request.time <= es[i].request.time
         + life(es[i].request.produced, es[i].request.time)
  }

  ghost predicate Origin(es: seq<Event>, n: nat, i: nat, url: string, entry: Entry, life: Lifetime)
    requires n <= |es|
  {
    && i < n && Stored(es, i, life) && es[i].request.url == url
    && entry.response == ResultOf(es[i].request.produced)
    && entry.expiration == es[i].request.time + life(es[i].request.produced, es[i].request.time)
  }

  // Every entry was stored by an earlier request for its URL.
  lemma {:induction false} EntryOrigin(es: seq<Event>, n: nat, url: string, life: Lifetime) returns (i: nat)
    requires n <= |es| && url in After(es[..n], life)
    ensures Origin(es, n, i, url, After(es[..n], life)[url], life)
    decreases n
  {
    assert es[..n][..n - 1] == es[..n - 1];
    var before := After(es[..n - 1], life);
    var e := es[n - 1];
    if e.Client? && e.request.url == url && Stored(es, n - 1, life) {
      i := n - 1;
    } else {
      i := EntryOrigin(es, n - 1, url, life);
    }
  }

  // Every hit replays the response of an earlier miss on the same URL that is still fresh.
  lemma HitOrigin(es: seq<Event>, k: nat, life: Lifetime) returns (i: nat)
    requires k < |es| && es[k].Client? && Hit(es, k, life)
    ensures i < |es| && Covers(es, i, k, life)
    ensures Cached(es, k, life) == Relayed(ResultOf(es[i].request.produced))
  {
    i := EntryOrigin(es, k, es[k].request.url, life);
  }

  function TimeOf(e: Event): int {
    match e
    case Client(r) => r.time
    case Cleanup(t) => t
  }

  predicate Ordered(es: seq<Event>) {
    forall i, j | 0 <= i < j < |es| :: TimeOf(es[i]) <= TimeOf(es[j])
  }

  function EntryOf(e: Event, life: Lifetime): Entry
    requires e.Client?
  {
    Entry(ResultOf(e.request.produced), e.request.time + life(e.request.produced, e.request.time))
  }

  // An entry survives every event up to its expiration.
  lemma EntryStays(store: Store, e: Event, url: string, life: Lifetime)
    requires url in store && TimeOf(e) <= store[url].expiration
    ensures url in Advance(store, e, life) && Advance(store, e, life)[url] == store[url]
  {
  }

  lemma StoredNow(store: Store, e: Event, life: Lifetime)
    requires e.Client? && Lookup(store, e.request.url, e.request.time).None?
    requires life(e.request.produced, e.request.time) > 0
    ensures e.request.url in Advance(store, e, life)
    ensures Advance(store, e, life)[e.request.url] == EntryOf(e, life)
  {
  }

  // A stored copy stays as it is for as long as it covers requests.
  lemma {:induction false} CopyStays(es: seq<Event>, i: nat, n: nat, life: Lifetime)
    requires Ordered(es) && i < n <= |es| && Stored(es, i, life)
    requires TimeOf(es[n - 1]) <= EntryOf(es[i], life).expiration
    ensures es[i].request.url in After(es[..n], life)
    ensures After(es[..n], life)[es[i].request.url] == EntryOf(es[i], life)
    decreases n
  {
    assert es[..n][..n - 1] == es[..n - 1];
    if i < n - 1 {
      CopyStays(es, i, n - 1, life);
      EntryStays(After(es[..n - 1], life), es[n - 1], es[i].request.url, life);
    } else {
      StoredNow(After(es[..i], life), es[i], life);
    }
  }

  // Every later request that a stored copy covers is answered with it.
  lemma CoveredHit(es: seq<Event>, i: nat, k: nat, life: Lifetime)
    requires Ordered(es) && i < |es| && k < |es| && Covers(es, i, k, life)
    ensures Hit(es, k, life)
    ensures Cached(es, k, life) == Relayed(ResultOf(es[i].request.produced))
  {
    CopyStays(es, i, k, life);
  }

  // While a copy is fresh the handler keeps giving clients the same response.
  ghost predicate Steady(es: seq<Event>, life: Lifetime) {
    forall i, k | 0 <= i < |es| && 0 <= k < |es| && Covers(es, i, k, life) ::
      Relayed(ResultOf(es[i].request.produced)) == Relayed(ResultOf(es[k].request.produced))
  }

  ghost predicate Transparent(es: seq<Event>, life: Lifetime) {
    forall k | 0 <= k < |es| && es[k].Client? :: Cached(es, k, life) == Uncached(es, k)
  }

  // No client can tell the cache from the handler exactly when the handler is steady.
  lemma CacheCondition(es: seq<Event>, life: Lifetime)
    requires Ordered(es)
    ensures Transparent(es, life) <==> Steady(es, life)
  {
    if Steady(es, life) {
      forall k | 0 <= k < |es| && es[k].Client? ensures Cached(es, k, life) == Uncached(es, k) {
        if Hit(es, k, life) {
          var i := HitOrigin(es, k, life);
        }
      }
    }
    if Transparent(es, life) {
      forall i, k | 0 <= i < |es| && 0 <= k < |es| && Covers(es, i, k, life)
        ensures Relayed(ResultOf(es[i].request.produced)) == Relayed(ResultOf(es[k].request.produced))
      {
        CoveredHit(es, i, k, life);
        assert Cached(es, k, life) == Uncached(es, k);
      }
    }
  }

  // Then status, body and every header lookup are those of calling the handler directly, and any
  // writer that the response is forwarded to ends up the same.
  lemma CacheRefines(es: seq<Event>, k: nat, life: Lifetime, key: string)
    requires Ordered(es) && Steady(es, life) && k < |es| && es[k].Client?
    ensures var direct := ResultOf(es[k].request.produced);
            && Cached(es, k, life).status == direct.status
            && Cached(es, k, life).body == direct.body
            && Get(Cached(es, k, life).header, key) == Get(direct.header, key)
            && forall w, sniff ::
                 Forward(Chosen(After(es[..k], life), es[k].request), w, sniff) == Forward(direct, w, sniff)
  {
    CacheCondition(es, life);
    assert Cached(es, k, life) == Uncached(es, k);
    RelayedKeeps(ResultOf(es[k].request.produced), key);
  }
}
