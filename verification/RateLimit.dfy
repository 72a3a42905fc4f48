/**
 internal/middlewares/ratelimit.go on values: limit configurations, bucket keys, and the pass of one
 request over the configured limits. RateLimiters.RateLimiter is the object that performs the pass.
 */
module RateLimits {
  import opened Wrappers
  import opened GoInts
  import opened GoStrings

  const SECOND: int := 1_000_000_000 // nanoseconds

  datatype LimitConfig = LimitConfig(zone: string, requests: int, per: int)

  datatype ParseError = InvalidConfig | ZoneNotSupported | InvalidRequests | InvalidUnit

  function UnitOf(unit: string): Option<int> {
    if unit == "s" then Some(SECOND)
    else if unit == "m" then Some(60 * SECOND)
    else if unit == "h" then Some(3600 * SECOND)
    else if unit == "d" then Some(86400 * SECOND)
    else None
  }

  function ParseLimitConfig(config: string): Result<LimitConfig, ParseError> {
    var parts := Split(config, '-');
    if |parts| != 2 then Err(InvalidConfig)
    else if ToLower(parts[0]) != "ip" then Err(ZoneNotSupported)
    else
      var limitParts := Split(parts[1], '/');
      if |limitParts| != 2 then Err(InvalidConfig)
      else
        var requests := Atoi(limitParts[0]);
        var unit := UnitOf(limitParts[1]);
        if requests.Err? then Err(InvalidRequests)
        else if unit.None? then Err(InvalidUnit)
        else Ok(LimitConfig(parts[0], requests.value, unit.value))
  }

  // What every parsed limit satisfies.
  predicate Legal(lc: LimitConfig) {
    && 0 <= lc.requests <= MAX_INT64
    && (lc.per == SECOND || lc.per == 60 * SECOND || lc.per == 3600 * SECOND || lc.per == 86400 * SECOND)
  }

  lemma ParsedIsLegal(config: string)
    requires ParseLimitConfig(config).Ok?
    ensures Legal(ParseLimitConfig(config).value) && ToLower(ParseLimitConfig(config).value.zone) == "ip"
  {
    var parts := Split(config, '-');
    var count := Split(parts[1], '/')[0];
    SplitPieces(config, '-');
    SplitHead(parts[1], '/');
    assert parts[1] in parts;
    assert '-' !in count;
  }

  // The texts of a limit: zone, count and unit.
  predicate Reads(zone: string, count: string, unit: string, lc: LimitConfig) {
    && zone == lc.zone && ToLower(zone) == "ip"
    && '-' !in count && Atoi(count) == Ok(lc.requests)
    && UnitMeans(unit, lc.per)
  }

  // Second, minute, hour and day in nanoseconds.
  predicate UnitMeans(unit: string, per: int) {
    || (unit == "s" && per == 1_000_000_000)
    || (unit == "m" && per == 60_000_000_000)
    || (unit == "h" && per == 3_600_000_000_000)
    || (unit == "d" && per == 86_400_000_000_000)
  }

  // Accepted are exactly the texts zone-count/unit with a zone that is "ip" in some letter case,
  // an unsigned or "+" number and one of the four units, and they are read as what they say.
  lemma AcceptedLimits(config: string, lc: LimitConfig)
    ensures ParseLimitConfig(config) == Ok(lc) <==>
              exists zone, count, unit :: Reads(zone, count, unit, lc) && config == zone + "-" + count + "/" + unit
  {
    if ParseLimitConfig(config) == Ok(lc) {
      var parts := Split(config, '-');
      var limitParts := Split(parts[1], '/');
      JoinSplit(config, '-');
      JoinSplit(parts[1], '/');
      SplitPieces(config, '-');
      assert parts[1] in parts && limitParts[0] <= parts[1] by { SplitHead(parts[1], '/'); }
      JoinTwo(parts, '-');
      JoinTwo(limitParts, '/');
      assert config == parts[0] + "-" + limitParts[0] + "/" + limitParts[1];
      assert Reads(parts[0], limitParts[0], limitParts[1], lc);
    }
    if zone, count, unit :| Reads(zone, count, unit, lc) && config == zone + "-" + count + "/" + unit {
      ReadBack(zone, count, unit, lc);
    }
  }

  // Why a text is refused, checked in this order: exactly one hyphen, the zone, exactly one slash
  // after the hyphen, the number, the unit.
  lemma RejectedLimits(config: string)
    ensures var parts := Split(config, '-');
            var limitParts := if |parts| == 2 then Split(parts[1], '/') else [];
            var zoned := |parts| == 2 && ToLower(parts[0]) == "ip";
            var counted := zoned && |limitParts| == 2 && Atoi(limitParts[0]).Ok?;
            && (ParseLimitConfig(config) == Err(InvalidConfig) <==> |parts| != 2 || (zoned && |limitParts| != 2))
            && (ParseLimitConfig(config) == Err(ZoneNotSupported) <==> |parts| == 2 && !zoned)
            && (ParseLimitConfig(config) == Err(InvalidRequests) <==> zoned && |limitParts| == 2 && !counted)
            && (ParseLimitConfig(config) == Err(InvalidUnit) <==>
                  counted && limitParts[1] != "s" && limitParts[1] != "m" && limitParts[1] != "h" && limitParts[1] != "d")
  {
  }

  lemma ReadBack(zone: string, count: string, unit: string, lc: LimitConfig)
    requires Reads(zone, count, unit, lc)
    ensures ParseLimitConfig(zone + "-" + count + "/" + unit) == Ok(lc)
  {
    var tail := count + "/" + unit;
    forall c | c in unit ensures c != '-' && c != '/' {}
    if '-' in zone { ToLowerMember(zone, '-'); }
    AtoiChars(count, '/');
    assert '-' !in tail;
    assert zone + "-" + count + "/" + unit == zone + ['-'] + tail;
    SplitConcat(zone, tail, '-');
    SplitWhole(zone, '-');
    SplitWhole(tail, '-');
    SplitConcat(count, unit, '/');
    SplitWhole(count, '/');
    SplitWhole(unit, '/');
  }

  // ---------- keys ----------

  // The text of a remote address before its first colon.
  function AddressPart(addr: string): string {
    Split(addr, ':')[0]
  }

  // The address part h of an address is the whole of it or is followed by its first colon.
  lemma AddressPartMeaning(addr: string, h: string)
    ensures AddressPart(addr) == h <==>
              ':' !in h && (addr == h || exists rest :: addr == h + ":" + rest)
  {
    SplitHead(addr, ':');
    var a := AddressPart(addr);
    if a != addr { assert addr == a + ":" + addr[|a| + 1..]; }
    if ':' !in h && addr == h { SplitWhole(h, ':'); }
    if ':' !in h && addr != h {
      if rest :| addr == h + ":" + rest {
        SplitConcat(h, rest, ':');
        SplitWhole(h, ':');
      }
    }
  }

  // What follows "!" in a key.
  function Zoned(lc: LimitConfig, addr: string): string {
    if lc.zone == "ip" then "ip:" + AddressPart(addr) else ""
  }

  function KeyText(per: string, count: string, zoned: string): string {
    per + "|" + count + "!" + zoned
  }

  // The key, and whether an error accompanies it; the caller goes on with the key either way.
  function GetKey(lc: LimitConfig, addr: string): (string, bool) {
    (KeyText(Itoa(lc.per / SECOND), Itoa(lc.requests), Zoned(lc, addr)), lc.zone != "ip")
  }

  function Key(lc: LimitConfig, addr: string): string {
    GetKey(lc, addr).0
  }

  lemma CutUnique(a: string, b: string, a': string, b': string, sep: char)
    requires a + [sep] + b == a' + [sep] + b' && sep !in a && sep !in a'
    ensures a == a' && b == b'
  {
    SplitWhole(a, sep);
    SplitWhole(a', sep);
    SplitConcat(a, b, sep);
    SplitConcat(a', b', sep);
    assert [a] + Split(b, sep) == [a'] + Split(b', sep);
    assert ([a] + Split(b, sep))[0] == a;
    assert (a + [sep] + b)[|a| + 1..] == b && (a' + [sep] + b')[|a'| + 1..] == b';
  }

  predicate SameLimit(lc: LimitConfig, lc': LimitConfig) {
    lc.per == lc'.per && lc.requests == lc'.requests
  }

  // One cut per separator.
  lemma KeyCut(p: string, n: string, z: string, p': string, n': string, z': string)
    requires '|' !in p && '|' !in p' && '!' !in n && '!' !in n'
    requires KeyText(p, n, z) == KeyText(p', n', z')
    ensures p == p' && n == n' && z == z'
  {
    assert KeyText(p, n, z) == p + ['|'] + (n + ['!'] + z);
    assert KeyText(p', n', z') == p' + ['|'] + (n' + ['!'] + z');
    CutUnique(p, n + ['!'] + z, p', n' + ['!'] + z', '|');
    CutUnique(n, z, n', z', '!');
  }

  lemma KeyParts(lc: LimitConfig, addr: string, lc': LimitConfig, addr': string)
    requires Legal(lc) && Legal(lc')
    requires Key(lc, addr) == Key(lc', addr')
    ensures SameLimit(lc, lc') && Zoned(lc, addr) == Zoned(lc', addr')
  {
    var s, s' := lc.per / SECOND, lc'.per / SECOND;
    ItoaChars(s, '|');
    ItoaChars(s', '|');
    ItoaChars(lc.requests, '!');
    ItoaChars(lc'.requests, '!');
    KeyCut(Itoa(s), Itoa(lc.requests), Zoned(lc, addr), Itoa(s'), Itoa(lc'.requests), Zoned(lc', addr'));
    ItoaInjective(s, s');
    ItoaInjective(lc.requests, lc'.requests);
  }

  // Two keys coincide exactly when period, count and address part do (zone "ip"), or period and
  // count alone (any other spelling of the zone).
  lemma KeyCondition(lc: LimitConfig, addr: string, lc': LimitConfig, addr': string)
    requires Legal(lc) && Legal(lc')
    ensures Key(lc, addr) == Key(lc', addr') <==>
            && SameLimit(lc, lc')
            && (lc.zone == "ip" <==> lc'.zone == "ip")
            && (lc.zone == "ip" ==> AddressPart(addr) == AddressPart(addr'))
  {
    if Key(lc, addr) == Key(lc', addr') {
      KeyParts(lc, addr, lc', addr');
      if lc.zone == "ip" && lc'.zone == "ip" {
        assert Zoned(lc, addr)[3..] == AddressPart(addr) && Zoned(lc', addr')[3..] == AddressPart(addr');
      }
    }
  }

  // The key of an accepted limit comes with an error exactly when the zone is not spelled "ip".
  // Such a limit is one bucket for all clients.
  lemma MisspelledZone(config: string, addr: string, addr': string)
    requires ParseLimitConfig(config).Ok?
    ensures var lc := ParseLimitConfig(config).value;
            && (GetKey(lc, addr).1 <==> lc.zone != "ip")
            && (Key(lc, addr) == Key(lc, addr') <==> lc.zone != "ip" || AddressPart(addr) == AddressPart(addr'))
  {
    ParsedIsLegal(config);
    var lc := ParseLimitConfig(config).value;
    KeyCondition(lc, addr, lc, addr');
  }

  lemma MisspelledZoneExample()
    ensures ParseLimitConfig("IP-10/m") == Ok(LimitConfig("IP", 10, 60 * SECOND))
  {
    assert ToLower("IP") == "ip";
    assert Itoa(10) == "10" by { assert NatToDigits(1) == "1"; }
    assert "IP" + "-" + "10" + "/" + "m" == "IP-10/m";
    AtoiItoa(10);
    ReadBack("IP", "10", "m", LimitConfig("IP", 10, 60 * SECOND));
  }

  // All addresses that begin with "[:" have the same address part.
  lemma BracketedAddresses(host: string, port: string, host': string, port': string)
    ensures AddressPart("[:" + host + "]:" + port) == AddressPart("[:" + host' + "]:" + port')
  {
    assert "[:" + host + "]:" + port == "[" + [':'] + (host + "]:" + port);
    assert "[:" + host' + "]:" + port' == "[" + [':'] + (host' + "]:" + port');
    SplitConcat("[", host + "]:" + port, ':');
    SplitConcat("[", host' + "]:" + port', ':');
    SplitWhole("[", ':');
  }

  // ---------- token buckets ----------

  // rate.Limiter with limit Every(per). credit counts tokens in units of 1/per, so that the
  // bucket holds credit / per tokens, gains 1 per nanosecond and pays per for a token.
  datatype Bucket = Bucket(per: int, burst: int, credit: int, last: int)

  function Min(a: int, b: int): int {
    if a < b then a else b
  }

  function Capacity(per: int, burst: int): int { per * burst }

  function FullBucket(lc: LimitConfig, t: int): Bucket {
    Bucket(lc.per, lc.requests, Capacity(lc.per, lc.requests), t)
  }

  // The credit at time t.
  function Level(b: Bucket, t: int): int {
    Min(Capacity(b.per, b.burst), b.credit + if t > b.last then t - b.last else 0)
  }

  // Every bucket that is ever in the table.
  predicate Sound(b: Bucket) {
    b.per > 0 && b.burst >= 0 && 0 <= b.credit <= Capacity(b.per, b.burst)
  }

  predicate Allows(b: Bucket, t: int) {
    b.burst >= 1 && Level(b, t) >= b.per
  }

  function Take(b: Bucket, t: int): Bucket {
    if Allows(b, t) then b.(credit := Level(b, t) - b.per, last := t) else b
  }

  // int(limiter.Tokens())
  function Remaining(b: Bucket, t: int): int
    requires b.per > 0
  {
    Level(b, t) / b.per
  }

  lemma SoundBucket(b: Bucket, t: int)
    requires Sound(b)
    ensures 0 <= Level(b, t) <= Capacity(b.per, b.burst)
    ensures Sound(Take(b, t))
    ensures !Allows(b, t) ==> Remaining(b, t) == 0
  {
    if b.burst == 0 {
      assert Capacity(b.per, b.burst) == 0;
    } else if Level(b, t) < b.per {
      assert Level(b, t) / b.per == 0;
    }
  }

  lemma SoundFull(lc: LimitConfig, t: int)
    requires Legal(lc)
    ensures Sound(FullBucket(lc, t))
  {
  }

  // ---------- one request ----------

  type Buckets = map<string, Bucket>

  datatype Verdict = Next | Limited(limit: nat)

  function BucketFor(bs: Buckets, lc: LimitConfig, key: string, t: int): Bucket {
    if key in bs then bs[key] else FullBucket(lc, t)
  }

  // The table after one limiter has been asked (and created, if need be).
  function Ask(bs: Buckets, lc: LimitConfig, key: string, t: int): Buckets {
    bs[key := Take(BucketFor(bs, lc, key, t), t)]
  }

  // The loop over the limits from limit k on; keys are the keys of the limits.
  function Visit(limits: seq<LimitConfig>, keys: seq<string>, k: nat, bs: Buckets, t: int): (r: (Buckets, Verdict))
    requires k <= |limits| == |keys|
    ensures r.1.Limited? ==> k <= r.1.limit < |limits|
    decreases |limits| - k
  {
    if k == |limits| then (bs, Next)
    else
      var bs' := Ask(bs, limits[k], keys[k], t);
      if Allows(BucketFor(bs, limits[k], keys[k], t), t) then Visit(limits, keys, k + 1, bs', t)
      else (bs', Limited(k))
  }

  function Keys(limits: seq<LimitConfig>, addr: string): seq<string> {
    seq(|limits|, i requires 0 <= i < |limits| => Key(limits[i], addr))
  }

  function Handle(limits: seq<LimitConfig>, bs: Buckets, addr: string, t: int): (r: (Buckets, Verdict))
    ensures r.1.Limited? ==> r.1.limit < |limits|
  {
    Visit(limits, Keys(limits, addr), 0, bs, t)
  }

  lemma VisitStep(limits: seq<LimitConfig>, keys: seq<string>, k: nat, bs: Buckets, t: int)
    requires k < |limits| == |keys|
    ensures var bs' := Ask(bs, limits[k], keys[k], t);
            Visit(limits, keys, k, bs, t) ==
            if Allows(BucketFor(bs, limits[k], keys[k], t), t) then Visit(limits, keys, k + 1, bs', t)
            else (bs', Limited(k))
  {
  }

  // The error response that GetKey causes does not stop the loop.
  predicate WritesServerError(limits: seq<LimitConfig>, v: Verdict)
    requires v.Limited? ==> v.limit < |limits|
  {
    Misspelled(limits, if v.Next? then |limits| else v.limit + 1)
  }

  predicate Misspelled(limits: seq<LimitConfig>, n: nat)
    requires n <= |limits|
  {
    n > 0 && (Misspelled(limits, n - 1) || limits[n - 1].zone != "ip")
  }

  // There is one exactly if some limit that is looked at has a zone that is not spelled "ip".
  lemma {:induction false} MisspelledMeaning(limits: seq<LimitConfig>, n: nat)
    requires n <= |limits|
    ensures Misspelled(limits, n) <==> exists i | 0 <= i < n :: limits[i].zone != "ip"
  {
    if n > 0 { MisspelledMeaning(limits, n - 1); }
  }

  lemma ServerErrorCondition(limits: seq<LimitConfig>, v: Verdict)
    requires v.Limited? ==> v.limit < |limits|
    ensures WritesServerError(limits, v) <==>
              exists i | 0 <= i < |limits| && (v.Limited? ==> i <= v.limit) :: limits[i].zone != "ip"
  {
    MisspelledMeaning(limits, if v.Next? then |limits| else v.limit + 1);
  }
}
