/**
 How long a response may be replayed: what cache.go reads in Cache-Control and Expires, compared
 with the freshness lifetime of section 4.2.1 of RFC 9111 for a shared cache.
 */
module Freshness {
  import opened Arithmetic
  import opened Wrappers
  import opened GoInts
  import opened GoStrings
  import opened Headers
  import opened Recorders
  import opened Caches

  // ---------- Cache-Control as in section 5.2 of RFC 9111 ----------

  // The members of a comma-separated list. A comma in a quoted string does not separate, and a
  // backslash there escapes the next character.
  function Members(s: string, quoted: bool): (members: seq<string>)
    ensures |members| >= 1
  {
    if s == [] then [[]]
    else if s[0] == ',' && !quoted then [[]] + Members(s[1..], false)
    else if s[0] == '\\' && quoted && |s| >= 2 then
      var rest := Members(s[2..], true);
      [s[..2] + rest[0]] + rest[1..]
    else
      var rest := Members(s[1..], quoted != (s[0] == '"'));
      [[s[0]] + rest[0]] + rest[1..]
  }

  predicate IsBlank(c: char) {
    c == ' ' || c == '\t'
  }

  function StripLeft(s: string): string {
    if s != [] && IsBlank(s[0]) then StripLeft(s[1..]) else s
  }

  function StripRight(s: string): string {
    if s != [] && IsBlank(s[|s| - 1]) then StripRight(s[..|s| - 1]) else s
  }

  function Strip(s: string): string {
    StripRight(StripLeft(s))
  }

  // The text before the first separator.
  function Before(s: string, sep: char): (r: string)
    ensures r <= s && sep !in r && (r == s || s[|r|] == sep)
  {
    if s == [] || s[0] == sep then [] else [s[0]] + Before(s[1..], sep)
  }

  // Names are compared without regard to letter case.
  datatype Directive = Directive(name: string, argument: Option<string>)

  function ReadDirective(member: string): Directive {
    var d := Strip(member);
    var name := Before(d, '=');
    Directive(ToLower(name), if name == d then None else Some(d[|name| + 1..]))
  }

  // The content of a quoted string; both forms of an argument are acceptable.
  function Unquote(a: string): string {
    if |a| >= 2 && a[0] == '"' && a[|a| - 1] == '"' then a[1..|a| - 1] else a
  }

  // A number of seconds; a response with an unreadable one is stale.
  function Seconds(argument: Option<string>): nat {
    if argument.None? then 0
    else
      var digits := Unquote(argument.value);
      if digits != [] && AllDigits(digits) then DigitsToNat(digits) else 0
  }

  // The first directive of a name counts.
  function FirstNamed(members: seq<string>, name: string): Option<nat> {
    if members == [] then None
    else
      var d := ReadDirective(members[0]);
      if d.name == name then Some(Seconds(d.argument)) else FirstNamed(members[1..], name)
  }

  // In a shared cache s-maxage goes before max-age.
  function AgeOf(members: seq<string>): Option<nat> {
    var shared := FirstNamed(members, "s-maxage");
    if shared.Some? then shared else FirstNamed(members, "max-age")
  }

  function StandardAge(cacheControl: string): Option<nat> {
    AgeOf(Members(cacheControl, false))
  }

  const MAX_SECONDS: int := 9_223_372_036

  // A number of seconds that is too large for a duration may be taken as this or as MAX_SECONDS
  // (section 1.2.2 of RFC 9111).
  const LARGE: int := 0x8000_0000

  // ---------- when the two agree ----------

  // A lifetime that is not positive means not fresh.
  predicate SameLifetime(ttl: int, lifetime: int) {
    ttl > 0 || lifetime > 0 ==> ttl == lifetime
  }

  // For a response received at its Date: the age where there is one, otherwise Expires. maxAge is
  // what the code reads.
  predicate Agree(maxAge: int, age: Option<nat>, expires: Option<int>, now: int) {
    var ttl := Ttl(maxAge, expires, now);
    match age
    case None => SameLifetime(ttl, if expires.Some? then expires.value - now else 0)
    case Some(n) =>
      if n <= MAX_SECONDS then SameLifetime(ttl, n * SECOND)
      else SameLifetime(ttl, LARGE * SECOND) || SameLifetime(ttl, MAX_SECONDS * SECOND)
  }

  // The cache keeps the response for its freshness lifetime, whatever its Expires header says.
  ghost predicate KeepsStandard(cacheControl: string) {
    forall expires, now :: Agree(MaxAge(cacheControl), StandardAge(cacheControl), expires, now)
  }

  // Numbers of seconds that are so far apart are the same duration.
  const WRAP_SECONDS: int := 0x80_0000_0000_0000

  // INVERSE * 5^9 == 1 + CARRY * WRAP_SECONDS
  const INVERSE: int := 20_211_507_185_753_197
  const CARRY: int := 1_095_668

  // A duration of a seconds comes out as n seconds exactly if n is in range and a is n up to a
  // multiple of WRAP_SECONDS.
  lemma TtlExact(a: int, n: int)
    requires n > 0
    ensures Wrap64(a * SECOND) == n * SECOND <==> n <= MAX_SECONDS && (a - n) % WRAP_SECONDS == 0
  {
    var full := 0x1_0000_0000_0000_0000;
    if Wrap64(a * SECOND) == n * SECOND {
      var q := (a * SECOND - MIN_INT64) / full;
      assert (a - n) * SECOND == q * full;
      ModIs(a - n, WRAP_SECONDS, INVERSE * q - CARRY * (a - n), 0);
    }
    if n <= MAX_SECONDS && (a - n) % WRAP_SECONDS == 0 {
      var p := (a - n) / WRAP_SECONDS;
      assert a - n == p * WRAP_SECONDS;
      ModIs(a * SECOND - MIN_INT64, full, p * 1_953_125, n * SECOND - MIN_INT64);
    }
  }

  predicate SameDuration(a: int, n: int) {
    (a - n) % WRAP_SECONDS == 0
  }

  // The number a that the code reads does for the number n that the standard reads.
  predicate StandsFor(a: int, n: nat) {
    && a > 0
    && if n == 0 then Wrap64(a * SECOND) <= 0
       else if n <= MAX_SECONDS then SameDuration(a, n)
       else SameDuration(a, LARGE) || SameDuration(a, MAX_SECONDS)
  }

  // What the code must read where the standard finds the age given.
  predicate ReadsRight(maxAge: int, age: Option<nat>) {
    match age
    case None => maxAge <= 0
    case Some(n) => StandsFor(maxAge, n)
  }

  lemma AgreeCondition(maxAge: int, age: Option<nat>)
    ensures (forall expires, now :: Agree(maxAge, age, expires, now)) <==> ReadsRight(maxAge, age)
  {
    var ttl := Wrap64(maxAge * SECOND);
    if age.Some? {
      TtlExact(maxAge, LARGE);
      TtlExact(maxAge, MAX_SECONDS);
      if age.value > 0 { TtlExact(maxAge, age.value); }
    }
    if !ReadsRight(maxAge, age) {
      var other :=
        if age.None? then Some((if ttl > 0 then ttl else 0) + 1)
        else if maxAge <= 0 then Some((age.value + MAX_SECONDS) * SECOND + 1)
        else None;
      assert !Agree(maxAge, age, other, 0);
    }
  }

  // In range, the code must read the same number as the standard, and not 0.
  lemma InRangeStandsFor(a: int, n: nat)
    requires a <= MAX_SECONDS && n <= MAX_SECONDS
    ensures StandsFor(a, n) <==> a == n > 0
  {
  }

  // Exactly which Cache-Control texts the cache treats as the standard does.
  lemma FreshnessCondition(cacheControl: string)
    ensures KeepsStandard(cacheControl) <==> ReadsRight(MaxAge(cacheControl), StandardAge(cacheControl))
  {
    AgreeCondition(MaxAge(cacheControl), StandardAge(cacheControl));
  }

  // ---------- the response that is stored ----------

  // The lifetime of a response in the cache: read from its Cache-Control and Expires fields, it is
  // the freshness lifetime wherever the Cache-Control text is one that the cache treats properly.
  lemma StoredLifetime(produced: Recorder, now: int, parse: ExpiresParser)
    requires KeepsStandard(Get(produced.header, "Cache-Control"))
    ensures var ttl := StoreTtl(produced, now, parse);
            var expires := parse(Get(produced.header, "Expires"));
            match StandardAge(Get(produced.header, "Cache-Control"))
            case None => SameLifetime(ttl, if expires.Some? then expires.value - now else 0)
            case Some(n) =>
              if n <= MAX_SECONDS then SameLifetime(ttl, n * SECOND)
              else SameLifetime(ttl, LARGE * SECOND) || SameLifetime(ttl, MAX_SECONDS * SECOND)
  {
    assert Agree(MaxAge(Get(produced.header, "Cache-Control")), StandardAge(Get(produced.header, "Cache-Control")),
                 parse(Get(produced.header, "Expires")), now);
  }

  // What a miss leaves in the store: the response with that lifetime, or the store as it was.
  ghost predicate StoredFor(before: Store, after: Store, r: Request, lifetime: int) {
    after == if lifetime > 0 then before[r.url := Entry(ResultOf(r.produced), r.time + lifetime)] else before
  }

  lemma MissStores(store: Store, r: Request, life: Lifetime, ttl: int, lifetime: int)
    requires Lookup(store, r.url, r.time) == None
    requires ttl == life(r.produced, r.time) && SameLifetime(ttl, lifetime)
    ensures StoredFor(store, Advance(store, Client(r), life), r, lifetime)
  {
  }

  lemma StoredEntry(store: Store, r: Request, parse: ExpiresParser)
    requires Lookup(store, r.url, r.time) == None && KeepsStandard(Get(r.produced.header, "Cache-Control"))
    ensures var after := Advance(store, Client(r), ByHeaders(parse));
            var expires := parse(Get(r.produced.header, "Expires"));
            match StandardAge(Get(r.produced.header, "Cache-Control"))
            case None => StoredFor(store, after, r, if expires.Some? then expires.value - r.time else 0)
            case Some(n) =>
              if n <= MAX_SECONDS then StoredFor(store, after, r, n * SECOND)
              else StoredFor(store, after, r, LARGE * SECOND) || StoredFor(store, after, r, MAX_SECONDS * SECOND)
  {
    var ttl := StoreTtl(r.produced, r.time, parse);
    StoredLifetime(r.produced, r.time, parse);
    forall lifetime | SameLifetime(ttl, lifetime)
      ensures StoredFor(store, Advance(store, Client(r), ByHeaders(parse)), r, lifetime)
    {
      MissStores(store, r, ByHeaders(parse), ttl, lifetime);
    }
  }

  // ---------- plain texts: lower case, no quotes, no signs ----------

  predicate Blanks(s: string) {
    forall c | c in s :: IsSpace(c) ==> IsBlank(c)
  }

  // A member that names max-age is max-age= and a number of at most 64 bits.
  predicate PlainMember(m: string) {
    var d := Strip(m);
    ReadDirective(m).name == "max-age" ==> HasPrefix(d, PREFIX) && Number(d[|PREFIX|..])
  }

  predicate Number(s: string) {
    s != [] && AllDigits(s) && DigitsToNat(s) <= MAX_INT64
  }

  predicate Plain(cacheControl: string) {
    && '"' !in cacheControl && Blanks(cacheControl)
    && forall m | m in Split(cacheControl, ',') :: PlainMember(m)
  }

  lemma {:induction false} NoQuotes(s: string)
    requires '"' !in s
    ensures Members(s, false) == Split(s, ',')
  {
    if s != [] { NoQuotes(s[1..]); }
  }

  lemma {:induction false} PiecesWithin(s: string, sep: char)
    ensures forall p, c | p in Split(s, sep) && c in p :: c in s
  {
    if s != [] { PiecesWithin(s[1..], sep); }
  }

  lemma {:induction false} StripLeftIsTrim(s: string)
    requires Blanks(s)
    ensures StripLeft(s) == TrimLeft(s) && Blanks(StripLeft(s))
  {
    if s != [] {
      assert s[0] in s;
      StripLeftIsTrim(s[1..]);
    }
  }

  lemma {:induction false} StripRightIsTrim(s: string)
    requires Blanks(s)
    ensures StripRight(s) == TrimRight(s)
  {
    if s != [] {
      assert s[|s| - 1] in s;
      StripRightIsTrim(s[..|s| - 1]);
    }
  }

  lemma {:induction false} BeforeConcat(a: string, sep: char, b: string)
    requires sep !in a
    ensures Before(a + [sep] + b, sep) == a
  {
    var s := a + [sep] + b;
    if a != [] {
      assert s[1..] == a[1..] + [sep] + b;
      BeforeConcat(a[1..], sep, b);
    }
  }

  // A number reads the same with Atoi and as a number of seconds.
  lemma NumberReads(s: string)
    requires Number(s)
    ensures Atoi(s) == Ok(DigitsToNat(s)) && Seconds(Some(s)) == DigitsToNat(s)
  {
    assert s[0] in s && IsDigit(s[0]);
  }

  // A letter or a hyphen.
  predicate NameChar(c: char) {
    'a' <= LowerChar(c) <= 'z' || c == '-'
  }

  predicate Name(s: string) {
    s != [] && forall i | 0 <= i < |s| :: NameChar(s[i])
  }

  lemma LowerName(s: string)
    requires s != [] && forall i | 0 <= i < |s| :: 'a' <= s[i] <= 'z' || s[i] == '-'
    ensures ToLower(s) == s && Name(s)
  {
  }

  // The argument of a directive that starts with max-age=.
  lemma PrefixedDirective(m: string)
    requires HasPrefix(Strip(m), PREFIX)
    ensures ReadDirective(m) == Directive("max-age", Some(Strip(m)[|PREFIX|..]))
  {
    var d := Strip(m);
    var rest := d[|PREFIX|..];
    assert d == "max-age" + ['='] + rest;
    BeforeConcat("max-age", '=', rest);
    LowerName("max-age");
  }

  lemma PlainReads(m: string)
    requires PlainMember(m) && Strip(m) == TrimSpace(m)
    ensures var d := ReadDirective(m);
            DirectiveAge(m) == if d.name == "max-age" then Some(Seconds(d.argument)) else None
  {
    if HasPrefix(Strip(m), PREFIX) {
      PrefixedDirective(m);
      NumberReads(Strip(m)[|PREFIX|..]);
    }
  }

  lemma {:induction false} PlainAges(members: seq<string>)
    requires forall m | m in members :: PlainMember(m) && Strip(m) == TrimSpace(m)
    ensures FirstNamed(members, "max-age") == FirstAge(members)
  {
    if members != [] {
      assert members[0] in members;
      PlainReads(members[0]);
      PlainAges(members[1..]);
    }
  }

  // The code reads the first max-age of a plain text.
  lemma PlainReading(cacheControl: string)
    requires Plain(cacheControl)
    ensures Members(cacheControl, false) == Split(cacheControl, ',')
    ensures FirstNamed(Members(cacheControl, false), "max-age") == FirstAge(Split(cacheControl, ','))
  {
    NoQuotes(cacheControl);
    PiecesWithin(cacheControl, ',');
    forall m | m in Split(cacheControl, ',') ensures Strip(m) == TrimSpace(m) {
      StripLeftIsTrim(m);
      StripRightIsTrim(StripLeft(m));
    }
    PlainAges(Split(cacheControl, ','));
  }

  // So for a plain text the directives decide. Without s-maxage, max-age must be absent or stand
  // for itself: 0 does not, as Expires then counts. With s-maxage, max-age must be present and
  // stand for s-maxage.
  lemma PlainFreshness(cacheControl: string)
    requires Plain(cacheControl)
    ensures var members := Members(cacheControl, false);
            var shared, own := FirstNamed(members, "s-maxage"), FirstNamed(members, "max-age");
            KeepsStandard(cacheControl) <==>
              if shared.None? then own.Some? ==> StandsFor(own.value, own.value)
              else own.Some? && StandsFor(own.value, shared.value)
  {
    PlainReading(cacheControl);
    FreshnessCondition(cacheControl);
  }

  // The lifetime in the cache, for a response whose Cache-Control text is plain: the first max-age
  // if that is positive and in range, and otherwise what Expires says.
  lemma PlainLifetime(produced: Recorder, now: int, parse: ExpiresParser)
    requires Plain(Get(produced.header, "Cache-Control"))
    ensures var own := FirstNamed(Members(Get(produced.header, "Cache-Control"), false), "max-age");
            var expires := parse(Get(produced.header, "Expires"));
            && (own.Some? && 0 < own.value <= MAX_SECONDS ==> StoreTtl(produced, now, parse) == own.value * SECOND)
            && (own.None? || own.value == 0 ==>
                  StoreTtl(produced, now, parse) == if expires.Some? then expires.value - now else 0)
  {
    PlainReading(Get(produced.header, "Cache-Control"));
  }

  // The same for numbers in range.
  lemma PlainInRange(cacheControl: string)
    requires Plain(cacheControl)
    ensures var members := Members(cacheControl, false);
            var shared, own := FirstNamed(members, "s-maxage"), FirstNamed(members, "max-age");
            (shared.Some? ==> shared.value <= MAX_SECONDS) && (own.Some? ==> own.value <= MAX_SECONDS) ==>
              (KeepsStandard(cacheControl) <==>
                 if shared.None? then own != Some(0) else own == shared && own != Some(0))
  {
    PlainFreshness(cacheControl);
  }

  // ---------- texts that are not plain ----------

  function Print(name: string, n: nat): string {
    name + "=" + Itoa(n)
  }

  lemma PrintedChars(name: string, n: nat, c: char)
    requires Name(name) && !NameChar(c) && c != '=' && !IsDigit(c)
    ensures c !in Print(name, n)
  {
    ItoaChars(n, c);
  }

  lemma PrintedIsStripped(name: string, n: nat)
    requires Name(name)
    ensures Strip(Print(name, n)) == TrimSpace(Print(name, n)) == Print(name, n)
  {
    var text := Print(name, n);
    assert text[0] == name[0] && NameChar(name[0]);
    assert text[|text| - 1] == Itoa(n)[|Itoa(n)| - 1] && IsDigit(text[|text| - 1]);
  }

  lemma PrintedDirective(name: string, n: nat)
    requires Name(name)
    ensures ReadDirective(Print(name, n)) == Directive(ToLower(name), Some(Itoa(n)))
    ensures Seconds(Some(Itoa(n))) == n
  {
    PrintedIsStripped(name, n);
    BeforeConcat(name, '=', Itoa(n));
    assert Print(name, n)[|name| + 1..] == Itoa(n);
    DigitsRoundTrip(n);
    assert IsDigit(Itoa(n)[0]);
  }

  lemma PrintedMembers(x: string, n: nat, y: string, m: nat)
    requires Name(x) && Name(y)
    ensures var a, b := Print(x, n), Print(y, m);
            && Members(a, false) == Split(a, ',') == [a]
            && Members(a + "," + b, false) == Split(a + "," + b, ',') == [a, b]
  {
    var a, b := Print(x, n), Print(y, m);
    forall c | c == ',' || c == '"' ensures c !in a && c !in b {
      PrintedChars(x, n, c);
      PrintedChars(y, m, c);
    }
    NoQuotes(a);
    NoQuotes(a + "," + b);
    SplitConcat(a, b, ',');
    SplitWhole(a, ',');
    SplitWhole(b, ',');
  }

  lemma SharedTexts(text: string, a: string, b: string, n: nat)
    requires Members(text, false) == Split(text, ',') == [a, b] && DirectiveAge(a) == Some(n)
    requires ReadDirective(a).name == "max-age" && ReadDirective(b).name == "s-maxage"
    ensures MaxAge(text) == n && StandardAge(text) == Some(Seconds(ReadDirective(b).argument))
  {
    SharedFirst(a, b);
  }

  // The code reads max-age where the standard reads s-maxage.
  lemma SharedAge(n: nat, m: nat)
    requires IsInt64(n)
    ensures var text := Print("max-age", n) + "," + Print("s-maxage", m);
            && MaxAge(text) == n && StandardAge(text) == Some(m)
            && (KeepsStandard(text) <==> StandsFor(n, m))
  {
    var a, b := Print("max-age", n), Print("s-maxage", m);
    LowerName("max-age");
    LowerName("s-maxage");
    PrintedMembers("max-age", n, "s-maxage", m);
    PrintedDirective("max-age", n);
    PrintedDirective("s-maxage", m);
    PrintedIsMaxAge(n);
    SharedTexts(a + "," + b, a, b, n);
    FreshnessCondition(a + "," + b);
  }

  // A max-age alone is read as it is.
  lemma OwnAge(n: nat)
    requires IsInt64(n)
    ensures var text := Print("max-age", n);
            && MaxAge(text) == n && StandardAge(text) == Some(n)
            && (KeepsStandard(text) <==> StandsFor(n, n))
  {
    var text := Print("max-age", n);
    LowerName("max-age");
    PrintedMembers("max-age", n, "max-age", n);
    PrintedDirective("max-age", n);
    PrintedIsMaxAge(n);
    OneMember(text, "s-maxage");
    OneMember(text, "max-age");
    FreshnessCondition(text);
  }

  lemma PrintedIsMaxAge(n: nat)
    requires IsInt64(n)
    ensures DirectiveAge(Print("max-age", n)) == Some(n)
  {
    PrintedAge(n, 0, 0);
    assert Spaces(0) + (PREFIX + Itoa(n) + Spaces(0)) == Print("max-age", n);
  }

  lemma SharedFirst(a: string, b: string)
    requires ReadDirective(a).name == "max-age" && ReadDirective(b).name == "s-maxage"
    ensures AgeOf([a, b]) == Some(Seconds(ReadDirective(b).argument))
  {
    OneMember(b, "s-maxage");
    assert [a, b][1..] == [b];
    assert |"max-age"| == 7 && |"s-maxage"| == 8;
  }

  lemma OneMember(m: string, name: string)
    ensures FirstNamed([m], name) ==
            if ReadDirective(m).name == name then Some(Seconds(ReadDirective(m).argument)) else None
    ensures FirstAge([m]) == DirectiveAge(m)
  {
  }

  // Another spelling of max-age is not the prefix that the code looks for.
  lemma OtherPrefix(name: string, n: nat)
    requires Name(name) && |name| == 7 && name != "max-age"
    ensures DirectiveAge(Print(name, n)) == None
  {
    PrintedIsStripped(name, n);
    assert Print(name, n)[..7] == name;
    assert PREFIX[..7] == "max-age";
  }

  // Any spelling of max-age with a capital letter is overlooked.
  lemma CapitalAge(name: string, n: nat)
    requires ToLower(name) == "max-age" && name != "max-age"
    ensures var text := Print(name, n);
            MaxAge(text) == 0 && StandardAge(text) == Some(n) && !KeepsStandard(text)
  {
    var text := Print(name, n);
    assert |name| == 7;
    forall i | 0 <= i < |name| ensures NameChar(name[i]) {
      assert LowerChar(name[i]) == "max-age"[i];
    }
    PrintedMembers(name, n, name, n);
    PrintedDirective(name, n);
    OtherPrefix(name, n);
    OneMember(text, "s-maxage");
    OneMember(text, "max-age");
    FreshnessCondition(text);
  }

  lemma TwoDigits()
    ensures Itoa(60) == "60" && Itoa(0) == "0"
  {
    assert NatToDigits(6) == "6";
  }

  // Too large for a duration, and kept for 2^31 seconds as in the standard.
  lemma LargeAgeExample()
    ensures KeepsStandard(Print("max-age", 36_028_799_166_447_616))
    ensures Ttl(36_028_799_166_447_616, None, 0) == LARGE * SECOND
  {
    OwnAge(36_028_799_166_447_616);
    TtlExact(36_028_799_166_447_616, LARGE);
  }

  // Kept for a minute, and not at all in the standard.
  lemma SharedAgeExample()
    ensures var text := "max-age=60,s-maxage=0";
            MaxAge(text) == 60 && StandardAge(text) == Some(0) && !KeepsStandard(text)
  {
    TwoDigits();
    SharedAge(60, 0);
    assert Print("max-age", 60) + "," + Print("s-maxage", 0) == "max-age=60,s-maxage=0";
  }

  // Not kept, and for a minute in the standard.
  lemma CapitalAgeExample()
    ensures MaxAge("Max-Age=60") == 0 && StandardAge("Max-Age=60") == Some(60) && !KeepsStandard("Max-Age=60")
  {
    TwoDigits();
    assert ToLower("Max-Age") == "max-age";
    CapitalAge("Max-Age", 60);
    assert Print("Max-Age", 60) == "Max-Age=60";
  }
}
