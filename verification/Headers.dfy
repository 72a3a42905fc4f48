/** net/http.Header as internal/middlewares uses it: canonical keys, Get, Set, Add and Del. */
module Headers {
  import opened GoStrings

  type Header = map<string, seq<string>>

  // The characters allowed in a header field name.
  predicate IsToken(c: char) {
    || '0' <= c <= '9' || 'a' <= c <= 'z' || 'A' <= c <= 'Z'
    || c in "!#$%&'*+-.^_`|~"
  }

  predicate AllTokens(s: string) {
    forall i | 0 <= i < |s| :: IsToken(s[i])
  }

  function Recase(c: char, upper: bool): char {
    if upper && 'a' <= c <= 'z' then (c as int - 32) as char
    else if !upper && 'A' <= c <= 'Z' then (c as int + 32) as char
    else c
  }

  // A letter at the start or after a hyphen is upper case, every other letter lower case.
  function RecaseFrom(s: string, upper: bool): (r: string)
    ensures |r| == |s|
  {
    if s == [] then [] else [Recase(s[0], upper)] + RecaseFrom(s[1..], s[0] == '-')
  }

  // CanonicalHeaderKey: a name with other characters is returned as it is.
  function Canonical(key: string): string {
    if AllTokens(key) then RecaseFrom(key, true) else key
  }

  lemma {:induction false} RecaseTwice(s: string, upper: bool)
    ensures RecaseFrom(RecaseFrom(s, upper), upper) == RecaseFrom(s, upper)
    ensures AllTokens(s) ==> AllTokens(RecaseFrom(s, upper))
  {
    if s != [] {
      var r := RecaseFrom(s, upper);
      RecaseTwice(s[1..], s[0] == '-');
      assert r[0] == Recase(s[0], upper) && r[1..] == RecaseFrom(s[1..], s[0] == '-');
      if AllTokens(s) {
        assert IsToken(s[0]);
        assert AllTokens(s[1..]);
        assert forall i | 0 < i < |r| :: r[i] == r[1..][i - 1];
      }
    }
  }

  lemma CanonicalIdempotent(key: string)
    ensures Canonical(Canonical(key)) == Canonical(key)
  {
    RecaseTwice(key, true);
  }

  // Field names are the same exactly when they differ in letter case only.
  lemma CanonicalCase(a: string, b: string)
    requires AllTokens(a) && AllTokens(b)
    ensures Canonical(a) == Canonical(b) <==> ToLower(a) == ToLower(b)
  {
    LowerRecase(a, true);
    LowerRecase(b, true);
    if ToLower(a) == ToLower(b) { RecaseLower(a, b, true); }
  }

  lemma {:induction false} LowerRecase(s: string, upper: bool)
    ensures ToLower(RecaseFrom(s, upper)) == ToLower(s)
  {
    if s != [] {
      LowerRecase(s[1..], s[0] == '-');
      assert RecaseFrom(s, upper)[1..] == RecaseFrom(s[1..], s[0] == '-');
    }
  }

  lemma {:induction false} RecaseLower(a: string, b: string, upper: bool)
    requires ToLower(a) == ToLower(b)
    ensures RecaseFrom(a, upper) == RecaseFrom(b, upper)
  {
    assert |a| == |ToLower(a)| == |ToLower(b)| == |b|;
    if a != [] {
      assert ToLower(a)[0] == LowerChar(a[0]) && ToLower(b)[0] == LowerChar(b[0]);
      assert ToLower(a)[1..] == ToLower(a[1..]) && ToLower(b)[1..] == ToLower(b[1..]);
      assert a[0] == '-' <==> b[0] == '-';
      RecaseLower(a[1..], b[1..], a[0] == '-');
    }
  }

  // How a name is spelled: letters at the start and after hyphens in upper case, all others in
  // lower case, and everything else as it is.
  lemma CanonicalSpelling(key: string)
    ensures AllTokens(key) ==>
              && |Canonical(key)| == |key|
              && forall i | 0 <= i < |key| ::
                   Canonical(key)[i] == Recase(key[i], i == 0 || key[i - 1] == '-')
    ensures !AllTokens(key) ==> Canonical(key) == key
  {
    if AllTokens(key) { RecaseAt(key, true); }
  }

  lemma {:induction false} RecaseAt(s: string, upper: bool)
    ensures |RecaseFrom(s, upper)| == |s|
    ensures forall i | 0 <= i < |s| ::
              RecaseFrom(s, upper)[i] == Recase(s[i], if i == 0 then upper else s[i - 1] == '-')
  {
    if s != [] {
      var rest := s[1..];
      RecaseAt(rest, s[0] == '-');
      forall i | 1 <= i < |s|
        ensures RecaseFrom(s, upper)[i] == Recase(s[i], s[i - 1] == '-')
      {
        assert RecaseFrom(s, upper)[i] == RecaseFrom(rest, s[0] == '-')[i - 1];
        assert rest[i - 1] == s[i] && (i >= 2 ==> rest[i - 2] == s[i - 1]);
      }
    }
  }

  // Upper and lower case of a letter; other characters have only one.
  lemma RecaseMeaning(c: char)
    ensures 'a' <= c <= 'z' ==> Recase(c, false) == c && Recase(c, true) as int == c as int + 'A' as int - 'a' as int
    ensures 'A' <= c <= 'Z' ==> Recase(c, true) == c && Recase(c, false) as int == c as int + 'a' as int - 'A' as int
    ensures !('a' <= c <= 'z') && !('A' <= c <= 'Z') ==> Recase(c, true) == Recase(c, false) == c
  {
  }

  function Get(h: Header, key: string): string {
    var c := Canonical(key);
    if c in h && h[c] != [] then h[c][0] else ""
  }

  function Set(h: Header, key: string, value: string): Header {
    h[Canonical(key) := [value]]
  }

  function Add(h: Header, key: string, value: string): Header {
    var c := Canonical(key);
    h[c := (if c in h then h[c] else []) + [value]]
  }

  function Del(h: Header, key: string): Header {
    h - {Canonical(key)}
  }

  // What a lookup under any spelling finds after a change.
  lemma LookupAfterChange(h: Header, key: string, value: string, other: string)
    ensures Get(Set(h, key, value), other) == if Canonical(other) == Canonical(key) then value else Get(h, other)
    ensures Get(Del(h, key), other) == if Canonical(other) == Canonical(key) then "" else Get(h, other)
    ensures Get(Add(h, key, value), other) ==
            if Canonical(other) == Canonical(key) && (Canonical(key) in h ==> h[Canonical(key)] == []) then value
            else Get(h, other)
  {
    var c := Canonical(key);
    var values := if c in h then h[c] else [];
    assert (values + [value])[0] == if values == [] then value else values[0];
  }

  // ---------- what forwarding keeps of a header ----------

  function CanonicalKeys(h: Header): set<string> {
    set k | k in h :: Canonical(k)
  }

  // Set(k, Get(k)) for every key k of h, on an empty header.
  function FirstValues(h: Header): Header {
    map c | c in CanonicalKeys(h) :: [Get(h, c)]
  }

  lemma FirstValuesShape(h: Header, c: string)
    ensures c in CanonicalKeys(h) ==> Canonical(c) == c
    ensures Canonical(c) in h ==> Canonical(c) in CanonicalKeys(h)
  {
    if k :| k in h && Canonical(k) == c {
      CanonicalIdempotent(k);
    }
    CanonicalIdempotent(c);
  }

  // Every lookup gives the same value before and after.
  lemma FirstValuesGet(h: Header, key: string)
    ensures Get(FirstValues(h), key) == Get(h, key)
  {
    CanonicalIdempotent(key);
    FirstValuesShape(h, key);
  }

  predicate SingleValued(h: Header) {
    forall k | k in h :: Canonical(k) == k && |h[k]| == 1
  }

  lemma FirstValuesSingle(h: Header)
    ensures SingleValued(FirstValues(h))
  {
    forall c | c in FirstValues(h) ensures Canonical(c) == c {
      FirstValuesShape(h, c);
    }
  }

  lemma SingleKept(h: Header)
    requires SingleValued(h)
    ensures FirstValues(h) == h
  {
    forall c ensures c in CanonicalKeys(h) <==> c in h {
      if c in h { assert Canonical(c) == c; }
    }
    forall c | c in h ensures h[c] == [Get(h, c)] {
      assert h[c] == [h[c][0]];
    }
  }

  // The whole header survives exactly when its keys are canonical and have one value each.
  lemma FirstValuesCondition(h: Header)
    ensures FirstValues(h) == h <==> SingleValued(h)
  {
    FirstValuesSingle(h);
    if SingleValued(h) { SingleKept(h); }
  }

  lemma FirstValuesIdempotent(h: Header)
    ensures FirstValues(FirstValues(h)) == FirstValues(h)
  {
    FirstValuesSingle(h);
    SingleKept(FirstValues(h));
  }
}
