/**
 The few functions of Go's strings and strconv packages that gatego calls. A Go string is modelled
 as a Dafny string; letters outside ASCII are left alone by ToLower.
 */
module GoStrings {
  import opened Wrappers
  import opened GoInts

  // ---------- strings.Split with a one-character separator, and its inverse ----------

  function Split(s: string, sep: char): (parts: seq<string>)
    ensures |parts| >= 1
  {
    if s == [] then [[]]
    else
      var rest := Split(s[1..], sep);
      if s[0] == sep then [[]] + rest else [[s[0]] + rest[0]] + rest[1..]
  }

  function Join(parts: seq<string>, sep: char): string {
    if |parts| == 0 then []
    else if |parts| == 1 then parts[0]
    else parts[0] + [sep] + Join(parts[1..], sep)
  }

  lemma SplitCons(c: char, s: string, sep: char)
    ensures Split([c] + s, sep) ==
            if c == sep then [[]] + Split(s, sep) else [[c] + Split(s, sep)[0]] + Split(s, sep)[1..]
  {
    assert ([c] + s)[1..] == s;
  }

  lemma {:induction false} SplitConcat(a: string, b: string, sep: char)
    ensures Split(a + [sep] + b, sep) == Split(a, sep) + Split(b, sep)
  {
    if a == [] {
      SplitCons(sep, b, sep);
    } else {
      var c, rest := a[0], a[1..];
      assert a + [sep] + b == [c] + (rest + [sep] + b);
      SplitConcat(rest, b, sep);
      SplitCons(c, rest + [sep] + b, sep);
    }
  }

  lemma {:induction false} SplitWhole(s: string, sep: char)
    requires sep !in s
    ensures Split(s, sep) == [s]
  {
    if s != [] {
      SplitWhole(s[1..], sep);
      assert [s[0]] + s[1..] == s;
    }
  }

  lemma {:induction false} SplitJoin(parts: seq<string>, sep: char)
    requires |parts| >= 1
    requires forall p | p in parts :: sep !in p
    ensures Split(Join(parts, sep), sep) == parts
  {
    SplitWhole(parts[0], sep);
    if |parts| > 1 {
      SplitJoin(parts[1..], sep);
      SplitConcat(parts[0], Join(parts[1..], sep), sep);
      assert [parts[0]] + parts[1..] == parts;
    }
  }

  lemma {:induction false} JoinSplit(s: string, sep: char)
    ensures Join(Split(s, sep), sep) == s
  {
    if s != [] {
      var rest := Split(s[1..], sep);
      JoinSplit(s[1..], sep);
      if s[0] == sep {
        assert ([[]] + rest)[1..] == rest;
      } else {
        var parts := [[s[0]] + rest[0]] + rest[1..];
        assert parts[1..] == rest[1..];
        if |rest| > 1 {
          assert Join(parts, sep) == [s[0]] + (rest[0] + [sep] + Join(rest[1..], sep));
        }
      }
    }
  }

  lemma JoinTwo(parts: seq<string>, sep: char)
    requires |parts| == 2
    ensures Join(parts, sep) == parts[0] + [sep] + parts[1]
  {
    assert parts[1..] == [parts[1]];
  }

  // The first piece is exactly the text before the first separator.
  lemma {:induction false} SplitHead(s: string, sep: char)
    ensures var h := Split(s, sep)[0];
            h <= s && sep !in h && (h == s || s[|h|] == sep)
  {
    if s != [] && s[0] != sep {
      SplitHead(s[1..], sep);
    }
  }

  lemma {:induction false} SplitPieces(s: string, sep: char)
    ensures forall p | p in Split(s, sep) :: sep !in p
  {
    if s != [] {
      SplitPieces(s[1..], sep);
      assert Split(s[1..], sep)[0] in Split(s[1..], sep);
    }
  }

  // ---------- strconv.Itoa and strconv.Atoi (64-bit int) ----------

  datatype NumError = BadSyntax | OutOfRange

  predicate IsDigit(c: char) {
    '0' <= c <= '9'
  }

  predicate AllDigits(s: string) {
    forall c | c in s :: IsDigit(c)
  }

  function DigitChar(d: nat): (c: char)
    requires d < 10
    ensures IsDigit(c) && c as int - '0' as int == d
  {
    ('0' as int + d) as char
  }

  function NatToDigits(n: nat): (s: string)
    ensures |s| >= 1 && AllDigits(s)
  {
    if n < 10 then [DigitChar(n)] else NatToDigits(n / 10) + [DigitChar(n % 10)]
  }

  function DigitsToNat(s: string): nat
    requires AllDigits(s)
  {
    if s == [] then 0
    else
      assert IsDigit(s[|s| - 1]);
      10 * DigitsToNat(s[..|s| - 1]) + (s[|s| - 1] as int - '0' as int)
  }

  function Itoa(n: int): string {
    if n < 0 then "-" + NatToDigits(-n) else NatToDigits(n)
  }

  // An optional sign, then at least one digit and nothing else; the value must fit 64 bits.
  function Atoi(s: string): Result<int, NumError> {
    var signed := |s| > 0 && (s[0] == '-' || s[0] == '+');
    var digits := if signed then s[1..] else s;
    if |digits| == 0 || !AllDigits(digits) then Err(BadSyntax)
    else
      var magnitude: int := DigitsToNat(digits);
      var n: int := if signed && s[0] == '-' then -magnitude else magnitude;
      if IsInt64(n) then Ok(n) else Err(OutOfRange)
  }

  lemma {:induction false} DigitsRoundTrip(n: nat)
    ensures DigitsToNat(NatToDigits(n)) == n
  {
    if n >= 10 {
      DigitsRoundTrip(n / 10);
      var s := NatToDigits(n);
      assert s[..|s| - 1] == NatToDigits(n / 10);
    }
  }

  lemma AtoiDigits(s: string)
    requires s != [] && AllDigits(s)
    ensures var n: int := DigitsToNat(s);
            && Atoi(s) == (if IsInt64(n) then Ok(n) else Err(OutOfRange))
            && Atoi("-" + s) == (if IsInt64(-n) then Ok(-n) else Err(OutOfRange))
  {
    assert s[0] in s && IsDigit(s[0]);
    assert ("-" + s)[1..] == s;
  }

  lemma AtoiItoa(n: int)
    requires IsInt64(n)
    ensures Atoi(Itoa(n)) == Ok(n)
  {
    var digits := NatToDigits(if n < 0 then -n else n);
    DigitsRoundTrip(if n < 0 then -n else n);
    AtoiDigits(digits);
  }

  // s is a numeral of n: digits, with a sign or without.
  predicate Spells(s: string, digits: string, n: int) {
    && digits != [] && AllDigits(digits)
    && ((s == digits && n == DigitsToNat(digits)) || (s == "+" + digits && n == DigitsToNat(digits))
        || (s == "-" + digits && n == -(DigitsToNat(digits) as int)))
  }

  // Exactly which texts are read as numbers of 64 bits, and what is wrong with the others.
  lemma AtoiMeaning(s: string, n: int)
    ensures Atoi(s) == Ok(n) <==> IsInt64(n) && exists digits :: Spells(s, digits, n)
    ensures Atoi(s) == Err(OutOfRange) <==> exists m, digits :: Spells(s, digits, m) && !IsInt64(m)
  {
    var signed := |s| > 0 && (s[0] == '-' || s[0] == '+');
    var digits := if signed then s[1..] else s;
    if signed { assert s == [s[0]] + digits; }
    if digits != [] && AllDigits(digits) {
      var value: int := DigitsToNat(digits);
      var m := if signed && s[0] == '-' then -value else value;
      assert Spells(s, digits, m);
    }
    forall d, m | Spells(s, d, m) ensures d == digits {
      assert d[0] in d && IsDigit(d[0]);
    }
  }

  lemma AtoiChars(s: string, c: char)
    requires Atoi(s).Ok? && !IsDigit(c) && c != '-' && c != '+'
    ensures c !in s
  {
    assert s == [s[0]] + s[1..];
  }

  // Decimal numerals are made of digits and a minus sign only.
  lemma ItoaChars(n: int, c: char)
    requires !IsDigit(c) && c != '-'
    ensures c !in Itoa(n)
  {
  }

  lemma ItoaInjective(m: int, n: int)
    requires IsInt64(m) && IsInt64(n) && Itoa(m) == Itoa(n)
    ensures m == n
  {
    AtoiItoa(m);
    AtoiItoa(n);
  }

  // ---------- strings.ToLower, HasPrefix, TrimPrefix, TrimSpace on ASCII ----------

  function LowerChar(c: char): char {
    if 'A' <= c <= 'Z' then (c as int + 32) as char else c
  }

  function ToLower(s: string): (r: string)
    ensures |r| == |s|
    ensures forall i | 0 <= i < |s| :: r[i] == LowerChar(s[i])
  {
    if s == [] then [] else [LowerChar(s[0])] + ToLower(s[1..])
  }

  lemma ToLowerIdempotent(s: string)
    ensures ToLower(ToLower(s)) == ToLower(s)
  {
    assert forall i | 0 <= i < |s| :: LowerChar(LowerChar(s[i])) == LowerChar(s[i]);
  }

  lemma ToLowerMember(s: string, c: char)
    requires c in s
    ensures LowerChar(c) in ToLower(s)
  {
    var i :| 0 <= i < |s| && s[i] == c;
    assert ToLower(s)[i] == LowerChar(c);
  }

  predicate IsSpace(c: char) {
    c == ' ' || c == '\t' || c == '\n' || c == '\r' || c as int == 11 || c as int == 12
  }

  function TrimLeft(s: string): string {
    if s != [] && IsSpace(s[0]) then TrimLeft(s[1..]) else s
  }

  function TrimRight(s: string): string {
    if s != [] && IsSpace(s[|s| - 1]) then TrimRight(s[..|s| - 1]) else s
  }

  function TrimSpace(s: string): string {
    TrimRight(TrimLeft(s))
  }

  predicate AllSpaces(s: string) {
    forall c | c in s :: IsSpace(c)
  }

  lemma {:induction false} TrimLeftMeaning(s: string) returns (cut: string)
    ensures s == cut + TrimLeft(s) && AllSpaces(cut)
    ensures TrimLeft(s) != [] ==> !IsSpace(TrimLeft(s)[0])
  {
    cut := [];
    if s != [] && IsSpace(s[0]) {
      cut := TrimLeftMeaning(s[1..]);
      assert s == [s[0]] + s[1..];
      cut := [s[0]] + cut;
    }
  }

  lemma {:induction false} TrimRightMeaning(s: string) returns (cut: string)
    ensures s == TrimRight(s) + cut && AllSpaces(cut)
    ensures TrimRight(s) != [] ==> !IsSpace(TrimRight(s)[|TrimRight(s)| - 1])
  {
    cut := [];
    if s != [] && IsSpace(s[|s| - 1]) {
      var n := |s| - 1;
      cut := TrimRightMeaning(s[..n]);
      assert s == s[..n] + [s[n]];
      cut := cut + [s[n]];
    }
  }

  // Only blanks are cut off, at both ends, and all of them.
  lemma TrimSpaceMeaning(s: string) returns (left: string, right: string)
    ensures s == left + TrimSpace(s) + right && AllSpaces(left) && AllSpaces(right)
    ensures var t := TrimSpace(s);
            t != [] ==> !IsSpace(t[0]) && !IsSpace(t[|t| - 1])
  {
    left := TrimLeftMeaning(s);
    right := TrimRightMeaning(TrimLeft(s));
  }

  predicate HasPrefix(s: string, prefix: string) {
    prefix <= s
  }

  function TrimPrefix(s: string, prefix: string): string {
    if prefix <= s then s[|prefix|..] else s
  }
}
