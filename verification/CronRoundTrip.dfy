/** Printing a schedule and reading it back; what the macros stand for. */
module CronRoundTrip {
  import opened Arithmetic
  import opened Wrappers
  import opened GoInts
  import opened GoStrings
  import opened CronSchedules

  function Numerals(xs: seq<int>): seq<string> {
    seq(|xs|, i requires 0 <= i < |xs| => Itoa(xs[i]))
  }

  // The numbers as a comma-separated list.
  function PrintField(xs: seq<int>): string {
    Join(Numerals(xs), ',')
  }

  function Elements(xs: seq<int>): set<int> {
    set x | x in xs
  }

  // The members of s from lo to hi, in increasing order.
  function Listing(s: set<int>, lo: int, hi: int): (xs: seq<int>)
    ensures forall x :: x in xs <==> x in s && lo <= x <= hi
    decreases hi - lo + 1
  {
    if lo > hi then [] else (if lo in s then [lo] else []) + Listing(s, lo + 1, hi)
  }

  predicate Within(s: set<int>, min: int, max: int) {
    s != {} && forall v | v in s :: min <= v <= max
  }

  // Every field is a non-empty subset of its range.
  predicate WellFormed(s: Schedule) {
    forall k | 0 <= k < 5 :: Within(Field(s, k), FIELD_MIN[k], FIELD_MAX[k])
  }

  function PrintSegments(s: Schedule): seq<string> {
    seq(5, k requires 0 <= k < 5 => PrintField(Listing(Field(s, k), FIELD_MIN[k], FIELD_MAX[k])))
  }

  function PrintSchedule(s: Schedule): string {
    Join(PrintSegments(s), ' ')
  }

  lemma NumeralPart(n: int, min: int, max: int)
    requires 0 <= min <= n <= max && IsInt64(n)
    ensures ParsePart(Itoa(n), min, max) == Ok(Range(n, n, 1))
    ensures Denote(Range(n, n, 1)) == {n}
  {
    var text := Itoa(n);
    assert AllDigits(text) && text != "*" by { assert IsDigit(text[0]); }
    SplitWhole(text, '/');
    SplitWhole(text, '-');
    AtoiItoa(n);
  }

  lemma {:induction false} NumeralParts(xs: seq<int>, min: int, max: int)
    requires 0 <= min <= max <= MAX_INT64
    requires forall i | 0 <= i < |xs| :: min <= xs[i] <= max
    ensures Collect(ParseParts(Numerals(xs), min, max)) == Ok(Elements(xs))
  {
    if xs == [] {
      assert Elements(xs) == {};
    } else {
      var rest := xs[1..];
      NumeralPart(xs[0], min, max);
      NumeralParts(rest, min, max);
      var rs := ParseParts(Numerals(xs), min, max);
      assert rs[0] == Ok(Range(xs[0], xs[0], 1));
      assert rs[1..] == ParseParts(Numerals(rest), min, max);
      assert Elements(xs) == {xs[0]} + Elements(rest);
    }
  }

  // Any list of the members, in any order and with repetitions, parses to the set of them.
  lemma FieldRoundTrip(xs: seq<int>, min: int, max: int)
    requires 0 <= min <= max <= MAX_INT64 && xs != []
    requires forall i | 0 <= i < |xs| :: min <= xs[i] <= max
    ensures ParseSegment(PrintField(xs), min, max) == Ok(Elements(xs))
  {
    forall p | p in Numerals(xs) ensures ',' !in p {
      var i :| 0 <= i < |xs| && p == Itoa(xs[i]);
      ItoaChars(xs[i], ',');
    }
    SplitJoin(Numerals(xs), ',');
    NumeralParts(xs, min, max);
  }

  // ---------- ranges and steps ----------

  function PrintRange(r: Range): string {
    Itoa(r.lo) + "-" + Itoa(r.hi) + "/" + Itoa(r.step)
  }

  function PrintRanges(rs: seq<Range>): seq<string> {
    seq(|rs|, i requires 0 <= i < |rs| => PrintRange(rs[i]))
  }

  predicate Fits(r: Range, min: int, max: int) {
    min <= r.lo <= r.hi <= max && r.step <= max
  }

  lemma RangePart(r: Range, min: int, max: int)
    requires 0 <= min <= max <= MAX_INT64 && Fits(r, min, max)
    ensures ParsePart(PrintRange(r), min, max) == Ok(r) && ',' !in PrintRange(r)
  {
    var lo, hi, step := Itoa(r.lo), Itoa(r.hi), Itoa(r.step);
    AtoiItoa(r.lo);
    AtoiItoa(r.hi);
    AtoiItoa(r.step);
    assert Numeral(lo, r.lo) && Numeral(hi, r.hi);
    assert StepSays(PrintRange(r), lo + "-" + hi, step, r.step, max);
    PartRead(PrintRange(r), lo + "-" + hi, step, lo, hi, r, min, max);
    ItoaChars(r.lo, ',');
    ItoaChars(r.hi, ',');
    ItoaChars(r.step, ',');
  }

  // Any comma list of ranges with steps means the union of the ranges.
  lemma RangesRoundTrip(rs: seq<Range>, min: int, max: int)
    requires 0 <= min <= max <= MAX_INT64 && rs != []
    requires forall i | 0 <= i < |rs| :: Fits(rs[i], min, max)
    ensures var slots := ParseSegment(Join(PrintRanges(rs), ','), min, max);
            slots.Ok? && forall v :: v in slots.value <==> exists i | 0 <= i < |rs| :: InRange(rs[i], v)
  {
    var texts := PrintRanges(rs);
    forall i | 0 <= i < |rs| ensures ParsePart(texts[i], min, max) == Ok(rs[i]) && ',' !in texts[i] {
      RangePart(rs[i], min, max);
    }
    SplitJoin(texts, ',');
    var parsed := ParseParts(texts, min, max);
    CollectMeaning(parsed);
    forall i, v | 0 <= i < |rs| ensures Denotes(parsed[i], v) <==> InRange(rs[i], v) {}
  }

  lemma {:induction false} JoinChars(parts: seq<string>, sep: char, c: char)
    requires c != sep && forall p | p in parts :: c !in p
    ensures c !in Join(parts, sep)
  {
    if |parts| > 1 { JoinChars(parts[1..], sep, c); }
  }

  lemma PrintedField(s: set<int>, min: int, max: int)
    requires 0 <= min <= max <= MAX_INT64 && Within(s, min, max)
    ensures Printed(PrintField(Listing(s, min, max)), min, max, s)
  {
    var xs := Listing(s, min, max);
    var v :| v in s;
    assert v in xs;
    forall i | 0 <= i < |xs| ensures min <= xs[i] <= max { assert xs[i] in xs; }
    FieldRoundTrip(xs, min, max);
    assert Elements(xs) == s;
    forall p | p in Numerals(xs) ensures ' ' !in p && '@' !in p {
      var i :| 0 <= i < |xs| && p == Itoa(xs[i]);
      ItoaChars(xs[i], ' ');
      ItoaChars(xs[i], '@');
    }
    JoinChars(Numerals(xs), ',', ' ');
    JoinChars(Numerals(xs), ',', '@');
  }

  lemma MacroSign(e: string)
    requires Macro(e).Some?
    ensures '@' in e
  {
    assert e[0] == '@';
  }

  // The printed field of s reads as s and fits into an expression.
  predicate Printed(field: string, min: int, max: int, s: set<int>) {
    ParseSegment(field, min, max) == Ok(s) && ' ' !in field && '@' !in field
  }

  // Reading five fields that were joined by spaces.
  lemma JoinedFields(parse: SegmentParser, fields: seq<string>, s: Schedule)
    requires |fields| == 5
    requires forall k | 0 <= k < 5 :: FieldReads(parse, fields, s, k)
    requires forall k | 0 <= k < 5 :: ' ' !in fields[k] && '@' !in fields[k]
    ensures ParseFields(parse, Split(Join(fields, ' '), ' ')) == Ok(s)
    ensures Macro(Join(fields, ' ')).None?
  {
    SplitJoin(fields, ' ');
    FieldsOf(parse, fields, s);
    JoinChars(fields, ' ', '@');
    if Macro(Join(fields, ' ')).Some? { MacroSign(Join(fields, ' ')); }
  }

  lemma PrintedSegment(s: Schedule, k: nat)
    requires WellFormed(s) && k < 5
    ensures FieldReads(ParseSegment, PrintSegments(s), s, k)
    ensures ' ' !in PrintSegments(s)[k] && '@' !in PrintSegments(s)[k]
  {
    PrintedField(Field(s, k), FIELD_MIN[k], FIELD_MAX[k]);
  }

  // Printing a schedule and reading it back gives the schedule.
  lemma ScheduleRoundTrip(s: Schedule)
    requires WellFormed(s)
    ensures NewSchedule(PrintSchedule(s)) == Ok(s)
  {
    forall k | 0 <= k < 5
      ensures FieldReads(ParseSegment, PrintSegments(s), s, k)
      ensures ' ' !in PrintSegments(s)[k] && '@' !in PrintSegments(s)[k]
    {
      PrintedSegment(s, k);
    }
    JoinedFields(ParseSegment, PrintSegments(s), s);
  }

  // The schedules that expressions can denote are exactly the well-formed ones.
  lemma DenotedSchedules(s: Schedule)
    ensures WellFormed(s) <==> exists e :: NewSchedule(e) == Ok(s)
  {
    if WellFormed(s) {
      ScheduleRoundTrip(s);
    }
    if e :| NewSchedule(e) == Ok(s) {
      ParsedIsWellFormed(e);
    }
  }

  lemma ParsedIsWellFormed(e: string)
    requires NewSchedule(e).Ok?
    ensures WellFormed(NewSchedule(e).value)
  {
    var segments := Split(if Macro(e).Some? then Macro(e).value else e, ' ');
    var s := NewSchedule(e).value;
    FieldsOf(ParseSegment, segments, s);
    forall k | 0 <= k < 5
      ensures Within(Field(s, k), FIELD_MIN[k], FIELD_MAX[k])
    {
      assert FieldReads(ParseSegment, segments, s, k);
      SegmentMeaning(segments[k], FIELD_MIN[k], FIELD_MAX[k]);
    }
  }

  // ---------- from an expression to the moments it is due ----------

  // All parts of a segment are readable; some part says a range that v is in.
  ghost predicate Accepts(segment: string, min: int, max: int) {
    forall i | 0 <= i < |Split(segment, ',')| :: Readable(Split(segment, ',')[i], min, max)
  }

  ghost predicate Includes(segment: string, v: int, min: int, max: int) {
    exists i | 0 <= i < |Split(segment, ',')| :: Reaches(Split(segment, ',')[i], v, min, max)
  }

  lemma SegmentIncludes(segment: string, min: int, max: int)
    requires min <= max
    ensures ParseSegment(segment, min, max).Ok? <==> Accepts(segment, min, max)
    ensures ParseSegment(segment, min, max).Ok? ==>
              forall v :: v in ParseSegment(segment, min, max).value <==> Includes(segment, v, min, max)
  {
    SegmentMeaning(segment, min, max);
  }

  // The five segments are minutes, hours, days of the month, months and days of the week.
  lemma FieldsMeaning(parse: SegmentParser, segments: seq<string>)
    ensures ParseFields(parse, segments).Ok? <==>
              && |segments| == 5
              && parse(segments[0], 0, 59).Ok? && parse(segments[1], 0, 23).Ok? && parse(segments[2], 1, 31).Ok?
              && parse(segments[3], 1, 12).Ok? && parse(segments[4], 0, 6).Ok?
    ensures ParseFields(parse, segments).Ok? ==>
              var s := ParseFields(parse, segments).value;
              forall m: Moment :: IsDue(s, m) <==>
                && m.minute in parse(segments[0], 0, 59).value && m.hour in parse(segments[1], 0, 23).value
                && m.day in parse(segments[2], 1, 31).value && m.month in parse(segments[3], 1, 12).value
                && m.dayOfWeek in parse(segments[4], 0, 6).value
  {
  }

  // An expression that is not a macro is accepted exactly if it has five segments whose parts are
  // all readable, and a moment is then due exactly when each of its components is in a range that
  // some part of its segment says; day of the month and day of the week are both required.
  lemma ExpressionDue(e: string, m: Moment)
    requires Macro(e).None?
    ensures var segments := Split(e, ' ');
            && (NewSchedule(e).Ok? <==>
                  && |segments| == 5
                  && Accepts(segments[0], 0, 59) && Accepts(segments[1], 0, 23) && Accepts(segments[2], 1, 31)
                  && Accepts(segments[3], 1, 12) && Accepts(segments[4], 0, 6))
            && (NewSchedule(e).Ok? ==>
                  (IsDue(NewSchedule(e).value, m) <==>
                     && Includes(segments[0], m.minute, 0, 59) && Includes(segments[1], m.hour, 0, 23)
                     && Includes(segments[2], m.day, 1, 31) && Includes(segments[3], m.month, 1, 12)
                     && Includes(segments[4], m.dayOfWeek, 0, 6)))
  {
    var segments := Split(e, ' ');
    FieldsMeaning(ParseSegment, segments);
    if |segments| == 5 {
      SegmentIncludes(segments[0], 0, 59);
      SegmentIncludes(segments[1], 0, 23);
      SegmentIncludes(segments[2], 1, 31);
      SegmentIncludes(segments[3], 1, 12);
      SegmentIncludes(segments[4], 0, 6);
    }
  }

  // ---------- macros ----------

  function All(lo: int, hi: int): (s: set<int>)
    ensures forall v :: v in s <==> lo <= v <= hi
    decreases hi - lo + 1
  {
    if lo > hi then {} else {lo} + All(lo + 1, hi)
  }

  lemma StarSegment(min: int, max: int)
    ensures ParseSegment("*", min, max) == Ok(All(min, max))
  {
    SplitWhole("*", ',');
    SplitWhole("*", '/');
    var r := Range(min, max, 1);
    forall v ensures v in Denote(r) <==> v in All(min, max) {
      ModIs(v - min, 1, v - min, 0);
    }
    assert Denote(r) == All(min, max);
    var rs := ParseParts(["*"], min, max);
    assert ParsePart("*", min, max) == Ok(r);
    assert rs == [Ok(r)] && rs[1..] == [];
    assert Collect(rs) == Ok(Denote(r) + {});
    assert Denote(r) + {} == Denote(r);
  }

  lemma NumeralSegment(n: int, min: int, max: int)
    requires 0 <= min <= n <= max <= MAX_INT64
    ensures ParseSegment(Itoa(n), min, max) == Ok({n})
  {
    FieldRoundTrip([n], min, max);
    assert Numerals([n]) == [Itoa(n)];
    assert Elements([n]) == {n};
  }

  // The segments that occur in the macro table.
  datatype Basic = Zero | One | Star

  function Text(b: Basic): char {
    match b
    case Zero => '0'
    case One => '1'
    case Star => '*'
  }

  function BasicSlots(b: Basic, k: nat): set<int>
    requires k < 5
  {
    match b
    case Zero => {0}
    case One => {1}
    case Star => All(FIELD_MIN[k], FIELD_MAX[k])
  }

  // 0 is not a day or a month.
  predicate Allowed(b: Basic, k: nat)
    requires k < 5
  {
    b.Zero? ==> FIELD_MIN[k] == 0
  }

  lemma BasicSegment(b: Basic, k: nat)
    requires k < 5 && Allowed(b, k)
    ensures Printed([Text(b)], FIELD_MIN[k], FIELD_MAX[k], BasicSlots(b, k))
  {
    if b.Star? {
      StarSegment(FIELD_MIN[k], FIELD_MAX[k]);
    } else {
      var n := if b.Zero? then 0 else 1;
      assert Itoa(n) == [Text(b)];
      NumeralSegment(n, FIELD_MIN[k], FIELD_MAX[k]);
    }
  }

  function Texts(bs: seq<Basic>): seq<string> {
    seq(|bs|, k requires 0 <= k < |bs| => [Text(bs[k])])
  }

  lemma BasicExpression(bs: seq<Basic>, s: Schedule)
    requires |bs| == 5
    requires forall k | 0 <= k < 5 :: Allowed(bs[k], k) && Field(s, k) == BasicSlots(bs[k], k)
    ensures ParseFields(ParseSegment, Split(Join(Texts(bs), ' '), ' ')) == Ok(s)
    ensures Macro(Join(Texts(bs), ' ')).None?
  {
    var fields := Texts(bs);
    forall k | 0 <= k < 5
      ensures FieldReads(ParseSegment, fields, s, k)
      ensures ' ' !in fields[k] && '@' !in fields[k]
    {
      BasicSegment(bs[k], k);
    }
    JoinedFields(ParseSegment, fields, s);
  }

  lemma JoinFive(a: char, b: char, c: char, d: char, w: char)
    ensures Join([[a], [b], [c], [d], [w]], ' ') == [a, ' ', b, ' ', c, ' ', d, ' ', w]
  {
    assert [[a], [b], [c], [d], [w]][1..] == [[b], [c], [d], [w]];
    assert [[b], [c], [d], [w]][1..] == [[c], [d], [w]];
    assert [[c], [d], [w]][1..] == [[d], [w]];
    assert [[d], [w]][1..] == [[w]];
    assert Join([[d], [w]], ' ') == [d, ' ', w];
    assert Join([[c], [d], [w]], ' ') == [c, ' ', d, ' ', w];
  }

  // The names that are macros.
  lemma MacroNames(m: string)
    ensures Macro(m).Some? <==>
              || m == "@yearly" || m == "@annually" || m == "@monthly" || m == "@weekly"
              || m == "@daily" || m == "@midnight" || m == "@hourly" || m == "@minutely"
  {
  }

  // What the documentation says each macro stands for.
  function Meaning(m: string): Schedule
    requires Macro(m).Some?
  {
    if m == "@yearly" || m == "@annually" then Schedule({0}, {0}, {1}, {1}, All(0, 6))
    else if m == "@monthly" then Schedule({0}, {0}, {1}, All(1, 12), All(0, 6))
    else if m == "@weekly" then Schedule({0}, {0}, All(1, 31), All(1, 12), {0})
    else if m == "@daily" || m == "@midnight" then Schedule({0}, {0}, All(1, 31), All(1, 12), All(0, 6))
    else if m == "@hourly" then Schedule({0}, All(0, 23), All(1, 31), All(1, 12), All(0, 6))
    else Schedule(All(0, 59), All(0, 23), All(1, 31), All(1, 12), All(0, 6))
  }

  // The segments of an expansion, as text and as slots.
  lemma Expansion(bs: seq<Basic>, text: string, s: Schedule)
    requires |bs| == 5 && forall k | 0 <= k < 5 :: Allowed(bs[k], k)
    requires text == [Text(bs[0]), ' ', Text(bs[1]), ' ', Text(bs[2]), ' ', Text(bs[3]), ' ', Text(bs[4])]
    requires s == Schedule(BasicSlots(bs[0], 0), BasicSlots(bs[1], 1), BasicSlots(bs[2], 2),
                           BasicSlots(bs[3], 3), BasicSlots(bs[4], 4))
    ensures ParseFields(ParseSegment, Split(text, ' ')) == Ok(s) && Macro(text).None?
  {
    JoinFive(Text(bs[0]), Text(bs[1]), Text(bs[2]), Text(bs[3]), Text(bs[4]));
    assert Texts(bs) == [[Text(bs[0])], [Text(bs[1])], [Text(bs[2])], [Text(bs[3])], [Text(bs[4])]];
    BasicExpression(bs, s);
  }

  // Each macro reads as its five-segment expansion, and means what its name says.
  lemma MacroMeaning(m: string)
    requires Macro(m).Some?
    ensures NewSchedule(Macro(m).value) == NewSchedule(m) == Ok(Meaning(m))
  {
    var bs :=
      if m == "@yearly" || m == "@annually" then [Zero, Zero, One, One, Star]
      else if m == "@monthly" then [Zero, Zero, One, Star, Star]
      else if m == "@weekly" then [Zero, Zero, Star, Star, Zero]
      else if m == "@daily" || m == "@midnight" then [Zero, Zero, Star, Star, Star]
      else if m == "@hourly" then [Zero, Star, Star, Star, Star]
      else [Star, Star, Star, Star, Star];
    Expansion(bs, Macro(m).value, Meaning(m));
  }
}
