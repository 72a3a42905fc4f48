/** pkg/cron/schedule.go and macros.go: cron expressions and the moments they denote. */
module CronSchedules {
  import opened Arithmetic
  import opened Wrappers
  import opened GoStrings

  datatype CronError =
    | NotFiveSegments
    | BadNumber(reason: NumError)
    | StepOutOfRange
    | TooManySteps
    | StepNeedsRange
    | ValueOutOfRange
    | RangeMinimum
    | RangeMaximum
    | TooManyRangeParts

  // ---------- one comma-separated part ----------

  type PosInt = n: int | n > 0 witness 1

  // The numbers lo, lo + step, .. up to hi.
  datatype Range = Range(lo: int, hi: int, step: PosInt)

  function ParseStep(stepParts: seq<string>, max: int): Result<PosInt, CronError> {
    if |stepParts| == 1 then Ok(1)
    else if |stepParts| != 2 then Err(TooManySteps)
    else
      match Atoi(stepParts[1])
      case Err(e) => Err(BadNumber(e))
      case Ok(step) => if step < 1 || step > max then Err(StepOutOfRange) else Ok(step)
  }

  function ParseSingle(text: string, step: PosInt, min: int, max: int): Result<Range, CronError> {
    if step != 1 then Err(StepNeedsRange)
    else
      match Atoi(text)
      case Err(e) => Err(BadNumber(e))
      case Ok(n) => if n < min || n > max then Err(ValueOutOfRange) else Ok(Range(n, n, step))
  }

  function ParseInterval(lo: string, hi: string, step: PosInt, min: int, max: int): Result<Range, CronError> {
    match Atoi(lo)
    case Err(e) => Err(BadNumber(e))
    case Ok(l) =>
      if l < min || l > max then Err(RangeMinimum)
      else
        match Atoi(hi)
        case Err(e) => Err(BadNumber(e))
        case Ok(h) => if h < l || h > max then Err(RangeMaximum) else Ok(Range(l, h, step))
  }

  function ParsePart(p: string, min: int, max: int): Result<Range, CronError> {
    var stepParts := Split(p, '/');
    match ParseStep(stepParts, max)
    case Err(e) => Err(e)
    case Ok(step) =>
      ParseBody(stepParts[0], step, min, max)
  }

  function ParseBody(body: string, step: PosInt, min: int, max: int): Result<Range, CronError> {
    if body == "*" then Ok(Range(min, max, step))
    else
      var rangeParts := Split(body, '-');
      if |rangeParts| == 1 then ParseSingle(rangeParts[0], step, min, max)
      else if |rangeParts| == 2 then ParseInterval(rangeParts[0], rangeParts[1], step, min, max)
      else Err(TooManyRangeParts)
  }

  // ---------- what a part says ----------

  // A number as it may occur in a part; it can have a plus sign.
  predicate Numeral(text: string, n: int) {
    '-' !in text && Atoi(text) == Ok(n)
  }

  // A star, one number, or two numbers around a hyphen.
  predicate BodySays(body: string, lo: string, hi: string, r: Range, min: int, max: int) {
    || (body == "*" && r.lo == min && r.hi == max)
    || (Numeral(body, r.lo) && r.hi == r.lo && r.step == 1 && min <= r.lo <= max)
    || (body == lo + "-" + hi && Numeral(lo, r.lo) && Numeral(hi, r.hi) && min <= r.lo <= r.hi <= max)
  }

  // A body alone, with step 1, or a body and a step from 1 to max after a slash.
  predicate StepSays(p: string, body: string, step: string, n: PosInt, max: int) {
    (p == body && n == 1) || (p == body + "/" + step && Atoi(step) == Ok(n) && n <= max)
  }

  ghost predicate PartSays(p: string, r: Range, min: int, max: int) {
    exists body, step, lo, hi :: StepSays(p, body, step, r.step, max) && BodySays(body, lo, hi, r, min, max)
  }

  lemma BodyParsed(body: string, r: Range, min: int, max: int) returns (lo: string, hi: string)
    requires ParseBody(body, r.step, min, max) == Ok(r)
    ensures BodySays(body, lo, hi, r, min, max)
  {
    var parts := Split(body, '-');
    lo, hi := parts[0], parts[|parts| - 1];
    if body != "*" {
      JoinSplit(body, '-');
      SplitPieces(body, '-');
      assert lo in parts && hi in parts;
      if |parts| == 2 { JoinTwo(parts, '-'); }
    }
  }

  lemma BodyRead(body: string, lo: string, hi: string, r: Range, min: int, max: int)
    requires BodySays(body, lo, hi, r, min, max)
    ensures ParseBody(body, r.step, min, max) == Ok(r)
  {
    if body != "*" {
      if Numeral(body, r.lo) {
        SplitWhole(body, '-');
      } else {
        SplitConcat(lo, hi, '-');
        SplitWhole(lo, '-');
        SplitWhole(hi, '-');
      }
    } else {
      if Atoi(body).Ok? { AtoiChars(body, '*'); }
      assert '-' !in body;
    }
  }

  lemma NoSlash(body: string, lo: string, hi: string, r: Range, min: int, max: int)
    requires BodySays(body, lo, hi, r, min, max)
    ensures '/' !in body
  {
    if body != "*" {
      if Numeral(body, r.lo) {
        AtoiChars(body, '/');
      } else {
        AtoiChars(lo, '/');
        AtoiChars(hi, '/');
      }
    }
  }

  lemma PartRead(p: string, body: string, step: string, lo: string, hi: string, r: Range, min: int, max: int)
    requires StepSays(p, body, step, r.step, max) && BodySays(body, lo, hi, r, min, max)
    ensures ParsePart(p, min, max) == Ok(r)
  {
    BodyRead(body, lo, hi, r, min, max);
    NoSlash(body, lo, hi, r, min, max);
    SplitWhole(body, '/');
    if p != body {
      AtoiChars(step, '/');
      SplitConcat(body, step, '/');
      SplitWhole(step, '/');
    }
  }

  // Exactly which texts are read as the range r.
  lemma PartMeaning(p: string, r: Range, min: int, max: int)
    ensures ParsePart(p, min, max) == Ok(r) <==> PartSays(p, r, min, max)
  {
    if ParsePart(p, min, max) == Ok(r) {
      var parts := Split(p, '/');
      JoinSplit(p, '/');
      if |parts| == 2 { JoinTwo(parts, '/'); }
      var lo, hi := BodyParsed(parts[0], r, min, max);
      assert StepSays(p, parts[0], parts[|parts| - 1], r.step, max);
    }
    if body, step, lo, hi :| StepSays(p, body, step, r.step, max) && BodySays(body, lo, hi, r, min, max) {
      PartRead(p, body, step, lo, hi, r, min, max);
    }
  }

  // Why a part is refused, checked in this order: the step, the number of bounds, the lower bound,
  // the upper one.
  lemma RejectedPart(p: string, min: int, max: int)
    ensures var r, steps := ParsePart(p, min, max), Split(p, '/');
            var bounds, step := Split(steps[0], '-'), if |steps| == 2 then Atoi(steps[1]) else Ok(1);
            var stepped := |steps| <= 2 && step.Ok? && (|steps| == 1 || 1 <= step.value <= max);
            var single, double := stepped && steps[0] != "*" && |bounds| == 1, stepped && |bounds| == 2;
            var lo, hi := Atoi(bounds[0]), if |bounds| == 2 then Atoi(bounds[1]) else Ok(0);
            var low := lo.Ok? && min <= lo.value <= max;
            && (r == Err(TooManySteps) <==> |steps| > 2)
            && (r == Err(StepOutOfRange) <==> |steps| == 2 && step.Ok? && !stepped)
            && (r == Err(TooManyRangeParts) <==> stepped && |bounds| > 2)
            && (r == Err(StepNeedsRange) <==> single && step.value != 1)
            && (r == Err(ValueOutOfRange) <==> single && step.value == 1 && lo.Ok? && !low)
            && (r == Err(RangeMinimum) <==> double && lo.Ok? && !low)
            && (r == Err(RangeMaximum) <==> double && low && hi.Ok? && !(lo.value <= hi.value <= max))
            && (forall e :: r == Err(BadNumber(e)) <==>
                  || (|steps| == 2 && step == Err(e))
                  || (((single && step.value == 1) || double) && lo == Err(e))
                  || (double && low && hi == Err(e)))
            && r != Err(NotFiveSegments)
  {
    if Split(p, '/')[0] == "*" { SplitWhole("*", '-'); }
  }

  predicate InRange(r: Range, v: int) {
    r.lo <= v <= r.hi && (v - r.lo) % r.step == 0
  }

  function Denote(r: Range): set<int> {
    set v | r.lo <= v <= r.hi && InRange(r, v)
  }

  // ---------- a segment ----------

  type Parsed = Result<Range, CronError>

  type Slots = Result<set<int>, CronError>

  // The slots of all parts, or the error of the first part that has one.
  function Collect(rs: seq<Parsed>): Slots {
    if rs == [] then Ok({})
    else
      match rs[0]
      case Err(e) => Err(e)
      case Ok(r) =>
        match Collect(rs[1..])
        case Err(e) => Err(e)
        case Ok(rest) => Ok(Denote(r) + rest)
  }

  function ParseParts(ps: seq<string>, min: int, max: int): seq<Parsed> {
    seq(|ps|, i requires 0 <= i < |ps| => ParsePart(ps[i], min, max))
  }

  function ParseSegment(segment: string, min: int, max: int): Slots {
    Collect(ParseParts(Split(segment, ','), min, max))
  }

  method ParseCronSegment(segment: string, min: int, max: int) returns (r: Slots)
    ensures r == ParseSegment(segment, min, max)
  {
    var slots: set<int> := {};
    var list := Split(segment, ',');
    ghost var rs := ParseParts(list, min, max);
    assert rs[0..] == rs;
    BothEmpty(Collect(rs));
    for k := 0 to |list|
      invariant Collect(rs) == Both(Ok(slots), Collect(rs[k..]))
    {
      var part := ParsePart(list[k], min, max);
      assert rs[k..][0] == part && rs[k..][1..] == rs[k + 1..];
      if part.Err? {
        return Err(part.error);
      }
      ghost var before := slots;
      slots := FillSlots(slots, part.value);
      assert forall more: set<int> :: before + (Denote(part.value) + more) == slots + more;
    }
    return Ok(slots);
  }

  // The union of two results; the first error wins.
  function Both(a: Slots, b: Slots): Slots {
    if a.Err? then a else if b.Err? then b else Ok(a.value + b.value)
  }

  lemma BothEmpty(a: Slots)
    ensures Both(Ok({}), a) == a
  {
    if a.Ok? { assert {} + a.value == a.value; }
  }

  method FillSlots(slots: set<int>, r: Range) returns (filled: set<int>)
    ensures filled == slots + Denote(r)
  {
    filled := slots;
    var i := r.lo;
    while i <= r.hi
      invariant r.lo <= i && (i - r.lo) % r.step == 0
      invariant filled == slots + set v | v in Denote(r) && v < i
      decreases r.hi - i
    {
      NextSlot(r, i);
      filled := filled + {i};
      i := i + r.step;
    }
  }

  // Between i and i + step there is no further slot.
  lemma NextSlot(r: Range, i: int)
    requires InRange(r, i)
    ensures (i + r.step - r.lo) % r.step == 0
    ensures forall v | v in Denote(r) && i <= v < i + r.step :: v == i
  {
    var q := (i - r.lo) / r.step;
    assert i - r.lo == q * r.step;
    forall v | v in Denote(r) && i <= v < i + r.step
      ensures v == i
    {
      var p := (v - r.lo) / r.step;
      assert v - r.lo == p * r.step && (p - q) * r.step == v - i;
      MulBound(p - q, r.step);
    }
    assert i + r.step - r.lo == (q + 1) * r.step;
    ModIs(i + r.step - r.lo, r.step, q + 1, 0);
  }

  // ---------- the meaning of a segment ----------

  predicate Denotes(r: Parsed, v: int) {
    r.Ok? && InRange(r.value, v)
  }

  lemma {:induction false} CollectMeaning(rs: seq<Parsed>)
    ensures Collect(rs).Ok? <==> forall i | 0 <= i < |rs| :: rs[i].Ok?
    ensures Collect(rs).Ok? ==> forall v ::
              (v in Collect(rs).value <==> exists i | 0 <= i < |rs| :: Denotes(rs[i], v))
  {
    if rs != [] {
      var rest := rs[1..];
      CollectMeaning(rest);
      assert forall i | 1 <= i < |rs| :: rs[i] == rest[i - 1];
      if Collect(rs).Ok? {
        forall v ensures v in Collect(rs).value <==> exists i | 0 <= i < |rs| :: Denotes(rs[i], v) {
          if Denotes(rs[0], v) {
            assert v in Denote(rs[0].value);
          }
          if v in Collect(rest).value {
            var i :| 0 <= i < |rest| && Denotes(rest[i], v);
            assert Denotes(rs[i + 1], v);
          }
        }
      }
    }
  }

  // Part p says a range at all, or one that v is in.
  ghost predicate Readable(p: string, min: int, max: int) {
    exists r :: PartSays(p, r, min, max)
  }

  ghost predicate Reaches(p: string, v: int, min: int, max: int) {
    exists r :: PartSays(p, r, min, max) && InRange(r, v)
  }

  lemma PartDenotes(p: string, min: int, max: int)
    ensures ParsePart(p, min, max).Ok? <==> Readable(p, min, max)
    ensures forall v :: Denotes(ParsePart(p, min, max), v) <==> Reaches(p, v, min, max)
  {
    forall r ensures ParsePart(p, min, max) == Ok(r) <==> PartSays(p, r, min, max) {
      PartMeaning(p, r, min, max);
    }
    if ParsePart(p, min, max).Ok? {
      assert PartSays(p, ParsePart(p, min, max).value, min, max);
    }
  }

  // What the slots r of a list of parts mean.
  ghost predicate Means(r: Slots, parts: seq<string>, min: int, max: int) {
    && (r.Ok? <==> forall i | 0 <= i < |parts| :: Readable(parts[i], min, max))
    && (r.Ok? ==> forall v :: (v in r.value <==> exists i | 0 <= i < |parts| :: Reaches(parts[i], v, min, max)))
  }

  lemma PartsMeaning(parts: seq<string>, rs: seq<Parsed>, min: int, max: int)
    requires |rs| == |parts| && forall i | 0 <= i < |parts| :: rs[i] == ParsePart(parts[i], min, max)
    ensures Means(Collect(rs), parts, min, max)
  {
    CollectMeaning(rs);
    forall i | 0 <= i < |parts|
      ensures rs[i].Ok? <==> Readable(parts[i], min, max)
      ensures forall v :: Denotes(rs[i], v) <==> Reaches(parts[i], v, min, max)
    {
      PartDenotes(parts[i], min, max);
    }
  }

  lemma PartsInBounds(parts: seq<string>, r: Slots, min: int, max: int)
    requires min <= max && parts != [] && Means(r, parts, min, max) && r.Ok?
    ensures r.value != {} && forall v | v in r.value :: min <= v <= max
  {
    assert Readable(parts[0], min, max);
    var range :| PartSays(parts[0], range, min, max);
    assert InRange(range, range.lo) && Reaches(parts[0], range.lo, min, max);
    assert range.lo in r.value;
  }

  // A segment parses exactly when every comma-separated part is readable, and then v is a slot
  // exactly when some part says lo, hi and step such that lo <= v <= hi and step divides v - lo.
  // The slots of a segment that parses are not empty and lie between min and max.
  lemma SegmentMeaning(segment: string, min: int, max: int)
    requires min <= max
    ensures var r := ParseSegment(segment, min, max);
            && Means(r, Split(segment, ','), min, max)
            && (r.Ok? ==> r.value != {} && forall v | v in r.value :: min <= v <= max)
  {
    var parts, r := Split(segment, ','), ParseSegment(segment, min, max);
    PartsMeaning(parts, ParseParts(parts, min, max), min, max);
    if r.Ok? { PartsInBounds(parts, r, min, max); }
  }

  // A list of parts fails with the error of its first bad part.
  lemma {:induction false} CollectError(rs: seq<Parsed>, e: CronError)
    ensures Collect(rs) == Err(e) <==>
              exists i | 0 <= i < |rs| :: rs[i] == Err(e) && forall j | 0 <= j < i :: rs[j].Ok?
  {
    if rs != [] {
      var rest := rs[1..];
      CollectError(rest, e);
      if rs[0].Ok? && Collect(rest) == Err(e) {
        var i :| 0 <= i < |rest| && rest[i] == Err(e) && forall j | 0 <= j < i :: rest[j].Ok?;
        assert rs[i + 1] == Err(e);
        assert forall j | 0 < j < i + 1 :: rs[j] == rest[j - 1];
      }
      if i :| 0 <= i < |rs| && rs[i] == Err(e) && forall j | 0 <= j < i :: rs[j].Ok? {
        if i > 0 {
          assert rest[i - 1] == Err(e);
          assert forall j | 0 <= j < i - 1 :: rest[j] == rs[j + 1];
        }
      }
    }
  }

  // Part i is the first bad one, and its error is e.
  ghost predicate FailsAt(parts: seq<string>, i: nat, min: int, max: int, e: CronError)
    requires i < |parts|
  {
    ParsePart(parts[i], min, max) == Err(e) && forall j | 0 <= j < i :: ParsePart(parts[j], min, max).Ok?
  }

  ghost predicate FailsAsParts(r: Slots, parts: seq<string>, min: int, max: int) {
    forall e :: r == Err(e) <==> exists i | 0 <= i < |parts| :: FailsAt(parts, i, min, max, e)
  }

  lemma PartsError(parts: seq<string>, rs: seq<Parsed>, min: int, max: int)
    requires |rs| == |parts| && forall i | 0 <= i < |parts| :: rs[i] == ParsePart(parts[i], min, max)
    ensures FailsAsParts(Collect(rs), parts, min, max)
  {
    forall e ensures Collect(rs) == Err(e) <==> exists i | 0 <= i < |parts| :: FailsAt(parts, i, min, max, e) {
      CollectError(rs, e);
      if i :| 0 <= i < |rs| && rs[i] == Err(e) && forall j | 0 <= j < i :: rs[j].Ok? {
        assert FailsAt(parts, i, min, max, e);
      }
      if i :| 0 <= i < |parts| && FailsAt(parts, i, min, max, e) {
        assert rs[i] == Err(e);
      }
    }
  }

  // A segment fails with the error of its first bad part.
  lemma SegmentError(segment: string, min: int, max: int)
    ensures FailsAsParts(ParseSegment(segment, min, max), Split(segment, ','), min, max)
  {
    var parts := Split(segment, ',');
    PartsError(parts, ParseParts(parts, min, max), min, max);
  }

  // Five segments fail with the error of the first bad one.
  lemma FieldsError(parse: SegmentParser, segments: seq<string>, e: CronError)
    ensures ParseFields(parse, segments) == Err(e) <==>
              if |segments| != 5 then e == NotFiveSegments
              else exists k | 0 <= k < 5 ::
                     && parse(segments[k], FIELD_MIN[k], FIELD_MAX[k]) == Err(e)
                     && forall j | 0 <= j < k :: parse(segments[j], FIELD_MIN[j], FIELD_MAX[j]).Ok?
  {
  }

  lemma {:induction false} CollectConcat(ps: seq<Parsed>, qs: seq<Parsed>)
    ensures Collect(ps + qs) == Both(Collect(ps), Collect(qs))
  {
    if ps == [] {
      assert ps + qs == qs;
      BothEmpty(Collect(qs));
    } else {
      assert (ps + qs)[1..] == ps[1..] + qs;
      CollectConcat(ps[1..], qs);
      if Collect(ps).Ok? && Collect(qs).Ok? {
        assert Collect(ps).value + Collect(qs).value
            == Denote(ps[0].value) + (Collect(ps[1..]).value + Collect(qs).value);
      }
    }
  }

  lemma PartsConcat(ps: seq<string>, qs: seq<string>, min: int, max: int)
    ensures Collect(ParseParts(ps + qs, min, max))
         == Both(Collect(ParseParts(ps, min, max)), Collect(ParseParts(qs, min, max)))
  {
    assert ParseParts(ps + qs, min, max) == ParseParts(ps, min, max) + ParseParts(qs, min, max);
    CollectConcat(ParseParts(ps, min, max), ParseParts(qs, min, max));
  }

  // Lists: "a,b" parses exactly when a and b both do, and means the union of their slots.
  lemma SegmentList(a: string, b: string, min: int, max: int)
    ensures ParseSegment(a + "," + b, min, max)
         == Both(ParseSegment(a, min, max), ParseSegment(b, min, max))
  {
    SplitConcat(a, b, ',');
    PartsConcat(Split(a, ','), Split(b, ','), min, max);
  }

  // ---------- schedules ----------

  datatype Moment = Moment(minute: int, hour: int, day: int, month: int, dayOfWeek: int)

  datatype Schedule = Schedule(minutes: set<int>, hours: set<int>, days: set<int>, months: set<int>, daysOfWeek: set<int>)

  predicate IsDue(s: Schedule, m: Moment) {
    if m.minute !in s.minutes then false
    else if m.hour !in s.hours then false
    else if m.day !in s.days then false
    else if m.dayOfWeek !in s.daysOfWeek then false
    else if m.month !in s.months then false
    else true
  }

  // The entry of a macro in the macro table.
  function Macro(name: string): Option<string> {
    if name == "@yearly" || name == "@annually" then Some("0 0 1 1 *")
    else if name == "@monthly" then Some("0 0 1 * *")
    else if name == "@weekly" then Some("0 0 * * 0")
    else if name == "@daily" || name == "@midnight" then Some("0 0 * * *")
    else if name == "@hourly" then Some("0 * * * *")
    else if name == "@minutely" then Some("* * * * *")
    else None
  }

  // The bounds of the five segments.
  const FIELD_MIN: seq<int> := [0, 0, 1, 1, 0]
  const FIELD_MAX: seq<int> := [59, 23, 31, 12, 6]

  type SegmentParser = (string, int, int) -> Slots

  // The five fields in order; the first error wins.
  function ParseFields(parse: SegmentParser, segments: seq<string>): Result<Schedule, CronError> {
    if |segments| != 5 then Err(NotFiveSegments)
    else
      var minutes := parse(segments[0], FIELD_MIN[0], FIELD_MAX[0]);
      if minutes.Err? then Err(minutes.error) else
      var hours := parse(segments[1], FIELD_MIN[1], FIELD_MAX[1]);
      if hours.Err? then Err(hours.error) else
      var days := parse(segments[2], FIELD_MIN[2], FIELD_MAX[2]);
      if days.Err? then Err(days.error) else
      var months := parse(segments[3], FIELD_MIN[3], FIELD_MAX[3]);
      if months.Err? then Err(months.error) else
      var daysOfWeek := parse(segments[4], FIELD_MIN[4], FIELD_MAX[4]);
      if daysOfWeek.Err? then Err(daysOfWeek.error) else
      Ok(Schedule(minutes.value, hours.value, days.value, months.value, daysOfWeek.value))
  }

  function NewSchedule(cronExpr: string): Result<Schedule, CronError> {
    var expanded := if Macro(cronExpr).Some? then Macro(cronExpr).value else cronExpr;
    ParseFields(ParseSegment, Split(expanded, ' '))
  }

  function Field(s: Schedule, k: nat): set<int>
    requires k < 5
  {
    if k == 0 then s.minutes else if k == 1 then s.hours else if k == 2 then s.days
    else if k == 3 then s.months else s.daysOfWeek
  }

  predicate FieldReads(parse: SegmentParser, segments: seq<string>, s: Schedule, k: nat)
    requires |segments| == 5 && k < 5
  {
    parse(segments[k], FIELD_MIN[k], FIELD_MAX[k]) == Ok(Field(s, k))
  }

  // Reading five segments gives s exactly when reading each gives the field of s.
  lemma FieldsOf(parse: SegmentParser, segments: seq<string>, s: Schedule)
    requires |segments| == 5
    ensures ParseFields(parse, segments) == Ok(s) <==>
              forall k | 0 <= k < 5 :: FieldReads(parse, segments, s, k)
  {
    if FieldReads(parse, segments, s, 0) && FieldReads(parse, segments, s, 1) && FieldReads(parse, segments, s, 2)
       && FieldReads(parse, segments, s, 3) && FieldReads(parse, segments, s, 4) {
      assert ParseFields(parse, segments) == Ok(s);
    }
  }
}
