/**
 Runs of the scheduler under ideal timers, which fire at the very time they are due: which jobs
 start when, compared with a plain filter over the multiples of the interval.
 */
module CronRuns {
  import opened Arithmetic
  import opened Wrappers
  import opened CronSchedules
  import opened CronSchedulers

  // The next delivery of a running cron.
  predicate DueNext(s: State, b: int) {
    && OneSource(s) && !s.crashed && s.interval > 0 && s.live != map[]
    && (s.ticker.Some? ==> s.live[s.ticker.value] == Periodic(b, s.interval))
    && (s.ticker.None? ==> s.live[s.startTimer.value] == OneShot(b))
  }

  function Deliver(s: State, b: int): State
    requires DueNext(s, b)
  {
    if s.ticker.Some? then Step(s, Tick(s.ticker.value, b)) else Step(s, Fire(s.startTimer.value, b))
  }

  lemma DeliverNext(s: State, b: int)
    requires DueNext(s, b)
    ensures DueNext(Deliver(s, b), b + s.interval)
    ensures var s' := Deliver(s, b);
            && s'.interval == s.interval && s'.jobs == s.jobs && s'.timezone == s.timezone
            && s'.log == s.log + [Started(b, DueJobs(s.jobs, s.timezone(b)))]
  {
    if s.ticker.Some? {
      assert Deliver(s, b).live.Keys == {s.ticker.value};
    } else {
      assert s.live - {s.startTimer.value} == map[];
    }
  }

  // Everything that is due up to and including time until, when b is due next.
  function Ideal(s: State, b: int, until: int): State
    requires DueNext(s, b)
    decreases until - b
  {
    if b > until then s
    else
      DeliverNext(s, b);
      Ideal(Deliver(s, b), b + s.interval, until)
  }

  // The first time after until in the progression b, b + d, ..
  function FirstAfter(b: int, d: int, until: int): int
    requires d > 0
    decreases until - b
  {
    if b > until then b else FirstAfter(b + d, d, until)
  }

  // The schedule registered for a job, if there is one.
  type Registration = Option<Schedule>

  function RegistrationOf(s: State, id: string): Registration {
    if id in s.jobs then Some(s.jobs[id]) else None
  }

  predicate DueAt(reg: Registration, m: Moment) {
    reg.Some? && IsDue(reg.value, m)
  }

  // The times b, b + d, .. up to until at which the job is due.
  function DueTimes(reg: Registration, clock: Clock, b: int, d: int, until: int): seq<int>
    requires d > 0
    decreases until - b
  {
    if b > until then []
    else (if DueAt(reg, clock(b)) then [b] else []) + DueTimes(reg, clock, b + d, d, until)
  }

  // The times at which a job was started.
  function StartsOf(log: seq<Started>, id: string): seq<int> {
    if log == [] then []
    else StartsOf(log[..|log| - 1], id) + if id in log[|log| - 1].jobs then [log[|log| - 1].time] else []
  }

  lemma DeliverStarts(s: State, b: int, id: string)
    requires DueNext(s, b)
    ensures StartsOf(Deliver(s, b).log, id)
         == StartsOf(s.log, id) + if DueAt(RegistrationOf(s, id), s.timezone(b)) then [b] else []
  {
    DeliverNext(s, b);
    var log := s.log + [Started(b, DueJobs(s.jobs, s.timezone(b)))];
    assert log[..|log| - 1] == s.log;
  }

  lemma {:induction false} IdealKeeps(s: State, b: int, until: int)
    requires DueNext(s, b)
    ensures var s' := Ideal(s, b, until);
            && s'.interval == s.interval && s'.jobs == s.jobs && s'.timezone == s.timezone
            && DueNext(s', FirstAfter(b, s.interval, until))
    decreases until - b
  {
    if b <= until {
      DeliverNext(s, b);
      IdealKeeps(Deliver(s, b), b + s.interval, until);
    }
  }

  lemma Append3(a: seq<int>, b: seq<int>, c: seq<int>)
    ensures (a + b) + c == a + (b + c)
  {
  }

  lemma FirstDueTime(before: seq<int>, reg: Registration, clock: Clock, b: int, d: int, until: int)
    requires d > 0 && b <= until
    ensures (before + if DueAt(reg, clock(b)) then [b] else []) + DueTimes(reg, clock, b + d, d, until)
         == before + DueTimes(reg, clock, b, d, until)
  {
    Append3(before, if DueAt(reg, clock(b)) then [b] else [], DueTimes(reg, clock, b + d, d, until));
  }

  // What is due after the next delivery, put behind it.
  lemma OneMoreDelivery(s: State, b: int, until: int, id: string)
    requires DueNext(s, b) && b <= until
    ensures DueNext(Deliver(s, b), b + s.interval)
    ensures var s' := Deliver(s, b);
            StartsOf(s'.log, id) + DueTimes(RegistrationOf(s', id), s'.timezone, b + s.interval, s'.interval, until)
              == StartsOf(s.log, id) + DueTimes(RegistrationOf(s, id), s.timezone, b, s.interval, until)
  {
    DeliverNext(s, b);
    DeliverStarts(s, b, id);
    FirstDueTime(StartsOf(s.log, id), RegistrationOf(s, id), s.timezone, b, s.interval, until);
  }

  lemma {:induction false} IdealStarts(s: State, b: int, until: int, id: string)
    requires DueNext(s, b)
    ensures StartsOf(Ideal(s, b, until).log, id)
         == StartsOf(s.log, id) + DueTimes(RegistrationOf(s, id), s.timezone, b, s.interval, until)
    decreases until - b
  {
    if b <= until {
      DeliverNext(s, b);
      IdealStarts(Deliver(s, b), b + s.interval, until, id);
      OneMoreDelivery(s, b, until, id);
    }
  }

  // ---------- jobs added, replaced and removed along the way ----------

  // A call on the table of jobs.
  datatype Call = Call(time: int, event: Event)

  predicate OnJobs(calls: seq<Call>) {
    forall i | 0 <= i < |calls| :: calls[i].event.Add? || calls[i].event.Remove? || calls[i].event.RemoveAll?
  }

  predicate InOrder(calls: seq<Call>, until: int) {
    && (forall i, j | 0 <= i < j < |calls| :: calls[i].time <= calls[j].time)
    && (forall i | 0 <= i < |calls| :: calls[i].time <= until)
  }

  // What a call does to the registration of job id.
  function Reregister(reg: Registration, e: Event, id: string): Registration {
    if e.Add? && e.jobId == id && e.hasRun && NewSchedule(e.cronExpr).Ok? then Some(NewSchedule(e.cronExpr).value)
    else if e.Remove? && e.jobId == id then None
    else if e.RemoveAll? then None
    else reg
  }

  lemma CallStep(s: State, b: int, e: Event, id: string)
    requires DueNext(s, b) && (e.Add? || e.Remove? || e.RemoveAll?)
    ensures Enabled(s, e)
    ensures var s' := Step(s, e);
            && DueNext(s', b) && RegistrationOf(s', id) == Reregister(RegistrationOf(s, id), e, id)
            && s'.log == s.log && s'.interval == s.interval && s'.timezone == s.timezone
  {
  }

  // The calls in order, with everything due before or at the time of a call delivered first.
  ghost function Script(s: State, b: int, calls: seq<Call>, until: int): State
    requires DueNext(s, b) && OnJobs(calls)
    decreases |calls|
  {
    if calls == [] then Ideal(s, b, until)
    else
      var t := calls[0].time;
      IdealKeeps(s, b, t);
      var s1, b1 := Ideal(s, b, t), FirstAfter(b, s.interval, t);
      CallStep(s1, b1, calls[0].event, "");
      Script(Step(s1, calls[0].event), b1, calls[1..], until)
  }

  // The times at which job id is due while the calls come in.
  ghost function Expected(reg: Registration, clock: Clock, b: int, d: int, id: string, calls: seq<Call>, until: int): seq<int>
    requires d > 0
    decreases |calls|
  {
    if calls == [] then DueTimes(reg, clock, b, d, until)
    else
      var t := calls[0].time;
      DueTimes(reg, clock, b, d, t)
      + Expected(Reregister(reg, calls[0].event, id), clock, FirstAfter(b, d, t), d, id, calls[1..], until)
  }

  lemma {:induction false} ScriptStarts(s: State, b: int, id: string, calls: seq<Call>, until: int)
    requires DueNext(s, b) && OnJobs(calls)
    ensures StartsOf(Script(s, b, calls, until).log, id)
         == StartsOf(s.log, id) + Expected(RegistrationOf(s, id), s.timezone, b, s.interval, id, calls, until)
    decreases |calls|
  {
    if calls == [] {
      IdealStarts(s, b, until, id);
    } else {
      var t, e := calls[0].time, calls[0].event;
      IdealKeeps(s, b, t);
      IdealStarts(s, b, t, id);
      var s1, b1 := Ideal(s, b, t), FirstAfter(b, s.interval, t);
      CallStep(s1, b1, e, id);
      ScriptStarts(Step(s1, e), b1, id, calls[1..], until);
      Append3(StartsOf(s.log, id), DueTimes(RegistrationOf(s, id), s.timezone, b, s.interval, t),
              Expected(Reregister(RegistrationOf(s, id), e, id), s.timezone, b1, s.interval, id, calls[1..], until));
    }
  }

  // ---------- the filter ----------

  // The registration of job id at time v, that is, after the calls before v.
  function RegisteredAt(reg: Registration, id: string, calls: seq<Call>, v: int): Registration
    decreases |calls|
  {
    if calls == [] || v <= calls[0].time then reg
    else RegisteredAt(Reregister(reg, calls[0].event, id), id, calls[1..], v)
  }

  predicate Increasing(ts: seq<int>) {
    forall i, j | 0 <= i < j < |ts| :: ts[i] < ts[j]
  }

  lemma NoMultipleBetween(b: int, d: int, v: int)
    requires d > 0 && b % d == 0 && b < v < b + d
    ensures v % d != 0
  {
    ModIs(v, d, b / d, v - b);
  }

  // The progression from b on visits every multiple of d from b to until, in order.
  lemma {:induction false} DueTimesMeaning(reg: Registration, clock: Clock, b: int, d: int, until: int)
    requires d > 0 && b % d == 0
    ensures forall v :: v in DueTimes(reg, clock, b, d, until) <==>
              b <= v <= until && v % d == 0 && DueAt(reg, clock(v))
    ensures Increasing(DueTimes(reg, clock, b, d, until))
    decreases until - b
  {
    if b <= until {
      ModIs(b + d, d, b / d + 1, 0);
      DueTimesMeaning(reg, clock, b + d, d, until);
      var rest := DueTimes(reg, clock, b + d, d, until);
      forall v | b < v < b + d ensures v % d != 0 {
        NoMultipleBetween(b, d, v);
      }
      forall j | 0 <= j < |rest| ensures b < rest[j] { assert rest[j] in rest; }
    }
  }

  lemma {:induction false} FirstAfterMeaning(b: int, d: int, t: int)
    requires d > 0 && b % d == 0
    ensures FirstAfter(b, d, t) > t && FirstAfter(b, d, t) >= b && FirstAfter(b, d, t) % d == 0
    ensures forall v | v >= b && v % d == 0 :: v > t <==> v >= FirstAfter(b, d, t)
    decreases t - b
  {
    if b <= t {
      ModIs(b + d, d, b / d + 1, 0);
      FirstAfterMeaning(b + d, d, t);
      forall v | b < v < b + d ensures v % d != 0 {
        NoMultipleBetween(b, d, v);
      }
    }
  }

  lemma IncreasingJoin(a: seq<int>, b: seq<int>, t: int)
    requires Increasing(a) && Increasing(b)
    requires (forall v | v in a :: v <= t) && (forall v | v in b :: v > t)
    ensures Increasing(a + b)
  {
    assert forall i | 0 <= i < |a| :: a[i] in a;
    assert forall i | 0 <= i < |b| :: b[i] in b;
  }

  lemma {:induction false} ExpectedMeaning(reg: Registration, clock: Clock, b: int, d: int, id: string, calls: seq<Call>, until: int)
    requires d > 0 && b % d == 0 && InOrder(calls, until)
    ensures forall v :: v in Expected(reg, clock, b, d, id, calls, until) <==>
              b <= v <= until && v % d == 0 && DueAt(RegisteredAt(reg, id, calls, v), clock(v))
    ensures Increasing(Expected(reg, clock, b, d, id, calls, until))
    decreases |calls|
  {
    if calls == [] {
      DueTimesMeaning(reg, clock, b, d, until);
    } else {
      var t, reg1 := calls[0].time, Reregister(reg, calls[0].event, id);
      var b1 := FirstAfter(b, d, t);
      DueTimesMeaning(reg, clock, b, d, t);
      FirstAfterMeaning(b, d, t);
      ExpectedMeaning(reg1, clock, b1, d, id, calls[1..], until);
      IncreasingJoin(DueTimes(reg, clock, b, d, t), Expected(reg1, clock, b1, d, id, calls[1..], until), t);
      assert calls[0].time <= until;
    }
  }

  // ---------- from Start to Stop ----------

  lemma StartIsDue(s: State, now: int)
    requires OneSource(s) && !s.crashed && s.interval > 0
    ensures var s1 := DoStart(s, now);
            && DueNext(s1, now + Delay(now, s.interval))
            && s1.jobs == s.jobs && s1.timezone == s.timezone && s1.interval == s.interval && s1.log == s.log
  {
    StopSilences(s);
    assert s.created in DoStart(s, now).live;
  }

  // The due boundaries of job id after now.
  ghost function Boundaries(s: State, now: int, id: string, calls: seq<Call>, until: int): seq<int>
    requires s.interval > 0
  {
    Expected(RegistrationOf(s, id), s.timezone, now + Delay(now, s.interval), s.interval, id, calls, until)
  }

  // Start at now, the calls, and Stop at until, before anything later is delivered: every job is
  // started at its due boundaries and at no other time.
  ghost function StartToStop(s: State, now: int, calls: seq<Call>, until: int): (s': State)
    requires OneSource(s) && !s.crashed && s.interval > 0 && OnJobs(calls)
    ensures forall id :: StartsOf(s'.log, id) == StartsOf(s.log, id) + Boundaries(s, now, id, calls, until)
  {
    var s1, b := DoStart(s, now), now + Delay(now, s.interval);
    StartIsDue(s, now);
    var s2 := Script(s1, b, calls, until);
    assert forall id :: StartsOf(s2.log, id) == StartsOf(s.log, id) + Boundaries(s, now, id, calls, until) by {
      forall id ensures StartsOf(s2.log, id) == StartsOf(s.log, id) + Boundaries(s, now, id, calls, until) {
        ScriptStarts(s1, b, id, calls, until);
      }
    }
    DoStop(s2)
  }

  // The times are exactly the multiples of d after now, up to until, at which the schedule then
  // registered for job id is due; each occurs once, in order.
  ghost predicate DueMultiples(times: seq<int>, reg: Registration, clock: Clock, now: int, d: int,
                               id: string, calls: seq<Call>, until: int)
    requires d > 0
  {
    && Increasing(times)
    && forall v :: v in times <==>
         now < v <= until && v % d == 0 && DueAt(RegisteredAt(reg, id, calls, v), clock(v))
  }

  lemma ExpectedAfter(reg: Registration, clock: Clock, now: int, d: int, id: string, calls: seq<Call>, until: int)
    requires d > 0 && InOrder(calls, until)
    ensures DueMultiples(Expected(reg, clock, now + Delay(now, d), d, id, calls, until),
                         reg, clock, now, d, id, calls, until)
  {
    FirstTick(now, d);
    ExpectedMeaning(reg, clock, now + Delay(now, d), d, id, calls, until);
    forall v | v % d == 0 ensures now < v <==> now + Delay(now, d) <= v {}
  }

  lemma BoundaryTimes(s: State, now: int, id: string, calls: seq<Call>, until: int)
    requires s.interval > 0 && InOrder(calls, until)
    ensures DueMultiples(Boundaries(s, now, id, calls, until),
                         RegistrationOf(s, id), s.timezone, now, s.interval, id, calls, until)
  {
    ExpectedAfter(RegistrationOf(s, id), s.timezone, now, s.interval, id, calls, until);
  }

  // ---------- from a new cron on ----------

  // Calls that set a cron up: anything but Start.
  predicate SetUp(es: seq<Event>) {
    forall i | 0 <= i < |es| :: !es[i].Start? && !es[i].Fire? && !es[i].Tick?
  }

  // The interval, the zone and the registration of job id that the calls leave, the last one counting.
  function IntervalAfter(es: seq<Event>): int {
    if es == [] then 60_000_000_000
    else if es[|es| - 1].SetInterval? then es[|es| - 1].d
    else IntervalAfter(es[..|es| - 1])
  }

  function ZoneAfter(utc: Clock, es: seq<Event>): Clock {
    if es == [] then utc
    else if es[|es| - 1].SetTimezone? then es[|es| - 1].zone
    else ZoneAfter(utc, es[..|es| - 1])
  }

  function RegistrationAfter(es: seq<Event>, id: string): Registration {
    if es == [] then None else Reregister(RegistrationAfter(es[..|es| - 1], id), es[|es| - 1], id)
  }

  predicate Idle(s: State) {
    OneSource(s) && !s.crashed && s.live == map[] && s.ticker == None && s.log == []
  }

  lemma IdleStep(s: State, e: Event)
    requires Idle(s) && !e.Start? && !e.Fire? && !e.Tick?
    ensures Enabled(s, e) && Idle(Step(s, e))
  {
    StepOneSource(s, e);
  }

  // A new cron after the calls.
  ghost function Prepared(utc: Clock, es: seq<Event>): (s: State)
    requires SetUp(es)
    ensures Idle(s)
  {
    if es == [] then Init(utc)
    else
      var before := Prepared(utc, es[..|es| - 1]);
      IdleStep(before, es[|es| - 1]);
      Step(before, es[|es| - 1])
  }

  lemma {:induction false} PreparedMeaning(utc: Clock, es: seq<Event>, id: string)
    requires SetUp(es)
    ensures var s := Prepared(utc, es);
            && s.interval == IntervalAfter(es) && s.timezone == ZoneAfter(utc, es)
            && RegistrationOf(s, id) == RegistrationAfter(es, id)
  {
    if es != [] {
      var front, e := es[..|es| - 1], es[|es| - 1];
      PreparedMeaning(utc, front, id);
      IdleStep(Prepared(utc, front), e);
      StepFields(Prepared(utc, front), e);
    }
  }

  // The whole life of a cron: it is created, set up by any calls, started, its jobs are changed by
  // any calls, and it is stopped. A job has then been started exactly at the multiples of the
  // interval set last, between Start and Stop, at which its schedule of the time was due in the
  // zone set last, once each and in order.
  lemma WholeLife(utc: Clock, es: seq<Event>, now: int, calls: seq<Call>, until: int, id: string)
    requires SetUp(es) && IntervalAfter(es) > 0 && OnJobs(calls) && InOrder(calls, until)
    ensures Prepared(utc, es).interval == IntervalAfter(es)
    ensures DueMultiples(StartsOf(StartToStop(Prepared(utc, es), now, calls, until).log, id),
                         RegistrationAfter(es, id), ZoneAfter(utc, es), now, IntervalAfter(es), id, calls, until)
  {
    PreparedMeaning(utc, es, id);
    BoundaryTimes(Prepared(utc, es), now, id, calls, until);
  }
}
