/**
 pkg/cron/cron.go as a state machine on values: every public call, and every firing of the start
 timer or the ticker, is one step. Crons.Cron is the object that takes these steps.
 */
module CronSchedulers {
  import opened Arithmetic
  import opened Wrappers
  import opened CronSchedules

  // Times are nanoseconds since Go's zero time. A clock tells the moment of a time in a time zone.
  type Clock = int -> Moment

  // What the Go runtime will deliver: one call at a time, or a tick at next and every period after.
  datatype Source = OneShot(due: int) | Periodic(next: int, period: int)

  // runDue at a time started these jobs.
  datatype Started = Started(time: int, jobs: set<string>)

  // live holds the timers and tickers that have been created and neither fired for good nor been
  // stopped; startTimer and ticker are the references the Cron keeps.
  datatype State = State(
    interval: int,
    timezone: Clock,
    jobs: map<string, Schedule>,
    startTimer: Option<nat>,
    ticker: Option<nat>,
    live: map<nat, Source>,
    created: nat,
    log: seq<Started>,
    crashed: bool
  )

  datatype Event =
    | Start(now: int)
    | Stop
    | SetInterval(d: int, now: int)
    | SetTimezone(zone: Clock)
    | Add(jobId: string, cronExpr: string, hasRun: bool)
    | Remove(jobId: string)
    | RemoveAll
    | Fire(source: nat, now: int)
    | Tick(source: nat, now: int)

  const MINUTE: int := 60_000_000_000

  function Init(utc: Clock): State {
    State(MINUTE, utc, map[], None, None, map[], 0, [], false)
  }

  // ---------- the steps ----------

  function DoStop(s: State): State {
    var s1 := if s.startTimer.Some? then s.(live := s.live - {s.startTimer.value}, startTimer := None) else s;
    if s1.ticker.None? then s1 else s1.(live := s1.live - {s1.ticker.value}, ticker := None)
  }

  // time.Truncate
  function Truncate(t: int, d: int): int {
    if d <= 0 then t else t - t % d
  }

  function Delay(now: int, interval: int): int {
    Truncate(now + interval, interval) - now
  }

  function DoStart(s: State, now: int): State {
    var s1 := DoStop(s);
    s1.(startTimer := Some(s1.created),
        live := s1.live[s1.created := OneShot(now + Delay(now, s1.interval))],
        created := s1.created + 1)
  }

  function DoSetInterval(s: State, d: int, now: int): State {
    if s.ticker.Some? then DoStart(s.(interval := d), now) else s.(interval := d)
  }

  predicate Addable(cronExpr: string, hasRun: bool) {
    hasRun && NewSchedule(cronExpr).Ok?
  }

  function DoAdd(s: State, jobId: string, cronExpr: string, hasRun: bool): State {
    if Addable(cronExpr, hasRun) then s.(jobs := s.jobs[jobId := NewSchedule(cronExpr).value]) else s
  }

  function DueJobs(jobs: map<string, Schedule>, m: Moment): set<string> {
    set id | id in jobs && IsDue(jobs[id], m)
  }

  function RunDue(s: State, t: int): State {
    s.(log := s.log + [Started(t, DueJobs(s.jobs, s.timezone(t)))])
  }

  // The callback of the start timer. NewTicker panics on an interval that is not positive.
  function DoFire(s: State, source: nat, now: int): State {
    var s1 := s.(live := s.live - {source});
    if s.interval <= 0 then s1.(crashed := true)
    else
      var s2 := s1.(ticker := Some(s1.created),
                    live := s1.live[s1.created := Periodic(now + s.interval, s.interval)],
                    created := s1.created + 1);
      RunDue(s2, now)
  }

  function DoTick(s: State, source: nat, now: int): State
    requires source in s.live && s.live[source].Periodic?
  {
    var p := s.live[source];
    RunDue(s.(live := s.live[source := Periodic(p.next + p.period, p.period)]), now)
  }

  // The runtime delivers only what is live.
  predicate Enabled(s: State, e: Event) {
    && !s.crashed
    && (e.Fire? ==> e.source in s.live && s.live[e.source].OneShot?)
    && (e.Tick? ==> e.source in s.live && s.live[e.source].Periodic?)
  }

  function Step(s: State, e: Event): State
    requires Enabled(s, e)
  {
    match e
    case Start(now) => DoStart(s, now)
    case Stop => DoStop(s)
    case SetInterval(d, now) => DoSetInterval(s, d, now)
    case SetTimezone(zone) => s.(timezone := zone)
    case Add(id, expr, hasRun) => DoAdd(s, id, expr, hasRun)
    case Remove(id) => s.(jobs := s.jobs - {id})
    case RemoveAll => s.(jobs := map[])
    case Fire(source, now) => DoFire(s, source, now)
    case Tick(source, now) => DoTick(s, source, now)
  }

  // ---------- every reachable state ----------

  ghost predicate Reaches(s: State, es: seq<Event>, s': State)
    decreases |es|
  {
    if es == [] then s == s'
    else Enabled(s, es[0]) && Reaches(Step(s, es[0]), es[1..], s')
  }

  // The only live source is the ticker if there is one, and otherwise at most the start timer.
  predicate OneSource(s: State) {
    && (forall id | id in s.live :: id < s.created)
    && (s.ticker.Some? ==> s.live.Keys == {s.ticker.value} && s.live[s.ticker.value].Periodic?)
    && (s.ticker.None? && s.live != map[] ==>
          && s.startTimer.Some? && s.live.Keys == {s.startTimer.value}
          && s.live[s.startTimer.value].OneShot?)
  }

  lemma StopSilences(s: State)
    requires OneSource(s)
    ensures DoStop(s).live == map[] && DoStop(s).ticker == None && DoStop(s).startTimer == None
  {
    assert DoStop(s).live.Keys == {};
  }

  lemma StepOneSource(s: State, e: Event)
    requires OneSource(s) && Enabled(s, e)
    ensures OneSource(Step(s, e))
  {
    match e
    case Start(now) => StopSilences(s);
    case Stop => StopSilences(s);
    case SetInterval(d, now) => StopSilences(s.(interval := d));
    case Fire(source, now) => assert s.live - {source} == map[];
    case Tick(source, now) => assert Step(s, e).live.Keys == s.live.Keys;
    case _ =>
  }

  lemma {:induction false} ReachableOneSource(s: State, es: seq<Event>, s': State)
    requires OneSource(s) && Reaches(s, es, s')
    ensures OneSource(s')
    decreases |es|
  {
    if es != [] {
      StepOneSource(s, es[0]);
      ReachableOneSource(Step(s, es[0]), es[1..], s');
    }
  }

  predicate HasStarted(s: State) {
    s.ticker.Some?
  }

  // In every state a Cron can get into there is at most one live source, and HasStarted tells
  // whether it is a ticker.
  lemma NeverTwoSources(utc: Clock, es: seq<Event>, s: State)
    requires Reaches(Init(utc), es, s)
    ensures |s.live| <= 1
    ensures HasStarted(s) <==> exists id | id in s.live :: s.live[id].Periodic?
    ensures forall id | id in s.live && s.live[id].OneShot? :: s.startTimer == Some(id)
  {
    ReachableOneSource(Init(utc), es, s);
    if s.live != map[] {
      var id := if s.ticker.Some? then s.ticker.value else s.startTimer.value;
      assert s.live.Keys == {id};
      assert |s.live.Keys| == 1;
    }
  }

  // Which fields a call or a delivery changes, and to what.
  lemma StepFields(s: State, e: Event)
    requires Enabled(s, e)
    ensures var s' := Step(s, e);
            && s'.interval == (if e.SetInterval? then e.d else s.interval)
            && s'.timezone == (if e.SetTimezone? then e.zone else s.timezone)
            && (forall id :: id in s'.jobs <==>
                  (e.Add? && e.jobId == id && e.hasRun && NewSchedule(e.cronExpr).Ok?)
                  || (id in s.jobs && !e.RemoveAll? && !(e.Remove? && e.jobId == id)))
            && (forall id | id in s'.jobs ::
                  if e.Add? && e.jobId == id && e.hasRun && NewSchedule(e.cronExpr).Ok? then
                    Ok(s'.jobs[id]) == NewSchedule(e.cronExpr)
                  else id in s.jobs && s'.jobs[id] == s.jobs[id])
  {
  }

  // Jobs are started by the deliveries of the timer and the ticker, and by nothing else.
  lemma StepLog(s: State, e: Event)
    requires Enabled(s, e)
    ensures var s' := Step(s, e);
            if e.Tick? || (e.Fire? && s.interval > 0) then
              && |s'.log| == |s.log| + 1 && s'.log[..|s.log|] == s.log && s'.log[|s.log|].time == e.now
              && forall id :: id in s'.log[|s.log|].jobs <==> id in s.jobs && IsDue(s.jobs[id], s.timezone(e.now))
            else s'.log == s.log
  {
  }

  // A cron that is not running stores the interval, and Start then uses it.
  lemma IntervalThenStart(s: State, d: int, now: int, t: int)
    requires OneSource(s) && !s.crashed
    ensures var s' := Step(s, SetInterval(d, now));
            && s'.interval == d && s'.jobs == s.jobs && s'.timezone == s.timezone && s'.log == s.log
            && Enabled(s', Start(t))
            && var s'' := Step(s', Start(t));
               && s''.startTimer.Some? && s''.live == map[s''.startTimer.value := OneShot(t + Delay(t, d))]
               && s''.interval == d && s''.ticker == None
  {
    StepOneSource(s, SetInterval(d, now));
    Restart(Step(s, SetInterval(d, now)), Start(t));
  }

  // Start always leaves the pending start timer as the only live source; SetInterval does so when
  // the ticker is running and touches no source otherwise.
  lemma Restart(s: State, e: Event)
    requires OneSource(s) && Enabled(s, e) && (e.Start? || e.SetInterval?)
    ensures var s' := Step(s, e);
            if e.Start? || s.ticker.Some? then
              var d := if e.Start? then s.interval else e.d;
              && s'.ticker == None && s'.startTimer == Some(s.created)
              && s'.live == map[s.created := OneShot(e.now + Delay(e.now, d))]
            else s'.live == s.live && s'.ticker == None
  {
    StopSilences(if e.Start? then s else s.(interval := e.d));
  }

  // No job starts between a Stop and the next Start.
  lemma QuietBetweenStopAndStart(s: State, es: seq<Event>, s': State)
    requires OneSource(s) && !s.crashed
    requires Reaches(Step(s, Stop), es, s') && forall i | 0 <= i < |es| :: !es[i].Start?
    ensures s'.log == s.log && !HasStarted(s')
  {
    StopSilences(s);
    QuietAfterStop(Step(s, Stop), es, s');
  }

  lemma {:induction false} QuietAfterStop(s: State, es: seq<Event>, s': State)
    requires s.live == map[] && s.ticker == None
    requires Reaches(s, es, s') && forall i | 0 <= i < |es| :: !es[i].Start?
    ensures s'.log == s.log && s'.live == map[] && s'.ticker == None
    decreases |es|
  {
    if es != [] {
      var s1 := Step(s, es[0]);
      assert s1.live == map[];
      QuietAfterStop(s1, es[1..], s');
    }
  }

  // The only way to crash is to let the start timer fire under an interval that is not positive.
  lemma CrashCondition(s: State, e: Event)
    requires Enabled(s, e)
    ensures Step(s, e).crashed <==> e.Fire? && s.interval <= 0
  {
  }

  // ---------- alignment ----------

  // The first tick is the least multiple of the interval strictly after now.
  lemma FirstTick(now: int, d: int)
    requires d > 0
    ensures 0 < Delay(now, d) <= d && (now + Delay(now, d)) % d == 0
    ensures forall b | now < b && b % d == 0 :: now + Delay(now, d) <= b
  {
    var r := (now + d) % d;
    var first := now + Delay(now, d);
    var q := (now + d) / d;
    assert first == q * d;
    ModIs(first, d, q, 0);
    forall b | now < b && b % d == 0
      ensures first <= b
    {
      assert b == b / d * d;
      assert (q - b / d) * d == first - b;
      MulBound(q - b / d, d);
    }
  }

  // Truncating to an interval that is not positive changes nothing.
  lemma NoAlignment(now: int, d: int)
    requires d <= 0
    ensures Delay(now, d) == d
  {
  }

  // Changing the interval while the start timer is pending does not move the first tick; the
  // ticks that follow are multiples of the new interval exactly when the first tick is one.
  lemma PendingIntervalChange(s: State, d: int, now: int, k: nat)
    requires OneSource(s) && !s.crashed && s.ticker.None? && s.live != map[] && d > 0
    ensures var s' := Step(s, SetInterval(d, now));
            var due := s.live[s.startTimer.value].due;
            && s'.live == s.live
            && Step(s', Fire(s.startTimer.value, due)).live == map[s.created := Periodic(due + d, d)]
            && ((due + d + k * d) % d == 0 <==> due % d == 0)
  {
    var due := s.live[s.startTimer.value].due;
    assert s.live - {s.startTimer.value} == map[];
    var r := due % d;
    assert due + d + k * d == (due / d + 1 + k) * d + r;
    ModIs(due + d + k * d, d, due / d + 1 + k, r);
  }
}
