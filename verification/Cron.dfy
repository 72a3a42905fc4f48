/** The Cron object of pkg/cron/cron.go; each method takes one step of CronSchedulers. */
module Crons {
  import opened Wrappers
  import opened CronSchedules
  import opened CronSchedulers

  class Cron {
    var interval: int
    var timezone: Clock
    var jobs: map<string, Schedule>
    var startTimer: Option<nat>
    var ticker: Option<nat>

    // The side of the Go runtime: the sources created so far, those still live, and the job starts.
    var live: map<nat, Source>
    var created: nat
    var log: seq<Started>
    var crashed: bool

    ghost function Abstract(): State
      reads this
    {
      State(interval, timezone, jobs, startTimer, ticker, live, created, log, crashed)
    }

    constructor (utc: Clock)
      ensures Abstract() == Init(utc)
    {
      interval, timezone, jobs := MINUTE, utc, map[];
      startTimer, ticker := None, None;
      live, created, log, crashed := map[], 0, [], false;
    }

    // time.AfterFunc and time.NewTicker
    method Create(source: Source) returns (id: nat)
      modifies `live, `created
      ensures id == old(created) && created == id + 1 && live == old(live)[id := source]
    {
      id := created;
      live := live[id := source];
      created := created + 1;
    }

    method SetInterval(d: int, now: int)
      modifies this
      ensures Abstract() == DoSetInterval(old(Abstract()), d, now)
    {
      var wasStarted := ticker.Some?;
      interval := d;
      if wasStarted {
        Start(now);
      }
    }

    method SetTimezone(zone: Clock)
      modifies `timezone
      ensures Abstract() == old(Abstract()).(timezone := zone)
    {
      timezone := zone;
    }

    // hasRun tells whether the function to run is not nil.
    method Add(jobId: string, cronExpr: string, hasRun: bool) returns (ok: bool)
      modifies `jobs
      ensures ok <==> hasRun && NewSchedule(cronExpr).Ok?
      ensures jobs == if ok then old(jobs)[jobId := NewSchedule(cronExpr).value] else old(jobs)
      ensures Abstract() == DoAdd(old(Abstract()), jobId, cronExpr, hasRun)
    {
      if !hasRun {
        return false;
      }
      var schedule := NewSchedule(cronExpr);
      if schedule.Err? {
        return false;
      }
      jobs := jobs[jobId := schedule.value];
      return true;
    }

    method Remove(jobId: string)
      modifies `jobs
      ensures Abstract() == old(Abstract()).(jobs := old(jobs) - {jobId})
    {
      jobs := jobs - {jobId};
    }

    method RemoveAll()
      modifies `jobs
      ensures Abstract() == old(Abstract()).(jobs := map[])
    {
      jobs := map[];
    }

    method Total() returns (n: nat)
      ensures n == |jobs.Keys|
    {
      n := |jobs|;
    }

    method Stop()
      modifies this
      ensures Abstract() == DoStop(old(Abstract()))
    {
      if startTimer.Some? {
        live := live - {startTimer.value};
        startTimer := None;
      }
      if ticker.None? {
        return;
      }
      live := live - {ticker.value};
      ticker := None;
    }

    method Start(now: int)
      modifies this
      ensures Abstract() == DoStart(old(Abstract()), now)
    {
      Stop();
      var next := Truncate(now + interval, interval);
      var delay := next - now;
      var timer := Create(OneShot(now + delay));
      startTimer := Some(timer);
    }

    method HasStarted() returns (started: bool)
      ensures started == CronSchedulers.HasStarted(Abstract())
    {
      started := ticker.Some?;
    }

    method RunDue(t: int)
      modifies `log
      ensures Abstract() == CronSchedulers.RunDue(old(Abstract()), t)
    {
      var moment := timezone(t);
      var started: set<string> := {};
      var todo := jobs.Keys;
      while todo != {}
        invariant todo <= jobs.Keys
        invariant started == set id | id in jobs.Keys - todo && IsDue(jobs[id], moment)
      {
        var id :| id in todo;
        if IsDue(jobs[id], moment) {
          started := started + {id};
        }
        todo := todo - {id};
      }
      assert started == DueJobs(jobs, moment);
      log := log + [Started(t, started)];
    }

    // The start timer fires: its callback installs the ticker and runs the jobs that are due.
    method Fire(source: nat, now: int)
      requires Enabled(Abstract(), CronSchedulers.Fire(source, now))
      modifies this
      ensures Abstract() == DoFire(old(Abstract()), source, now)
    {
      live := live - {source};
      if interval <= 0 {
        crashed := true;
        return;
      }
      var t := Create(Periodic(now + interval, interval));
      ticker := Some(t);
      RunDue(now);
    }

    // The ticker delivers a tick.
    method Tick(source: nat, now: int)
      requires Enabled(Abstract(), CronSchedulers.Tick(source, now))
      modifies this
      ensures Abstract() == DoTick(old(Abstract()), source, now)
    {
      live := live[source := Periodic(live[source].next + live[source].period, live[source].period)];
      RunDue(now);
    }
  }
}
