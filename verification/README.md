# gatego, modelled in Dafny

gatego is a reverse proxy. This project models its stateful and arithmetic components and proves
what they keep over every run. Objects that the Go code updates in place are classes; each method
is proved to take one step of a state machine on values, and the theorems are about those steps.

| files | component |
|---|---|
| PathGraph, RoutingAnomaly, RoutingAnomalyDetector, RoutingFlow, RoutingRating, RoutingFall, RoutingScore | the routing anomaly detector and its path graph |
| Balancer, RoundRobin, RandomPolicy, LeastLatency | the load-balancing policies |
| RateLimit, RateLimiter, RateLimitBounds, RateLimitIsolation, TokenBucket | the rate limiter |
| CronSchedule, CronRoundTrip, CronScheduler, CronRun, Cron | cron expressions and the scheduler |
| Headers, Recorder, ResponseRecorder, Cache, Freshness, ResponseCache | the response recorder and the response cache |
| Wrappers, GoInts, GoStrings, Arithmetic, Sums | Go's integers and strings, and shared arithmetic |

Conventions:

- One request, one call, one timer firing or one tick is one atomic step. Time, random draws, new
  session identifiers and the verdicts of url.Parse are inputs. MIME sniffing and the parser of
  Expires dates are function parameters.
- Weights, counts and scores of the detector are integers and its averages are reals. Division by a
  zero average is written out: infinite for a positive deviation, not a number for a zero one.
- A token bucket (golang.org/x/time/rate) holds credit in units of 1/Per of a token, so that it is
  exact: it starts full, gains 1 per nanosecond and a token costs Per.
- A cached entry can be replayed up to and including its expiration, as in
  github.com/patrickmn/go-cache.
- A handler is represented by what it leaves in its recorder.

## Where the code departs from what is promised

Each point rests on the theorems named, which give its exact condition.

- Random balancing is said to follow the weights; the comparison `<= 0` moves one draw from the last
  server to the first (ExactShareCondition, StarvedExample).
- A limit is said to allow Requests per Per; after its burst a bucket gains one token per Per, so
  clients that keep to the limit are refused unless Requests is at most 1 (AdvertisedCondition). The
  upper bound itself holds (WindowBound).
- Validation is said to rule out an unsupported zone; "IP" passes it, makes GetKey fail, and yields
  one bucket for all clients (MisspelledZone, IsolationCondition).
- The anomaly score is said to lie between 0 and 1; a numeric score can exceed 1
  (NumbersInUnitCondition, AboveOneExample), and in every configuration some run forwards a score
  that is no number at all (NotANumberCondition, NotANumberRun, NotANumberExample). avgDiviation is not the average
  deviation (AverageCondition, AverageExample). README.md of gatego shows min_score 100 with max_score 100, a combination that
  the configuration check rejects.
- A request with an unknown cookie changes the graph and then fails (JumpCountCondition,
  SessionBalanceCondition).
- The last path is said to fall back to the Referer header; a path found there is never used
  (RefererUnused), and a first visit whose Referer does not parse panics (OutcomeConditions).
- SetInterval has no effect on a pending start timer (PendingIntervalChange).
- A cached or recorded response keeps only the first value of each header (RelayedKeeps).
- The cache is shared, but it reads neither s-maxage nor a max-age with a capital letter, and
  max-age=0 does not override Expires: its time to live is then not the freshness lifetime of
  section 4.2.1 of RFC 9111 (FreshnessCondition, SharedAge, CapitalAge, PlainInRange).

## Model

| member | source | states |
|---|---|---|
| PathGraphs.NormalizeIdempotent | pkg/pathgraph/pathgraph.go:91-99 | Normalising a path twice is normalising it once. |
| PathGraphs.NormalizeVariants | pkg/pathgraph/pathgraph.go:91-99 | Spellings that differ in letter case or a missing leading slash share an entry; two absolute paths share one only if they are equal up to case. |
| PathGraphs.EdgeSumStep | pkg/pathgraph/pathgraph.go:28-51 | Adding a jump changes any sum over the weighted edges by the growth of that one edge. |
| PathGraphs.PathGraph.AddJump | pkg/pathgraph/pathgraph.go:28-51 | The graph gains exactly the normalised jump, and the result is how often it had been added before. |
| PathGraphs.PathGraph.GetDestinations | pkg/pathgraph/pathgraph.go:54-66 | The destinations are the ends of past jumps from the normalised source, each with the number of those jumps. |
| PathGraphs.PathGraph.GetAllPaths | pkg/pathgraph/pathgraph.go:69-89 | Every end of a past jump is listed, once, and nothing else, in whatever order the maps are walked. |
| RoutingAnomalyDetectors.RoutingAnomalyDetector.AddAnomalyScore | internal/middlewares/security/routing_anomaly_score.go:61-119 | One request takes one step of the state machine, including the two panics and the failing tracker, and the outcome is that of the step. |
| RoutingAnomalyDetectors.RoutingAnomalyDetector.AccountJump | internal/middlewares/security/routing_anomaly_score.go:101-111 | The session and the detector statistics are updated and the last path is stored before the rating is computed. |
| RoutingAnomalyDetectors.RoutingAnomalyDetector.CalcAnomalyRating | internal/middlewares/security/routing_anomaly_score.go:137-163 | The rating uses avgDiviation as it was before the call, with floating-point division by zero spelled out. |
| RoutingFlow.FlowBalance | internal/middlewares/security/routing_anomaly_score.go:85-109 | Over every run and for every path, outgoing minus incoming weight is accounted for by the sessions (one walk from "/" to the last path each) and by the jumps of unknown cookies. |
| RoutingFlow.SessionBalanceCondition | internal/middlewares/security/routing_anomaly_score.go:85-109 | Sessions alone balance the graph if and only if requests with an unknown cookie only ever ask for "/". |
| RoutingFlow.CountingIdentity | internal/middlewares/security/routing_anomaly_score.go:93-107 | Over every run the totals are the sums over all session histories; the edge weights sum to the number of jumps and the values w*(w-1)/2 to the score sum, up to the jumps of unknown cookies. |
| RoutingFlow.JumpCountCondition | internal/middlewares/security/routing_anomaly_score.go:93-107 | numberOfJumps equals the total edge weight if and only if no request carried an unknown cookie. |
| RoutingFlow.OutcomeConditions | internal/middlewares/security/routing_anomaly_score.go:61-134 | When a request is served unrated, panics on its Referer or panics on its history; the first two leave graph and statistics alone. |
| RoutingFlow.RefererUnused | internal/middlewares/security/routing_anomaly_score.go:86-89 | The path that getLastPath takes from a Referer header is discarded: any two headers that parse have the same effect, and one that does not parse makes a difference if and only if it panics. |
| RoutingFlow.StrangerPanics | internal/middlewares/security/routing_anomaly_score.go:93-102 | A request with an unknown cookie and a Referer that parses adds one jump from "/" to the graph, changes nothing else and reaches the nil history; no other request leaves a jump without a session. |
| RoutingFlow.StrangerExample | internal/middlewares/security/routing_anomaly_score.go:93-102 | One forged cookie leaves an edge that no counter and no session knows about. |
| RoutingRating.RunAveraged | internal/middlewares/security/routing_anomaly_score.go:137-147 | After n rated requests avgDiviation is the sum of deviation k divided by k. |
| RoutingRating.StepDeviation | internal/middlewares/security/routing_anomaly_score.go:138-147 | A rated request adds the distance between twice the global average and the session average, taken after the jump, whichever is larger, and no other request changes the statistics. |
| RoutingRating.DeviationIsDistance | internal/middlewares/security/routing_anomaly_score.go:138-141 | The deviation is that distance for all sums and counts. |
| RoutingRating.RateMeaning | internal/middlewares/security/routing_anomaly_score.go:144-163 | The score is 0 below the rating threshold or when 100 times the deviation is less than minScore times avgDiviation, 1 when it is more than maxScore times it or avgDiviation alone is zero, and the proportion in between. |
| RoutingRating.NeverDecreases | internal/middlewares/security/routing_anomaly_score.go:146-147 | avgDiviation is non-negative and never decreases from one point of a run to a later one. |
| RoutingRating.AverageCondition | internal/middlewares/security/routing_anomaly_score.go:146-147 | avgDiviation is at least the mean deviation, and equals it if and only if every deviation before the latest is zero. |
| RoutingScore.NumbersInUnitCondition | internal/middlewares/security/routing_anomaly_score.go:131-163 | Over every run of requests the scores that are numbers stay in [0,1] if and only if the thresholds are at most 100 apart or the upper one is negative; in every other configuration there is a run on which one exceeds 1. |
| RoutingScore.NotANumberRun | internal/middlewares/security/routing_anomaly_score.go:143-163 | In every configuration there is a run whose last request is forwarded with a score that is not a number. |
| RoutingScore.AboveOneExample | internal/middlewares/security/routing_anomaly_score.go:144-163 | With thresholds 100 and 300, the third of three given requests is forwarded with the score 5/3. |
| RoutingScore.SuspiciousExample | internal/middlewares/security/routing_anomaly_score.go:137-163 | With the default thresholds 100 and 200, a fourth session whose average lies above twice the global one is forwarded with the score 1. |
| RoutingScore.NotANumberExample | internal/middlewares/security/routing_anomaly_score.go:143-163 | With a rating threshold of at most 1 the very first request is forwarded with a score that is not a number. |
| RoutingScore.AverageExample | internal/middlewares/security/routing_anomaly_score.go:146-147 | After three given requests avgDiviation is 17/36 where the mean deviation is 14/36. |
| RoutingRating.MonotoneCondition | internal/middlewares/security/routing_anomaly_score.go:144-163 | As a function of the deviation, for any positive avgDiviation, the score is monotone if and only if the same condition on the thresholds holds. |
| RoutingRating.NotANumberCondition | internal/middlewares/security/routing_anomaly_score.go:143-163 | The forwarded score is not a number if and only if the rating threshold is reached and every deviation so far is zero. |
| Balancers.NewBalancer | internal/handlers/balancer.go:30-62 | The table keeps the configured order and every weight that fits an int, raises the others to 1, fails on the first bad URL, and picks the named policy or none. |
| Balancers.OwnerUnique | internal/handlers/balancer.go:98-104 | No slot of the weight line belongs to two servers. |
| RoundRobinPolicies.RoundRobinPolicy.constructor | internal/handlers/balancer.go:84-92 | A new policy stands before call 0 with W the sum of the weights. |
| RoundRobinPolicies.CounterSlot | internal/handlers/balancer.go:95-108 | The counter that runs 0 to W and then back to 1 stands for slot k mod W before call k. |
| RoundRobinPolicies.RoundRobinPolicy.GetNext | internal/handlers/balancer.go:95-108 | Call k serves the owner of slot k mod W. |
| RoundRobinPolicies.FairWindow | internal/handlers/balancer.go:95-108 | Any W consecutive calls, starting anywhere, serve each server exactly its weight times. |
| RoundRobinPolicies.FairShare | internal/handlers/balancer.go:95-108 | n calls, starting anywhere, serve a server of weight w between floor(n/W)*w and floor(n/W)*w + w times. |
| RandomPolicies.RandomPolicy.GetNext | internal/handlers/balancer.go:124-135 | Every draw below W picks a server inside the loop; the statement after it is unreachable. |
| RandomPolicies.RandomIsShifted | internal/handlers/balancer.go:124-135 | A draw r > 0 picks the owner of slot r - 1, and draw 0 the owner of slot 0. |
| RandomPolicies.RandomShares | internal/handlers/balancer.go:124-135 | Over all W draws the first server gets one more than its weight, the last one less, every other exactly its weight. |
| RandomPolicies.DrawsTotal | internal/handlers/balancer.go:124-135 | The draws of all servers add up to the number of draws. |
| RandomPolicies.ExactShareCondition | internal/handlers/balancer.go:124-135 | A server gets exactly its weight if and only if it is alone or at neither end, and is never chosen if and only if it is the last of several and has weight 1. |
| RandomPolicies.StarvedExample | internal/handlers/balancer.go:124-135 | Of two servers of weight 1 the second is never chosen. |
| RandomPolicies.StrictTestIsFair | internal/handlers/balancer.go:124-135 | The same loop with a strict comparison would choose the owner of the drawn slot and give every server exactly its weight of the W draws. |
| LeastLatencyPolicies.LeastLatencyPolicy.constructor | internal/handlers/balancer.go:142-150 | Every server URL starts with latency 0 and there is no other key: the table of an empty run. |
| LeastLatencyPolicies.LeastLatencyPolicy.BestUrl | internal/handlers/balancer.go:154-162 | The chosen URL has minimal recorded latency whatever order the map is walked in. |
| LeastLatencyPolicies.LeastLatencyPolicy.GetNext | internal/handlers/balancer.go:152-184 | The first server of a URL of minimal latency is returned and its callbacks hold the current time. |
| LeastLatencyPolicies.LeastLatencyPolicy.Complete | internal/handlers/balancer.go:175-181 | A completion records the time since the callbacks were last installed and keeps the keys to the server URLs. |
| LeastLatencyPolicies.LeastLatencyPolicy.ServeAlone | internal/handlers/balancer.go:152-184 | A request that is over before the next one starts keeps the policy on the runs that the next two rows are about. |
| LeastLatencyPolicies.EveryServerTried | internal/handlers/balancer.go:152-184 | When requests complete one at a time with positive latency, the first m go to m distinct URLs. |
| LeastLatencyPolicies.SlowServerForgotten | internal/handlers/balancer.go:172-184 | A server whose latest record is worse than a bound is not chosen again while the others keep answering within it: records do not decay. |
| RateLimits.AcceptedLimits | internal/middlewares/ratelimit.go:59-98 | Accepted are exactly the texts zone-count/unit with zone "ip" in any letter case, a 64-bit count without minus sign and unit s, m, h or d, which mean 10^9, 60 * 10^9, 3600 * 10^9 and 86400 * 10^9 nanoseconds. |
| RateLimits.RejectedLimits | internal/middlewares/ratelimit.go:59-91 | Which of the four errors every other text is refused with. |
| RateLimits.ParsedIsLegal | internal/middlewares/ratelimit.go:59-98 | A parsed limit has a non-negative count and a period of a second, a minute, an hour or a day. |
| RateLimits.KeyCondition | internal/middlewares/ratelimit.go:29-41 | Two keys of zone "ip" coincide if and only if period, count and the address text before the first colon do. |
| RateLimits.MisspelledZone | internal/middlewares/ratelimit.go:29-41 | An accepted limit makes GetKey fail if and only if its zone is not spelled "ip"; its key is then the same for all clients. |
| RateLimits.MisspelledZoneExample | internal/middlewares/ratelimit.go:64-67 | "IP-10/m" is accepted and keeps its zone in upper case. |
| RateLimits.AddressPartMeaning | internal/middlewares/ratelimit.go:33-35 | The address part is the text before the first colon, or the whole address. |
| RateLimits.ServerErrorCondition | internal/middlewares/ratelimit.go:115-119 | A request gets a server error if and only if the zone of some limit that it reaches is not spelled "ip". |
| RateLimits.BracketedAddresses | internal/middlewares/ratelimit.go:33-35 | All bracketed IPv6 addresses that begin with a colon share one address part. |
| RateLimits.SoundBucket | internal/middlewares/ratelimit.go:139-148 | A bucket never holds less than nothing or more than its burst, and a rejecting bucket reports 0 remaining. |
| RateLimiters.NewRateLimitMiddleware | internal/middlewares/ratelimit.go:100-111 | All limits are parsed in order, or the first error is returned. |
| RateLimiters.Limiter.Allow | internal/middlewares/ratelimit.go:128-132 | One token is taken from the bucket in place if it holds one, and nothing changes otherwise. |
| RateLimiters.RateLimiter.AllowOne | internal/middlewares/ratelimit.go:47-57 | The limiter of a key is created full on first use and asked for one token; no other entry changes. |
| RateLimiters.RateLimiter.ServeHTTP | internal/middlewares/ratelimit.go:113-135 | The loop changes the table as the pass over the limits says, stops at the first rejection, and goes on after a key error. |
| RateLimitBounds.VisitTakes | internal/middlewares/ratelimit.go:115-133 | A request takes one token for each limit it got past and none for the rejecting limit or any later one. |
| RateLimitBounds.WindowBound | internal/middlewares/ratelimit.go:113-135 | In any window of length T of any run, for every limit at once, at most Requests + T/Per requests of one address part pass, and at most Requests if T < Per. |
| RateLimitIsolation.Isolation | internal/middlewares/ratelimit.go:113-135 | If every zone is spelled "ip", the buckets of a client after any run are those after its own requests alone. |
| RateLimitIsolation.IsolatedVerdict | internal/middlewares/ratelimit.go:113-135 | Then the answer to a client does not depend on the requests of others. |
| RateLimitIsolation.IsolationCondition | internal/middlewares/ratelimit.go:29-41 | With one limit, the requests of others never change an answer if and only if the zone is spelled "ip" or no request is allowed at all. |
| RateLimitIsolation.SharedBucketExample | internal/middlewares/ratelimit.go:115-133 | With zone "IP" one client can use up the only token of another. |
| TokenBuckets.AdmissionCondition | internal/middlewares/ratelimit.go:124-132 | A bucket admits a request if and only if every window that ends with it stays within Requests + T/Per and Requests is not 0. |
| TokenBuckets.OneLimitHistory | internal/middlewares/ratelimit.go:113-135 | With one limit, a bucket in the table has exactly the history of the requests that passed. |
| TokenBuckets.OneLimitCondition | internal/middlewares/ratelimit.go:113-135 | With one limit, the next request of a client passes if and only if it keeps every window within bounds. |
| TokenBuckets.AllPassHistory | internal/middlewares/ratelimit.go:113-135 | With one limit, all requests of a run pass if and only if their times are a history of admissions of one bucket. |
| TokenBuckets.AdvertisedCondition | internal/middlewares/ratelimit.go:113-135 | With one limit, a client that keeps to Requests per Per is served on every run if and only if Requests is at most 1. |
| TokenBuckets.SecondBurstRefused | internal/middlewares/ratelimit.go:113-135 | Of n >= 2 requests at once and two more a period later, all but the last are served, although no window shorter than Per holds more than n. |
| CronSchedules.ParseCronSegment | pkg/cron/schedule.go:129-206 | The loops over parts and slots compute the union of the parts or the error of the first bad one. |
| CronSchedules.FillSlots | pkg/cron/schedule.go:199-202 | The inner loop adds exactly the multiples of the step from the lower bound up to the upper one. |
| CronSchedules.PartMeaning | pkg/cron/schedule.go:134-197 | Exactly which texts are read as the range lo, hi, step: a star, one number in bounds or two numbers around a hyphen, alone with step 1 or followed by a slash and a step from 1 to the maximum. |
| CronSchedules.SegmentMeaning | pkg/cron/schedule.go:129-206 | A segment parses if and only if all its parts are such texts; v is a slot if and only if some part says a range and step that reach v; slots lie within bounds and are not empty. |
| CronSchedules.SegmentList | pkg/cron/schedule.go:132-203 | Parsing a + "," + b succeeds if and only if a and b both do and then gives the union; otherwise the first error. |
| CronSchedules.RejectedPart | pkg/cron/schedule.go:134-197 | Which error every other text of a part is refused with. |
| CronSchedules.SegmentError | pkg/cron/schedule.go:132-203 | A segment fails with the error of its first bad part. |
| CronSchedules.FieldsError | pkg/cron/schedule.go:88-115 | An expression fails with the error of its first bad segment, or because it does not have five. |
| CronSchedules.FieldsOf | pkg/cron/schedule.go:88-124 | Five segments read as a schedule if and only if each reads as the field in its place, with its own bounds. |
| CronRoundTrip.FieldRoundTrip | pkg/cron/schedule.go:132-203 | Any comma list of numbers in range, in any order and with repetitions, parses to the set of them. |
| CronRoundTrip.RangesRoundTrip | pkg/cron/schedule.go:132-203 | Any comma list of ranges with steps, printed as lo-hi/step, parses to the union of the ranges. |
| CronRoundTrip.ScheduleRoundTrip | pkg/cron/schedule.go:83-125 | Printing a schedule with five non-empty fields in range and parsing it gives the schedule back. |
| CronRoundTrip.DenotedSchedules | pkg/cron/schedule.go:83-125 | The schedules that expressions denote are exactly those with five non-empty fields in range. |
| CronRoundTrip.ExpressionDue | pkg/cron/schedule.go:41-125 | An expression that is no macro is accepted if and only if it has five segments of readable parts, and a moment is then due if and only if its minute, hour, day, month and day of the week are each in a range that some part of the segment in that place says. |
| CronRoundTrip.FieldsMeaning | pkg/cron/schedule.go:88-124 | The five segments are minutes 0-59, hours 0-23, days 1-31, months 1-12 and days of the week 0-6, and all of them must agree. |
| CronRoundTrip.MacroMeaning | pkg/cron/macros.go:14-23 | Each macro parses to the same schedule as its expansion, and that schedule is the documented one. |
| CronRoundTrip.MacroNames | pkg/cron/macros.go:14-23 | Exactly eight names are macros. |
| CronSchedulers.NeverTwoSources | pkg/cron/cron.go:132-177 | In every reachable state at most one of start timer and ticker is live, HasStarted tells whether a ticker is, and a live timer is the one the Cron holds. |
| CronSchedulers.Restart | pkg/cron/cron.go:49-60 | Start, and SetInterval on a running cron, leave the new start timer as the only live source; SetInterval on any other cron touches none. |
| CronSchedulers.StepFields | pkg/cron/cron.go:49-111 | What every call does to interval, zone and jobs: SetInterval stores the interval whether or not the cron runs, Add registers if and only if there is a function and the expression parses. |
| CronSchedulers.StepLog | pkg/cron/cron.go:132-199 | Jobs are started by the deliveries of timer and ticker only, and then exactly those that are due. |
| CronSchedulers.IntervalThenStart | pkg/cron/cron.go:49-60 | After SetInterval, whatever the state, Start leaves one timer at the next boundary of the new interval. |
| CronSchedulers.QuietBetweenStopAndStart | pkg/cron/cron.go:132-147 | No job starts between a Stop and the next Start, whatever else is called. |
| CronSchedulers.CrashCondition | pkg/cron/cron.go:161-164 | A step crashes if and only if the start timer fires under an interval that is not positive. |
| CronSchedulers.FirstTick | pkg/cron/cron.go:155-158 | The first tick is the least multiple of the interval strictly after Start, at most one interval away. |
| CronSchedulers.NoAlignment | pkg/cron/cron.go:155-158 | Under an interval that is not positive the delay is the interval itself. |
| CronSchedulers.PendingIntervalChange | pkg/cron/cron.go:49-60 | Changing the interval while the start timer is pending does not move it; later ticks are multiples of the new interval if and only if the first one is. |
| CronRuns.StartToStop | pkg/cron/cron.go:84-199 | Under ideal timers, and with any jobs added, replaced and removed between Start and Stop, every job starts at its due boundaries, once each and in order, and at no other time. |
| CronRuns.BoundaryTimes | pkg/cron/cron.go:152-199 | The due boundaries of a job are exactly the multiples of the interval after Start, up to Stop, at which the schedule then registered for it is due. |
| CronRuns.WholeLife | pkg/cron/cron.go:39-199 | From creation on: whatever calls set the cron up before Start, a job is started exactly at the multiples of the interval set last, after Start and up to Stop, at which its schedule of the time is due in the zone set last, once each and in order. |
| CronRuns.ScriptStarts | pkg/cron/cron.go:161-199 | The same for a cron that already runs, from its next delivery on. |
| Crons.Cron.constructor | pkg/cron/cron.go:39-45 | A new cron has an interval of one minute, no jobs and no source. |
| Crons.Cron.SetInterval | pkg/cron/cron.go:49-60 | The interval is stored and the ticker restarted if it was running. |
| Crons.Cron.Add | pkg/cron/cron.go:84-103 | A job is added or replaced if there is a function and the expression parses, and nothing changes otherwise. |
| Crons.Cron.Remove | pkg/cron/cron.go:106-111 | Only the named job is removed. |
| Crons.Cron.Stop | pkg/cron/cron.go:132-147 | Both sources are stopped and forgotten. |
| Crons.Cron.Start | pkg/cron/cron.go:152-177 | A running cron is stopped and one timer is created for the next boundary. |
| Crons.Cron.Fire | pkg/cron/cron.go:161-175 | The callback of the start timer installs the ticker and runs what is due. |
| Crons.Cron.Tick | pkg/cron/cron.go:170-174 | A tick runs what is due and leaves the ticker live. |
| Crons.Cron.RunDue | pkg/cron/cron.go:188-199 | Exactly the registered jobs whose schedule is due start, in whatever order the map is walked. |
| Headers.CanonicalCase | internal/middlewares/responsecapture.go:230-234 | Field names have the same canonical form if and only if they differ in letter case only. |
| Headers.CanonicalSpelling | internal/middlewares/responsecapture.go:86-93 | A name is spelled with capitals at the start and after hyphens and small letters elsewhere. |
| Headers.LookupAfterChange | internal/middlewares/responsecapture.go:86-93 | What Get finds under any spelling after Set, Del or Add. |
| Headers.FirstValuesGet | internal/middlewares/responsecapture.go:230-234 | Forwarding a header keeps what every lookup finds. |
| Headers.FirstValuesCondition | internal/middlewares/responsecapture.go:230-234 | A header is forwarded unchanged if and only if its keys are canonical with one value each. |
| Recorders.RecorderMeaning | internal/middlewares/responsecapture.go:76-148 | A handler panics if and only if its first header-writing call has a status outside 100..999; otherwise Result has the status and header of that call, a sniffed type where due, and all the writes as body. |
| Recorders.SniffCondition | internal/middlewares/responsecapture.go:86-94 | If the first header-writing call is a write, the header is the one at that call, with the type of at most its first 512 bytes if and only if there is neither Content-Type nor Transfer-Encoding. |
| Recorders.EditMeaning | internal/middlewares/responsecapture.go:86 | What each kind of header edit does to every entry. |
| Recorders.ResultStays | internal/middlewares/responsecapture.go:165-168 | No sequence of calls after Result changes what it returns. |
| Recorders.ForwardFresh | internal/middlewares/responsecapture.go:224-234 | WriteTo into a fresh recorder gives the same status and body and the first value of every header, and succeeds if and only if the status has three digits. |
| Recorders.ForwardOnto | internal/middlewares/responsecapture.go:224-234 | WriteTo into any writer: fields are added or replaced by name, the body is appended, and a header that was written already stays. |
| Recorders.ChainCollapses | internal/middlewares/responsecapture.go:224-234 | Forwarding through any chain of n >= 1 recorders gives what forwarding through one does. |
| Recorders.RelayedKeeps | internal/middlewares/responsecapture.go:224-234 | Status, body and every lookup survive, and the response is unchanged if and only if its header is single-valued with canonical keys. |
| ResponseRecorders.ResponseRecorder.WriteHeader | internal/middlewares/responsecapture.go:136-148 | The first call sets status and snapshot or panics; later calls change nothing. |
| ResponseRecorders.ResponseRecorder.ImplyHeader | internal/middlewares/responsecapture.go:76-96 | A first write sets the type if none is set and no transfer encoding is, and implies status 200. |
| ResponseRecorders.ResponseRecorder.Write | internal/middlewares/responsecapture.go:100-116 | The body grows by the data after the implied header. |
| ResponseRecorders.ResponseRecorder.Result | internal/middlewares/responsecapture.go:165-222 | The response is built from the snapshot once and memoised. |
| ResponseRecorders.ResponseRecorder.WriteTo | internal/middlewares/responsecapture.go:224-228 | Headers, status and the current body are sent; the recorder keeps its memoised result. |
| ResponseRecorders.SetFirstValues | internal/middlewares/responsecapture.go:230-234 | The loop sets the first value of every canonical key whatever order the map is walked in. |
| Caches.GetCacheMaxAge | internal/middlewares/cache.go:72-83 | The loop returns the number of the first max-age directive that has one, or 0. |
| Caches.MaxAgeMeaning | internal/middlewares/cache.go:72-83 | In a list of directives the first max-age with a number counts. |
| Caches.DirectiveMeaning | internal/middlewares/cache.go:74-77 | Which texts are a max-age directive with a number. |
| Caches.PrintedAge | internal/middlewares/cache.go:73-78 | A printed max-age directive is read back, with any blanks around it. |
| Freshness.TtlExact | internal/middlewares/cache.go:53-54 | max-age in nanoseconds comes out as n seconds if and only if n is at most 9223372036 and max-age is n up to a multiple of 2^55. |
| Freshness.FreshnessCondition | internal/middlewares/cache.go:51-57 | For which Cache-Control texts the time to live is a freshness lifetime of section 4.2.1 of RFC 9111 in a shared cache whatever Expires says, numbers too large for a duration being taken as section 1.2.2 allows: if and only if the code reads no positive max-age where the standard finds no age, and otherwise a positive number for the same duration. |
| Freshness.PlainFreshness | internal/middlewares/cache.go:51-83 | Without quotes, signs and capitals this is so if and only if max-age is absent or stands for itself, where there is no s-maxage, and max-age stands for s-maxage where there is one. |
| Freshness.PlainInRange | internal/middlewares/cache.go:51-83 | For numbers up to 9223372036 that means: max-age is not 0, and equals s-maxage if there is one. |
| Freshness.PlainLifetime | internal/middlewares/cache.go:46-57 | For a response with a plain Cache-Control field the time to live is its first max-age, if positive and in range, and what its Expires field says if there is none or 0. |
| Freshness.StoredLifetime | internal/middlewares/cache.go:46-57 | For every response whose Cache-Control text the cache treats as the standard does, the time to live is the freshness lifetime of its Cache-Control and Expires fields. |
| Freshness.StoredEntry | internal/middlewares/cache.go:46-64 | A miss then stores the response for that lifetime, or nothing if it is not positive. |
| Freshness.OwnAge | internal/middlewares/cache.go:72-83 | A max-age alone is read as it is, and kept for its lifetime if and only if the number stands for itself. |
| Freshness.LargeAgeExample | internal/middlewares/cache.go:53-54 | max-age=36028799166447616 is kept for 2^31 seconds, as the standard allows. |
| Freshness.SharedAge | internal/middlewares/cache.go:72-83 | In max-age=n,s-maxage=m the code reads n and the standard m. |
| Freshness.CapitalAge | internal/middlewares/cache.go:72-83 | Any spelling of max-age with a capital letter is read as no max-age, and the lifetime is then not that of the standard. |
| Freshness.SharedAgeExample | internal/middlewares/cache.go:72-83 | "max-age=60,s-maxage=0" is kept for a minute, in the standard not at all. |
| Freshness.CapitalAgeExample | internal/middlewares/cache.go:72-83 | "Max-Age=60" is not kept, in the standard for a minute. |
| Caches.HitOrigin | internal/middlewares/cache.go:30-40 | Every hit replays the response of an earlier miss on the same URL whose time to live has not passed, under the rule of the middleware or any other rule for the time to live. |
| Caches.CoveredHit | internal/middlewares/cache.go:30-63 | While its time to live lasts, a stored response answers every request for its URL. |
| Caches.CacheCondition | internal/middlewares/cache.go:26-68 | No client can tell the cache from the handler if and only if the handler repeats itself whenever a fresh copy is stored. |
| Caches.CacheRefines | internal/middlewares/cache.go:26-68 | Then clients get the status, body and header values of calling the handler directly, and so does any writer, whatever it holds already. |
| Caches.CleanInvisible | internal/middlewares/cache.go:16 | Dropping expired entries never changes a later lookup, and leaves exactly what can still be looked up. |
| ResponseCaches.ServeHTTP | internal/middlewares/cache.go:26-68 | One request takes the step of the value model under the headers rule, and forwards the stored or the new response to the writer, on top of what the writer holds already. |
| ResponseCaches.LifetimeOf | internal/middlewares/cache.go:46-57 | The cache headers are read from the live header map of the recorder. |
| ResponseCaches.StoreAndRelay | internal/middlewares/cache.go:60-67 | A response with a positive time to live is stored under the URL, and every response is forwarded. |

## Left out

- HTTP transport, httputil.ReverseProxy, TLS, file serving, OpenTelemetry, logging, gzip, minify and OpenAPI validation: foreign calls and I/O around the modelled components.
- Configuration parsing and validation: only its consequences are used (a non-empty server list, minScore < maxScore).
- Unsynchronised interleavings inside one request: the shared fields have no lock that a property could rest on, so steps are atomic. A start timer whose callback has begun when Stop is called is therefore not modelled.
- PathGraphs.NormalizeVariants: letters outside ASCII, which strings.ToLower also folds, stay distinct in the model; lower-casing and blanks are modelled for ASCII only.
- Freshness.FreshnessCondition: compares explicit lifetimes of a response received at its Date; heuristic freshness, the Age header, no-store and the other directives are not modelled.
- Floating-point rounding and the two-digit formatting of the score header.
- 64-bit overflow of sums of weights, counters and clock times; the widths that are modelled are the weight conversion, Atoi, latencies and the cache time to live.
- TrackerID cookies: RemoveTracker and the Set-Cookie header; a drawn identifier is assumed not to be in use.
- Recorder trailers, Content-Length parsing, the Status text, Flushed and a nil Body or HeaderMap: they add side cases only. NewRecorder never leaves those two nil.
- Aliasing of the header map that Result returns: a later change to that map by a caller is not seen in the model.
- 1xx statuses of a client connection: writers are recorders.
- Rate limit headers other than the remaining count.
- Cache keys: the URL is an opaque string; requests that differ in method or host but not in URL share it, as in the code.
- time.Until and the store are taken at the same instant in one request.
- CronRuns.StartToStop: does not cover SetInterval, SetTimezone or a second Start between Start and Stop; NeverTwoSources, Restart, StepFields and PendingIntervalChange say what those do.
- Calendar computation of a Moment from a time and a zone: a clock function parameter.
- The tick channel of a slow receiver drops ticks; ideal timers deliver every tick when it is due.
