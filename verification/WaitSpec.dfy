/** The bounded wait of internal/domain/job.go as a function of what every poll observes and how time
    passes. */
module WaitSpec {
  import opened Json
  import opened MergeSpec

  const SECOND := 1_000_000_000
  const MAX_WAIT_SECONDS := 30
  const POLL_SECONDS := 2
  const POLL_INTERVAL := POLL_SECONDS * SECOND
  const UNTIL_RUNNING := "running"
  const UNTIL_TERMINAL := "terminal"

  // ---- Observations

  datatype JobDetail = JobDetail(deploymentStatus: string, jobID: string, dashboardURL: string)

  datatype PortError = Unreachable(reason: string) | Timeout(reason: string) | OtherError

  type Reply<+T> = Result<T, PortError>

  /** What the three ports answer at one poll, if they are asked. */
  datatype Observation = Observation(job: Reply<JobDetail>, endpoint: Reply<string>, live: Reply<string>)

  datatype PortCall = GetJob | ResolveEndpoint | FetchStatus

  datatype View = View(detail: JobDetail, reached: bool, scheduled: bool, live: Option<string>, degraded: Option<string>)

  predicate LiveTerminal(status: string) {
    status in {"SUCCEEDED", "FAILED", "STOPPED"}
  }

  /** reachedLive. */
  predicate ReachedLive(until: string, status: string) {
    if until == UNTIL_TERMINAL then LiveTerminal(status) else status != "" && status != "PENDING"
  }

  predicate CrdTerminal(deploymentStatus: string) {
    deploymentStatus in {"Complete", "Failed", "ValidationFailed"}
  }

  predicate Scheduled(d: JobDetail) {
    d.jobID != "" && d.dashboardURL != ""
  }

  /** degradeReason: only unavailability degrades. */
  function DegradeReason(e: PortError): Option<string> {
    match e
    case Unreachable(reason) => Some(reason)
    case Timeout(reason) => Some(reason)
    case OtherError => None
  }

  function Degraded(d: JobDetail, e: PortError): Reply<View> {
    match DegradeReason(e)
    case Some(reason) => Ok(View(d, false, true, None, Some(reason)))
    case None => Err(e)
  }

  /** pollOnce. */
  function PollOnce(until: string, o: Observation): Reply<View> {
    match o.job
    case Err(e) => Err(e)
    case Ok(d) =>
      if CrdTerminal(d.deploymentStatus) then Ok(View(d, true, Scheduled(d), None, None))
      else if !Scheduled(d) then Ok(View(d, false, false, None, None))
      else if o.endpoint.Err? then Degraded(d, o.endpoint.error)
      else if o.live.Err? then Degraded(d, o.live.error)
      else Ok(View(d, ReachedLive(until, o.live.value), true, Some(o.live.value), None))
  }

  /** The ports a poll asks: the dashboard only for a job that is scheduled and not yet terminal. */
  function PollCalls(o: Observation): seq<PortCall> {
    if o.job.Err? || CrdTerminal(o.job.value.deploymentStatus) || !Scheduled(o.job.value) then [GetJob]
    else if o.endpoint.Err? then [GetJob, ResolveEndpoint]
    else [GetJob, ResolveEndpoint, FetchStatus]
  }

  /** The view a poll gives and the ports it asks.  It reaches exactly when the job is terminal by its
      own status, or has both an id and a dashboard, the dashboard answers, and the status it reports
      meets the condition: a final one for "terminal", anything set but PENDING otherwise.  An
      unavailable dashboard degrades the view; any other port error fails the poll. */
  lemma PollMeaning(until: string, o: Observation)
    ensures var p := PollOnce(until, o);
            if o.job.Err? then p == Err(o.job.error) && PollCalls(o) == [GetJob]
            else
              var d := o.job.value;
              var scheduled := d.jobID != "" && d.dashboardURL != "";
              if d.deploymentStatus in {"Complete", "Failed", "ValidationFailed"} then
                p == Ok(View(d, true, scheduled, None, None)) && PollCalls(o) == [GetJob]
              else if !scheduled then p == Ok(View(d, false, false, None, None)) && PollCalls(o) == [GetJob]
              else if o.endpoint.Err? then
                p == DegradedBy(d, o.endpoint.error) && PollCalls(o) == [GetJob, ResolveEndpoint]
              else
                && PollCalls(o) == [GetJob, ResolveEndpoint, FetchStatus]
                && if o.live.Err? then p == DegradedBy(d, o.live.error)
                   else
                     var met := if until == "terminal" then o.live.value in {"SUCCEEDED", "FAILED", "STOPPED"}
                                else o.live.value !in {"", "PENDING"};
                     p == Ok(View(d, met, true, Some(o.live.value), None))
  {
  }

  function DegradedBy(d: JobDetail, e: PortError): Reply<View> {
    if e.Unreachable? || e.Timeout? then Ok(View(d, false, true, None, Some(e.reason))) else Err(e)
  }

  // ---- Time

  /** One turn of the loop: what the poll observes, how long it takes, and then the sleep: how much
      longer than the interval it lasts, or None when the context ends it. */
  datatype Turn = Turn(seen: Observation, pollTime: nat, sleep: Option<nat>)

  type Future = nat -> Turn

  datatype WaitError = PortFailed(e: PortError) | Cancelled

  /** The result, the number of polls made, and the clock at the end. */
  datatype Waited = Waited(result: Result<View, WaitError>, polls: nat, clock: int)

  /** The loop of Wait from its n-th turn on. */
  function WaitFrom(f: Future, until: string, deadline: int, clock: int, n: nat): Waited
    decreases deadline - clock
  {
    var now := clock + f(n).pollTime;
    match PollOnce(until, f(n).seen)
    case Err(e) => Waited(Err(PortFailed(e)), n + 1, now)
    case Ok(view) =>
      if view.reached || now >= deadline then Waited(Ok(view), n + 1, now)
      else match f(n).sleep
           case None => Waited(Err(Cancelled), n + 1, now)
           case Some(extra) => WaitFrom(f, until, deadline, now + POLL_INTERVAL + extra, n + 1)
  }

  /** clampWait, in seconds. */
  function ClampWait(seconds: int): (w: nat)
    ensures w <= MAX_WAIT_SECONDS
  {
    if seconds < 0 then 0 else if seconds > MAX_WAIT_SECONDS then MAX_WAIT_SECONDS else seconds
  }

  function Until(requested: string): string {
    if requested == "" then UNTIL_RUNNING else requested
  }

  function Deadline(start: int, seconds: int): int {
    start + ClampWait(seconds) * SECOND
  }

  /** Wait. */
  function Wait(f: Future, start: int, until: string, seconds: int): Waited {
    WaitFrom(f, Until(until), Deadline(start, seconds), start, 0)
  }

  /** The future after m turns. */
  function Later(f: Future, m: nat): Future {
    (n: nat) => f(n + m)
  }

  lemma {:induction false} WaitLater(f: Future, until: string, deadline: int, clock: int, n: nat, m: nat)
    ensures var r := WaitFrom(Later(f, m), until, deadline, clock, n);
            WaitFrom(f, until, deadline, clock, n + m) == r.(polls := r.polls + m)
    decreases deadline - clock
  {
    var t := f(n + m);
    assert Later(f, m)(n) == t;
    var p := PollOnce(until, t.seen);
    if p.Ok? && !p.value.reached && clock + t.pollTime < deadline && t.sleep.Some? {
      WaitLater(f, until, deadline, clock + t.pollTime + POLL_INTERVAL + t.sleep.value, n + 1, m);
    }
  }

  // ---- Bounds

  lemma {:induction false} PollsFrom(f: Future, until: string, deadline: int, start: int, clock: int, w: nat, n: nat)
    requires deadline == start + w * SECOND && start + n * POLL_INTERVAL <= clock
    requires n <= (w + 1) / 2
    ensures WaitFrom(f, until, deadline, clock, n).polls <= (w + 1) / 2 + 1
    decreases deadline - clock
  {
    var now := clock + f(n).pollTime;
    var p := PollOnce(until, f(n).seen);
    if p.Ok? && !p.value.reached && now < deadline && f(n).sleep.Some? {
      assert n * POLL_INTERVAL < w * SECOND;
      PollsFrom(f, until, deadline, start, now + POLL_INTERVAL + f(n).sleep.value, w, n + 1);
    }
  }

  /** When a wait must stop: w seconds after its start, w being what is asked for, within 0 and 30; and
      an empty condition means running. */
  lemma WaitWindow(start: int, seconds: int, requested: string)
    ensures Deadline(start, seconds)
         == start + (if seconds <= 0 then 0 else if seconds >= 30 then 30 else seconds) * 1_000_000_000
    ensures Until(requested) == if requested == "" then "running" else requested
    ensures POLL_INTERVAL == 2 * 1_000_000_000
  {
  }

  /** Wait always ends, after at most ceil(w/2) + 1 polls for a clamped bound of w seconds, so never
      more than 16, whatever is requested and observed and however slow the polls are. */
  lemma BoundedPolls(f: Future, start: int, until: string, seconds: int)
    ensures Wait(f, start, until, seconds).polls <= (ClampWait(seconds) + 1) / 2 + 1 <= 16
  {
    PollsFrom(f, Until(until), Deadline(start, seconds), start, start, ClampWait(seconds), 0);
  }

  lemma {:induction false} UnreachedFrom(f: Future, until: string, deadline: int, clock: int, n: nat)
    ensures var r := WaitFrom(f, until, deadline, clock, n);
            && n < r.polls
            && (r.result.Ok? ==> r.result.value.reached || r.clock >= deadline)
            && (r.result.Ok? ==> PollOnce(until, f(r.polls - 1).seen) == Ok(r.result.value))
            && (forall k | n <= k < r.polls - 1 :: PollOnce(until, f(k).seen).Ok? && !PollOnce(until, f(k).seen).value.reached)
    decreases deadline - clock
  {
    var now := clock + f(n).pollTime;
    var p := PollOnce(until, f(n).seen);
    if p.Ok? && !p.value.reached && now < deadline && f(n).sleep.Some? {
      UnreachedFrom(f, until, deadline, now + POLL_INTERVAL + f(n).sleep.value, n + 1);
    }
  }

  /** "Not reached" is only answered once the deadline has passed; the answer is the last poll's view,
      and no earlier poll had reached the condition. */
  lemma UnreachedMeansDeadline(f: Future, start: int, until: string, seconds: int)
    ensures var r := Wait(f, start, until, seconds);
            && r.polls > 0
            && (r.result.Ok? && !r.result.value.reached ==> r.clock >= Deadline(start, seconds))
            && (r.result.Ok? ==> PollOnce(Until(until), f(r.polls - 1).seen) == Ok(r.result.value))
            && (forall k: nat | k < r.polls - 1 ::
                  PollOnce(Until(until), f(k).seen).Ok? && !PollOnce(Until(until), f(k).seen).value.reached)
  {
    UnreachedFrom(f, Until(until), Deadline(start, seconds), start, 0);
  }

  lemma {:induction false} EndsFrom(f: Future, until: string, deadline: int, clock: int, n: nat)
    ensures EndsAsSeen(f, until, deadline, WaitFrom(f, until, deadline, clock, n))
    decreases deadline - clock
  {
    var now := clock + f(n).pollTime;
    var p := PollOnce(until, f(n).seen);
    if p.Ok? && !p.value.reached && now < deadline && f(n).sleep.Some? {
      EndsFrom(f, until, deadline, now + POLL_INTERVAL + f(n).sleep.value, n + 1);
    }
  }

  /** r is what its last poll calls for: the error of a failed port, the view once it is reached or time
      is up, and otherwise an interrupted sleep. */
  predicate EndsAsSeen(f: Future, until: string, deadline: int, r: Waited) {
    && r.polls > 0
    && match PollOnce(until, f(r.polls - 1).seen)
       case Err(e) => r.result == Err(PortFailed(e))
       case Ok(view) =>
         if view.reached || r.clock >= deadline then r.result == Ok(view)
         else f(r.polls - 1).sleep.None? && r.result == Err(Cancelled)
  }

  /** How every wait ends, errors included. */
  lemma WaitEnds(f: Future, start: int, until: string, seconds: int)
    ensures EndsAsSeen(f, Until(until), Deadline(start, seconds), Wait(f, start, until, seconds))
  {
    EndsFrom(f, Until(until), Deadline(start, seconds), start, 0);
  }

  // ---- Comparing the two conditions

  /** Terminal implies running, poll by poll; everything else about a poll is the same. */
  lemma TerminalIsRunning(o: Observation)
    ensures var t, r := PollOnce(UNTIL_TERMINAL, o), PollOnce(UNTIL_RUNNING, o);
            && (t.Err? ==> r == t) && (t.Ok? ==> r.Ok? && (t.value.reached ==> r.value.reached))
            && (r.Ok? ==> t.Ok? && t.value == r.value.(reached := t.value.reached))
  {
  }

  lemma {:induction false} RunningNoLaterFrom(f: Future, deadline: int, clock: int, n: nat)
    requires WaitFrom(f, UNTIL_TERMINAL, deadline, clock, n).result.Ok?
    ensures var t, r := WaitFrom(f, UNTIL_TERMINAL, deadline, clock, n), WaitFrom(f, UNTIL_RUNNING, deadline, clock, n);
            r.result.Ok? && r.polls <= t.polls && (t.result.value.reached ==> r.result.value.reached)
    decreases deadline - clock
  {
    var now := clock + f(n).pollTime;
    TerminalIsRunning(f(n).seen);
    var t := PollOnce(UNTIL_TERMINAL, f(n).seen);
    if t.value.reached || now >= deadline {
    } else {
      RunningNoLaterFrom(f, deadline, now + POLL_INTERVAL + f(n).sleep.value, n + 1);
      var r := PollOnce(UNTIL_RUNNING, f(n).seen);
      UnreachedFrom(f, UNTIL_TERMINAL, deadline, now + POLL_INTERVAL + f(n).sleep.value, n + 1);
    }
  }

  /** On the same future, a wait for "running" is answered no later than a wait for "terminal", and
      reaches whenever that does. */
  lemma RunningNoLater(f: Future, start: int, seconds: int)
    requires Wait(f, start, UNTIL_TERMINAL, seconds).result.Ok?
    ensures var t, r := Wait(f, start, UNTIL_TERMINAL, seconds), Wait(f, start, UNTIL_RUNNING, seconds);
            r.result.Ok? && r.polls <= t.polls && (t.result.value.reached ==> r.result.value.reached)
  {
    RunningNoLaterFrom(f, Deadline(start, seconds), start, 0);
  }

  // ---- The bound is met

  /** Nothing is ever reached, polls take no time and sleeps are exact. */
  predicate Idle(t: Turn, until: string) {
    && t.pollTime == 0 && t.sleep == Some(0)
    && PollOnce(until, t.seen).Ok? && !PollOnce(until, t.seen).value.reached
  }

  lemma {:induction false} IdlePolls(f: Future, until: string, deadline: int, start: int, w: nat, n: nat)
    requires forall k: nat :: Idle(f(k), until)
    requires deadline == start + w * SECOND && n <= (w + 1) / 2
    ensures WaitFrom(f, until, deadline, start + n * POLL_INTERVAL, n).polls == (w + 1) / 2 + 1
    decreases (w + 1) / 2 - n
  {
    assert Idle(f(n), until);
    if n < (w + 1) / 2 {
      assert start + n * POLL_INTERVAL < deadline;
      assert start + n * POLL_INTERVAL + POLL_INTERVAL == start + (n + 1) * POLL_INTERVAL;
      IdlePolls(f, until, deadline, start, w, n + 1);
    }
  }

  /** The bound is exact: with instant polls of a job that never gets there, it is reached. */
  lemma IdleWaitPollsExactly(f: Future, start: int, until: string, seconds: int)
    requires forall k: nat :: Idle(f(k), Until(until))
    ensures var r := Wait(f, start, until, seconds);
            r.polls == (ClampWait(seconds) + 1) / 2 + 1 && r.result.Ok? && !r.result.value.reached
  {
    IdlePolls(f, Until(until), Deadline(start, seconds), start, ClampWait(seconds), 0);
    IdleNeverReaches(f, Until(until), Deadline(start, seconds), start, 0);
  }

  lemma {:induction false} IdleNeverReaches(f: Future, until: string, deadline: int, clock: int, n: nat)
    requires forall k: nat :: Idle(f(k), until)
    ensures var r := WaitFrom(f, until, deadline, clock, n).result; r.Ok? && !r.value.reached
    decreases deadline - clock
  {
    assert Idle(f(n), until);
    if clock < deadline {
      IdleNeverReaches(f, until, deadline, clock + POLL_INTERVAL, n + 1);
    }
  }
}
