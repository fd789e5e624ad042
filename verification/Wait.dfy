/** JobService.Wait as it runs: a loop over the clock, the ports and sleep. */
module Wait {
  import opened Json
  import opened MergeSpec
  import opened WaitSpec

  /** The clock seam and the ports behind a job service. */
  class JobService {
    const future: Future
    var clock: int
    var polls: nat
    var calls: seq<PortCall>

    constructor (future: Future, start: int)
      ensures this.future == future && clock == start && polls == 0 && calls == []
    {
      this.future, clock, polls, calls := future, start, 0, [];
    }

    /** pollOnce, asking one port after the other. */
    method Poll(until: string) returns (r: Reply<View>)
      modifies this
      ensures r == PollOnce(until, future(old(polls)).seen)
      ensures polls == old(polls) + 1 && clock == old(clock) + future(old(polls)).pollTime
      ensures calls == old(calls) + PollCalls(future(old(polls)).seen)
    {
      var turn := future(polls);
      polls, clock := polls + 1, clock + turn.pollTime;
      calls := calls + [GetJob];
      if turn.seen.job.Err? {
        return Err(turn.seen.job.error);
      }
      var detail := turn.seen.job.value;
      if CrdTerminal(detail.deploymentStatus) {
        return Ok(View(detail, true, Scheduled(detail), None, None));
      }
      if !Scheduled(detail) {
        return Ok(View(detail, false, false, None, None));
      }
      calls := calls + [ResolveEndpoint];
      if turn.seen.endpoint.Err? {
        return Degraded(detail, turn.seen.endpoint.error);
      }
      calls := calls + [FetchStatus];
      if turn.seen.live.Err? {
        return Degraded(detail, turn.seen.live.error);
      }
      var live := turn.seen.live.value;
      return Ok(View(detail, ReachedLive(until, live), true, Some(live), None));
    }

    /** sleep after the n-th poll. */
    method Sleep() returns (ok: bool)
      requires polls > 0
      modifies this`clock
      ensures ok == future(polls - 1).sleep.Some?
      ensures clock == old(clock) + if ok then POLL_INTERVAL + future(polls - 1).sleep.value else 0
    {
      match future(polls - 1).sleep
      case None => ok := false;
      case Some(extra) =>
        clock := clock + POLL_INTERVAL + extra;
        ok := true;
    }

    /** Wait, as often as the service is asked: each call is a wait on the future that is left. */
    method WaitFor(requested: string, seconds: int) returns (r: Result<View, WaitError>)
      modifies this
      ensures polls > old(polls)
      ensures Waited(r, polls - old(polls), clock) == WaitSpec.Wait(Later(future, old(polls)), old(clock), requested, seconds)
    {
      var until := Until(requested);
      var deadline := Deadline(clock, seconds);
      ghost var expected := WaitFrom(future, until, deadline, clock, polls);
      WaitLater(future, until, deadline, clock, 0, polls);
      while true
        invariant old(polls) <= polls && WaitFrom(future, until, deadline, clock, polls) == expected
        decreases deadline - clock
      {
        var p := Poll(until);
        if p.Err? {
          return Err(PortFailed(p.error));
        }
        if p.value.reached || clock >= deadline {
          return Ok(p.value);
        }
        var ok := Sleep();
        if !ok {
          return Err(Cancelled);
        }
      }
    }
  }
}
