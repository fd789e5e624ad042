/** internal/adapters/reachability/pool.go as it runs: the tunnels map and the handles are updated in
    place, each operation as one atomic step (the code holds the mutex throughout). */
module Pool {
  import opened Json
  import opened MergeSpec
  import opened PoolSpec

  /** The handles a TunnelDialer has given out. */
  class Dialer {
    var ports: seq<nat>
    var lost: set<nat>
    var closed: multiset<nat>

    constructor ()
      ensures Handles(ports, lost, closed) == EMPTY.handles
    {
      ports, lost, closed := [], {}, multiset{};
    }

    method Dial(port: nat) returns (h: nat)
      modifies this`ports
      ensures h == |old(ports)| && ports == old(ports) + [port]
    {
      h := |ports|;
      ports := ports + [port];
    }

    /** handle.Close(). */
    method CloseHandle(h: nat)
      modifies this`closed
      ensures closed == old(closed) + multiset{h}
    {
      closed := closed + multiset{h};
    }

    /** The Lost channel of h closes. */
    method LoseHandle(h: nat)
      modifies this`lost
      ensures lost == old(lost) + {h}
    {
      lost := lost + {h};
    }
  }

  class TunnelPool {
    const dialer: Dialer
    const idle: int
    var tunnels: map<PoolKey, Entry>
    var stopped: bool
    ghost var dialedByClose: nat

    constructor (dialer: Dialer, idle: int)
      ensures this.dialer == dialer && this.idle == idle && tunnels == map[] && !stopped
    {
      this.dialer, this.idle, tunnels, stopped := dialer, idle, map[], false;
    }

    ghost function State(): PoolSpec.Pool
      reads this, dialer
    {
      PoolSpec.Pool(Handles(dialer.ports, dialer.lost, dialer.closed), tunnels)
    }

    /** pool.endpoint. */
    method GetEndpoint(key: PoolKey, dialing: Dialing, now: int) returns (r: Result<string, EndpointError>)
      modifies this`tunnels, dialer
      ensures (State(), r) == Endpoint(old(State()), key, dialing, now)
    {
      if key in tunnels {
        var e := tunnels[key];
        if e.handle !in dialer.lost {
          tunnels := tunnels[key := e.(lastUsed := now)];
          return Ok(e.baseURL);
        }
        dialer.CloseHandle(e.handle);
        tunnels := tunnels - {key};
      }
      match dialing
      case PodMissing => return Err(NoPod);
      case Refused => return Err(DialFailed);
      case Connected(port) =>
        var handle := dialer.Dial(port);
        var baseURL := BaseURL(port);
        tunnels := tunnels[key := Entry(handle, baseURL, now)];
        return Ok(baseURL);
    }

    /** e.handle.Close() and delete(p.tunnels, key). */
    method CloseTunnel(key: PoolKey)
      requires key in tunnels
      modifies this`tunnels, dialer
      ensures State() == Drop(old(State()), key)
    {
      dialer.CloseHandle(tunnels[key].handle);
      tunnels := tunnels - {key};
    }

    /** One step of a loop that drops tunnels: those under `done` are gone already. */
    method DropNext(ghost start: PoolSpec.Pool, ghost done: set<PoolKey>, key: PoolKey)
      requires Owns(start) && done <= start.tunnels.Keys && key in start.tunnels && key !in done
      requires State() == DropAll(start, done)
      modifies this`tunnels, dialer
      ensures State() == DropAll(start, done + {key})
    {
      DropOneMore(start, done, key);
      CloseTunnel(key);
    }

    /** pool.reap: the map is ranged over in any order and shrinks meanwhile. */
    method ReapIdle(now: int) returns (closed: nat)
      requires Owns(State())
      modifies this`tunnels, dialer
      ensures (State(), closed) == Reap(old(State()), idle, now)
    {
      closed := 0;
      ghost var start := State();
      var todo := tunnels.Keys;
      ghost var done: set<PoolKey> := {};
      NothingDropped(start);
      while todo != {}
        invariant done <= StaleKeys(start, idle, now) && todo <= start.tunnels.Keys && done !! todo
        invariant forall k | k in start.tunnels && k !in todo :: Stale(start.tunnels[k], idle, now) ==> k in done
        invariant State() == DropAll(start, done) && closed == |done|
      {
        var key :| key in todo;
        StillThere(start, done, key);
        if now - tunnels[key].lastUsed >= idle {
          DropNext(start, done, key);
          done := done + {key};
          closed := closed + 1;
        }
        todo := todo - {key};
      }
      assert done == StaleKeys(start, idle, now);
    }

    /** pool.close: done is closed once, the tunnels are torn down every time. */
    method CloseAll()
      requires Owns(State())
      modifies this, dialer
      ensures State() == Close(old(State())) && stopped
      ensures dialedByClose == if old(stopped) then old(dialedByClose) else |old(dialer.ports)|
    {
      if !stopped {
        stopped, dialedByClose := true, |dialer.ports|;
      }
      TearDown();
    }

    /** The loop of pool.close. */
    method TearDown()
      requires Owns(State())
      modifies this`tunnels, dialer
      ensures State() == Close(old(State()))
    {
      ghost var start := State();
      var todo := tunnels.Keys;
      ghost var done: set<PoolKey> := {};
      NothingDropped(start);
      while todo != {}
        invariant done <= start.tunnels.Keys && todo <= start.tunnels.Keys && done !! todo
        invariant forall k | k in start.tunnels && k !in todo :: k in done
        invariant State() == DropAll(start, done)
      {
        var key :| key in todo;
        DropNext(start, done, key);
        todo, done := todo - {key}, done + {key};
      }
      assert done == start.tunnels.Keys;
    }
  }

  /** The resolver around the pool (strategy.go): it starts the reaper goroutine on the first endpoint
      call, and the goroutine ticks until the pool is closed. */
  class Resolver {
    const pool: TunnelPool
    var started: bool
    var lastTick: int
    var clock: int

    constructor (pool: TunnelPool, start: int)
      ensures this.pool == pool && !started && clock == start
      ensures pool.State() == EMPTY && !pool.stopped ==> Now() == Begin(start) && Sound()
    {
      this.pool, started, lastTick, clock := pool, false, start, start;
    }

    /** A closed pool ends the goroutine, also one that is started only afterwards. */
    ghost function ReaperNow(): Reaper
      reads this, pool
    {
      if pool.stopped then Stopped(pool.dialedByClose) else if started then Running(lastTick) else NotStarted
    }

    ghost function Now(): Timed
      reads this, pool, pool.dialer
    {
      Timed(pool.State(), clock, ReaperNow())
    }

    ghost predicate Sound()
      reads this, pool, pool.dialer
    {
      Owns(pool.State()) && Conserved(pool.State())
    }

    /** pooledEndpoint: ensureReaper, then the pool. */
    method PooledEndpoint(key: PoolKey, dialing: Dialing, at: int) returns (r: Result<string, EndpointError>)
      requires Enabled(Now(), pool.idle, At(CallEndpoint(key, dialing, at), at))
      modifies this, pool`tunnels, pool.dialer
      ensures Now() == TimedStep(old(Now()), pool.idle, At(CallEndpoint(key, dialing, at), at))
      ensures r == Endpoint(old(pool.State()), key, dialing, at).1
    {
      if !started {
        started, lastTick := true, at;
      }
      clock := at;
      r := pool.GetEndpoint(key, dialing, at);
    }

    /** Close. */
    method CloseResolver(at: int)
      requires Owns(pool.State()) && Enabled(Now(), pool.idle, At(CallClose, at))
      modifies this, pool, pool.dialer
      ensures Now() == TimedStep(old(Now()), pool.idle, At(CallClose, at))
    {
      clock := at;
      pool.CloseAll();
    }

    /** The ticker arm of runReaper's select. */
    method ReaperTick()
      requires Owns(pool.State()) && Enabled(Now(), pool.idle, Tick)
      modifies this, pool`tunnels, pool.dialer
      ensures Now() == TimedStep(old(Now()), pool.idle, Tick)
    {
      var now := lastTick + Period(pool.idle);
      var _ := pool.ReapIdle(now);
      lastTick, clock := now, now;
    }

    /** One step of a schedule. */
    method Perform(op: TimedOp)
      requires Sound() && Enabled(Now(), pool.idle, op)
      modifies this, pool, pool.dialer
      ensures Now() == TimedStep(old(Now()), pool.idle, op)
    {
      match op
      case At(CallEndpoint(key, dialing, at), _) =>
        var _ := PooledEndpoint(key, dialing, at);
      case At(CallClose, time) =>
        CloseResolver(time);
      case At(CallReap(at), _) =>
        clock := at;
        var _ := pool.ReapIdle(at);
      case At(Loss(h), time) =>
        clock := time;
        pool.dialer.LoseHandle(h);
      case Tick =>
        ReaperTick();
      case Wait(time) =>
        clock := time;
    }

    /** ... which keeps the pool sound. */
    method PerformSound(op: TimedOp)
      requires Sound() && Enabled(Now(), pool.idle, op)
      modifies this, pool, pool.dialer
      ensures Now() == TimedStep(old(Now()), pool.idle, op) && Sound()
    {
      TimedStepOwns(Now(), pool.idle, op);
      Perform(op);
    }

    /** A whole schedule, so what is proved of schedules holds of the running resolver. */
    method PerformAll(ops: seq<TimedOp>)
      requires Sound() && TimedRun(Now(), pool.idle, ops).Some?
      modifies this, pool, pool.dialer
      ensures TimedRun(old(Now()), pool.idle, ops) == Some(Now()) && Sound()
    {
      for i := 0 to |ops|
        invariant TimedRun(old(Now()), pool.idle, ops[..i]) == Some(Now()) && Sound()
      {
        NextStep(old(Now()), pool.idle, ops, i, Now());
        PerformSound(ops[i]);
      }
      assert ops[..|ops|] == ops;
    }
  }

  /** In a schedule that can happen, so can the next step of it. */
  lemma NextStep(s: Timed, idle: int, ops: seq<TimedOp>, i: nat, now: Timed)
    requires i < |ops| && TimedRun(s, idle, ops).Some? && TimedRun(s, idle, ops[..i]) == Some(now)
    ensures Enabled(now, idle, ops[i])
    ensures TimedRun(s, idle, ops[..i + 1]) == Some(TimedStep(now, idle, ops[i]))
  {
    PrefixRuns(s, idle, ops, i + 1);
    assert ops[..i + 1] == ops[..i] + [ops[i]];
    TimedSnoc(s, idle, ops[..i], ops[i]);
  }

  lemma {:induction false} PrefixRuns(s: Timed, idle: int, ops: seq<TimedOp>, n: nat)
    requires n <= |ops| && TimedRun(s, idle, ops).Some?
    ensures TimedRun(s, idle, ops[..n]).Some?
    decreases |ops|
  {
    if n == |ops| {
      assert ops[..n] == ops;
    } else {
      assert ops[..|ops| - 1][..n] == ops[..n];
      PrefixRuns(s, idle, ops[..|ops| - 1], n);
    }
  }

  lemma StillThere(s: PoolSpec.Pool, done: set<PoolKey>, key: PoolKey)
    requires done <= s.tunnels.Keys && key in s.tunnels && key !in done
    ensures key in DropAll(s, done).tunnels && DropAll(s, done).tunnels[key] == s.tunnels[key]
  {
  }

  lemma NothingDropped(s: PoolSpec.Pool)
    ensures DropAll(s, {}) == s
  {
    assert HandlesAt(s.tunnels, {}) == {};
    assert s.tunnels - {} == s.tunnels;
  }

  lemma HandlesOneMore(tunnels: map<PoolKey, Entry>, done: set<PoolKey>, key: PoolKey)
    requires done <= tunnels.Keys && key in tunnels
    requires forall k | k in done :: tunnels[k].handle != tunnels[key].handle
    ensures multiset(HandlesAt(tunnels, done + {key})) == multiset(HandlesAt(tunnels, done)) + multiset{tunnels[key].handle}
  {
    var h := tunnels[key].handle;
    assert HandlesAt(tunnels, done + {key}) == HandlesAt(tunnels, done) + {h};
    assert h !in HandlesAt(tunnels, done);
  }

  lemma DropOneMore(s: PoolSpec.Pool, done: set<PoolKey>, key: PoolKey)
    requires Owns(s) && done <= s.tunnels.Keys && key in s.tunnels && key !in done
    ensures key in DropAll(s, done).tunnels && Drop(DropAll(s, done), key) == DropAll(s, done + {key})
  {
    HandlesOneMore(s.tunnels, done, key);
    assert s.tunnels - done - {key} == s.tunnels - (done + {key});
  }
}
