/** The tunnel pool of internal/adapters/reachability/pool.go as a state machine: which handles are
    open, who holds them, and how long an unused one can stay. */
module PoolSpec {
  import opened Json
  import opened Strings
  import opened MergeSpec

  datatype PoolKey = PoolKey(namespace: string, cluster: string)

  /** One pooled tunnel. */
  datatype Entry = Entry(handle: nat, baseURL: string, lastUsed: int)

  /** The handles: 0 .. |ports| have been dialed, each with its local port; some have lost their
      connection; closed counts the Close calls on each. */
  datatype Handles = Handles(ports: seq<nat>, lost: set<nat>, closed: multiset<nat>)

  datatype Pool = Pool(handles: Handles, tunnels: map<PoolKey, Entry>)

  datatype EndpointError = NoPod | DialFailed

  /** The pod lookup fails, the dial fails, or it yields a tunnel on a local port. */
  datatype Dialing = PodMissing | Refused | Connected(port: nat)

  function BaseURL(port: nat): string {
    "http://127.0.0.1:" + Itoa(port)
  }

  predicate Alive(s: Pool, h: nat) {
    h !in s.handles.lost
  }

  // ---- endpoint, reap, close

  /** handle.Close() and delete(p.tunnels, key). */
  function Drop(s: Pool, key: PoolKey): Pool
    requires key in s.tunnels
  {
    Pool(s.handles.(closed := s.handles.closed + multiset{s.tunnels[key].handle}), s.tunnels - {key})
  }

  function Dialed(s: Pool, key: PoolKey, dialing: Dialing, now: int): (Pool, Result<string, EndpointError>) {
    match dialing
    case PodMissing => (s, Err(NoPod))
    case Refused => (s, Err(DialFailed))
    case Connected(port) =>
      var h := |s.handles.ports|;
      (Pool(s.handles.(ports := s.handles.ports + [port]), s.tunnels[key := Entry(h, BaseURL(port), now)]), Ok(BaseURL(port)))
  }

  /** endpoint: a warm tunnel is reused, a dropped one closed and dialed again once. */
  function Endpoint(s: Pool, key: PoolKey, dialing: Dialing, now: int): (Pool, Result<string, EndpointError>) {
    if key in s.tunnels && Alive(s, s.tunnels[key].handle) then
      (s.(tunnels := s.tunnels[key := s.tunnels[key].(lastUsed := now)]), Ok(s.tunnels[key].baseURL))
    else Dialed(if key in s.tunnels then Drop(s, key) else s, key, dialing, now)
  }

  predicate Stale(e: Entry, idle: int, now: int) {
    now - e.lastUsed >= idle
  }

  function StaleKeys(s: Pool, idle: int, now: int): set<PoolKey> {
    set k | k in s.tunnels && Stale(s.tunnels[k], idle, now)
  }

  function HandlesAt(tunnels: map<PoolKey, Entry>, keys: set<PoolKey>): set<nat>
    requires keys <= tunnels.Keys
  {
    set k | k in keys :: tunnels[k].handle
  }

  /** Every key in keys dropped. */
  function DropAll(s: Pool, keys: set<PoolKey>): Pool
    requires keys <= s.tunnels.Keys
  {
    Pool(s.handles.(closed := s.handles.closed + multiset(HandlesAt(s.tunnels, keys))), s.tunnels - keys)
  }

  function Reap(s: Pool, idle: int, now: int): (Pool, nat) {
    (DropAll(s, StaleKeys(s, idle, now)), |StaleKeys(s, idle, now)|)
  }

  function Close(s: Pool): Pool {
    DropAll(s, s.tunnels.Keys)
  }

  /** A tunnel dies on its own. */
  function Lose(s: Pool, h: nat): Pool {
    s.(handles := s.handles.(lost := s.handles.lost + {h}))
  }

  // ---- Ownership

  predicate Open(s: Pool, h: nat) {
    h < |s.handles.ports| && s.handles.closed[h] == 0
  }

  /** The open handles are exactly the pool's, each under one key, with its own port's URL; no handle
      is closed twice, or before it is dialed. */
  ghost predicate Owns(s: Pool) {
    && (forall k | k in s.tunnels ::
          Open(s, s.tunnels[k].handle) && s.tunnels[k].baseURL == BaseURL(s.handles.ports[s.tunnels[k].handle]))
    && (forall h | Open(s, h) :: exists k :: k in s.tunnels && s.tunnels[k].handle == h)
    && (forall k, l | k in s.tunnels && l in s.tunnels && k != l :: s.tunnels[k].handle != s.tunnels[l].handle)
    && (forall h :: s.handles.closed[h] <= 1 && (h >= |s.handles.ports| ==> s.handles.closed[h] == 0))
  }

  const EMPTY: Pool := Pool(Handles([], {}, multiset{}), map[])

  lemma DropAllOwns(s: Pool, keys: set<PoolKey>)
    requires Owns(s) && keys <= s.tunnels.Keys
    ensures Owns(DropAll(s, keys))
    ensures forall h :: DropAll(s, keys).handles.closed[h]
                     == s.handles.closed[h] + (if h in HandlesAt(s.tunnels, keys) then 1 else 0)
  {
    var t := DropAll(s, keys);
    forall h | Open(t, h) ensures exists k :: k in t.tunnels && t.tunnels[k].handle == h {
      assert Open(s, h);
      var k :| k in s.tunnels && s.tunnels[k].handle == h;
      assert k in t.tunnels;
    }
  }

  lemma DropIsDropAll(s: Pool, key: PoolKey)
    requires key in s.tunnels
    ensures Drop(s, key) == DropAll(s, {key})
  {
    assert HandlesAt(s.tunnels, {key}) == {s.tunnels[key].handle};
  }

  lemma DialedOwns(s: Pool, key: PoolKey, dialing: Dialing, now: int)
    requires Owns(s) && key !in s.tunnels
    ensures Owns(Dialed(s, key, dialing, now).0)
  {
    var t := Dialed(s, key, dialing, now).0;
    if dialing.Connected? {
      forall h | Open(t, h) ensures exists k :: k in t.tunnels && t.tunnels[k].handle == h {
        if h == |s.handles.ports| {
          assert t.tunnels[key].handle == h;
        } else {
          assert Open(s, h);
          var k :| k in s.tunnels && s.tunnels[k].handle == h;
          assert k in t.tunnels && t.tunnels[k] == s.tunnels[k];
        }
      }
    }
  }

  /** endpoint keeps ownership, dials at most once, and what it returns is the URL of an open handle
      that the pool holds for that key, used now. */
  lemma EndpointOwns(s: Pool, key: PoolKey, dialing: Dialing, now: int)
    requires Owns(s)
    ensures var (t, r) := Endpoint(s, key, dialing, now);
            && Owns(t)
            && s.handles.ports <= t.handles.ports && |t.handles.ports| <= |s.handles.ports| + 1
            && (r.Ok? ==> key in t.tunnels && t.tunnels[key].lastUsed == now && t.tunnels[key].baseURL == r.value
                          && Open(t, t.tunnels[key].handle) && r.value == BaseURL(t.handles.ports[t.tunnels[key].handle]))
            && (r.Ok? && (forall h | h in s.handles.lost :: h < |s.handles.ports|) ==> Alive(t, t.tunnels[key].handle))
            && (forall k | k != key :: k in t.tunnels <==> k in s.tunnels)
            && (forall k | k != key && k in s.tunnels :: t.tunnels[k] == s.tunnels[k])
  {
    if key in s.tunnels {
      if Alive(s, s.tunnels[key].handle) {
        TouchOwns(s, key, now);
      } else {
        DropIsDropAll(s, key);
        DropAllOwns(s, {key});
        DialedOwns(Drop(s, key), key, dialing, now);
      }
    } else {
      DialedOwns(s, key, dialing, now);
    }
  }

  /** What one endpoint call does, case by case.  A warm tunnel is reused: nothing is dialed or closed,
      only its last use moves.  Otherwise a dropped tunnel of the key is closed and forgotten, and a new
      one is pooled exactly when the pod is found and the dial succeeds. */
  lemma EndpointCases(s: Pool, key: PoolKey, dialing: Dialing, now: int)
    ensures var (t, r) := Endpoint(s, key, dialing, now);
            if key in s.tunnels && s.tunnels[key].handle !in s.handles.lost then
              && r == Ok(s.tunnels[key].baseURL) && t.handles == s.handles && t.tunnels.Keys == s.tunnels.Keys
              && t.tunnels[key].handle == s.tunnels[key].handle && t.tunnels[key].baseURL == s.tunnels[key].baseURL
            else
              && t.handles.lost == s.handles.lost
              && t.handles.closed == s.handles.closed + (if key in s.tunnels then multiset{s.tunnels[key].handle} else multiset{})
              && match dialing
                 case PodMissing => r == Err(NoPod) && t.handles.ports == s.handles.ports && t.tunnels.Keys == s.tunnels.Keys - {key}
                 case Refused => r == Err(DialFailed) && t.handles.ports == s.handles.ports && t.tunnels.Keys == s.tunnels.Keys - {key}
                 case Connected(port) =>
                   && r == Ok("http://127.0.0.1:" + Itoa(port)) && t.handles.ports == s.handles.ports + [port]
                   && t.tunnels.Keys == s.tunnels.Keys + {key} && t.tunnels[key].handle == |s.handles.ports|
  {
  }

  /** close empties the pool and closes every handle in it once more, and nothing else. */
  lemma CloseCases(s: Pool)
    requires Owns(s)
    ensures var t := Close(s);
            && t.tunnels == map[] && t.handles.ports == s.handles.ports && t.handles.lost == s.handles.lost
            && forall h :: t.handles.closed[h]
                        == s.handles.closed[h] + (if exists k :: k in s.tunnels && s.tunnels[k].handle == h then 1 else 0)
  {
    DropAllOwns(s, s.tunnels.Keys);
    assert s.tunnels - s.tunnels.Keys == map[];
    forall h ensures h in HandlesAt(s.tunnels, s.tunnels.Keys) <==> exists k :: k in s.tunnels && s.tunnels[k].handle == h {
    }
  }

  lemma TouchOwns(s: Pool, key: PoolKey, now: int)
    requires Owns(s) && key in s.tunnels
    ensures Owns(s.(tunnels := s.tunnels[key := s.tunnels[key].(lastUsed := now)]))
  {
    var t := s.(tunnels := s.tunnels[key := s.tunnels[key].(lastUsed := now)]);
    forall h | Open(t, h) ensures exists k :: k in t.tunnels && t.tunnels[k].handle == h {
      assert Open(s, h);
      var k :| k in s.tunnels && s.tunnels[k].handle == h;
      assert k in t.tunnels && t.tunnels[k].handle == h;
    }
  }

  // ---- Runs

  datatype Op =
    | CallEndpoint(key: PoolKey, dialing: Dialing, at: int)
    | CallReap(at: int)
    | CallClose
    | Loss(handle: nat)

  function Step(s: Pool, idle: int, op: Op): Pool {
    match op
    case CallEndpoint(key, dialing, at) => Endpoint(s, key, dialing, at).0
    case CallReap(at) => Reap(s, idle, at).0
    case CallClose => Close(s)
    case Loss(h) => Lose(s, h)
  }

  function Run(s: Pool, idle: int, ops: seq<Op>): Pool
    decreases |ops|
  {
    if ops == [] then s else Step(Run(s, idle, ops[..|ops| - 1]), idle, ops[|ops| - 1])
  }

  lemma LoseOwns(s: Pool, h: nat)
    requires Owns(s)
    ensures Owns(Lose(s, h))
  {
    var t := Lose(s, h);
    forall g | Open(t, g) ensures exists k :: k in t.tunnels && t.tunnels[k].handle == g {
      assert Open(s, g);
    }
  }

  lemma StepOwns(s: Pool, idle: int, op: Op)
    requires Owns(s)
    ensures Owns(Step(s, idle, op))
  {
    match op
    case CallEndpoint(key, dialing, at) => EndpointOwns(s, key, dialing, at);
    case CallReap(at) => DropAllOwns(s, StaleKeys(s, idle, at));
    case CallClose => DropAllOwns(s, s.tunnels.Keys);
    case Loss(h) => LoseOwns(s, h);
  }

  /** In every state any run reaches, the dialed and not yet closed handles are exactly the pool's, and
      no handle has been closed twice. */
  lemma {:induction false} RunOwns(idle: int, ops: seq<Op>)
    ensures Owns(Run(EMPTY, idle, ops))
    decreases |ops|
  {
    if ops != [] {
      RunOwns(idle, ops[..|ops| - 1]);
      StepOwns(Run(EMPTY, idle, ops[..|ops| - 1]), idle, ops[|ops| - 1]);
    }
  }

  // ---- Counting

  lemma {:induction false} HandleCount(tunnels: map<PoolKey, Entry>, keys: set<PoolKey>)
    requires keys <= tunnels.Keys
    requires forall k, l | k in keys && l in keys && k != l :: tunnels[k].handle != tunnels[l].handle
    ensures |HandlesAt(tunnels, keys)| == |keys|
    decreases |keys|
  {
    if keys == {} {
      assert HandlesAt(tunnels, keys) == {};
    } else {
      var k :| k in keys;
      HandleCount(tunnels, keys - {k});
      assert HandlesAt(tunnels, keys) == HandlesAt(tunnels, keys - {k}) + {tunnels[k].handle};
    }
  }

  predicate Conserved(s: Pool) {
    |s.tunnels| + |s.handles.closed| == |s.handles.ports|
  }

  lemma DropAllConserved(s: Pool, keys: set<PoolKey>)
    requires Owns(s) && Conserved(s) && keys <= s.tunnels.Keys
    ensures Conserved(DropAll(s, keys)) && |DropAll(s, keys).tunnels| == |s.tunnels| - |keys|
  {
    HandleCount(s.tunnels, keys);
    var t := DropAll(s, keys);
    assert t.tunnels.Keys == s.tunnels.Keys - keys;
    assert |s.tunnels| == |s.tunnels.Keys| && |t.tunnels| == |t.tunnels.Keys|;
  }

  lemma DialedConserved(s: Pool, key: PoolKey, dialing: Dialing, now: int)
    requires Conserved(s) && key !in s.tunnels
    ensures Conserved(Dialed(s, key, dialing, now).0)
  {
    var t := Dialed(s, key, dialing, now).0;
    if dialing.Connected? {
      assert t.tunnels.Keys == s.tunnels.Keys + {key};
      assert |s.tunnels| == |s.tunnels.Keys| && |t.tunnels| == |t.tunnels.Keys|;
    }
  }

  lemma StepConserved(s: Pool, idle: int, op: Op)
    requires Owns(s) && Conserved(s)
    ensures Conserved(Step(s, idle, op))
  {
    match op
    case CallEndpoint(key, dialing, at) => EndpointConserved(s, key, dialing, at);
    case CallReap(at) => DropAllConserved(s, StaleKeys(s, idle, at));
    case CallClose => DropAllConserved(s, s.tunnels.Keys);
    case Loss(h) =>
  }

  /** Every dial is accounted for: pooled now, or closed exactly once. */
  lemma {:induction false} RunConserves(idle: int, ops: seq<Op>)
    ensures Conserved(Run(EMPTY, idle, ops))
    decreases |ops|
  {
    if ops != [] {
      RunConserves(idle, ops[..|ops| - 1]);
      RunOwns(idle, ops[..|ops| - 1]);
      StepConserved(Run(EMPTY, idle, ops[..|ops| - 1]), idle, ops[|ops| - 1]);
    }
  }

  lemma EndpointConserved(s: Pool, key: PoolKey, dialing: Dialing, now: int)
    requires Owns(s) && Conserved(s)
    ensures Conserved(Endpoint(s, key, dialing, now).0)
  {
    if key in s.tunnels {
      if Alive(s, s.tunnels[key].handle) {
        var t := Endpoint(s, key, dialing, now).0;
        assert t.tunnels.Keys == s.tunnels.Keys;
        assert |s.tunnels| == |s.tunnels.Keys| && |t.tunnels| == |t.tunnels.Keys|;
      } else {
        DropIsDropAll(s, key);
        DropAllConserved(s, {key});
        DialedConserved(Drop(s, key), key, dialing, now);
      }
    } else {
      DialedConserved(s, key, dialing, now);
    }
  }

  // ---- Reaping

  /** A reap closes exactly the tunnels not used within the last idle, and counts what it removes. */
  lemma ReapExact(s: Pool, idle: int, now: int)
    requires Owns(s)
    ensures var (t, n) := Reap(s, idle, now);
            && n == |s.tunnels| - |t.tunnels|
            && (forall k | k in s.tunnels :: k !in t.tunnels <==> now - s.tunnels[k].lastUsed >= idle)
            && (forall k | k in t.tunnels :: k in s.tunnels && t.tunnels[k] == s.tunnels[k])
            && (forall k | k in s.tunnels :: Open(s, s.tunnels[k].handle)
                  && (Open(t, s.tunnels[k].handle) <==> now - s.tunnels[k].lastUsed < idle))
  {
    var keys := StaleKeys(s, idle, now);
    var t := DropAll(s, keys);
    DropAllOwns(s, keys);
    assert t.tunnels.Keys == s.tunnels.Keys - keys;
    assert |s.tunnels| == |s.tunnels.Keys| && |t.tunnels| == |t.tunnels.Keys|;
    forall k | k in s.tunnels ensures s.tunnels[k].handle in HandlesAt(s.tunnels, keys) <==> k in keys {
    }
  }

  // ---- Time

  /** The reaper goroutine: started by the first endpoint call, then ticking; stopped for good by
      close, also by a close that comes first.  dialed is the number of handles dialed by then. */
  datatype Reaper = NotStarted | Running(tick: int) | Stopped(dialed: nat)

  /** The pool, the clock, and the reaper with the time of its last tick. */
  datatype Timed = Timed(pool: Pool, clock: int, reaper: Reaper)

  datatype TimedOp =
    | At(op: Op, time: int)
    | Tick
    | Wait(time: int)

  /** The ticker fires every idle / 2. */
  function Period(idle: int): int {
    idle / 2
  }

  predicate OpTime(op: Op, time: int) {
    match op
    case CallEndpoint(_, _, at) => at == time
    case CallReap(at) => at == time
    case _ => true
  }

  /** Time does not go back, and while the reaper runs it does not pass a tick that is due. */
  predicate CanReach(s: Timed, idle: int, time: int) {
    s.clock <= time && (s.reaper.Running? ==> time <= s.reaper.tick + Period(idle))
  }

  predicate Enabled(s: Timed, idle: int, op: TimedOp) {
    match op
    case At(o, time) => CanReach(s, idle, time) && OpTime(o, time)
    case Tick => s.reaper.Running?
    case Wait(time) => CanReach(s, idle, time)
  }

  /** ensureReaper on an endpoint call, close(done) on close. */
  function ReaperAfter(s: Timed, op: Op, time: int): Reaper {
    match op
    case CallEndpoint(_, _, _) => if s.reaper.NotStarted? then Running(time) else s.reaper
    case CallClose => if s.reaper.Stopped? then s.reaper else Stopped(|s.pool.handles.ports|)
    case _ => s.reaper
  }

  function TimedStep(s: Timed, idle: int, op: TimedOp): Timed
    requires Enabled(s, idle, op)
  {
    match op
    case At(o, time) => Timed(Step(s.pool, idle, o), time, ReaperAfter(s, o, time))
    case Tick =>
      var now := s.reaper.tick + Period(idle);
      Timed(Reap(s.pool, idle, now).0, now, Running(now))
    case Wait(time) => s.(clock := time)
  }

  function Begin(start: int): Timed {
    Timed(EMPTY, start, NotStarted)
  }

  /** The state after a schedule from s; None when some step of it cannot happen. */
  function TimedRun(s: Timed, idle: int, ops: seq<TimedOp>): Option<Timed>
    decreases |ops|
  {
    if ops == [] then Some(s)
    else
      var before := TimedRun(s, idle, ops[..|ops| - 1]);
      if before.Some? && Enabled(before.value, idle, ops[|ops| - 1])
      then Some(TimedStep(before.value, idle, ops[|ops| - 1]))
      else None
  }

  /** s is reached by some schedule of a new pool. */
  predicate Reaches(start: int, idle: int, ops: seq<TimedOp>, s: Timed) {
    TimedRun(Begin(start), idle, ops) == Some(s)
  }

  lemma TimedSnoc(s: Timed, idle: int, ops: seq<TimedOp>, op: TimedOp)
    ensures TimedRun(s, idle, ops + [op])
         == (var before := TimedRun(s, idle, ops);
             if before.Some? && Enabled(before.value, idle, op) then Some(TimedStep(before.value, idle, op)) else None)
  {
    assert (ops + [op])[..|ops + [op]| - 1] == ops;
  }

  // ---- The bound while the reaper runs

  function Age(s: Timed, k: PoolKey): int
    requires k in s.pool.tunnels
  {
    s.clock - s.pool.tunnels[k].lastUsed
  }

  function Bound(idle: int): int {
    idle + idle / 2
  }

  /** Every pooled tunnel was used less than idle + idle/2 ago. */
  predicate InTime(s: Timed, idle: int) {
    forall k | k in s.pool.tunnels :: Age(s, k) < Bound(idle)
  }

  predicate DialedAfterClose(s: Timed, h: nat) {
    s.reaper.Stopped? && h >= s.reaper.dialed
  }

  /** What every step keeps: a running reaper has looked at every entry in time, and a stopped one has
      left none that was dialed before. */
  predicate Kept(s: Timed, idle: int) {
    && (forall k | k in s.pool.tunnels :: s.pool.tunnels[k].lastUsed <= s.clock)
    && match s.reaper
       case NotStarted => s.pool.tunnels == map[]
       case Running(tick) =>
         && tick <= s.clock <= tick + Period(idle)
         && forall k | k in s.pool.tunnels :: tick - idle < s.pool.tunnels[k].lastUsed
       case Stopped(dialed) =>
         && dialed <= |s.pool.handles.ports|
         && forall k | k in s.pool.tunnels :: dialed <= s.pool.tunnels[k].handle
  }

  lemma StepKeeps(s: Timed, idle: int, op: TimedOp)
    requires idle >= 2 && Kept(s, idle) && Enabled(s, idle, op)
    ensures Kept(TimedStep(s, idle, op), idle)
  {
  }

  lemma {:induction false} RunKeeps(start: int, idle: int, ops: seq<TimedOp>, s: Timed)
    requires idle >= 2 && Reaches(start, idle, ops, s)
    ensures Kept(s, idle)
    decreases |ops|
  {
    if ops != [] {
      var before := TimedRun(Begin(start), idle, ops[..|ops| - 1]).value;
      RunKeeps(start, idle, ops[..|ops| - 1], before);
      StepKeeps(before, idle, ops[|ops| - 1]);
    }
  }

  /** Until close is called, every tunnel in the pool was used less than idle + idle/2 ago, in every
      state of every schedule.  (A ticker needs a positive period, so idle >= 2.) */
  lemma TunnelsReapedInTime(start: int, idle: int, ops: seq<TimedOp>, s: Timed)
    requires idle >= 2 && Reaches(start, idle, ops, s)
    ensures !s.reaper.Stopped? ==> InTime(s, idle)
    ensures forall k | k in s.pool.tunnels :: Age(s, k) >= 0
  {
    RunKeeps(start, idle, ops, s);
  }

  // ---- The bound after close

  /** In every state of every schedule the bound holds exactly when no tunnel dialed after close is
      still pooled at that age: nothing older can be at fault. */
  lemma InTimeIff(start: int, idle: int, ops: seq<TimedOp>, s: Timed)
    requires idle >= 2 && Reaches(start, idle, ops, s)
    ensures InTime(s, idle) <==>
              !exists k :: k in s.pool.tunnels && DialedAfterClose(s, s.pool.tunnels[k].handle) && Age(s, k) >= Bound(idle)
  {
    RunKeeps(start, idle, ops, s);
  }

  /** close, then an endpoint call, then nothing. */
  function LateDial(k: PoolKey, age: nat): seq<TimedOp> {
    [At(CallClose, 0)] + [At(CallEndpoint(k, Connected(0), 0), 0)] + [Wait(age)]
  }

  /** A tunnel dialed after close reaches any age: nothing reaps it. */
  lemma LateDialIsNeverReaped(idle: int, k: PoolKey, age: nat)
    requires idle >= 2
    ensures var r := TimedRun(Begin(0), idle, LateDial(k, age));
            r.Some? && r.value.reaper.Stopped? && k in r.value.pool.tunnels && Age(r.value, k) == age
  {
    var s := Begin(0);
    var close, call := At(CallClose, 0), At(CallEndpoint(k, Connected(0), 0), 0);
    assert [] + [close] == [close];
    TimedSnoc(s, idle, [], close);
    TimedSnoc(s, idle, [close], call);
    TimedSnoc(s, idle, [close] + [call], Wait(age));
  }

  predicate IsCall(op: TimedOp) {
    op.At? && op.op.CallEndpoint?
  }

  predicate IsClose(op: TimedOp) {
    op.At? && op.op.CallClose?
  }

  /** No endpoint call comes after a close. */
  predicate QuietAfterClose(ops: seq<TimedOp>) {
    forall i, j | 0 <= i < j < |ops| && IsClose(ops[i]) :: !IsCall(ops[j])
  }

  /** Without an endpoint call after close the pool is empty from then on and the bound always holds. */
  lemma {:induction false} QuietPoolInTime(start: int, idle: int, ops: seq<TimedOp>, s: Timed)
    requires idle >= 2 && Reaches(start, idle, ops, s) && QuietAfterClose(ops)
    ensures s.reaper.Stopped? ==> s.pool.tunnels == map[]
    ensures s.reaper.Stopped? <==> exists i :: 0 <= i < |ops| && IsClose(ops[i])
    ensures InTime(s, idle)
    decreases |ops|
  {
    RunKeeps(start, idle, ops, s);
    if ops != [] {
      var before, op := ops[..|ops| - 1], ops[|ops| - 1];
      var b := TimedRun(Begin(start), idle, before).value;
      QuietPoolInTime(start, idle, before, b);
      if b.reaper.Stopped? {
        var i :| 0 <= i < |before| && IsClose(before[i]);
        assert IsClose(ops[i]);
        assert !IsCall(op);
        StillEmpty(b, idle, op);
      } else if IsClose(op) {
        assert IsClose(ops[|ops| - 1]);
        assert b.pool.tunnels - b.pool.tunnels.Keys == map[];
      } else {
        assert forall i | 0 <= i < |before| :: ops[i] == before[i];
      }
    }
  }

  /** An empty pool stays empty as long as nobody calls endpoint. */
  lemma StillEmpty(s: Timed, idle: int, op: TimedOp)
    requires Enabled(s, idle, op) && s.pool.tunnels == map[] && !IsCall(op)
    ensures TimedStep(s, idle, op).pool.tunnels == map[]
    ensures s.reaper.Stopped? ==> TimedStep(s, idle, op).reaper == s.reaper
  {
  }

  ghost predicate NoCalls(more: seq<TimedOp>) {
    forall op | op in more :: !IsCall(op)
  }

  lemma {:induction false} TimedConcat(s: Timed, idle: int, xs: seq<TimedOp>, ys: seq<TimedOp>)
    ensures TimedRun(s, idle, xs + ys)
         == if TimedRun(s, idle, xs).None? then None else TimedRun(TimedRun(s, idle, xs).value, idle, ys)
    decreases |ys|
  {
    if ys == [] {
      assert xs + ys == xs;
    } else {
      var y := ys[|ys| - 1];
      assert xs + ys == xs + ys[..|ys| - 1] + [y] && ys == ys[..|ys| - 1] + [y];
      TimedConcat(s, idle, xs, ys[..|ys| - 1]);
      TimedSnoc(s, idle, xs + ys[..|ys| - 1], y);
      if TimedRun(s, idle, xs).Some? {
        TimedSnoc(TimedRun(s, idle, xs).value, idle, ys[..|ys| - 1], y);
      }
    }
  }

  /** From here on, whatever happens short of another endpoint call, the bound holds. */
  ghost predicate StaysInTime(s: Timed, idle: int) {
    forall more | NoCalls(more) :: var r := TimedRun(s, idle, more); r.Some? ==> InTime(r.value, idle)
  }

  lemma {:induction false} EmptyOrRunning(s: Timed, idle: int, more: seq<TimedOp>)
    requires idle >= 2 && Kept(s, idle) && NoCalls(more) && TimedRun(s, idle, more).Some?
    requires !s.reaper.Stopped? || s.pool.tunnels == map[]
    ensures var r := TimedRun(s, idle, more).value; Kept(r, idle) && (!r.reaper.Stopped? || r.pool.tunnels == map[])
    decreases |more|
  {
    if more != [] {
      var before, op := more[..|more| - 1], more[|more| - 1];
      EmptyOrRunning(s, idle, before);
      var b := TimedRun(s, idle, before).value;
      StepKeeps(b, idle, op);
      if b.pool.tunnels == map[] {
        StillEmpty(b, idle, op);
      }
    }
  }

  /** Exactly when the bound will last without further calls: the reaper still runs (or has nothing to
      do yet), or the pool is empty. */
  lemma InTimeLastsIff(start: int, idle: int, ops: seq<TimedOp>, s: Timed)
    requires idle >= 2 && Reaches(start, idle, ops, s)
    ensures StaysInTime(s, idle) <==> !s.reaper.Stopped? || s.pool.tunnels == map[]
  {
    RunKeeps(start, idle, ops, s);
    if !s.reaper.Stopped? || s.pool.tunnels == map[] {
      forall more | NoCalls(more)
        ensures var r := TimedRun(s, idle, more); r.Some? ==> InTime(r.value, idle)
      {
        if TimedRun(s, idle, more).Some? {
          EmptyOrRunning(s, idle, more);
        }
      }
    } else {
      var k :| k in s.pool.tunnels;
      var wait := Wait(s.clock + Bound(idle));
      assert NoCalls([wait]);
      TimedSnoc(s, idle, [], wait);
      assert [] + [wait] == [wait];
      var r := TimedRun(s, idle, [wait]);
      assert k in r.value.pool.tunnels && Age(r.value, k) >= Bound(idle);
    }
  }

  // ---- The bound is exact

  /** A tunnel used just after it could still be reaped two ticks later. */
  function LateSchedule(idle: int, k: PoolKey): seq<TimedOp>
    requires idle >= 2
  {
    var p := Period(idle);
    var used := p + 1 - idle % 2;
    [At(CallEndpoint(k, Connected(0), 0), 0)] + [Tick] + [At(CallEndpoint(k, Connected(0), used), used)]
      + [Tick] + [Tick] + [Wait(4 * p)]
  }

  /** The state after the tunnel was dialed, one tick passed and it was used again. */
  lemma UsedAgain(idle: int, k: PoolKey) returns (s: Timed)
    requires idle >= 2
    ensures var used := Period(idle) + 1 - idle % 2;
            && TimedRun(Begin(0), idle, LateSchedule(idle, k)[..3]) == Some(s)
            && s.reaper == Running(Period(idle)) && s.clock == used
            && k in s.pool.tunnels && s.pool.tunnels[k].lastUsed == used
  {
    var s0, p := Begin(0), Period(idle);
    var used := p + 1 - idle % 2;
    var dial, call := At(CallEndpoint(k, Connected(0), 0), 0), At(CallEndpoint(k, Connected(0), used), used);
    assert [] + [dial] == [dial];
    TimedSnoc(s0, idle, [], dial);
    TimedSnoc(s0, idle, [dial], Tick);
    TimedSnoc(s0, idle, [dial] + [Tick], call);
    KeptAtTick(TimedRun(s0, idle, [dial]).value, idle, k);
    assert LateSchedule(idle, k)[..3] == [dial] + [Tick] + [call];
    s := TimedRun(s0, idle, [dial] + [Tick] + [call]).value;
  }

  /** An age of idle + idle/2 - 1 is reached with the reaper running. */
  lemma BoundIsReached(idle: int, k: PoolKey)
    requires idle >= 2
    ensures var r := TimedRun(Begin(0), idle, LateSchedule(idle, k));
            && r.Some? && r.value.reaper.Running? && k in r.value.pool.tunnels
            && Age(r.value, k) == Bound(idle) - 1
  {
    var s := UsedAgain(idle, k);
    var first, wait := LateSchedule(idle, k)[..3], Wait(4 * Period(idle));
    assert LateSchedule(idle, k) == first + [Tick] + [Tick] + [wait];
    TimedSnoc(Begin(0), idle, first, Tick);
    TimedSnoc(Begin(0), idle, first + [Tick], Tick);
    TimedSnoc(Begin(0), idle, first + [Tick] + [Tick], wait);
    KeptAtTick(s, idle, k);
    KeptAtTick(TimedStep(s, idle, Tick), idle, k);
  }

  lemma KeptAtTick(s: Timed, idle: int, k: PoolKey)
    requires s.reaper.Running? && k in s.pool.tunnels
    requires s.reaper.tick + Period(idle) - s.pool.tunnels[k].lastUsed < idle
    ensures var t := TimedStep(s, idle, Tick);
            && k in t.pool.tunnels && t.pool.tunnels[k] == s.pool.tunnels[k]
            && t.pool.handles.lost == s.pool.handles.lost
  {
  }

  // ---- Ownership with the reaper

  /** The pool operation of a scheduled step; letting time pass is none. */
  function PoolOp(s: Timed, idle: int, op: TimedOp): Option<Op>
    requires Enabled(s, idle, op)
  {
    match op
    case At(o, _) => Some(o)
    case Tick => Some(CallReap(s.reaper.tick + Period(idle)))
    case Wait(_) => None
  }

  lemma TimedStepIsStep(s: Timed, idle: int, op: TimedOp)
    requires Enabled(s, idle, op)
    ensures TimedStep(s, idle, op).pool
         == if PoolOp(s, idle, op).None? then s.pool else Step(s.pool, idle, PoolOp(s, idle, op).value)
  {
  }

  lemma StepOwnsAll(s: Pool, idle: int, op: Op, t: Pool)
    requires Owns(s) && Conserved(s) && t == Step(s, idle, op)
    ensures Owns(t) && Conserved(t)
  {
    StepOwns(s, idle, op);
    StepConserved(s, idle, op);
  }

  lemma TimedStepOwns(s: Timed, idle: int, op: TimedOp)
    requires Owns(s.pool) && Conserved(s.pool) && Enabled(s, idle, op)
    ensures Owns(TimedStep(s, idle, op).pool) && Conserved(TimedStep(s, idle, op).pool)
  {
    TimedStepIsStep(s, idle, op);
    if PoolOp(s, idle, op).Some? {
      StepOwnsAll(s.pool, idle, PoolOp(s, idle, op).value, TimedStep(s, idle, op).pool);
    }
  }

  /** Ownership and conservation hold with the reaper running, stopped, or not started. */
  lemma {:induction false} TimedOwns(start: int, idle: int, ops: seq<TimedOp>, s: Timed)
    requires Reaches(start, idle, ops, s)
    ensures Owns(s.pool) && Conserved(s.pool)
    decreases |ops|
  {
    if ops != [] {
      var before := TimedRun(Begin(start), idle, ops[..|ops| - 1]).value;
      TimedOwns(start, idle, ops[..|ops| - 1], before);
      TimedStepOwns(before, idle, ops[|ops| - 1]);
    }
  }
}
