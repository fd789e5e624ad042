/** Replicas written by others while calls run: an unforced commit never changes one, and a forced
    commit only those written between the retry's own read and that commit. */
module ApplySafety {
  import opened Json
  import opened MergeSpec
  import opened GroupEdits
  import opened WriteSpec
  import opened Replicas
  import opened ClusterScale
  import opened Server
  import opened ApplySpec
  import opened ApplyTheorems

  // ---- Calls that do not set replicas

  /** An update whose rawSpec leaves the worker-group list alone, or a scale of min and max only. */
  predicate LeavesCounts(c: Call) {
    match c
    case Update(_, _, _, rawSpec, _) => LeavesGroups(rawSpec)
    case Scale(_, _, p, _) => p.replicas.None?
  }

  ghost predicate Preserves(build: Build) {
    forall raw: Object :: build(raw).Ok? ==> Counts(build(raw).value) == Counts(raw)
  }

  lemma IntentKeepsCounts(c: Call, raw: Object)
    requires LeavesCounts(c) && Intent(c, raw).Ok?
    ensures Counts(Intent(c, raw).value) == Counts(raw)
  {
    match c
    case Update(namespace, name, d, rawSpec, _) => IntentKeepsReplicas(raw, namespace, name, d, rawSpec);
    case Scale(namespace, name, p, _) => ScaleKeepsReplicas(raw, namespace, name, p);
  }

  lemma BuildPreserves(c: Call)
    requires LeavesCounts(c)
    ensures Preserves(BuildOf(c))
  {
    var build := BuildOf(c);
    forall raw: Object | build(raw).Ok? ensures Counts(build(raw).value) == Counts(raw) {
      IntentKeepsCounts(c, raw);
    }
  }

  // ---- One attempt

  /** The counts change at this request, so something written before it is lost. */
  predicate Loses(e: Event) {
    Counts(e.after.live) != Counts(e.seen.live)
  }

  /** es[i] is a forced commit that restores the counts its own read saw, over counts that were
      written between that read and the commit. */
  predicate LostInGap(es: seq<Event>, i: nat) {
    && 2 <= i < |es|
    && IsCommit(es[i]) && IsForced(es[i]) && IsRead(es[i - 2])
    && Counts(es[i].after.live) == Counts(es[i - 2].seen.live) != Counts(es[i].seen.live)
    && (es[i - 1].choice.writes != [] || es[i].choice.writes != [])
  }

  /** What an accepted apply leaves: the counts it met, or those its intent carries; the second only
      when it was forced or nobody else owned the list. */
  lemma AppliedCounts(s: State, intent: Object, dryRun: bool, force: bool, ch: Choice)
    ensures var after := Handled(s, intent, dryRun, force, ch);
            || Counts(after.live) == Counts(s.live)
            || (Counts(after.live) == Counts(intent) && (force || !s.others) && (ListOf(intent).None? ==> !s.others))
  {
    var after := Handled(s, intent, dryRun, force, ch);
    if ListOf(after.live) == ListOf(s.live) {
      CountsOfList(after.live, s.live);
    } else {
      CountsOfList(after.live, intent);
    }
  }

  /** Dry runs and reads change nothing; between the read and the commit only others write. */
  lemma AttemptGap(start: State, es: seq<Event>, build: Build, dryRun: bool, force: bool)
    requires Chain(start, es) && AttemptShape(es, build, dryRun, force) && |es| == 3
    ensures es[2].seen == AfterWrites(AfterWrites(es[0].seen, es[1].choice.writes), es[2].choice.writes)
    ensures es[0].after == es[0].seen && es[1].after == es[1].seen
    ensures es[0].action.got == Some(es[0].seen.live)
  {
    AttemptLaws(es, build, dryRun, force);
    assert Follows(Before(start, es, 0), es[0]) && Follows(Before(start, es, 1), es[1]) && Follows(Before(start, es, 2), es[2]);
  }

  lemma CommitCounts(start: State, es: seq<Event>, build: Build, dryRun: bool, force: bool)
    requires Chain(start, es) && AttemptShape(es, build, dryRun, force) && |es| == 3 && Preserves(build)
    ensures Loses(es[2]) ==> force && LostInGap(es, 2)
  {
    AttemptLaws(es, build, dryRun, force);
    AttemptGap(start, es, build, dryRun, force);
    var read, commit := es[0], es[2];
    assert Follows(Before(start, es, 2), commit);
    AppliedCounts(commit.seen, commit.action.intent, false, force, commit.choice);
    assert Counts(commit.action.intent) == Counts(read.seen.live);
    if !commit.seen.others {
      UnownedUnwritten(AfterWrites(read.seen, es[1].choice.writes), commit.choice.writes);
      UnownedUnwritten(read.seen, es[1].choice.writes);
      CountsOfList(commit.seen.live, read.seen.live);
    }
  }

  lemma AttemptLosses(start: State, es: seq<Event>, build: Build, dryRun: bool, force: bool)
    requires Chain(start, es) && AttemptShape(es, build, dryRun, force) && Preserves(build)
    ensures forall i | 0 <= i < |es| && Loses(es[i]) :: force && LostInGap(es, i)
  {
    AttemptLaws(es, build, dryRun, force);
    assert Follows(Before(start, es, 0), es[0]);
    if |es| > 1 {
      assert Follows(Before(start, es, 1), es[1]);
    }
    if |es| == 3 {
      CommitCounts(start, es, build, dryRun, force);
    }
  }

  // ---- One call

  lemma LostLater(xs: seq<Event>, ys: seq<Event>, i: nat)
    requires LostInGap(ys, i)
    ensures LostInGap(xs + ys, |xs| + i)
  {
    var zs := xs + ys;
    assert zs[|xs| + i] == ys[i] && zs[|xs| + i - 1] == ys[i - 1] && zs[|xs| + i - 2] == ys[i - 2];
  }

  lemma LostEarlier(xs: seq<Event>, ys: seq<Event>, i: nat)
    requires LostInGap(xs, i)
    ensures LostInGap(xs + ys, i)
  {
    var zs := xs + ys;
    assert zs[i] == xs[i] && zs[i - 1] == xs[i - 1] && zs[i - 2] == xs[i - 2];
  }

  ghost predicate LosesOnlyInGaps(es: seq<Event>) {
    forall i | 0 <= i < |es| && Loses(es[i]) :: LostInGap(es, i)
  }

  lemma GapsConcat(xs: seq<Event>, ys: seq<Event>)
    requires LosesOnlyInGaps(xs) && LosesOnlyInGaps(ys)
    ensures LosesOnlyInGaps(xs + ys)
  {
    var zs := xs + ys;
    forall i | 0 <= i < |zs| && Loses(zs[i]) ensures LostInGap(zs, i) {
      if i < |xs| {
        assert zs[i] == xs[i];
        LostEarlier(xs, ys, i);
      } else {
        assert zs[i] == ys[i - |xs|];
        LostLater(xs, ys, i - |xs|);
      }
    }
  }

  lemma LinkedParts(rel: (State, Event) -> bool, start: State, xs: seq<Event>, ys: seq<Event>)
    requires Linked(rel, start, xs + ys)
    ensures Linked(rel, start, xs) && Linked(rel, Final(start, xs), ys)
  {
    var zs := xs + ys;
    forall i | 0 <= i < |xs| ensures rel(Before(start, xs, i), xs[i]) {
      assert zs[i] == xs[i] && Before(start, zs, i) == Before(start, xs, i);
      assert rel(Before(start, zs, i), zs[i]);
    }
    forall i | 0 <= i < |ys| ensures rel(Before(Final(start, xs), ys, i), ys[i]) {
      assert zs[|xs| + i] == ys[i] && Before(start, zs, |xs| + i) == Before(Final(start, xs), ys, i);
      assert rel(Before(start, zs, |xs| + i), zs[|xs| + i]);
    }
  }

  /** No read-modify-apply that resends the counts it read changes a count, except that its forced
      commit may undo writes made after the retry's read. */
  lemma RetryLosses(w: World, o: Oracle, build: Build, dryRun: bool) returns (es: seq<Event>)
    requires Preserves(build)
    ensures Served(w, es, Retry(w, o, build, dryRun).0) && LosesOnlyInGaps(es)
  {
    var first, second := RetryEvents(w, o, build, dryRun);
    es := first + second;
    LinkedParts(Follows, w.server, first, second);
    AttemptLosses(w.server, first, build, dryRun, false);
    if second != [] {
      AttemptLosses(Final(w.server, first), second, build, dryRun, true);
    }
    GapsConcat(first, second);
  }

  /** In particular a call that never had to force loses nothing. */
  lemma UnforcedLosesNothing(w: World, o: Oracle, build: Build, dryRun: bool) returns (es: seq<Event>)
    requires Preserves(build)
    ensures Served(w, es, Retry(w, o, build, dryRun).0)
    ensures forall i | 0 <= i < |es| && !IsForced(es[i]) :: Counts(es[i].after.live) == Counts(es[i].seen.live)
  {
    es := RetryLosses(w, o, build, dryRun);
    forall i | 0 <= i < |es| && !IsForced(es[i]) ensures Counts(es[i].after.live) == Counts(es[i].seen.live) {
      assert !LostInGap(es, i);
    }
  }

  // ---- Whole runs

  lemma NothingServed(w: World)
    ensures Served(w, [], w)
  {
  }

  lemma {:induction false} RunLosses(w: World, o: Oracle, calls: seq<Call>) returns (es: seq<Event>)
    requires forall c | c in calls :: LeavesCounts(c)
    ensures Served(w, es, RunAll(w, o, calls)) && LosesOnlyInGaps(es)
    decreases |calls|
  {
    if calls == [] {
      es := [];
      NothingServed(w);
    } else {
      var before, c := calls[..|calls| - 1], calls[|calls| - 1];
      var xs := RunLosses(w, o, before);
      var w1 := RunAll(w, o, before);
      var ys := CallLosses(w1, o, c);
      ServedConcat(Follows, w, xs, w1, ys, Run(w1, o, c).0);
      GapsConcat(xs, ys);
      es := xs + ys;
    }
  }

  lemma CallLosses(w: World, o: Oracle, c: Call) returns (es: seq<Event>)
    requires LeavesCounts(c)
    ensures Served(w, es, Run(w, o, c).0) && LosesOnlyInGaps(es)
  {
    if Refused(c).Some? {
      es := [];
      NothingServed(w);
    } else {
      BuildPreserves(c);
      es := RetryLosses(w, o, BuildOf(c), c.dryRun);
    }
  }

  /** The object most recently written by somebody else, or the one at the start. */
  function LastWritten(start: State, es: seq<Event>): Object
    decreases |es|
  {
    if es == [] then start.live else WrittenAt(LastWritten(start, es[..|es| - 1]), es[|es| - 1])
  }

  function WrittenAt(live: Object, e: Event): Object {
    var ws := e.choice.writes;
    if ws != [] then ws[|ws| - 1].obj else live
  }

  /** The request leaves f as the last write before it left it. */
  predicate Carries<V(==)>(f: Object -> V, before: State, e: Event) {
    f(e.after.live) == f(WrittenAt(before.live, e))
  }

  lemma {:induction false} CarriedAlong<V>(f: Object -> V, start: State, es: seq<Event>)
    requires forall i | 0 <= i < |es| :: Carries(f, Before(start, es, i), es[i])
    ensures f(Final(start, es).live) == f(LastWritten(start, es))
    decreases |es|
  {
    if es != [] {
      var before, last := es[..|es| - 1], es[|es| - 1];
      forall i | 0 <= i < |before| ensures Carries(f, Before(start, before, i), before[i]) {
        assert Before(start, before, i) == Before(start, es, i);
      }
      CarriedAlong(f, start, before);
      assert Carries(f, Before(start, es, |es| - 1), last);
      assert Before(start, es, |es| - 1) == Final(start, before);
    }
  }

  lemma LosslessCarries(before: State, e: Event)
    requires Follows(before, e) && !Loses(e)
    ensures Counts(e.after.live) == Counts(WrittenAt(before.live, e))
  {
  }

  lemma LosslessKeepsLastWrite(start: State, es: seq<Event>)
    requires Chain(start, es) && forall e | e in es :: !Loses(e)
    ensures Counts(Final(start, es).live) == Counts(LastWritten(start, es))
  {
    var f := (obj: Object) => Counts(obj);
    forall i | 0 <= i < |es| ensures Carries(f, Before(start, es, i), es[i]) {
      assert Follows(Before(start, es, i), es[i]);
      LosslessCarries(Before(start, es, i), es[i]);
    }
    CarriedAlong(f, start, es);
  }

  /** One past the last event of a kind, or 0 when there is none. */
  function PastLast(es: seq<Event>, p: Event -> bool): (n: nat)
    ensures n <= |es|
    ensures n > 0 ==> p(es[n - 1])
    ensures forall i | n <= i < |es| :: !p(es[i])
  {
    if es == [] then 0
    else if p(es[|es| - 1]) then |es|
    else PastLast(es[..|es| - 1], p)
  }

  lemma NoneAfter(es: seq<Event>, p: Event -> bool)
    ensures forall e | e in es[PastLast(es, p)..] :: !p(e)
  {
  }

  lemma ChainFrom(rel: (State, Event) -> bool, start: State, es: seq<Event>, n: nat)
    requires n <= |es| && Linked(rel, start, es)
    ensures Linked(rel, Before(start, es, n), es[n..])
    ensures Final(Before(start, es, n), es[n..]) == Final(start, es)
  {
    assert es == es[..n] + es[n..];
    LinkedParts(rel, start, es[..n], es[n..]);
    FinalAfter(start, es, n);
  }

  lemma KeptSinceLoss(start: State, es: seq<Event>, n: nat)
    requires Chain(start, es) && n <= |es| && forall e | e in es[n..] :: !Loses(e)
    ensures Counts(Final(start, es).live) == Counts(LastWritten(Before(start, es, n), es[n..]))
  {
    ChainFrom(Follows, start, es, n);
    LosslessKeepsLastWrite(Before(start, es, n), es[n..]);
  }

  lemma KeptToTheEnd(start: State, es: seq<Event>)
    requires Chain(start, es)
    ensures var n := PastLast(es, Loses);
            Counts(Final(start, es).live) == Counts(LastWritten(Before(start, es, n), es[n..]))
  {
    NoneAfter(es, Loses);
    KeptSinceLoss(start, es, PastLast(es, Loses));
  }

  /** For every run of such calls against every server, with other managers writing between any two
      requests: let n be one past the last commit that undid a write (0 when there is none).  That
      commit was a forced one that fell on a write made after its own read; and the replicas the cluster
      ends up with are those somebody else wrote last since then, or, if nobody did, those the commit
      left. */
  lemma RunKeepsLastWrite(start: State, o: Oracle, calls: seq<Call>)
    requires forall c | c in calls :: LeavesCounts(c)
    ensures var w := RunAll(World(start, [], []), o, calls);
            var n := PastLast(w.trace, Loses);
            && (n > 0 ==> LostInGap(w.trace, n - 1))
            && Counts(w.server.live) == Counts(LastWritten(Before(start, w.trace, n), w.trace[n..]))
  {
    var es := RunLosses(World(start, [], []), o, calls);
    var w := RunAll(World(start, [], []), o, calls);
    RunTrace(start, es, w);
    KeptToTheEnd(start, es);
    LossInGap(es, PastLast(es, Loses));
  }

  lemma RunTrace(start: State, es: seq<Event>, w: World)
    requires Served(World(start, [], []), es, w)
    ensures w.trace == es && Chain(start, es) && w.server == Final(start, es)
  {
    assert [] + es == es;
  }

  lemma LossInGap(es: seq<Event>, n: nat)
    requires LosesOnlyInGaps(es) && n <= |es| && (n > 0 ==> Loses(es[n - 1]))
    ensures n > 0 ==> LostInGap(es, n - 1)
  {
  }

  lemma FinalAfter(start: State, es: seq<Event>, n: nat)
    requires n <= |es|
    ensures Final(start, es[..n]) == Before(start, es, n)
    ensures Final(Before(start, es, n), es[n..]) == Final(start, es)
  {
  }

  // ---- The gap is real

  /** Somebody else writes x1 before the first dry run and x2 right before the forced commit. */
  function GapOracle(x0: Object, x1: Object, x2: Object): Oracle {
    (n: nat) => Choice(if n == 1 then [Write(x1, false)] else if n == 4 then [Write(x2, false)] else [], NoFault, x0, false)
  }

  /** The first attempt reads x0 and conflicts with the write of x1. */
  lemma FirstAttemptConflicts(build: Build, x0: Object, x1: Object, x2: Object)
    requires Preserves(build) && build(x0).Ok? && ListOf(build(x0).value).Some? && Counts(x0) != Counts(x1)
    ensures var (w, p) := Attempt(World(State(x0, true), [], []), GapOracle(x0, x1, x2), build, false, false);
            p == Finished(Err(ConflictError)) && w.server == State(x1, true) && |w.trace| == 2
  {
    var o, w0 := GapOracle(x0, x1, x2), World(State(x0, true), [], []);
    var (w1, got) := Fetch(w0, o);
    assert got == Some(x0) && w1.server == State(x0, true) && |w1.trace| == 1;
    var intent := build(x0).value;
    var seen := AfterWrites(w1.server, [Write(x1, false)]);
    assert seen == State(x1, true);
    if ListOf(intent) == ListOf(x1) {
      CountsOfList(intent, x1);
    }
  }

  /** The forced attempt from two requests on reads x1, and its commit meets x2. */
  lemma SecondAttemptOverwrites(build: Build, x0: Object, x1: Object, x2: Object, w: World)
    requires Preserves(build) && build(x1).Ok? && ListOf(build(x1).value).Some? && Counts(x1) != Counts(x2)
    requires w.server == State(x1, true) && |w.trace| == 2
    ensures LostInGap(Attempt(w, GapOracle(x0, x1, x2), build, false, true).0.trace, 4)
  {
    var o := GapOracle(x0, x1, x2);
    var (w1, got) := Fetch(w, o);
    assert got == Some(x1) && w1.server == w.server && |w1.trace| == 3;
    var intent := build(x1).value;
    var (w2, preview) := Send(w1, o, intent, true, true);
    assert preview.Applied? && w2.server == w.server && |w2.trace| == 4;
    var (w3, done) := Send(w2, o, intent, false, true);
    var commit := w3.trace[4];
    assert commit.seen == State(x2, true) && done.Applied? && ListOf(commit.after.live) == ListOf(intent);
    CountsOfList(commit.after.live, intent);
    assert w3.trace[2] == w1.trace[2] && w3.trace[3] == w2.trace[3];
  }

  /** The exception in RunKeepsLastWrite is needed: for every call that resends what it reads there is
      a server against which its forced retry undoes a write. */
  lemma ForcedRetryCanLose(build: Build, x0: Object, x1: Object, x2: Object)
    requires Preserves(build) && build(x0).Ok? && build(x1).Ok?
    requires ListOf(build(x0).value).Some? && ListOf(build(x1).value).Some?
    requires Counts(x0) != Counts(x1) && Counts(x1) != Counts(x2)
    ensures LostInGap(Retry(World(State(x0, true), [], []), GapOracle(x0, x1, x2), build, false).0.trace, 4)
  {
    FirstAttemptConflicts(build, x0, x1, x2);
    var w := Attempt(World(State(x0, true), [], []), GapOracle(x0, x1, x2), build, false, false).0;
    SecondAttemptOverwrites(build, x0, x1, x2, w);
  }

  // ---- Progress

  /** Without faults a committing call always gets through: its only errors are its own. */
  lemma FaultFreeCommits(w: World, o: Oracle, build: Build)
    requires forall n: nat :: o(n).fault.NoFault?
    ensures var r := Retry(w, o, build, false).1;
            r.Err? ==> exists raw: Object :: build(raw) == Err(r.error)
  {
    FaultFreeAttempt(w, o, build, false);
    FaultFreeAttempt(Attempt(w, o, build, false, false).0, o, build, true);
  }

  lemma FaultFreeAttempt(w: World, o: Oracle, build: Build, force: bool)
    requires forall n: nat :: o(n).fault.NoFault?
    ensures var p := Attempt(w, o, build, false, force).1;
            && (p.Stopped? ==> exists raw: Object :: build(raw) == Err(p.error))
            && (p.Finished? ==> p.result.Ok? || (p.result == Err(ConflictError) && !force))
  {
    var (w1, got) := Fetch(w, o);
    assert o(|w.trace|).fault.NoFault? && o(|w1.trace|).fault.NoFault?;
    assert got.Some?;
    if build(got.value).Ok? {
      var w2 := Send(w1, o, build(got.value).value, true, force).0;
      assert o(|w2.trace|).fault.NoFault?;
    }
  }
}
