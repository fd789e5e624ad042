/** What one call does to the server, for every oracle: the shape of its requests, what it audits,
    and which concurrent writes it can lose; then the same over whole runs of calls. */
module ApplyTheorems {
  import opened Json
  import opened DiffSpec
  import opened DiffTheorems
  import opened DiffReport
  import opened MergeSpec
  import opened GroupEdits
  import opened WriteSpec
  import opened Replicas
  import opened ClusterScale
  import opened Server
  import opened ApplySpec

  // ---- Kinds of requests

  predicate IsRead(e: Event) {
    e.action.Read?
  }

  predicate IsPreview(e: Event) {
    e.action.Apply? && e.action.dryRun
  }

  predicate IsCommit(e: Event) {
    e.action.Apply? && !e.action.dryRun
  }

  predicate IsForced(e: Event) {
    e.action.Apply? && e.action.force
  }

  predicate Succeeded(e: Event) {
    e.action.Apply? && e.action.outcome.Applied?
  }

  predicate Conflicted(e: Event) {
    e.action.Apply? && e.action.outcome.Conflict?
  }

  function Count(es: seq<Event>, p: Event -> bool): nat {
    if es == [] then 0 else Count(es[..|es| - 1], p) + if p(es[|es| - 1]) then 1 else 0
  }

  lemma {:induction false} CountConcat(xs: seq<Event>, ys: seq<Event>, p: Event -> bool)
    ensures Count(xs + ys, p) == Count(xs, p) + Count(ys, p)
    decreases |ys|
  {
    if ys == [] {
      assert xs + ys == xs;
    } else {
      var zs := xs + ys;
      assert zs[..|zs| - 1] == xs + ys[..|ys| - 1];
      CountConcat(xs, ys[..|ys| - 1], p);
    }
  }

  // ---- The server obeys its description

  /** e is how the server answers in the state left by what came before. */
  predicate Follows(before: State, e: Event) {
    && e.seen == AfterWrites(before, e.choice.writes)
    && match e.action
       case Read(got) => e.after == e.seen && (got.Some? ==> got.value == e.seen.live)
       case Apply(intent, dryRun, force, outcome) =>
         && e.after == Handled(e.seen, intent, dryRun, force, e.choice)
         && outcome == OutcomeOf(e.seen, intent, force, e.choice)
  }

  function Before(start: State, es: seq<Event>, i: nat): State
    requires i <= |es|
  {
    if i == 0 then start else es[i - 1].after
  }

  /** Every event is related to the state the one before it left. */
  ghost predicate Linked(rel: (State, Event) -> bool, start: State, es: seq<Event>) {
    forall i | 0 <= i < |es| :: rel(Before(start, es, i), es[i])
  }

  ghost predicate Chain(start: State, es: seq<Event>) {
    Linked(Follows, start, es)
  }

  function Final(start: State, es: seq<Event>): State {
    Before(start, es, |es|)
  }

  lemma LinkedConcat(rel: (State, Event) -> bool, start: State, xs: seq<Event>, ys: seq<Event>)
    requires Linked(rel, start, xs) && Linked(rel, Final(start, xs), ys)
    ensures Linked(rel, start, xs + ys) && Final(start, xs + ys) == Final(Final(start, xs), ys)
  {
    var zs := xs + ys;
    forall i | 0 <= i < |zs| ensures rel(Before(start, zs, i), zs[i]) {
      if i < |xs| {
        assert zs[i] == xs[i] && Before(start, zs, i) == Before(start, xs, i);
      } else {
        assert zs[i] == ys[i - |xs|] && Before(start, zs, i) == Before(Final(start, xs), ys, i - |xs|);
      }
    }
  }

  // ---- One attempt

  predicate Requests(e: Event, intent: Object, dryRun: bool, force: bool) {
    && e.action.Apply?
    && e.action.intent == intent && e.action.dryRun == dryRun && e.action.force == force
  }

  /** A dry run, then, unless only a dry run was asked for, a commit of the same. */
  predicate PipelineShape(es: seq<Event>, intent: Object, dryRun: bool, force: bool) {
    && 1 <= |es| <= 2
    && Requests(es[0], intent, true, force)
    && (|es| == 2 ==> !dryRun && Succeeded(es[0]) && Requests(es[1], intent, false, force))
  }

  /** A read, then the pipeline on what was built from it. */
  predicate AttemptShape(es: seq<Event>, build: Build, dryRun: bool, force: bool) {
    && es != [] && IsRead(es[0])
    && (|es| > 1 ==>
          && es[0].action.got.Some? && build(es[0].action.got.value).Ok?
          && PipelineShape(es[1..], build(es[0].action.got.value).value, dryRun, force))
  }

  /** What is reported, read off the last request. */
  ghost predicate Report(last: Event, dryRun: bool, r: Result<ApplyResult, CallError>) {
    && last.action.Apply?
    && match last.action.outcome
       case Applied(obj) =>
         && (dryRun || IsCommit(last))
         && r == Ok(ApplyResult(obj, SpecDiff(last.action.intent, obj), dryRun))
       case Conflict => r == Err(ConflictError)
       case Failure => r == Err(ServerError)
  }

  /** Why an attempt ends at its read. */
  predicate StoppedBy(read: Event, build: Build, e: CallError) {
    IsRead(read) && if read.action.got.None? then e == ReadFailed else build(read.action.got.value) == Err(e)
  }

  /** The audit record of one pass through the pipeline: whether it ended at the dry run, and whether it
      succeeded. */
  function Record(last: Event): AuditRecord {
    AuditRecord(IsPreview(last), Succeeded(last))
  }

  /** w' is w after the server handled the requests es. */
  ghost predicate Served(w: World, es: seq<Event>, w': World) {
    ServedBy(Follows, w, es, w')
  }

  ghost predicate ServedBy(rel: (State, Event) -> bool, w: World, es: seq<Event>, w': World) {
    w'.trace == w.trace + es && Linked(rel, w.server, es) && w'.server == Final(w.server, es)
  }

  lemma ServedConcat(rel: (State, Event) -> bool, w: World, xs: seq<Event>, w1: World, ys: seq<Event>, w2: World)
    requires ServedBy(rel, w, xs, w1) && ServedBy(rel, w1, ys, w2)
    ensures ServedBy(rel, w, xs + ys, w2)
  {
    LinkedConcat(rel, w.server, xs, ys);
    assert w.trace + xs + ys == w.trace + (xs + ys);
  }

  lemma FetchEvent(w: World, o: Oracle) returns (e: Event)
    ensures var (w', got) := Fetch(w, o);
            Served(w, [e], w') && w'.audit == w.audit && e.action == Read(got)
  {
    e := Fetch(w, o).0.trace[|w.trace|];
  }

  lemma SendEvent(w: World, o: Oracle, intent: Object, dryRun: bool, force: bool) returns (e: Event)
    ensures var (w', outcome) := Send(w, o, intent, dryRun, force);
            Served(w, [e], w') && w'.audit == w.audit && e.action == Apply(intent, dryRun, force, outcome)
  {
    e := Send(w, o, intent, dryRun, force).0.trace[|w.trace|];
  }

  /** es and r are the requests and the result of one pass through the pipeline. */
  ghost predicate Piped(w: World, es: seq<Event>, w': World, r: Result<ApplyResult, CallError>,
                        intent: Object, dryRun: bool, force: bool) {
    && Served(w, es, w') && PipelineShape(es, intent, dryRun, force)
    && Report(es[|es| - 1], dryRun, r)
    && w'.audit == w.audit + [Record(es[|es| - 1])]
  }

  lemma PipelineEvents(w: World, o: Oracle, intent: Object, dryRun: bool, force: bool) returns (es: seq<Event>)
    ensures var (w', r) := Pipeline(w, o, intent, dryRun, force); Piped(w, es, w', r, intent, dryRun, force)
  {
    var first := SendEvent(w, o, intent, true, force);
    if Succeeded(first) && !dryRun {
      es := PipelineCommits(w, o, intent, force, first);
    } else {
      es := [first];
    }
  }

  lemma PipelineCommits(w: World, o: Oracle, intent: Object, force: bool, first: Event) returns (es: seq<Event>)
    requires Served(w, [first], Send(w, o, intent, true, force).0) && Requests(first, intent, true, force) && Succeeded(first)
    requires first.action.outcome == Send(w, o, intent, true, force).1
    ensures var (w', r) := Pipeline(w, o, intent, false, force); Piped(w, es, w', r, intent, false, force)
  {
    var w1 := Send(w, o, intent, true, force).0;
    var second := SendEvent(w1, o, intent, false, force);
    ServedConcat(Follows, w, [first], w1, [second], Send(w1, o, intent, false, force).0);
    es := [first] + [second];
    assert es[0] == first && es[1] == second && es[|es| - 1] == second;
  }

  /** es and p are the requests and the outcome of one attempt. */
  ghost predicate Attempted(w: World, es: seq<Event>, w': World, p: Progress, build: Build, dryRun: bool, force: bool) {
    && Served(w, es, w') && AttemptShape(es, build, dryRun, force)
    && (p.Stopped? <==> |es| == 1)
    && (p.Stopped? ==> StoppedBy(es[0], build, p.error))
    && (p.Finished? ==> Report(es[|es| - 1], dryRun, p.result))
    && w'.audit == w.audit + Records(es)
  }

  /** The audit records of one attempt: exactly one once the pipeline has been entered. */
  function Records(es: seq<Event>): seq<AuditRecord> {
    if |es| <= 1 then [] else [Record(es[|es| - 1])]
  }

  lemma AttemptStopped(w: World, read: Event, w': World, e: CallError, build: Build, dryRun: bool, force: bool)
    requires Served(w, [read], w') && StoppedBy(read, build, e) && w'.audit == w.audit
    ensures Attempted(w, [read], w', Stopped(e), build, dryRun, force)
  {
    assert w.audit + [] == w.audit;
  }

  lemma AttemptJoined(w: World, read: Event, w1: World, tail: seq<Event>, w': World,
        r: Result<ApplyResult, CallError>, build: Build, dryRun: bool, force: bool)
    requires Served(w, [read], w1) && w1.audit == w.audit
    requires IsRead(read) && read.action.got.Some? && build(read.action.got.value).Ok?
    requires Piped(w1, tail, w', r, build(read.action.got.value).value, dryRun, force)
    ensures Attempted(w, [read] + tail, w', Finished(r), build, dryRun, force)
  {
    ServedConcat(Follows, w, [read], w1, tail, w');
    assert ([read] + tail)[1..] == tail;
  }

  lemma AttemptEvents(w: World, o: Oracle, build: Build, dryRun: bool, force: bool) returns (es: seq<Event>)
    ensures var (w', p) := Attempt(w, o, build, dryRun, force); Attempted(w, es, w', p, build, dryRun, force)
  {
    var read := FetchEvent(w, o);
    var (w1, got) := Fetch(w, o);
    if got.Some? && build(got.value).Ok? {
      var intent := build(got.value).value;
      var tail := PipelineEvents(w1, o, intent, dryRun, force);
      var (w2, r) := Pipeline(w1, o, intent, dryRun, force);
      AttemptJoined(w, read, w1, tail, w2, r, build, dryRun, force);
      es := [read] + tail;
    } else {
      es := [read];
      AttemptStopped(w, read, w1, Attempt(w, o, build, dryRun, force).1.error, build, dryRun, force);
    }
  }

  // ---- One call

  /** An unforced attempt, then, only after a conflict and never for a dry run, a forced one. */
  predicate RetryShape(first: seq<Event>, second: seq<Event>, build: Build, dryRun: bool) {
    && AttemptShape(first, build, dryRun, false)
    && (second != [] <==> !dryRun && Conflicted(first[|first| - 1]))
    && (second != [] ==> AttemptShape(second, build, dryRun, true))
  }

  /** first, second and r are the requests and the result of applyWithConflictRetry. */
  ghost predicate Retried(w: World, first: seq<Event>, second: seq<Event>, w': World,
                          r: Result<ApplyResult, CallError>, build: Build, dryRun: bool) {
    && Served(w, first + second, w') && RetryShape(first, second, build, dryRun)
    && w'.audit == w.audit + (Records(first) + Records(second))
    && (var es := if second == [] then first else second; Answers(es, build, dryRun, r))
  }

  /** r is the answer to an attempt with the requests es. */
  ghost predicate Answers(es: seq<Event>, build: Build, dryRun: bool, r: Result<ApplyResult, CallError>)
    requires es != []
  {
    if |es| == 1 then r.Err? && StoppedBy(es[0], build, r.error) else Report(es[|es| - 1], dryRun, r)
  }

  lemma RetriedOnce(w: World, first: seq<Event>, w': World, p: Progress, build: Build, dryRun: bool)
    requires Attempted(w, first, w', p, build, dryRun, false) && (p != Finished(Err(ConflictError)) || dryRun)
    ensures Retried(w, first, [], w', ResultOf(p), build, dryRun)
  {
    assert first + [] == first && Records(first) + [] == Records(first);
  }

  lemma RetriedTwice(w: World, first: seq<Event>, w1: World, p1: Progress, second: seq<Event>, w': World, p: Progress,
        build: Build, dryRun: bool)
    requires Attempted(w, first, w1, p1, build, dryRun, false) && p1 == Finished(Err(ConflictError)) && !dryRun
    requires Attempted(w1, second, w', p, build, dryRun, true)
    ensures Retried(w, first, second, w', ResultOf(p), build, dryRun)
  {
    ServedConcat(Follows, w, first, w1, second, w');
    assert w.audit + Records(first) + Records(second) == w.audit + (Records(first) + Records(second));
  }

  lemma RetryEvents(w: World, o: Oracle, build: Build, dryRun: bool) returns (first: seq<Event>, second: seq<Event>)
    ensures var (w', r) := Retry(w, o, build, dryRun); Retried(w, first, second, w', r, build, dryRun)
  {
    second := [];
    first := AttemptEvents(w, o, build, dryRun, false);
    var (w1, p1) := Attempt(w, o, build, dryRun, false);
    if p1 == Finished(Err(ConflictError)) && !dryRun {
      second := AttemptEvents(w1, o, build, dryRun, true);
      var (w2, p2) := Attempt(w1, o, build, dryRun, true);
      RetriedTwice(w, first, w1, p1, second, w2, p2, build, dryRun);
    } else {
      RetriedOnce(w, first, w1, p1, build, dryRun);
    }
  }

  /** e is a commit of exactly what the request before it previewed with success. */
  predicate Previewed(before: Event, e: Event) {
    && IsPreview(before) && Succeeded(before) && IsCommit(e)
    && before.action.intent == e.action.intent && before.action.force == e.action.force
  }

  /** es[i] submits what the build makes of the read es[k], and es[j] before that read was an unforced
      apply that conflicted. */
  predicate ForcedAfter(es: seq<Event>, build: Build, j: nat, k: nat, i: nat) {
    && j < k < i < |es|
    && Conflicted(es[j]) && !IsForced(es[j])
    && IsRead(es[k]) && es[k].action.got.Some?
    && es[i].action.Apply? && build(es[k].action.got.value) == Ok(es[i].action.intent)
  }

  lemma AttemptLaws(es: seq<Event>, build: Build, dryRun: bool, force: bool)
    requires AttemptShape(es, build, dryRun, force)
    ensures 1 <= |es| <= 3 && (|es| == 3 ==> !dryRun && Previewed(es[1], es[2]))
    ensures IsRead(es[0]) && (|es| > 1 ==> IsPreview(es[1]) && es[0].action.got.Some?)
    ensures forall i | 1 <= i < |es| ::
              && es[i].action.Apply? && es[i].action.force == force
              && build(es[0].action.got.value) == Ok(es[i].action.intent)
  {
    if |es| > 1 {
      assert es[1] == es[1..][0];
      if |es| > 2 {
        assert es[2] == es[1..][1];
      }
    }
  }

  lemma AttemptCounts(es: seq<Event>, build: Build, dryRun: bool, force: bool)
    requires AttemptShape(es, build, dryRun, force)
    ensures Count(es, IsRead) == 1 && Count(es, IsPreview) == |Records(es)| <= 1
    ensures Count(es, IsCommit) == if |es| == 3 then 1 else 0
  {
    AttemptLaws(es, build, dryRun, force);
    CountThree(es, IsRead);
    CountThree(es, IsPreview);
    CountThree(es, IsCommit);
  }

  lemma CountThree(es: seq<Event>, p: Event -> bool)
    requires 1 <= |es| <= 3
    ensures Count(es, p) == (if p(es[0]) then 1 else 0) + (if |es| >= 2 && p(es[1]) then 1 else 0)
                            + (if |es| == 3 && p(es[2]) then 1 else 0)
  {
    assert es[..1] == [es[0]] && [es[0]][..0] == [];
    if |es| == 3 {
      assert es[..2][..1] == es[..1] && es[..2][1] == es[1];
    }
  }

  lemma RetryCommits(first: seq<Event>, second: seq<Event>, build: Build, dryRun: bool)
    requires RetryShape(first, second, build, dryRun)
    ensures var es := first + second;
            forall i | 0 <= i < |es| && IsCommit(es[i]) :: !dryRun && i > 0 && Previewed(es[i - 1], es[i])
  {
    var es := first + second;
    AttemptLaws(first, build, dryRun, false);
    forall i | 0 <= i < |es| && IsCommit(es[i]) ensures !dryRun && i > 0 && Previewed(es[i - 1], es[i]) {
      if i < |first| {
        assert es[i] == first[i] && es[i - 1] == first[i - 1];
      } else {
        AttemptLaws(second, build, dryRun, true);
        assert es[i] == second[i - |first|] && es[i - 1] == second[i - 1 - |first|];
      }
    }
  }

  lemma RetryForces(first: seq<Event>, second: seq<Event>, build: Build, dryRun: bool)
    requires RetryShape(first, second, build, dryRun)
    ensures var es := first + second;
            forall i | 0 <= i < |es| && IsForced(es[i]) :: !dryRun && exists j: nat, k: nat :: ForcedAfter(es, build, j, k, i)
  {
    var es := first + second;
    AttemptLaws(first, build, dryRun, false);
    assert forall j | 0 <= j < |first| :: es[j] == first[j] && !IsForced(es[j]);
    forall i | 0 <= i < |es| && IsForced(es[i])
      ensures !dryRun && exists j: nat, k: nat :: ForcedAfter(es, build, j, k, i)
    {
      AttemptLaws(second, build, dryRun, true);
      assert es[i] == second[i - |first|] && es[|first|] == second[0] && es[|first| - 1] == first[|first| - 1];
      assert ForcedAfter(es, build, |first| - 1, |first|, i);
    }
  }

  /** The requests of one read-modify-apply, for every build and every server behaviour: at most two
      reads, two dry runs and two commits, and no commit for a dry-run call; every commit directly
      follows a successful dry run of the same object with the same force flag; force only after an
      unforced conflict and only on an object built from a later read; one audit record for every dry
      run, that is for every time the pipeline was entered. */
  lemma RetryProtocol(w: World, o: Oracle, build: Build, dryRun: bool) returns (es: seq<Event>)
    ensures Retry(w, o, build, dryRun).0.trace == w.trace + es
    ensures Count(es, IsRead) <= 2 && Count(es, IsPreview) <= 2 && Count(es, IsCommit) <= 2
    ensures dryRun ==> Count(es, IsRead) == 1
    ensures forall i | 0 <= i < |es| && IsCommit(es[i]) :: !dryRun && i > 0 && Previewed(es[i - 1], es[i])
    ensures forall i | 0 <= i < |es| && IsForced(es[i]) :: !dryRun && exists j: nat, k: nat :: ForcedAfter(es, build, j, k, i)
    ensures |Retry(w, o, build, dryRun).0.audit| == |w.audit| + Count(es, IsPreview)
  {
    var first, second := RetryEvents(w, o, build, dryRun);
    es := first + second;
    RetryCounts(first, second, build, dryRun);
    RetryCommits(first, second, build, dryRun);
    RetryForces(first, second, build, dryRun);
  }

  lemma RetryCounts(first: seq<Event>, second: seq<Event>, build: Build, dryRun: bool)
    requires RetryShape(first, second, build, dryRun)
    ensures var es := first + second;
            && Count(es, IsRead) == (if second == [] then 1 else 2)
            && Count(es, IsPreview) == |Records(first) + Records(second)| <= 2
            && Count(es, IsCommit) <= 2
            && (second != [] ==> !dryRun)
  {
    CountConcat(first, second, IsRead);
    CountConcat(first, second, IsPreview);
    CountConcat(first, second, IsCommit);
    AttemptCounts(first, build, dryRun, false);
    if second != [] {
      AttemptCounts(second, build, dryRun, true);
    }
  }

  /** part is the object at "spec", or the whole object where there is none. */
  predicate SpecPart(m: Json, part: Json) {
    part == if Get(m, [Key("spec")]).Some? && Get(m, [Key("spec")]).value.Obj? then Get(m, [Key("spec")]).value else m
  }

  /** The changes are the differences from the submitted to the resulting spec, to a depth of 4. */
  ghost predicate ReportsChange(changes: seq<Change<string>>, intent: Json, result: Json) {
    forall b, a | SpecPart(intent, b) && SpecPart(result, a) ::
      && (changes == [] <==> b == a)
      && exists es :: Explains(es, changes, b, a, 4)
  }

  /** last is the request a successful result r reports on. */
  ghost predicate ReportsOn(last: Event, dryRun: bool, w': World, r: ApplyResult) {
    && last.action.Apply? && last.action.dryRun == dryRun == r.dryRun
    && last.action.outcome == Applied(r.obj)
    && (!dryRun ==> w'.server.live == r.obj)
    && ReportsChange(r.diff, last.action.intent, r.obj)
    && w'.audit != [] && w'.audit[|w'.audit| - 1] == AuditRecord(dryRun, true)
  }

  lemma SpecPartOf(m: Object)
    ensures SpecPart(m, SpecOrWhole(m))
    ensures forall part :: SpecPart(m, part) ==> part == SpecOrWhole(m)
  {
    GetOne(m, Key("spec"));
  }

  lemma SpecDiffReports(intent: Object, result: Object)
    ensures ReportsChange(SpecDiff(intent, result), intent, result)
  {
    var b, a := SpecOrWhole(intent), SpecOrWhole(result);
    SpecPartOf(intent);
    SpecPartOf(result);
    DiffEmptyIffEqual(b, a, 4);
    DiffExplained(b, a, 4);
  }

  /** What a successful call reports: the object the server answered its last request with, which for a
      commit is what the server now holds; as changes exactly the differences from the submitted to the
      resulting spec, none only if the two are equal; and a success in the audit log for the same dry-run
      flag. */
  lemma RetryReports(w: World, o: Oracle, build: Build, dryRun: bool) returns (last: Event)
    ensures var (w', r) := Retry(w, o, build, dryRun);
            && w'.trace != [] && last == w'.trace[|w'.trace| - 1]
            && (r.Ok? ==> ReportsOn(last, dryRun, w', r.value))
  {
    var first, second := RetryEvents(w, o, build, dryRun);
    var (w', r) := Retry(w, o, build, dryRun);
    last := LastOf(w, first, second, w', r, build, dryRun);
    if r.Ok? {
      LastReport(w, first, second, w', r.value, build, dryRun, last);
    }
  }

  lemma LastOf(w: World, first: seq<Event>, second: seq<Event>, w': World, r: Result<ApplyResult, CallError>,
        build: Build, dryRun: bool)
    returns (last: Event)
    requires Retried(w, first, second, w', r, build, dryRun)
    ensures w'.trace != [] && last == w'.trace[|w'.trace| - 1]
    ensures last == if second == [] then first[|first| - 1] else second[|second| - 1]
  {
    last := w'.trace[|w'.trace| - 1];
  }

  /** r is the right answer to a call whose last request was last: the error of a read that failed or
      gave nothing to submit; else what the server answered, a conflict of a committing call only once it
      has been forced. */
  predicate EndsWith(last: Event, build: Build, dryRun: bool, r: Result<ApplyResult, CallError>) {
    match last.action
    case Read(_) => r.Err? && StoppedBy(last, build, r.error)
    case Apply(_, preview, force, outcome) =>
      match outcome
      case Applied(obj) => r.Ok? && r.value.obj == obj && preview == dryRun
      case Conflict => r == Err(ConflictError) && (force || dryRun)
      case Failure => r == Err(ServerError)
  }

  lemma RetryAnswers(w: World, o: Oracle, build: Build, dryRun: bool) returns (last: Event)
    ensures var (w', r) := Retry(w, o, build, dryRun);
            w'.trace != [] && last == w'.trace[|w'.trace| - 1] && EndsWith(last, build, dryRun, r)
  {
    var first, second := RetryEvents(w, o, build, dryRun);
    var (w', r) := Retry(w, o, build, dryRun);
    last := LastOf(w, first, second, w', r, build, dryRun);
    LastEnds(first, second, last, build, dryRun, r);
  }

  lemma LastEnds(first: seq<Event>, second: seq<Event>, last: Event, build: Build, dryRun: bool,
        r: Result<ApplyResult, CallError>)
    requires RetryShape(first, second, build, dryRun)
    requires Answers(if second == [] then first else second, build, dryRun, r)
    requires last == if second == [] then first[|first| - 1] else second[|second| - 1]
    ensures EndsWith(last, build, dryRun, r)
  {
    if second == [] {
      AttemptLaws(first, build, dryRun, false);
      AttemptEnds(first, build, dryRun, false, r);
    } else {
      AttemptLaws(second, build, dryRun, true);
      AttemptEnds(second, build, dryRun, true, r);
    }
  }

  lemma AttemptEnds(es: seq<Event>, build: Build, dryRun: bool, force: bool, r: Result<ApplyResult, CallError>)
    requires es != [] && IsRead(es[0]) && Answers(es, build, dryRun, r)
    requires |es| > 1 ==> es[|es| - 1].action.Apply? && es[|es| - 1].action.force == force
    requires |es| > 1 && dryRun ==> IsPreview(es[|es| - 1])
    requires Conflicted(es[|es| - 1]) ==> force || dryRun
    ensures EndsWith(es[|es| - 1], build, dryRun, r)
  {
  }

  lemma LastReport(w: World, first: seq<Event>, second: seq<Event>, w': World, r: ApplyResult, build: Build, dryRun: bool, last: Event)
    requires Retried(w, first, second, w', Ok(r), build, dryRun)
    requires last == if second == [] then first[|first| - 1] else second[|second| - 1]
    ensures ReportsOn(last, dryRun, w', r)
  {
    var es := if second == [] then first else second;
    ShapeOfLast(es, build, dryRun, second != []);
    var before := LastServed(Follows, w, first, second, w');
    AuditOfLast(w.audit, first, second, w'.audit);
    LastAnswer(before, last, w', r, dryRun);
  }

  lemma AuditOfLast(audit: seq<AuditRecord>, first: seq<Event>, second: seq<Event>, audit': seq<AuditRecord>)
    requires audit' == audit + (Records(first) + Records(second)) && |if second == [] then first else second| > 1
    ensures var es := if second == [] then first else second;
            audit' != [] && audit'[|audit'| - 1] == Record(es[|es| - 1])
  {
  }

  lemma LastAnswer(before: State, last: Event, w': World, r: ApplyResult, dryRun: bool)
    requires Report(last, dryRun, Ok(r)) && (dryRun ==> IsPreview(last))
    requires Follows(before, last) && w'.server == last.after
    requires w'.audit != [] && w'.audit[|w'.audit| - 1] == Record(last)
    ensures ReportsOn(last, dryRun, w', r)
  {
    SpecDiffReports(last.action.intent, r.obj);
    if !dryRun {
      CommitStored(before, last);
    }
  }

  lemma ShapeOfLast(es: seq<Event>, build: Build, dryRun: bool, force: bool)
    requires AttemptShape(es, build, dryRun, force) && |es| > 1
    ensures dryRun ==> IsPreview(es[|es| - 1])
  {
    AttemptLaws(es, build, dryRun, force);
  }

  lemma LastServed(rel: (State, Event) -> bool, w: World, first: seq<Event>, second: seq<Event>, w': World) returns (before: State)
    requires ServedBy(rel, w, first + second, w') && first != []
    ensures var last := if second == [] then first[|first| - 1] else second[|second| - 1];
            w'.server == last.after && rel(before, last)
  {
    var es := first + second;
    before := Before(w.server, es, |es| - 1);
    assert rel(before, es[|es| - 1]);
  }

  lemma CommitStored(before: State, last: Event)
    requires Follows(before, last) && IsCommit(last) && Succeeded(last)
    ensures last.after.live == last.action.outcome.obj
  {
  }
}
