/** The write service as the Go code runs it: state is updated in place, the builders work on heap
    trees, and every method is proved to take the world where ApplySpec says. */
module Apply {
  import opened Json
  import opened DiffSpec
  import opened MergeSpec
  import opened Heap
  import opened HeapEdits
  import opened Merge
  import opened WriteSpec
  import opened ClusterScale
  import opened Server
  import opened ApplySpec
  import opened Wire
  import opened ClusterBuild
  import Differ = Diff

  /** The API server behind the Applier and ClusterGetter ports. */
  class Cluster {
    var state: State
    var trace: seq<Event>
    const oracle: Oracle

    constructor (state: State, oracle: Oracle)
      ensures this.state == state && this.oracle == oracle && trace == []
    {
      this.state, this.oracle, this.trace := state, oracle, [];
    }
  }

  /** The audit sink. */
  class AuditLog {
    var records: seq<AuditRecord>

    constructor ()
      ensures records == []
    {
      records := [];
    }
  }

  /** The pipeline over the Applier and the audit sink, with the live reads beside it. */
  class ApplyService {
    const kube: Cluster
    const audit: AuditLog

    constructor (kube: Cluster, audit: AuditLog)
      ensures this.kube == kube && this.audit == audit
    {
      this.kube, this.audit := kube, audit;
    }

    ghost function Now(): (w: World)
      reads kube, audit
    {
      World(kube.state, kube.trace, audit.records)
    }

    // ---- The ports

    /** GetCluster and GetService. */
    method GetLive() returns (raw: Option<Object>)
      modifies kube
      ensures (Now(), raw) == Fetch(old(Now()), kube.oracle)
    {
      var ch := kube.oracle(|kube.trace|);
      kube.state := AfterWrites(kube.state, ch.writes);
      raw := if ch.fault.NoFault? then Some(kube.state.live) else None;
      kube.trace := kube.trace + [Event(ch, kube.state, Read(raw), kube.state)];
    }

    method SendApply(intent: Object, dryRun: bool, force: bool) returns (outcome: Outcome)
      modifies kube
      ensures (Now(), outcome) == Send(old(Now()), kube.oracle, intent, dryRun, force)
    {
      var ch := kube.oracle(|kube.trace|);
      var seen := AfterWrites(kube.state, ch.writes);
      outcome := OutcomeOf(seen, intent, force, ch);
      kube.state := Handled(seen, intent, dryRun, force, ch);
      kube.trace := kube.trace + [Event(ch, seen, Action.Apply(intent, dryRun, force, outcome), kube.state)];
    }

    // ---- apply.go

    method Emit(dryRun: bool, success: bool)
      modifies audit
      ensures Now() == Audited(old(Now()), dryRun, success)
    {
      audit.records := audit.records + [AuditRecord(dryRun, success)];
    }

    method DiffOfSpecs(intent: Object, result: Object) returns (changes: seq<Change<string>>)
      ensures changes == SpecDiff(intent, result)
    {
      changes := Differ.Diff(SpecOrWhole(intent), SpecOrWhole(result), DEFAULT_DIFF_MAX_DEPTH);
    }

    /** ApplyService.Apply. */
    method Apply(intent: Object, dryRun: bool, force: bool) returns (r: Result<ApplyResult, CallError>)
      modifies kube, audit
      ensures (Now(), r) == Pipeline(old(Now()), kube.oracle, intent, dryRun, force)
    {
      var preview := SendApply(intent, true, force);
      if !preview.Applied? {
        Emit(true, false);
        return Err(ErrorOf(preview));
      }
      if dryRun {
        Emit(true, true);
        var changes := DiffOfSpecs(intent, preview.obj);
        return Ok(ApplyResult(preview.obj, changes, true));
      }
      var done := SendApply(intent, false, force);
      if !done.Applied? {
        Emit(false, false);
        return Err(ErrorOf(done));
      }
      Emit(false, true);
      var changes := DiffOfSpecs(intent, done.obj);
      return Ok(ApplyResult(done.obj, changes, false));
    }
  }

  /** cluster_update.go. */
  class ClusterWriteService {
    const apply: ApplyService

    constructor (apply: ApplyService)
      ensures this.apply == apply
    {
      this.apply := apply;
    }

    ghost function Now(): World
      reads apply.kube, apply.audit
    {
      apply.Now()
    }

    /** The build closures, on heap trees of the live object and the rawSpec. */
    method BuildRequest(c: Call, raw: Object) returns (r: Result<Object, CallError>)
      ensures r == Intent(c, raw)
    {
      var live, rt := Decode(raw);
      NodesAllocated(rt);
      match c
      case Update(namespace, name, d, rawSpec, _) =>
        r := BuildUpdateRequest(live, namespace, name, d, rawSpec, rt);
      case Scale(namespace, name, p, _) =>
        r := BuildScaleRequest(live, namespace, name, p, rt);
    }

    method BuildUpdateRequest(live: MapNode, namespace: string, name: string, d: Deltas, rawSpec: Object, ghost rt: Tree)
      returns (r: Result<Object, CallError>)
      requires Owned(live, rt) && Erase(rt).Obj?
      ensures r == Intent(Call.Update(namespace, name, d, rawSpec, false), Erase(rt))
    {
      NodesAllocated(rt);
      var patch, pt := Decode(rawSpec);
      var built, mt := BuildUpdate(live, namespace, name, d, patch, rt, pt);
      match built
      case Ok(obj) =>
        var sent := Encode(VMap(obj), mt);
        r := Ok(sent);
      case Err(e) =>
        r := Err(WrongIdentity(e));
    }

    method BuildScaleRequest(live: MapNode, namespace: string, name: string, p: ScaleParams, ghost rt: Tree)
      returns (r: Result<Object, CallError>)
      requires Owned(live, rt) && Erase(rt).Obj?
      ensures r == Intent(Call.Scale(namespace, name, p, false), Erase(rt))
    {
      var built, t := BuildScale(live, namespace, name, p, rt);
      match built
      case Ok(obj) =>
        var sent := Encode(VMap(obj), t);
        r := Ok(sent);
      case Err(e) =>
        r := Err(ScaleRefused(e));
    }

    /** build() and then Apply. */
    method AttemptCall(c: Call, force: bool) returns (p: Progress)
      modifies apply.kube, apply.audit
      ensures (Now(), p) == Attempt(old(Now()), apply.kube.oracle, BuildOf(c), c.dryRun, force)
    {
      var raw := apply.GetLive();
      if raw.None? {
        return Stopped(ReadFailed);
      }
      var built := BuildRequest(c, raw.value);
      if built.Err? {
        return Stopped(built.error);
      }
      var r := apply.Apply(built.value, c.dryRun, force);
      return Finished(r);
    }

    method ApplyWithConflictRetry(c: Call) returns (r: Result<ApplyResult, CallError>)
      modifies apply.kube, apply.audit
      ensures (Now(), r) == Retry(old(Now()), apply.kube.oracle, BuildOf(c), c.dryRun)
    {
      var p := AttemptCall(c, false);
      if p.Finished? && p.result.Err? && p.result.error.ConflictError? && !c.dryRun {
        p := AttemptCall(c, true);
      }
      r := ResultOf(p);
    }

    /** Update and Scale. */
    method Serve(c: Call) returns (r: Result<ApplyResult, CallError>)
      modifies apply.kube, apply.audit
      ensures (Now(), r) == Run(old(Now()), apply.kube.oracle, c)
    {
      var refused := Refused(c);
      if refused.Some? {
        return Err(refused.value);
      }
      r := ApplyWithConflictRetry(c);
    }

    method ServeAll(calls: seq<Call>)
      modifies apply.kube, apply.audit
      ensures Now() == RunAll(old(Now()), apply.kube.oracle, calls)
    {
      for i := 0 to |calls|
        invariant Now() == RunAll(old(Now()), apply.kube.oracle, calls[..i])
      {
        assert calls[..i + 1][..i] == calls[..i];
        var r := Serve(calls[i]);
      }
      assert calls[..|calls|] == calls;
    }
  }
}
