/** ray_service_update from the read to the result: one unforced pass through the pipeline, never
    retried, and the predicted rollout path beside it. */
module ServiceApply {
  import opened Json
  import opened MergeSpec
  import opened Heap
  import opened HeapEdits
  import opened Merge
  import opened Classify
  import opened ClassifyLaw
  import opened WriteSpec
  import opened ServiceUpdate
  import opened ServiceBuild
  import opened Server
  import opened ApplySpec
  import opened ApplyTheorems
  import opened Wire
  import Apply

  datatype ServiceCall = ServiceCall(
    namespace: string, name: string, deltas: Deltas, serve: Option<string>, rawSpec: Object, dryRun: bool)

  datatype ServiceResult = ServiceResult(applied: ApplyResult, predicted: Prediction)

  /** The refusals that come before any request. */
  function ServiceRefused(c: ServiceCall): Option<CallError> {
    if c.name == "" then Some(NameRequired)
    else if HasChange(c.deltas, c.rawSpec) || c.serve.Some? then None
    else Some(NothingToChange)
  }

  /** The object Update submits for what it read. */
  function ServiceRequest(c: ServiceCall, raw: Object): Result<Object, CallError> {
    PatchedObject(ServiceUpdated(raw, c.namespace, c.name, c.deltas, c.serve), c.rawSpec);
    match ServiceIntent(raw, c.namespace, c.name, c.deltas, c.serve, c.rawSpec)
    case Ok(obj) => Ok(obj)
    case Err(e) => Err(WrongIdentity(e))
  }

  function ServiceBuildOf(c: ServiceCall): Build {
    raw => ServiceRequest(c, raw)
  }

  /** Update of the service write service.  The prediction compares what was read with what was
      submitted. */
  ghost function RunService(w: World, o: Oracle, c: ServiceCall): (World, Result<ServiceResult, CallError>) {
    if ServiceRefused(c).Some? then (w, Err(ServiceRefused(c).value))
    else
      var (w', p) := Attempt(w, o, ServiceBuildOf(c), c.dryRun, false);
      match ResultOf(p)
      case Err(e) => (w', Err(e))
      case Ok(r) => (w', Ok(ServiceResult(r, PredictionFor(c, Fetch(w, o).1))))
  }

  function PredictionFor(c: ServiceCall, got: Option<Object>): Prediction {
    if got.Some? && ServiceRequest(c, got.value).Ok? then Predicted(got.value, ServiceRequest(c, got.value).value) else Unknown
  }

  // ---- Protocol

  /** One service update makes at most one read, one dry run and one commit, in that order, the commit
      only of what the dry run accepted; it never forces, so a conflict is reported and not overridden;
      and it audits once when it got as far as the pipeline. */
  lemma ServiceProtocol(w: World, o: Oracle, c: ServiceCall) returns (es: seq<Event>)
    ensures RunService(w, o, c).0.trace == w.trace + es
    ensures |es| <= 3 && (|es| > 0 ==> IsRead(es[0])) && (|es| > 1 ==> IsPreview(es[1]))
    ensures |es| == 3 ==> !c.dryRun && Previewed(es[1], es[2])
    ensures forall e | e in es :: !IsForced(e)
    ensures RunService(w, o, c).0.audit == w.audit + Records(es)
  {
    if ServiceRefused(c).Some? {
      es := [];
      assert w.trace + [] == w.trace && w.audit + [] == w.audit;
    } else {
      es := AttemptEvents(w, o, ServiceBuildOf(c), c.dryRun, false);
      AttemptLaws(es, ServiceBuildOf(c), c.dryRun, false);
    }
  }

  /** How a service update that is not refused ends: at a read that failed or gave nothing to submit, or
      with the server's answer to its last request; a success reports that answer, the changes from the
      submitted to the resulting spec, and the prediction for what was read. */
  lemma ServiceReports(w: World, o: Oracle, c: ServiceCall) returns (last: Event)
    requires ServiceRefused(c).None?
    ensures var (w', r) := RunService(w, o, c);
            && w'.trace != [] && last == w'.trace[|w'.trace| - 1]
            && ServiceEndsWith(last, ServiceBuildOf(c), c.dryRun, r)
  {
    var build := ServiceBuildOf(c);
    var es := AttemptEvents(w, o, build, c.dryRun, false);
    var (w', p) := Attempt(w, o, build, c.dryRun, false);
    AttemptLaws(es, build, c.dryRun, false);
    last := es[|es| - 1];
    assert w'.trace == w.trace + es;
    PlainEnds(es, p, build, c.dryRun);
  }

  lemma PlainEnds(es: seq<Event>, p: Progress, build: Build, dryRun: bool)
    requires es != [] && IsRead(es[0]) && (|es| > 1 ==> es[|es| - 1].action.Apply?)
    requires |es| > 1 && dryRun ==> IsPreview(es[|es| - 1])
    requires (p.Stopped? <==> |es| == 1) && (p.Stopped? ==> StoppedBy(es[0], build, p.error))
    requires p.Finished? ==> Report(es[|es| - 1], dryRun, p.result)
    ensures PlainEndsWith(es[|es| - 1], build, dryRun, ResultOf(p))
  {
    if p.Finished? && p.result.Ok? {
      SpecDiffReports(es[|es| - 1].action.intent, p.result.value.obj);
    }
  }

  ghost predicate PlainEndsWith(last: Event, build: Build, dryRun: bool, r: Result<ApplyResult, CallError>) {
    match last.action
    case Read(_) => r.Err? && StoppedBy(last, build, r.error)
    case Apply(intent, preview, _, outcome) =>
      match outcome
      case Applied(obj) =>
        r.Ok? && r.value.obj == obj && preview == dryRun == r.value.dryRun && ReportsChange(r.value.diff, intent, obj)
      case Conflict => r == Err(ConflictError)
      case Failure => r == Err(ServerError)
  }

  ghost predicate ServiceEndsWith(last: Event, build: Build, dryRun: bool, r: Result<ServiceResult, CallError>) {
    PlainEndsWith(last, build, dryRun, match r
                                       case Ok(s) => Ok(s.applied)
                                       case Err(e) => Err(e))
  }

  /** Which service updates are refused before any request. */
  lemma ServiceRefusedWhen(c: ServiceCall)
    ensures ServiceRefused(c)
         == if c.name == "" then Some(NameRequired)
            else if c.deltas == Deltas("", "", None, map[], map[]) && c.rawSpec == Obj(map[]) && c.serve.None? then Some(NothingToChange)
            else None
  {
  }

  /** A success without a rawSpec predicts what the deltas really change in the object that was read. */
  lemma ServicePrediction(w: World, o: Oracle, c: ServiceCall)
    requires c.rawSpec == Obj(map[])
    ensures RunService(w, o, c).1.Ok? ==>
              && Fetch(w, o).1.Some?
              && var spec := ObjectMember(Fetch(w, o).1.value, "spec");
              RunService(w, o, c).1.value.predicted
              == if ConfigDeltas(BaseConfig(spec), c.deltas) != BaseConfig(spec) then ClusterChange(spec)
                 else if c.serve.Some? && c.serve.value != StringMember(spec, "serveConfigV2") then InPlaceServe
                 else if ConfigOf(spec).None? then ScaleNoSwap
                 else NoChange
  {
    var read := Fetch(w, o).1;
    if read.Some? {
      EndToEndPrediction(read.value, c.namespace, c.name, c.deltas, c.serve);
    }
  }

  /** The prediction of a success, with any rawSpec: the classifier's answer (ClassifiedLaw) for the
      spec that was read, {} where it is not an object, and the spec that was submitted. */
  lemma ServicePredicts(w: World, o: Oracle, c: ServiceCall, live: Json, submitted: Json, lc: Option<Json>, sc: Option<Json>)
    requires ServiceRefused(c).None? && RunService(w, o, c).1.Ok?
    requires Fetch(w, o).1.Some?
    requires live == (match Get(Fetch(w, o).1.value, [Key("spec")])
                      case Some(Obj(fields)) => Obj(fields)
                      case _ => Obj(map[]))
    requires ConfigIs(live, lc) && ConfigIs(submitted, sc)
    ensures var sent := ServiceRequest(c, Fetch(w, o).1.value);
            && sent.Ok?
            && (Get(sent.value, [Key("spec")]) == Some(submitted) && submitted.Obj? ==>
                  Answer(live, submitted, lc, sc, RunService(w, o, c).1.value.predicted))
            && (!(Get(sent.value, [Key("spec")]).Some? && Get(sent.value, [Key("spec")]).value.Obj?) ==>
                  RunService(w, o, c).1.value.predicted == Unknown)
  {
    var raw := Fetch(w, o).1.value;
    GetOne(raw, Key("spec"));
    ClassifiedLaw(live, submitted, lc, sc);
    var sent := ServiceRequest(c, raw);
    if sent.Ok? {
      GetOne(sent.value, Key("spec"));
    }
  }

  // ---- The service

  class ServiceWriteService {
    const apply: Apply.ApplyService

    constructor (apply: Apply.ApplyService)
      ensures this.apply == apply
    {
      this.apply := apply;
    }

    /** The clone, the edits, the merge and the classification, on heap trees. */
    method BuildService(c: ServiceCall, raw: Object) returns (r: Result<Object, CallError>, predicted: Prediction)
      ensures r == ServiceRequest(c, raw)
      ensures r.Ok? ==> predicted == Predicted(raw, r.value)
    {
      var live, rt := Decode(raw);
      NodesAllocated(rt);
      var patch, pt := Decode(c.rawSpec);
      var built;
      ghost var mt;
      built, predicted, mt := BuildServiceUpdate(live, c.namespace, c.name, c.deltas, c.serve, patch, rt, pt);
      match built
      case Ok(obj) =>
        var sent := Encode(VMap(obj), mt);
        r := Ok(sent);
      case Err(e) =>
        r := Err(WrongIdentity(e));
    }

    /** Update. */
    method Update(c: ServiceCall) returns (r: Result<ServiceResult, CallError>)
      modifies apply.kube, apply.audit
      ensures (apply.Now(), r) == RunService(old(apply.Now()), apply.kube.oracle, c)
    {
      var refused := ServiceRefused(c);
      if refused.Some? {
        return Err(refused.value);
      }
      var raw := apply.GetLive();
      if raw.None? {
        return Err(ReadFailed);
      }
      var built, predicted := BuildService(c, raw.value);
      if built.Err? {
        return Err(built.error);
      }
      var res := apply.Apply(built.value, c.dryRun, false);
      match res
      case Err(e) => return Err(e);
      case Ok(applied) => return Ok(ServiceResult(applied, predicted));
    }
  }
}
