/** ray_cluster_update and ray_cluster_scale against the server: one read-modify-apply attempt, and
    after a conflict one forced attempt from a fresh read.  A world is the server, the requests it
    has handled and the audit log; an oracle makes every choice the server leaves open. */
module ApplySpec {
  import opened Json
  import opened DiffSpec
  import opened MergeSpec
  import opened WriteSpec
  import opened Replicas
  import opened ClusterScale
  import opened Server

  // ---- Calls and what they submit

  datatype Call =
    | Update(namespace: string, name: string, deltas: Deltas, rawSpec: Object, dryRun: bool)
    | Scale(namespace: string, name: string, params: ScaleParams, dryRun: bool)

  datatype CallError =
    | NameRequired
    | NothingToChange
    | GroupRequired
    | ReadFailed
    | WrongIdentity(identity: IdentityError)
    | ScaleRefused(refusal: ScaleError)
    | ConflictError
    | ServerError

  /** hasChange. */
  predicate HasChange(d: Deltas, rawSpec: Object) {
    || d.image != "" || d.rayVersion != "" || d.autoscaling.Some?
    || d.labels != map[] || d.annotations != map[] || rawSpec != Obj(map[])
  }

  /** The refusals that come before any request. */
  function Refused(c: Call): Option<CallError> {
    if c.name == "" then Some(NameRequired)
    else match c
         case Update(_, _, d, rawSpec, _) => if HasChange(d, rawSpec) then None else Some(NothingToChange)
         case Scale(_, _, p, _) => if p.workerGroup == "" then Some(GroupRequired) else None
  }

  /** Which calls are refused before any request, and with which error. */
  lemma RefusedWhen(c: Call)
    ensures Refused(c)
         == if c.name == "" then Some(NameRequired)
            else if c.Scale? then (if c.params.workerGroup == "" then Some(GroupRequired) else None)
            else if c.deltas == Deltas("", "", None, map[], map[]) && c.rawSpec == Obj(map[]) then Some(NothingToChange)
            else None
  {
  }

  lemma PatchedObject(target: Json, patch: Object)
    ensures Patched(target, patch).Obj?
  {
  }

  /** The build closure, as a function of what it reads. */
  function Intent(c: Call, raw: Object): Result<Object, CallError> {
    match c
    case Update(namespace, name, d, rawSpec, _) =>
      PatchedObject(ClusterUpdated(raw, namespace, name, d), rawSpec);
      (match UpdateIntent(raw, namespace, name, d, rawSpec)
       case Ok(obj) => Ok(obj)
       case Err(e) => Err(WrongIdentity(e)))
    case Scale(namespace, name, p, _) =>
      (match Scaled(raw, namespace, name, p)
       case Ok(obj) => Ok(obj)
       case Err(e) => Err(ScaleRefused(e)))
  }

  /** What a call submits: the curated object with its rawSpec merged over it as long as that keeps the
      identity, or the scaled object. */
  lemma IntentIs(c: Call, raw: Object, merged: Json)
    requires c.Update? ==> merged == Patched(ClusterUpdated(raw, c.namespace, c.name, c.deltas), c.rawSpec)
    ensures c.Update? ==>
              var name := StringOf(Get(merged, [Key("metadata"), Key("name")]));
              var namespace := StringOf(Get(merged, [Key("metadata"), Key("namespace")]));
              Intent(c, raw) == if name != c.name then Err(WrongIdentity(IdentityError("name", c.name, name)))
                                else if namespace != c.namespace then
                                  Err(WrongIdentity(IdentityError("namespace", c.namespace, namespace)))
                                else Ok(merged)
    ensures c.Scale? ==>
              match Scaled(raw, c.namespace, c.name, c.params)
              case Ok(obj) => Intent(c, raw) == Ok(obj)
              case Err(e) => Intent(c, raw) == Err(ScaleRefused(e))
  {
    if c.Update? {
      IdentityRejected(ClusterUpdated(raw, c.namespace, c.name, c.deltas), c.rawSpec, Identity(c.namespace, c.name),
                       StringOf(Get(merged, [Key("metadata"), Key("name")])),
                       StringOf(Get(merged, [Key("metadata"), Key("namespace")])));
    }
  }

  // ---- Requests and the world

  datatype Action =
    | Read(got: Option<Object>)
    | Apply(intent: Object, dryRun: bool, force: bool, outcome: Outcome)

  /** One request: the free choices made at it, the state it met after the writes among them, what it
      did, and the state it left. */
  datatype Event = Event(choice: Choice, seen: State, action: Action, after: State)

  datatype AuditRecord = AuditRecord(dryRun: bool, success: bool)

  datatype World = World(server: State, trace: seq<Event>, audit: seq<AuditRecord>)

  type Oracle = nat -> Choice

  /** GetCluster. */
  function Fetch(w: World, o: Oracle): (World, Option<Object>) {
    var ch := o(|w.trace|);
    var seen := AfterWrites(w.server, ch.writes);
    var got := if ch.fault.NoFault? then Some(seen.live) else None;
    (World(seen, w.trace + [Event(ch, seen, Read(got), seen)], w.audit), got)
  }

  /** One server-side apply. */
  function Send(w: World, o: Oracle, intent: Object, dryRun: bool, force: bool): (World, Outcome) {
    var ch := o(|w.trace|);
    var seen := AfterWrites(w.server, ch.writes);
    var outcome := OutcomeOf(seen, intent, force, ch);
    var after := Handled(seen, intent, dryRun, force, ch);
    (World(after, w.trace + [Event(ch, seen, Apply(intent, dryRun, force, outcome), after)], w.audit), outcome)
  }

  function Audited(w: World, dryRun: bool, success: bool): World {
    w.(audit := w.audit + [AuditRecord(dryRun, success)])
  }

  // ---- The pipeline

  datatype ApplyResult = ApplyResult(obj: Object, diff: seq<Change<string>>, dryRun: bool)

  /** subtreeOrWhole(m, "spec"). */
  function SpecOrWhole(m: Object): Json {
    match Child(m, Key("spec"))
    case Some(Obj(fields)) => Obj(fields)
    case _ => m
  }

  /** diffSpec. */
  ghost function SpecDiff(intent: Object, result: Object): seq<Change<string>> {
    DiffOf(SpecOrWhole(intent), SpecOrWhole(result), DEFAULT_DIFF_MAX_DEPTH)
  }

  function ErrorOf(outcome: Outcome): CallError
    requires !outcome.Applied?
  {
    if outcome.Conflict? then ConflictError else ServerError
  }

  /** ApplyService.Apply. */
  ghost function Pipeline(w: World, o: Oracle, intent: Object, dryRun: bool, force: bool): (World, Result<ApplyResult, CallError>) {
    var (w1, preview) := Send(w, o, intent, true, force);
    if !preview.Applied? then (Audited(w1, true, false), Err(ErrorOf(preview)))
    else if dryRun then
      (Audited(w1, true, true), Ok(ApplyResult(preview.obj, SpecDiff(intent, preview.obj), true)))
    else
      var (w2, done) := Send(w1, o, intent, false, force);
      if !done.Applied? then (Audited(w2, false, false), Err(ErrorOf(done)))
      else (Audited(w2, false, true), Ok(ApplyResult(done.obj, SpecDiff(intent, done.obj), false)))
  }

  // ---- The retry

  /** The build closure: what to submit, from what was read. */
  type Build = Object -> Result<Object, CallError>

  /** Stopped before the pipeline by a failed read or build, or the pipeline's own result. */
  datatype Progress = Stopped(error: CallError) | Finished(result: Result<ApplyResult, CallError>)

  function ResultOf(p: Progress): Result<ApplyResult, CallError> {
    match p
    case Stopped(e) => Err(e)
    case Finished(r) => r
  }

  /** build followed by Apply. */
  ghost function Attempt(w: World, o: Oracle, build: Build, dryRun: bool, force: bool): (World, Progress) {
    var (w1, got) := Fetch(w, o);
    if got.None? then (w1, Stopped(ReadFailed))
    else match build(got.value)
         case Err(e) => (w1, Stopped(e))
         case Ok(intent) =>
           var (w2, r) := Pipeline(w1, o, intent, dryRun, force);
           (w2, Finished(r))
  }

  /** applyWithConflictRetry. */
  ghost function Retry(w: World, o: Oracle, build: Build, dryRun: bool): (World, Result<ApplyResult, CallError>) {
    var (w1, p) := Attempt(w, o, build, dryRun, false);
    if p == Finished(Err(ConflictError)) && !dryRun then
      var (w2, p2) := Attempt(w1, o, build, dryRun, true);
      (w2, ResultOf(p2))
    else (w1, ResultOf(p))
  }

  function BuildOf(c: Call): Build {
    raw => Intent(c, raw)
  }

  /** Update and Scale. */
  ghost function Run(w: World, o: Oracle, c: Call): (World, Result<ApplyResult, CallError>) {
    if Refused(c).Some? then (w, Err(Refused(c).value)) else Retry(w, o, BuildOf(c), c.dryRun)
  }

  /** Calls one after the other. */
  ghost function RunAll(w: World, o: Oracle, calls: seq<Call>): World
    decreases |calls|
  {
    if calls == [] then w
    else Run(RunAll(w, o, calls[..|calls| - 1]), o, calls[|calls| - 1]).0
  }
}
