/** The delete pipelines of clusters, services and jobs: which call reaches the deleter, and that every
    one that does is audited once. */
module Delete {
  import opened Json
  import opened MergeSpec
  import opened WriteSpec
  import opened Utf8
  import opened Encoding
  import opened Guards

  /** What is deleted, with the override each kind knows. */
  datatype Kind = Cluster | Service(force: bool) | Job(allowDestructive: bool)

  datatype Request = Request(kind: Kind, name: string, confirm: string, dryRun: bool)

  datatype Outcome =
    | NameRequired
    | ReadFailed
    | ProtectedRefused
    | ServingRefused
    | DestructiveRequired
    | Unconfirmed(gate: Gate)
    | Deleted(ok: bool)

  // ---- Serving

  /** numberField(status[k]) > 0. */
  predicate PositiveNumber(j: Option<Json>) {
    match j
    case Some(Leaf(Int(n))) => n > 0
    case Some(Leaf(Float(r))) => r > 0.0
    case _ => false
  }

  /** statusConditionTrue: the first condition of the type decides. */
  predicate ConditionTrue(conds: seq<Json>, condType: string) {
    if conds == [] then false
    else if conds[0].Obj? && StringOf(Child(conds[0], Key("type"))) == condType then StringOf(Child(conds[0], Key("status"))) == "True"
    else ConditionTrue(conds[1..], condType)
  }

  function Conditions(status: Json): seq<Json> {
    match Child(status, Key("conditions"))
    case Some(Arr(conds)) => conds
    case _ => []
  }

  /** serviceServingReason(live) != "". */
  predicate Serving(live: Json) {
    match Child(live, Key("status"))
    case Some(Obj(fields)) =>
      var status := Obj(fields);
      || PositiveNumber(Child(status, Key("numServeEndpoints")))
      || ConditionTrue(Conditions(status), "UpgradeInProgress")
      || ConditionTrue(Conditions(status), "RollbackInProgress")
    case _ => false
  }

  /** jobIsEphemeral: the job owns its cluster; a selector wins over an embedded cluster spec. */
  predicate Ephemeral(live: Json) {
    match Child(live, Key("spec"))
    case Some(Obj(fields)) =>
      && !(match Child(Obj(fields), Key("clusterSelector"))
           case Some(Obj(selector)) => selector != map[]
           case _ => false)
      && (match Child(Obj(fields), Key("rayClusterSpec"))
          case Some(Obj(_)) => true
          case _ => false)
    case _ => false
  }

  // ---- The decision

  /** The deletion would take down more than the record itself, so it is confirmed in two calls. */
  predicate Gated(kind: Kind, live: Json) {
    kind.Job? ==> Ephemeral(live)
  }

  /** Everything Delete checks after a successful read, in order; None lets it through. */
  function Refusal(sha: Sha, r: Request, live: Json): Option<Outcome> {
    if IsProtected(live) then Some(ProtectedRefused)
    else if r.kind.Service? && !r.kind.force && Serving(live) then Some(ServingRefused)
    else if r.kind.Job? && Ephemeral(live) && !r.kind.allowDestructive then Some(DestructiveRequired)
    else if !Gated(r.kind, live) then None
    else
      var gate := RequireConfirm(sha, live, OpDelete, r.confirm);
      if gate.Passed? then None else Some(Unconfirmed(gate))
  }

  /** One delete call: read is what GetCluster, GetService or GetJob returned, deleterOk whether the
      Deleter succeeded, if it was called. */
  function Decide(sha: Sha, r: Request, read: Option<Json>, deleterOk: bool): Outcome {
    if r.name == "" then NameRequired
    else if read.None? then ReadFailed
    else match Refusal(sha, r, read.value)
         case Some(refusal) => refusal
         case None => Deleted(deleterOk)
  }

  /** The preconditions of a kind other than the confirmation. */
  predicate Allowed(kind: Kind, live: Json) {
    && !IsProtected(live)
    && (kind.Service? && !kind.force ==> !Serving(live))
    && (kind.Job? && Ephemeral(live) ==> kind.allowDestructive)
  }

  /** A preview hands out a fingerprint only for an object whose deletion is otherwise allowed: a
      protected object, or a serving service without force, never yields one. */
  lemma PreviewsAreAllowed(sha: Sha, r: Request, read: Option<Json>, deleterOk: bool)
    ensures (exists f :: Decide(sha, r, read, deleterOk) == Unconfirmed(ConfirmRequired(f)))
       <==> r.name != "" && read.Some? && Allowed(r.kind, read.value) && Gated(r.kind, read.value) && r.confirm == ""
  {
    if r.name != "" && read.Some? && Allowed(r.kind, read.value) && Gated(r.kind, read.value) && r.confirm == "" {
      var f := Fingerprint(sha, read.value, OpDelete);
      assert Decide(sha, r, read, deleterOk) == Unconfirmed(ConfirmRequired(f));
    }
  }

  /** The two-call handshake: echoing a preview's fingerprint deletes exactly when the object read then
      is the previewed one (by uid, whatever its version) and deleting it is allowed at that moment. */
  lemma Handshake(sha: Sha, preview: Request, previewed: Json, commit: Request, live: Json, ok1: bool, ok2: bool)
    requires Decide(sha, preview, Some(previewed), ok1).Unconfirmed? && preview.confirm == ""
    requires commit.confirm == Fingerprint(sha, previewed, OpDelete) && commit.name != "" && Gated(commit.kind, live)
    requires Stored(previewed) && Stored(live)
    requires NoCollision(sha, Preimage(previewed, OpDelete), Preimage(live, OpDelete))
    ensures Decide(sha, preview, Some(previewed), ok1) == Unconfirmed(ConfirmRequired(commit.confirm))
    ensures Decide(sha, commit, Some(live), ok2).Deleted? <==>
              Allowed(commit.kind, live) && MetaString(previewed, "uid") == MetaString(live, "uid")
  {
    ConfirmOnlyWhatWasPreviewed(sha, previewed, OpDelete, live, OpDelete);
  }

  /** Without a confirmation only the deletion of a job that owns no cluster goes through. */
  lemma OneCallDeletes(sha: Sha, r: Request, read: Option<Json>, ok: bool)
    requires r.confirm == ""
    ensures Decide(sha, r, read, ok).Deleted? <==>
              r.name != "" && read.Some? && r.kind.Job? && !Ephemeral(read.value) && !IsProtected(read.value)
  {
  }

  // ---- Effects

  datatype Attempt = Attempt(kind: Kind, name: string, dryRun: bool)

  datatype AuditEntry = AuditEntry(kind: Kind, name: string, dryRun: bool, success: bool)

  /** The services' Delete methods over the Deleter port and the audit sink. */
  class DeleteService {
    const sha: Sha
    var attempts: seq<Attempt>
    var audit: seq<AuditEntry>

    constructor (sha: Sha)
      ensures this.sha == sha && attempts == [] && audit == []
    {
      this.sha, attempts, audit := sha, [], [];
    }

    ghost predicate Balanced()
      reads this
    {
      && |attempts| == |audit|
      && forall i | 0 <= i < |attempts| ::
           attempts[i] == Attempt(audit[i].kind, audit[i].name, audit[i].dryRun)
    }

    /** Calls the deleter and audits it exactly when the decision is to delete. */
    method DeleteResource(r: Request, read: Option<Json>, deleterOk: bool) returns (out: Outcome)
      requires Balanced()
      modifies this
      ensures Balanced() && out == Decide(sha, r, read, deleterOk)
      ensures attempts == old(attempts) + if out.Deleted? then [Attempt(r.kind, r.name, r.dryRun)] else []
      ensures audit == old(audit) + if out.Deleted? then [AuditEntry(r.kind, r.name, r.dryRun, out.ok)] else []
    {
      if r.name == "" {
        return NameRequired;
      }
      if read.None? {
        return ReadFailed;
      }
      var live := read.value;
      if IsProtected(live) {
        return ProtectedRefused;
      }
      if r.kind.Service? && !r.kind.force && Serving(live) {
        return ServingRefused;
      }
      if r.kind.Job? && Ephemeral(live) && !r.kind.allowDestructive {
        return DestructiveRequired;
      }
      if Gated(r.kind, live) {
        var want := ComputeFingerprint(sha, live, OpDelete);
        if r.confirm == "" {
          return Unconfirmed(ConfirmRequired(want));
        }
        if r.confirm != want {
          return Unconfirmed(ConfirmMismatch);
        }
      }
      attempts := attempts + [Attempt(r.kind, r.name, r.dryRun)];
      audit := audit + [AuditEntry(r.kind, r.name, r.dryRun, deleterOk)];
      return Deleted(deleterOk);
    }
  }
}
