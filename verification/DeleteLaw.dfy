/** The delete pipelines read off the request and the live object alone. */
module DeleteLaw {
  import opened Json
  import opened MergeSpec
  import opened Utf8
  import opened Encoding
  import opened Guards
  import opened Delete

  // ---- Reading the live object

  /** s is the string at a path, "" where there is none. */
  predicate StringIs(j: Json, p: Path, s: string) {
    s == match Get(j, p)
         case Some(Leaf(Str(t))) => t
         case _ => ""
  }

  predicate ProtectedNow(live: Json) {
    Get(live, [Key("metadata"), Key("annotations"), Key("ray-mcp/protected")]) == Some(Leaf(Str("true")))
  }

  lemma ProtectedNamed(live: Json)
    ensures IsProtected(live) <==> ProtectedNow(live)
  {
    assert KeyPath(["metadata", "annotations", PROTECTED])
        == [Key("metadata"), Key("annotations"), Key("ray-mcp/protected")];
  }

  predicate HasType(cond: Json, condType: string) {
    Get(cond, [Key("type")]) == Some(Leaf(Str(condType)))
  }

  /** The first condition of that type has the status "True". */
  predicate FirstIsTrue(conds: seq<Json>, condType: string) {
    exists i | 0 <= i < |conds| ::
      && HasType(conds[i], condType)
      && Get(conds[i], [Key("status")]) == Some(Leaf(Str("True")))
      && forall j | 0 <= j < i :: !HasType(conds[j], condType)
  }

  lemma {:induction false} ConditionNamed(conds: seq<Json>, condType: string)
    requires condType != ""
    ensures ConditionTrue(conds, condType) <==> FirstIsTrue(conds, condType)
  {
    if conds != [] {
      GetOne(conds[0], Key("type"));
      GetOne(conds[0], Key("status"));
      ConditionNamed(conds[1..], condType);
      if HasType(conds[0], condType) {
        assert ConditionTrue(conds, condType) <==> Get(conds[0], [Key("status")]) == Some(Leaf(Str("True")));
      } else {
        FirstLater(conds, condType);
      }
    }
  }

  lemma FirstLater(conds: seq<Json>, condType: string)
    requires conds != [] && !HasType(conds[0], condType)
    ensures FirstIsTrue(conds, condType) <==> FirstIsTrue(conds[1..], condType)
  {
    var rest := conds[1..];
    if FirstIsTrue(rest, condType) {
      var i :| 0 <= i < |rest| && HasType(rest[i], condType) && Get(rest[i], [Key("status")]) == Some(Leaf(Str("True")))
               && forall j | 0 <= j < i :: !HasType(rest[j], condType);
      assert conds[i + 1] == rest[i];
      forall j | 0 <= j < i + 1 ensures !HasType(conds[j], condType) {
        assert j > 0 ==> conds[j] == rest[j - 1];
      }
    }
    if FirstIsTrue(conds, condType) {
      var i :| 0 <= i < |conds| && HasType(conds[i], condType) && Get(conds[i], [Key("status")]) == Some(Leaf(Str("True")))
               && forall j | 0 <= j < i :: !HasType(conds[j], condType);
      assert i > 0 && rest[i - 1] == conds[i];
      assert forall j | 0 <= j < i - 1 :: rest[j] == conds[j + 1];
    }
  }

  predicate Positive(j: Option<Json>) {
    || (j.Some? && j.value.Leaf? && j.value.v.Int? && j.value.v.n > 0)
    || (j.Some? && j.value.Leaf? && j.value.v.Float? && j.value.v.r > 0.0)
  }

  predicate ConditionsAre(live: Json, conds: seq<Json>) {
    conds == match Get(live, [Key("status"), Key("conditions")])
             case Some(Arr(elems)) => elems
             case _ => []
  }

  /** A service counts as serving with a ready endpoint, or while an upgrade or a rollback is going on. */
  ghost predicate ServingNow(live: Json) {
    || Positive(Get(live, [Key("status"), Key("numServeEndpoints")]))
    || exists conds :: ConditionsAre(live, conds)
                       && (FirstIsTrue(conds, "UpgradeInProgress") || FirstIsTrue(conds, "RollbackInProgress"))
  }

  lemma ServingNamed(live: Json)
    ensures Serving(live) <==> ServingNow(live)
  {
    GetTwo(live, Key("status"), Key("numServeEndpoints"));
    GetTwo(live, Key("status"), Key("conditions"));
    var status := Child(live, Key("status"));
    var conds := if status.Some? then Conditions(status.value) else [];
    assert ConditionsAre(live, conds);
    ConditionNamed(conds, "UpgradeInProgress");
    ConditionNamed(conds, "RollbackInProgress");
    if status.None? || !status.value.Obj? {
      assert conds == [];
    }
  }

  /** A job owns its cluster: it embeds a cluster spec and selects no existing cluster. */
  predicate OwnsCluster(live: Json) {
    && Get(live, [Key("spec"), Key("rayClusterSpec")]).Some?
    && Get(live, [Key("spec"), Key("rayClusterSpec")]).value.Obj?
    && match Get(live, [Key("spec"), Key("clusterSelector")])
       case Some(Obj(selector)) => selector == map[]
       case _ => true
  }

  lemma EphemeralNamed(live: Json)
    ensures Ephemeral(live) <==> OwnsCluster(live)
  {
    GetTwo(live, Key("spec"), Key("clusterSelector"));
    GetTwo(live, Key("spec"), Key("rayClusterSpec"));
  }

  /** The confirmation of a deletion binds the operation and the uid, and nothing else. */
  lemma DeletePreimage(live: Json, uid: string)
    requires StringIs(live, [Key("metadata"), Key("uid")], uid)
    ensures Preimage(live, OpDelete) == Field("delete") + Field(uid)
  {
    TwoKeys("metadata", "uid");
    assert Field(uid) + [] == Field(uid);
  }

  // ---- The answer

  /** The fingerprint a deletion of live has to be confirmed with. */
  ghost predicate DeleteToken(sha: Sha, live: Json, token: string) {
    forall uid | StringIs(live, [Key("metadata"), Key("uid")], uid) :: token == Hex(sha(Field("delete") + Field(uid)))
  }

  lemma TokenIs(sha: Sha, live: Json)
    ensures DeleteToken(sha, live, Fingerprint(sha, live, OpDelete))
    ensures forall token | DeleteToken(sha, live, token) :: token == Fingerprint(sha, live, OpDelete)
  {
    var uid := MetaString(live, "uid");
    TwoKeys("metadata", "uid");
    assert StringIs(live, [Key("metadata"), Key("uid")], uid);
    forall u | StringIs(live, [Key("metadata"), Key("uid")], u)
      ensures Fingerprint(sha, live, OpDelete) == Hex(sha(Field("delete") + Field(u)))
    {
      DeletePreimage(live, u);
    }
  }

  /** The deletion may go ahead as far as the object and the overrides are concerned. */
  ghost predicate MayDelete(kind: Kind, live: Json) {
    && !ProtectedNow(live)
    && (kind == Service(false) ==> !ServingNow(live))
    && (kind == Job(false) ==> !OwnsCluster(live))
  }

  /** Everything but the deletion of a job that owns no cluster is confirmed in two calls. */
  predicate NeedsConfirm(kind: Kind, live: Json) {
    kind.Job? ==> OwnsCluster(live)
  }

  lemma AllowedNamed(kind: Kind, live: Json)
    ensures Allowed(kind, live) <==> MayDelete(kind, live)
    ensures Gated(kind, live) <==> NeedsConfirm(kind, live)
  {
    ProtectedNamed(live);
    ServingNamed(live);
    EphemeralNamed(live);
  }

  /** A delete reaches the deleter exactly when a name is given, the read succeeds, the object may be
      deleted, and, where a confirmation is needed, confirm is the fingerprint of the object read now.
      Every other confirm on such an object is a mismatch, and an empty one asks for the fingerprint. */
  lemma DeletedIff(sha: Sha, r: Request, read: Option<Json>, ok: bool)
    ensures Decide(sha, r, read, ok).Deleted? <==>
              && r.name != "" && read.Some? && MayDelete(r.kind, read.value)
              && (NeedsConfirm(r.kind, read.value) ==> DeleteToken(sha, read.value, r.confirm))
    ensures Decide(sha, r, read, ok).Deleted? ==> Decide(sha, r, read, ok) == Deleted(ok)
    ensures r.name != "" && read.Some? && MayDelete(r.kind, read.value) && NeedsConfirm(r.kind, read.value) ==>
              if r.confirm == "" then
                exists token :: DeleteToken(sha, read.value, token)
                                && Decide(sha, r, read, ok) == Unconfirmed(ConfirmRequired(token))
              else !DeleteToken(sha, read.value, r.confirm) ==> Decide(sha, r, read, ok) == Unconfirmed(ConfirmMismatch)
  {
    if read.Some? {
      AllowedNamed(r.kind, read.value);
      TokenIs(sha, read.value);
      ConfirmExact(sha, read.value, OpDelete, r.confirm);
    }
  }

  /** The refusals, in the order the checks are made. */
  lemma RefusedInOrder(sha: Sha, r: Request, read: Option<Json>, ok: bool)
    ensures var out := Decide(sha, r, read, ok);
            if r.name == "" then out == NameRequired
            else if read.None? then out == ReadFailed
            else if ProtectedNow(read.value) then out == ProtectedRefused
            else if r.kind == Service(false) && ServingNow(read.value) then out == ServingRefused
            else if r.kind == Job(false) && OwnsCluster(read.value) then out == DestructiveRequired
            else out.Deleted? || out.Unconfirmed?
  {
    if read.Some? {
      ProtectedNamed(read.value);
      ServingNamed(read.value);
      EphemeralNamed(read.value);
    }
  }

  // ---- The annotation guard

  lemma VersionedPreimage(live: Json, op: Operation, uid: string, version: string)
    requires op != OpDelete
    requires StringIs(live, [Key("metadata"), Key("uid")], uid)
    requires StringIs(live, [Key("metadata"), Key("resourceVersion")], version)
    ensures Preimage(live, op)
         == Field(if op == OpUnprotect then "unprotect" else "scale-to-zero") + (Field(uid) + Field(version))
  {
    TwoKeys("metadata", "uid");
    TwoKeys("metadata", "resourceVersion");
  }

  /** GuardProtectedChange for any confirm: a change that does not take protection away passes, any other
      passes exactly with the unprotect fingerprint of the live object. */
  lemma GuardExact(sha: Sha, before: Json, after: Json, confirm: string, uid: string, version: string)
    requires StringIs(before, [Key("metadata"), Key("uid")], uid)
    requires StringIs(before, [Key("metadata"), Key("resourceVersion")], version)
    ensures var gate := GuardProtectedChange(sha, before, after, confirm);
            var token := Hex(sha(Field("unprotect") + (Field(uid) + Field(version))));
            if !ProtectedNow(before) || ProtectedNow(after) || confirm == token then gate == Passed
            else if confirm == "" then gate == ConfirmRequired(token)
            else gate == ConfirmMismatch
  {
    ProtectedNamed(before);
    ProtectedNamed(after);
    VersionedPreimage(before, OpUnprotect, uid, version);
    ConfirmExact(sha, before, OpUnprotect, confirm);
  }
}
