/** What the write services do to the protected annotation.  None of them calls GuardProtectedChange,
    so an update can take protection away; these are the exact conditions. */
module Protection {
  import opened Json
  import opened Edits
  import opened MergeSpec
  import opened GroupEdits
  import opened WriteSpec
  import opened ClusterFrame
  import opened Replicas
  import opened ClusterScale
  import opened ServiceUpdate
  import opened ServiceFrame
  import opened Guards
  import opened Server
  import ApplySpec
  import Delete

  function Annotation(j: Json, key: string): string {
    StringAt(j, ["metadata", "annotations", key])
  }

  function Below(o: Option<Json>, k: string): Option<Json> {
    if o.None? then None else Child(o.value, Key(k))
  }

  lemma AnnotationSteps(j: Json, key: string)
    ensures Annotation(j, key) == StringOf(Below(Below(Child(j, Key("metadata")), "annotations"), key))
  {
    var p := [Key("metadata"), Key("annotations")];
    GetTwo(j, Key("metadata"), Key("annotations"));
    GetStep(j, p, Key(key));
    assert KeyPath(["metadata", "annotations", key]) == p + [Key(key)];
  }

  // ---- What the builders do to an annotation

  lemma AnnotationIn(meta: Json, kv: map<string, string>, key: string)
    requires meta.Obj?
    ensures StringOf(Below(Child(LabelsMerged(meta, "annotations", kv), Key("annotations")), key))
         == if key in kv then kv[key] else StringOf(Below(Child(meta, Key("annotations")), key))
  {
  }

  /** The metadata deltas on cleaned metadata: the requested value, or the live one. */
  lemma FinalAnnotation(was: Json, namespace: string, name: string, d: Deltas, key: string)
    requires was.Obj?
    ensures StringOf(Below(Child(FinalMeta(was, namespace, name, d), Key("annotations")), key))
         == if key in d.annotations then d.annotations[key] else StringOf(Below(Child(was, Key("annotations")), key))
  {
    var m1 := CleanMeta(was, namespace, name);
    AnnotationIn(LabelsMerged(m1, "labels", d.labels), d.annotations, key);
    LabelsMember(m1, "labels", d.labels, "annotations");
    assert Child(m1, Key("annotations")) == Child(was, Key("annotations"));
  }

  lemma LiveAnnotation(raw: Json, key: string)
    ensures Annotation(raw, key) == StringOf(Below(Child(ObjectMember(raw, "metadata"), Key("annotations")), key))
  {
    AnnotationSteps(raw, key);
  }

  lemma ClusterAnnotation(raw: Json, namespace: string, name: string, d: Deltas, key: string)
    requires raw.Obj?
    ensures Annotation(ClusterUpdated(raw, namespace, name, d), key)
         == if key in d.annotations then d.annotations[key] else Annotation(raw, key)
  {
    UpdatedMeta(raw, namespace, name, d);
    AnnotationSteps(ClusterUpdated(raw, namespace, name, d), key);
    FinalAnnotation(ObjectMember(raw, "metadata"), namespace, name, d, key);
    LiveAnnotation(raw, key);
  }

  lemma ServiceAnnotation(raw: Json, namespace: string, name: string, d: Deltas, serve: Option<string>, key: string)
    requires raw.Obj?
    ensures Annotation(ServiceUpdated(raw, namespace, name, d, serve), key)
         == if key in d.annotations then d.annotations[key] else Annotation(raw, key)
  {
    ServiceMeta(raw, namespace, name, d, serve);
    AnnotationSteps(ServiceUpdated(raw, namespace, name, d, serve), key);
    FinalAnnotation(ObjectMember(raw, "metadata"), namespace, name, d, key);
    LiveAnnotation(raw, key);
  }

  // ---- What a rawSpec does to it

  /** What the rawSpec carries for an annotation: nothing (None), or the string that is there after the
      merge, "" where it removes the annotation, or replaces it, the annotations or the metadata by
      something that is not a string or an object. */
  function Says(rawSpec: Json, key: string): Option<string> {
    match Child(rawSpec, Key("metadata"))
    case None => None
    case Some(meta) =>
      if !meta.Obj? then Some("")
      else match Child(meta, Key("annotations"))
           case None => None
           case Some(annotations) =>
             if !annotations.Obj? then Some("")
             else if Child(annotations, Key(key)).None? then None
             else Some(StringOf(Child(annotations, Key(key))))
  }

  /** One level of the merge, seen from the child of the target. */
  lemma PatchedChild(target: Json, patch: Json, k: string)
    requires patch.Obj?
    ensures Child(Patched(target, patch), Key(k))
         == match Child(patch, Key(k))
            case None => Child(target, Key(k))
            case Some(v) => if v == NULL then None else Some(Patched(Member(target, k), v))
    ensures forall l :: Child(Member(target, k), Key(l)) == Below(Child(target, Key(k)), l)
  {
    PatchedAt(target, patch, k);
  }

  lemma PatchedAnnotation(target: Json, rawSpec: Json, key: string)
    requires rawSpec.Obj?
    ensures Annotation(Patched(target, rawSpec), key)
         == if Says(rawSpec, key).Some? then Says(rawSpec, key).value else Annotation(target, key)
  {
    AnnotationSteps(target, key);
    AnnotationSteps(Patched(target, rawSpec), key);
    PatchedChild(target, rawSpec, "metadata");
    var meta := Child(rawSpec, Key("metadata"));
    if meta.Some? && meta.value.Obj? {
      AnnotationsPatched(Member(target, "metadata"), meta.value, key);
    }
  }

  lemma AnnotationsPatched(target: Json, meta: Json, key: string)
    requires meta.Obj?
    ensures StringOf(Below(Child(Patched(target, meta), Key("annotations")), key))
         == match Child(meta, Key("annotations"))
            case None => StringOf(Below(Child(target, Key("annotations")), key))
            case Some(a) =>
              if !a.Obj? then ""
              else if Child(a, Key(key)).None? then StringOf(Below(Child(target, Key("annotations")), key))
              else StringOf(Child(a, Key(key)))
  {
    PatchedChild(target, meta, "annotations");
    var a := Child(meta, Key("annotations"));
    if a.Some? && a.value.Obj? {
      PatchedChild(Member(target, "annotations"), a.value, key);
    }
  }

  // ---- Protection after a write

  /** An annotation after an update: what the rawSpec carries, else what the deltas ask for, else what
      is live. */
  function AnnotationAfter(raw: Json, d: Deltas, rawSpec: Json, key: string): string {
    if Says(rawSpec, key).Some? then Says(rawSpec, key).value
    else if key in d.annotations then d.annotations[key]
    else Annotation(raw, key)
  }

  /** The object a cluster update submits is protected exactly when the rawSpec, else the requested
      annotations, else the live object say so.  No confirmation enters into it. */
  lemma UpdateProtection(raw: Json, namespace: string, name: string, d: Deltas, rawSpec: Object)
    requires raw.Obj?
    ensures var r := UpdateIntent(raw, namespace, name, d, rawSpec);
            r.Ok? ==> (IsProtected(r.value) <==> AnnotationAfter(raw, d, rawSpec, PROTECTED) == "true")
  {
    ClusterAnnotation(raw, namespace, name, d, PROTECTED);
    PatchedAnnotation(ClusterUpdated(raw, namespace, name, d), rawSpec, PROTECTED);
  }

  /** ... and the same for a service update. */
  lemma ServiceProtection(raw: Json, namespace: string, name: string, d: Deltas, serve: Option<string>, rawSpec: Object)
    requires raw.Obj?
    ensures var r := ServiceIntent(raw, namespace, name, d, serve, rawSpec);
            r.Ok? ==> (IsProtected(r.value) <==> AnnotationAfter(raw, d, rawSpec, PROTECTED) == "true")
  {
    ServiceAnnotation(raw, namespace, name, d, serve, PROTECTED);
    PatchedAnnotation(ServiceUpdated(raw, namespace, name, d, serve), rawSpec, PROTECTED);
  }

  lemma ScaledMeta(raw: Json, namespace: string, name: string, p: ScaleParams)
    requires raw.Obj? && Scaled(raw, namespace, name, p).Ok?
    ensures Child(Scaled(raw, namespace, name, p).value, Key("metadata"))
         == Some(CleanMeta(ObjectMember(raw, "metadata"), namespace, name))
  {
  }

  /** A scale always keeps protection as it is. */
  lemma ScaleProtection(raw: Json, namespace: string, name: string, p: ScaleParams)
    requires raw.Obj? && Scaled(raw, namespace, name, p).Ok?
    ensures IsProtected(Scaled(raw, namespace, name, p).value) <==> IsProtected(raw)
  {
    ScaledMeta(raw, namespace, name, p);
    CleanAnnotation(Scaled(raw, namespace, name, p).value, raw, namespace, name, PROTECTED);
  }

  lemma CleanAnnotation(sent: Json, raw: Json, namespace: string, name: string, key: string)
    requires Child(sent, Key("metadata")) == Some(CleanMeta(ObjectMember(raw, "metadata"), namespace, name))
    ensures Annotation(sent, key) == Annotation(raw, key)
  {
    AnnotationSteps(sent, key);
    LiveAnnotation(raw, key);
  }

  // ---- The gate is absent

  /** A rawSpec that removes the annotation. */
  const UNPROTECT: Object :=
    Obj(map["metadata" := Obj(map["annotations" := Obj(map[PROTECTED := NULL])])])

  lemma UnprotectSays()
    ensures Says(UNPROTECT, PROTECTED) == Some("")
    ensures Child(UNPROTECT, Key("metadata")) == Some(Obj(map["annotations" := Obj(map[PROTECTED := NULL])]))
  {
  }

  lemma UnprotectAccepted(raw: Json, namespace: string, name: string)
    requires raw.Obj?
    ensures UpdateIntent(raw, namespace, name, NO_DELTAS, UNPROTECT).Ok?
  {
    var obj := ClusterUpdated(raw, namespace, name, NO_DELTAS);
    var meta := UpdatedMetaEffects(raw, namespace, name, NO_DELTAS);
    UnprotectSays();
    PatchedChild(obj, UNPROTECT, "metadata");
    var patch := Child(UNPROTECT, Key("metadata")).value;
    PatchedChild(meta, patch, "name");
    PatchedChild(meta, patch, "namespace");
    TwoKeys("metadata", "name");
    TwoKeys("metadata", "namespace");
    GetTwo(Patched(obj, UNPROTECT), Key("metadata"), Key("name"));
    GetTwo(Patched(obj, UNPROTECT), Key("metadata"), Key("namespace"));
  }

  /** The documented gate, which would ask for an unprotect confirmation here, is not in the way: for
      every protected cluster a plain update with this rawSpec is accepted and submits an unprotected
      object.  Before it every delete is refused, whatever is confirmed; afterwards an object that
      carries the submitted annotation can be deleted with a delete confirmation alone. */
  lemma UnprotectNeedsNoConfirm(sha: Sha, raw: Json, namespace: string, name: string, after: Json, dryRun: bool, confirm: string)
    requires raw.Obj? && IsProtected(raw) && name != ""
    ensures ApplySpec.Refused(ApplySpec.Update(namespace, name, NO_DELTAS, UNPROTECT, false)).None?
    ensures Delete.Refusal(sha, Delete.Request(Delete.Cluster, name, confirm, dryRun), raw) == Some(Delete.ProtectedRefused)
    ensures var r := UpdateIntent(raw, namespace, name, NO_DELTAS, UNPROTECT);
            && r.Ok? && !IsProtected(r.value)
            && GuardProtectedChange(sha, raw, r.value, "").ConfirmRequired?
            && (Annotation(after, PROTECTED) == Annotation(r.value, PROTECTED) ==>
                  Delete.Refusal(sha, Delete.Request(Delete.Cluster, name, Fingerprint(sha, after, OpDelete), dryRun), after).None?)
  {
    UnprotectAccepted(raw, namespace, name);
    UpdateProtection(raw, namespace, name, NO_DELTAS, UNPROTECT);
    UnprotectSays();
    assert UNPROTECT.fields != map[];
  }
}
