/** The edits the write services make inside a cluster spec: per group (head or worker) and over
    the whole worker-group list.  Pure counterparts of the loops of cluster_update.go and
    service_write.go. */
module GroupEdits {
  import opened Json
  import opened Edits

  const WORKERS := "workerGroupSpecs"
  const HEAD := "headGroupSpec"
  const STRATEGY := "scaleStrategy"
  const COMMANDS := "workersToDelete"

  const POD_SPEC: Path := [Key("template"), Key("spec")]
  const FIRST_CONTAINER: Path := [Key("template"), Key("spec"), Key("containers"), Index(0)]

  /** What a loop over the worker groups does to each of them. */
  datatype GroupEdit = Normalizing | Stripping | SettingImage(image: string)

  /** zeroPodExclusions. */
  function ZeroPodExclusions(group: Json): Json {
    DeleteAt(DeleteAt(group, POD_SPEC, "tolerations"), POD_SPEC, "schedulingGates")
  }

  /** Removes scaleStrategy.workersToDelete, and a scaleStrategy that is empty afterwards. */
  function DropCommands(group: Json): Json {
    var g := DeleteAt(group, [Key(STRATEGY)], COMMANDS);
    if Get(g, [Key(STRATEGY)]) == Some(Obj(map[])) then DeleteAt(g, [], STRATEGY) else g
  }

  /** setFirstContainerImage. */
  function SetFirstImage(group: Json, image: string): Json {
    SetAt(group, FIRST_CONTAINER, "image", Leaf(Str(image)))
  }

  /** The body of normalizeForHash's loop over worker groups. */
  function NormalizeGroup(group: Json): Json {
    var g := DeleteAt(DeleteAt(DeleteAt(group, [], "replicas"), [], "minReplicas"), [], "maxReplicas");
    ZeroPodExclusions(DropCommands(g))
  }

  function EditGroup(e: GroupEdit, group: Json): Json {
    match e
    case Normalizing => NormalizeGroup(group)
    case Stripping => DropCommands(group)
    case SettingImage(image) => SetFirstImage(group, image)
  }

  function EditList(e: GroupEdit, groups: seq<Json>): (r: seq<Json>)
    ensures |r| == |groups| && forall i | 0 <= i < |r| :: r[i] == EditGroup(e, groups[i])
  {
    seq(|groups|, i requires 0 <= i < |groups| => EditGroup(e, groups[i]))
  }

  /** The worker groups of a spec; nil when there is no such list. */
  function Groups(spec: Json): seq<Json> {
    match Child(spec, Key(WORKERS))
    case Some(Arr(groups)) => groups
    case _ => []
  }

  predicate HasGroups(spec: Json) {
    Child(spec, Key(WORKERS)).Some? && Child(spec, Key(WORKERS)).value.Arr?
  }

  function EditGroups(e: GroupEdit, spec: Json): Json {
    if HasGroups(spec) then SetAt(spec, [], WORKERS, Arr(EditList(e, Groups(spec)))) else spec
  }

  /** setClusterImage. */
  function SetClusterImage(spec: Json, image: string): Json {
    EditGroups(SettingImage(image), EditHead(SettingImage(image), spec))
  }

  /** An edit of the head group: only pod fields for Normalizing. */
  function EditHead(e: GroupEdit, spec: Json): Json {
    match Child(spec, Key(HEAD))
    case None => spec
    case Some(head) =>
      SetAt(spec, [], HEAD, match e
                            case Normalizing => ZeroPodExclusions(head)
                            case Stripping => head
                            case SettingImage(image) => SetFirstImage(head, image))
  }

  // ---- Labels after an edit

  predicate PodExcluded(r: Path) {
    POD_SPEC + [Key("tolerations")] <= r || POD_SPEC + [Key("schedulingGates")] <= r
  }

  lemma AtZeroPod(group: Json, r: Path)
    ensures At(ZeroPodExclusions(group), r) == if PodExcluded(r) then None else At(group, r)
  {
    AtDelete(group, POD_SPEC, "tolerations", r);
    AtDelete(DeleteAt(group, POD_SPEC, "tolerations"), POD_SPEC, "schedulingGates", r);
  }

  /** A scaleStrategy that holds nothing but workersToDelete. */
  predicate Husk(group: Json) {
    match Child(group, Key(STRATEGY))
    case Some(Obj(fields)) => fields - {COMMANDS} == map[]
    case _ => false
  }

  predicate CommandPath(group: Json, r: Path) {
    [Key(STRATEGY), Key(COMMANDS)] <= r || (Husk(group) && [Key(STRATEGY)] <= r)
  }

  lemma DeleteChild(group: Json, k: string, l: string)
    ensures ObjectAt(group, [Key(k)]) <==> Child(group, Key(k)).Some? && Child(group, Key(k)).value.Obj?
    ensures Get(DeleteAt(group, [Key(k)], l), [Key(k)])
         == match Child(group, Key(k))
            case Some(Obj(fields)) => Some(Obj(fields - {l}))
            case c => c
  {
    var p := [Key(k)];
    assert p == [] + [Key(k)] && p[1..] == [];
    GetStep(group, [], Key(k));
    GetStep(DeleteAt(group, p, l), [], Key(k));
    if ObjectAt(group, p) {
      var c := Obj(Get(group, p).value.fields - {l});
      assert DeleteAt(group, p, l) == WithChild(group, Key(k), Put(Child(group, Key(k)).value, p[1..], c));
    }
  }

  lemma AtDropCommands(group: Json, r: Path)
    ensures At(DropCommands(group), r) == if CommandPath(group, r) then None else At(group, r)
  {
    var g := DeleteAt(group, [Key(STRATEGY)], COMMANDS);
    AtDelete(group, [Key(STRATEGY)], COMMANDS, r);
    DeleteChild(group, STRATEGY, COMMANDS);
    AtDelete(g, [], STRATEGY, r);
    assert [Key(STRATEGY)] + [Key(COMMANDS)] == [Key(STRATEGY), Key(COMMANDS)];
    assert [] + [Key(STRATEGY)] == [Key(STRATEGY)];
  }

  /** Path r of a worker group is excluded from the hash. */
  predicate GroupExcluded(group: Json, r: Path) {
    || [Key("replicas")] <= r || [Key("minReplicas")] <= r || [Key("maxReplicas")] <= r
    || CommandPath(group, r)
    || PodExcluded(r)
  }

  lemma AtNormalizeGroup(group: Json, r: Path)
    ensures At(NormalizeGroup(group), r) == if GroupExcluded(group, r) then None else At(group, r)
  {
    var g1 := DeleteAt(group, [], "replicas");
    var g2 := DeleteAt(g1, [], "minReplicas");
    var g3 := DeleteAt(g2, [], "maxReplicas");
    AtDelete(group, [], "replicas", r);
    AtDelete(g1, [], "minReplicas", r);
    AtDelete(g2, [], "maxReplicas", r);
    assert forall k :: [] + [Key(k)] == [Key(k)];
    AtDropCommands(g3, r);
    AtZeroPod(DropCommands(g3), r);
    KeepsStrategy(group);
  }

  lemma KeepsStrategy(group: Json)
    ensures Husk(DeleteAt(DeleteAt(DeleteAt(group, [], "replicas"), [], "minReplicas"), [], "maxReplicas")) == Husk(group)
  {
  }

  lemma AtSetFirstImage(group: Json, image: string, r: Path)
    ensures !(FIRST_CONTAINER + [Key("image")] <= r) ==> At(SetFirstImage(group, image), r) == At(group, r)
  {
    if ObjectAt(group, FIRST_CONTAINER) {
      AtSet(group, FIRST_CONTAINER, "image", Leaf(Str(image)), r);
    }
  }

  // ---- The whole list

  /** q leads to or below a member of the worker-group list. */
  predicate InGroup(q: Path) {
    |q| >= 2 && q[0] == Key(WORKERS) && q[1].Index?
  }

  lemma GroupAtPath(spec: Json, q: Path)
    requires InGroup(q)
    ensures Get(spec, q[..2]) == if HasGroups(spec) && q[1].i < |Groups(spec)| then Some(Groups(spec)[q[1].i]) else None
    ensures At(spec, q) == if Get(spec, q[..2]).Some? then At(Get(spec, q[..2]).value, q[2..]) else None
  {
    assert q[..2] == [q[0], q[1]] && q == q[..2] + q[2..];
    GetTwo(spec, q[0], q[1]);
    GetConcat(spec, q[..2], q[2..]);
  }

  lemma HasGroupsAfter(e: GroupEdit, spec: Json)
    ensures HasGroups(EditGroups(e, spec)) == HasGroups(spec)
    ensures Groups(EditGroups(e, spec)) == EditList(e, Groups(spec))
    ensures forall k | k != WORKERS :: Child(EditGroups(e, spec), Key(k)) == Child(spec, Key(k))
    ensures Label(EditGroups(e, spec)) == Label(spec)
  {
    if HasGroups(spec) {
      RootEdits(spec, WORKERS, Arr(EditList(e, Groups(spec))));
    } else {
      assert EditList(e, []) == [];
    }
  }

  /** An edit of every group is seen exactly inside the groups. */
  lemma AtEditGroups(e: GroupEdit, spec: Json, q: Path)
    ensures At(EditGroups(e, spec), q)
         == if InGroup(q) && Get(spec, q[..2]).Some? then At(EditGroup(e, Get(spec, q[..2]).value), q[2..])
            else At(spec, q)
  {
    HasGroupsAfter(e, spec);
    if InGroup(q) {
      GroupAtPath(spec, q);
      GroupAtPath(EditGroups(e, spec), q);
    } else if q != [] && HasGroups(spec) {
      AtSet(spec, [], WORKERS, Arr(EditList(e, Groups(spec))), q);
      if q[0] == Key(WORKERS) {
        OutsideGroups(spec, q);
        OutsideGroups(EditGroups(e, spec), q);
      } else {
        assert !([] + [Key(WORKERS)] <= q);
      }
    }
  }

  lemma OutsideGroups(spec: Json, q: Path)
    requires HasGroups(spec) && q != [] && q[0] == Key(WORKERS) && !InGroup(q)
    ensures At(spec, q) == if |q| == 1 then Some(Arr([])) else None
  {
    GetOne(spec, q[0]);
    assert q == [q[0]] + q[1..];
    GetConcat(spec, [q[0]], q[1..]);
    var list := Child(spec, q[0]).value;
    assert |q| > 1 ==> Child(list, q[1..][0]) == None;
  }

  lemma AtEditHead(e: GroupEdit, spec: Json, q: Path)
    ensures At(EditHead(e, spec), q)
         == if q != [] && q[0] == Key(HEAD) && Child(spec, Key(HEAD)).Some?
            then At(Child(EditHead(e, spec), Key(HEAD)).value, q[1..])
            else At(spec, q)
    ensures Child(spec, Key(HEAD)).Some? ==> Child(EditHead(e, spec), Key(HEAD)).Some?
  {
    if Child(spec, Key(HEAD)).Some? {
      var c := EditHead(e, spec).fields[HEAD];
      assert EditHead(e, spec) == SetAt(spec, [], HEAD, c);
      RootEdits(spec, HEAD, c);
    }
  }

  lemma EditedHead(e: GroupEdit, spec: Json)
    requires Child(spec, Key(HEAD)).Some?
    ensures var head := Child(spec, Key(HEAD)).value;
            Child(EditHead(e, spec), Key(HEAD)) == Some(match e
                                                        case Normalizing => ZeroPodExclusions(head)
                                                        case Stripping => head
                                                        case SettingImage(image) => SetFirstImage(head, image))
    ensures forall k | k != HEAD :: Child(EditHead(e, spec), Key(k)) == Child(spec, Key(k))
  {
    var c := EditHead(e, spec).fields[HEAD];
    assert EditHead(e, spec) == SetAt(spec, [], HEAD, c);
    RootEdits(spec, HEAD, c);
  }

  /** An edit deeper inside leaves the other children alone. */
  lemma DeleteElsewhere(j: Json, p: Path, k: string, s: Step)
    requires p != [] && p[0] != s
    ensures Child(DeleteAt(j, p, k), s) == Child(j, s)
  {
  }

  lemma NoHuskLeft(group: Json)
    ensures !Husk(DropCommands(group))
  {
    var g := DeleteAt(group, [Key(STRATEGY)], COMMANDS);
    DeleteChild(group, STRATEGY, COMMANDS);
    GetOne(g, Key(STRATEGY));
    if g.Obj? {
      RootEdits(g, STRATEGY, NULL);
    }
    match Child(group, Key(STRATEGY)) {
      case Some(Obj(fields)) =>
        assert fields - {COMMANDS} - {COMMANDS} == fields - {COMMANDS};
      case _ =>
    }
  }

  lemma NormalizedNoHusk(group: Json)
    ensures !Husk(NormalizeGroup(group))
  {
    var g := DeleteAt(DeleteAt(DeleteAt(group, [], "replicas"), [], "minReplicas"), [], "maxReplicas");
    NoHuskLeft(g);
    var d := DropCommands(g);
    DeleteElsewhere(d, POD_SPEC, "tolerations", Key(STRATEGY));
    DeleteElsewhere(DeleteAt(d, POD_SPEC, "tolerations"), POD_SPEC, "schedulingGates", Key(STRATEGY));
  }
}
