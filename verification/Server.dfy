/** The API server the write path talks to, as far as lines 21-36 of
    internal/domain/cluster_update.go describe it: spec.workerGroupSpecs is one atomic field, other
    managers may write the object between any two requests, an unforced apply that would change a
    list somebody else owns conflicts, and a forced one takes the list over.  Everything the
    description leaves open (failures, lost answers, other conflicts, defaulting) is a free choice,
    so a statement about every sequence of choices is a statement about every server. */
module Server {
  import opened Json
  import opened GroupEdits
  import opened WriteSpec
  import opened Replicas

  type Object = j: Json | j.Obj? witness Obj(map[])

  /** The atomic worker-group list of an object. */
  function ListOf(obj: Json): Option<Json> {
    Child(ObjectMember(obj, "spec"), Key(WORKERS))
  }

  function WithList(obj: Object, list: Option<Json>): (r: Object)
    ensures ListOf(r) == list
  {
    var spec := ObjectMember(obj, "spec");
    WithMember(obj, "spec", if list.Some? then WithMember(spec, WORKERS, list.value) else Obj(spec.fields - {WORKERS}))
  }

  /** Overwriting the list of an object that already has it changes nothing, so every object with the
      right list can be the stored one. */
  lemma WithOwnList(obj: Object)
    requires Child(obj, Key("spec")) == Some(ObjectMember(obj, "spec"))
    ensures WithList(obj, ListOf(obj)) == obj
  {
    var spec := ObjectMember(obj, "spec");
    if ListOf(obj).None? {
      assert spec.fields - {WORKERS} == spec.fields;
    } else {
      assert spec.fields[WORKERS := ListOf(obj).value] == spec.fields;
    }
    assert obj.fields["spec" := spec] == obj.fields;
  }

  /** The replicas values a live object holds. */
  function Counts(obj: Json): seq<Option<Json>> {
    ReplicasOf(ObjectMember(obj, "spec"))
  }

  lemma CountsOfList(x: Json, y: Json)
    requires ListOf(x) == ListOf(y)
    ensures Counts(x) == Counts(y)
  {
  }

  // ---- State and environment

  /** others: another manager owns the worker-group list. */
  datatype State = State(live: Object, others: bool)

  /** A write by another manager.  A write that changes the list takes ownership of it; claims says
      that it took ownership without changing it. */
  datatype Write = Write(obj: Object, claims: bool)

  function Written(s: State, w: Write): State {
    State(w.obj, s.others || w.claims || ListOf(w.obj) != ListOf(s.live))
  }

  function AfterWrites(s: State, ws: seq<Write>): State
    decreases |ws|
  {
    if ws == [] then s else Written(AfterWrites(s, ws[..|ws| - 1]), ws[|ws| - 1])
  }

  /** As long as nobody else owns the list, nobody else has written it. */
  lemma {:induction false} UnownedUnwritten(s: State, ws: seq<Write>)
    requires !AfterWrites(s, ws).others
    ensures !s.others && ListOf(AfterWrites(s, ws).live) == ListOf(s.live)
    decreases |ws|
  {
    if ws != [] {
      UnownedUnwritten(s, ws[..|ws| - 1]);
    }
  }

  // ---- Requests

  datatype Fault = NoFault | Conflicts | Fails(persisted: bool)

  /** What the environment and the server do at one request: writes that land before it, a fault, and
      on success the object the server stores (defaults, status, other managers' fields). */
  datatype Choice = Choice(writes: seq<Write>, fault: Fault, stored: Object, drops: bool)

  datatype Outcome = Applied(obj: Object) | Conflict | Failure

  predicate MustConflict(s: State, intent: Object) {
    s.others && ListOf(intent).Some? && ListOf(intent) != ListOf(s.live)
  }

  /** The list after an apply: the submitted one whole.  An intent without a list gives it up, which
      removes it (drops) only when no other manager owns it. */
  function AppliedList(s: State, intent: Object, drops: bool): Option<Json> {
    if ListOf(intent).Some? then ListOf(intent)
    else if drops && !s.others then None
    else ListOf(s.live)
  }

  function Stored(s: State, intent: Object, force: bool, ch: Choice): State {
    State(WithList(ch.stored, AppliedList(s, intent, ch.drops)), s.others && !(force && ListOf(intent).Some?))
  }

  /** The server accepts the apply, whether or not its answer arrives. */
  predicate Accepted(s: State, intent: Object, force: bool, ch: Choice) {
    (ch.fault.NoFault? || ch.fault == Fails(true)) && (force || !MustConflict(s, intent))
  }

  function OutcomeOf(s: State, intent: Object, force: bool, ch: Choice): Outcome {
    if ch.fault == Fails(false) then Failure
    else if ch.fault.Conflicts? || (!force && MustConflict(s, intent)) then Conflict
    else if ch.fault.Fails? then Failure
    else Applied(Stored(s, intent, force, ch).live)
  }

  function Handled(s: State, intent: Object, dryRun: bool, force: bool, ch: Choice): State {
    if !dryRun && Accepted(s, intent, force, ch) then Stored(s, intent, force, ch) else s
  }

  /** An unforced apply that takes effect over somebody else's list resubmitted that very list. */
  lemma UnforcedKeepsForeignList(s: State, intent: Object, dryRun: bool, ch: Choice)
    requires s.others
    ensures ListOf(Handled(s, intent, dryRun, false, ch).live) == ListOf(s.live)
  {
  }
}
