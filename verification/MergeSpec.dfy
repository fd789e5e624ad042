/** JSON Merge Patch (section 2 of RFC 7396), the identity guard, and the algebra of merging. */
module MergeSpec {
  import opened Json

  datatype Result<+T, +E> = Ok(value: T) | Err(error: E)

  /** The members of a target; a target that is not an object counts as an empty one. */
  function Members(target: Json): map<string, Json> {
    if target.Obj? then target.fields else map[]
  }

  function Member(target: Json, k: string): Json {
    if k in Members(target) then Members(target)[k] else NULL
  }

  /** MergePatch(Target, Patch) of RFC 7396. */
  function Patched(target: Json, patch: Json): Json
    decreases patch, 1
  {
    if patch.Obj? then Obj(PatchedMembers(target, patch, patch.fields.Keys)) else patch
  }

  /** The members once the patch's names in `done` have been applied, in whatever order. */
  function PatchedMembers(target: Json, patch: Json, done: set<string>): map<string, Json>
    requires patch.Obj? && done <= patch.fields.Keys
    decreases patch, 0
  {
    map k | k in Members(target).Keys + done && !(k in done && patch.fields[k] == NULL) ::
      if k in done then Patched(Member(target, k), patch.fields[k]) else Members(target)[k]
  }

  lemma PatchedMembersNone(target: Json, patch: Json)
    requires patch.Obj?
    ensures PatchedMembers(target, patch, {}) == Members(target)
  {
  }

  /** One more patch member: a null removes, anything else installs the patched value. */
  lemma PatchedMembersNext(target: Json, patch: Json, done: set<string>, k: string)
    requires patch.Obj? && done <= patch.fields.Keys && k in patch.fields && k !in done
    ensures PatchedMembers(target, patch, done + {k})
         == if patch.fields[k] == NULL then PatchedMembers(target, patch, done) - {k}
            else PatchedMembers(target, patch, done)[k := Patched(Member(target, k), patch.fields[k])]
    ensures k in PatchedMembers(target, patch, done) <==> k in Members(target)
    ensures k in Members(target) ==> PatchedMembers(target, patch, done)[k] == Members(target)[k]
  {
  }

  /** The result at one name. */
  lemma PatchedAt(target: Json, patch: Json, k: string)
    requires patch.Obj?
    ensures Patched(target, patch).Obj?
    ensures Child(Patched(target, patch), Key(k))
         == if k !in patch.fields then Child(Obj(Members(target)), Key(k))
            else if patch.fields[k] == NULL then None
            else Some(Patched(Member(target, k), patch.fields[k]))
  {
    assert Patched(target, patch) == Obj(PatchedMembers(target, patch, patch.fields.Keys));
  }

  /** Section 2 of RFC 7396, member by member: a patch that is not an object is the result; an object
      patch gives an object, in which an unnamed member is the target's, a null removes, and anything
      else patches the target's member (a missing one counts as null). */
  lemma PatchIsRfc7396(target: Json, patch: Json, k: string)
    ensures !patch.Obj? ==> Patched(target, patch) == patch
    ensures patch.Obj? ==>
              && Patched(target, patch).Obj?
              && Child(Patched(target, patch), Key(k))
                 == match Child(patch, Key(k))
                    case None => Child(target, Key(k))
                    case Some(v) =>
                      if v == Leaf(Null) then None
                      else Some(Patched(if Child(target, Key(k)).Some? then Child(target, Key(k)).value else Leaf(Null), v))
  {
    if patch.Obj? {
      PatchedAt(target, patch, k);
    }
  }

  // ---- The identity guard

  datatype Identity = Identity(namespace: string, name: string)

  datatype IdentityError = IdentityError(field: string, want: string, got: string)

  /** The string at a chain of keys, or "" when there is none. */
  function StringAt(j: Json, names: seq<string>): string {
    StringOf(Get(j, KeyPath(names)))
  }

  function Guarded(merged: Json, id: Identity): Result<Json, IdentityError> {
    var name := StringAt(merged, ["metadata", "name"]);
    var namespace := StringAt(merged, ["metadata", "namespace"]);
    if name != id.name then Err(IdentityError("name", id.name, name))
    else if namespace != id.namespace then Err(IdentityError("namespace", id.namespace, namespace))
    else Ok(merged)
  }

  /** Merge(base, rawSpec, id). */
  function Merged(base: Json, rawSpec: Json, id: Identity): Result<Json, IdentityError> {
    Guarded(Patched(base, rawSpec), id)
  }

  /** Success means the merged object still carries the identity, as strings in metadata. */
  lemma IdentityKept(base: Json, rawSpec: Json, id: Identity)
    requires id.name != "" && id.namespace != ""
    ensures Merged(base, rawSpec, id).Ok? <==>
              && Get(Patched(base, rawSpec), [Key("metadata"), Key("name")]) == Some(Leaf(Str(id.name)))
              && Get(Patched(base, rawSpec), [Key("metadata"), Key("namespace")]) == Some(Leaf(Str(id.namespace)))
  {
    TwoKeys("metadata", "name");
    TwoKeys("metadata", "namespace");
  }

  /** What a rejected merge reports: the name first, with the string found there, "" where there is none. */
  lemma IdentityRejected(base: Json, rawSpec: Json, id: Identity, name: string, namespace: string)
    requires name == StringOf(Get(Patched(base, rawSpec), [Key("metadata"), Key("name")]))
    requires namespace == StringOf(Get(Patched(base, rawSpec), [Key("metadata"), Key("namespace")]))
    ensures Merged(base, rawSpec, id)
         == if name != id.name then Err(IdentityError("name", id.name, name))
            else if namespace != id.namespace then Err(IdentityError("namespace", id.namespace, namespace))
            else Ok(Patched(base, rawSpec))
  {
    TwoKeys("metadata", "name");
    TwoKeys("metadata", "namespace");
  }

  lemma TwoKeys(k: string, l: string)
    ensures KeyPath([k, l]) == [Key(k), Key(l)]
  {
  }

  // ---- Algebra

  /** Merging the same patch twice is merging it once. */
  lemma {:induction false} PatchIdempotent(target: Json, patch: Json)
    ensures Patched(Patched(target, patch), patch) == Patched(target, patch)
    decreases patch
  {
    if patch.Obj? {
      var once := Patched(target, patch);
      var twice := Patched(once, patch);
      PatchedAt(target, patch, "");
      PatchedAt(once, patch, "");
      forall k ensures Child(twice, Key(k)) == Child(once, Key(k)) {
        PatchedAt(target, patch, k);
        PatchedAt(once, patch, k);
        if k in patch.fields && patch.fields[k] != NULL {
          PatchIdempotent(Member(target, k), patch.fields[k]);
        }
      }
      assert forall s :: Child(twice, s) == Child(once, s);
      SameChildren(twice, once);
    }
  }

  /** No object member is null, looking through objects but not into arrays. */
  ghost predicate NoNullMember(j: Json) {
    j.Obj? ==> forall k | k in j.fields :: j.fields[k] != NULL && NoNullMember(j.fields[k])
  }

  /** Nulls in a patch delete, they are never stored. */
  lemma {:induction false} PatchKeepsNoNull(target: Json, patch: Json)
    requires NoNullMember(target)
    ensures NoNullMember(Patched(target, patch))
    ensures Patched(target, patch) == NULL <==> patch == NULL
    decreases patch
  {
    if patch.Obj? {
      var merged := Patched(target, patch);
      PatchedAt(target, patch, "");
      forall k | k in merged.fields ensures merged.fields[k] != NULL && NoNullMember(merged.fields[k]) {
        assert Child(merged, Key(k)) == Some(merged.fields[k]);
        PatchedAt(target, patch, k);
        if k in patch.fields {
          assert NoNullMember(Member(target, k));
          PatchKeepsNoNull(Member(target, k), patch.fields[k]);
        }
      }
    }
  }

  /** The patch says something about path q of the target: walking q through objects that both
      sides have, it stops at a name the patch sets or removes, or at a value that is replaced. */
  predicate Reaches(target: Json, patch: Json, q: Path)
    decreases |q|
  {
    if !patch.Obj? || !target.Obj? then true
    else if q == [] || q[0].Index? || q[0].key !in patch.fields then false
    else q[0].key !in target.fields || Reaches(target.fields[q[0].key], patch.fields[q[0].key], q[1..])
  }

  /** Paths the patch does not reach keep the target's value. */
  lemma {:induction false} UnreachedKept(target: Json, patch: Json, q: Path)
    requires !Reaches(target, patch, q)
    ensures At(Patched(target, patch), q) == At(target, q)
    decreases |q|
  {
    PatchedAt(target, patch, "");
    if q != [] && q[0].Key? {
      var k := q[0].key;
      PatchedAt(target, patch, k);
      if k in patch.fields {
        UnreachedKept(target.fields[k], patch.fields[k], q[1..]);
      }
    }
  }

  /** A non-object value of the patch, reached through objects, is what the result carries:
      a null means absent, a scalar or array is installed as it is. */
  lemma {:induction false} PatchInstalled(target: Json, patch: Json, names: seq<string>)
    requires names != []
    requires Get(patch, KeyPath(names)).Some? && !Get(patch, KeyPath(names)).value.Obj?
    ensures var c := Get(patch, KeyPath(names)).value;
            Get(Patched(target, patch), KeyPath(names)) == if c == NULL then None else Some(c)
    decreases |names|
  {
    var p, k, rest := KeyPath(names), names[0], names[1..];
    assert p[0] == Key(k) && p[1..] == KeyPath(rest);
    PatchedAt(target, patch, k);
    if rest != [] {
      assert KeyPath(rest)[0] == Key(rest[0]);
      PatchInstalled(Member(target, k), patch.fields[k], rest);
    }
  }
}
