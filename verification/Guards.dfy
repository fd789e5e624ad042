/** The destructive-operation guards of internal/domain/guards.go and the delete pipelines on top of
    them: a fingerprint recomputed from the live object, a two-call handshake without stored state, and
    the protected annotation.  SHA-256 is a parameter; what is needed of it is said where it is needed. */
module Guards {
  import opened Json
  import opened MergeSpec
  import opened Utf8
  import opened Encoding

  const PROTECTED := "ray-mcp/protected"

  datatype Operation = OpDelete | OpScaleToZero | OpUnprotect

  function OpName(op: Operation): string {
    match op
    case OpDelete => "delete"
    case OpScaleToZero => "scale-to-zero"
    case OpUnprotect => "unprotect"
  }

  /** A deletion targets a resource by identity; anything that changes content binds its version. */
  predicate BindsResourceVersion(op: Operation) {
    op != OpDelete
  }

  function MetaString(live: Json, key: string): string {
    StringAt(live, ["metadata", key])
  }

  /** A digest of 32 bytes. */
  type Digest = s: seq<byte> | |s| == 32 witness seq(32, _ => 0)

  type Sha = seq<byte> -> Digest

  /** The bytes Fingerprint feeds to the hash. */
  function Preimage(live: Json, op: Operation): seq<byte> {
    Field(OpName(op)) + (Field(MetaString(live, "uid"))
                         + if BindsResourceVersion(op) then Field(MetaString(live, "resourceVersion")) else [])
  }

  function Fingerprint(sha: Sha, live: Json, op: Operation): (f: string)
    ensures |f| == 64
  {
    Hex(sha(Preimage(live, op)))
  }

  // ---- The streaming hash

  /** hash.Hash: bytes are written into it piece by piece. */
  class Hasher {
    var written: seq<byte>

    constructor ()
      ensures written == []
    {
      written := [];
    }

    method Write(p: seq<byte>)
      modifies this
      ensures written == old(written) + p
    {
      written := written + p;
    }
  }

  method WriteField(h: Hasher, s: string)
    modifies h
    ensures h.written == old(h.written) + Field(s)
  {
    h.Write(LittleEndian(|Bytes(s)|, 8));
    h.Write(Bytes(s));
  }

  method ComputeFingerprint(sha: Sha, live: Json, op: Operation) returns (f: string)
    ensures f == Fingerprint(sha, live, op)
  {
    var h := new Hasher();
    WriteField(h, OpName(op));
    WriteField(h, MetaString(live, "uid"));
    if BindsResourceVersion(op) {
      WriteField(h, MetaString(live, "resourceVersion"));
    }
    Joined(Field(OpName(op)), Field(MetaString(live, "uid")),
           if BindsResourceVersion(op) then Field(MetaString(live, "resourceVersion")) else []);
    f := Hex(sha(h.written));
  }

  lemma Joined(x: seq<byte>, y: seq<byte>, z: seq<byte>)
    ensures [] + x + y + z == x + (y + z)
    ensures [] + x + y + [] == [] + x + y
  {
  }

  // ---- What a fingerprint binds

  /** Go strings, whose lengths fit an int. */
  predicate Stored(live: Json) {
    Addressable(MetaString(live, "uid")) && Addressable(MetaString(live, "resourceVersion"))
  }

  /** The hash does not collide on these two inputs. */
  predicate NoCollision(sha: Sha, x: seq<byte>, y: seq<byte>) {
    sha(x) == sha(y) ==> x == y
  }

  /** Same operation on the same resource and, where the operation changes content, on the same version
      of it. */
  predicate SameTarget(x: Json, op: Operation, y: Json, op': Operation) {
    && op == op'
    && MetaString(x, "uid") == MetaString(y, "uid")
    && (BindsResourceVersion(op) ==> MetaString(x, "resourceVersion") == MetaString(y, "resourceVersion"))
  }

  lemma OpNames(op: Operation)
    ensures Addressable(OpName(op))
  {
    BytesShort(OpName(op));
  }

  lemma {:induction false} BytesShort(s: string)
    ensures |Bytes(s)| <= 4 * |s|
  {
    if s != "" {
      BytesShort(s[1..]);
    }
  }

  /** Two preimages are equal exactly for the same target: no field can be shifted into another. */
  lemma PreimageInjective(x: Json, op: Operation, y: Json, op': Operation)
    requires Stored(x) && Stored(y)
    ensures Preimage(x, op) == Preimage(y, op') <==> SameTarget(x, op, y, op')
  {
    if Preimage(x, op) == Preimage(y, op') {
      OpNames(op);
      OpNames(op');
      FieldUnique(OpName(op), OpName(op'), Preimage(x, op)[|Field(OpName(op))|..], Preimage(y, op')[|Field(OpName(op'))|..]);
      assert op == op';
      UidAndVersion(x, y, BindsResourceVersion(op));
    }
  }

  lemma UidAndVersion(x: Json, y: Json, versioned: bool)
    requires Stored(x) && Stored(y)
    requires Field(MetaString(x, "uid")) + (if versioned then Field(MetaString(x, "resourceVersion")) else [])
          == Field(MetaString(y, "uid")) + (if versioned then Field(MetaString(y, "resourceVersion")) else [])
    ensures MetaString(x, "uid") == MetaString(y, "uid")
    ensures versioned ==> MetaString(x, "resourceVersion") == MetaString(y, "resourceVersion")
  {
    var vx := if versioned then Field(MetaString(x, "resourceVersion")) else [];
    var vy := if versioned then Field(MetaString(y, "resourceVersion")) else [];
    FieldUnique(MetaString(x, "uid"), MetaString(y, "uid"), vx, vy);
    if versioned {
      FieldUnique(MetaString(x, "resourceVersion"), MetaString(y, "resourceVersion"), [], []);
    }
  }

  /** Fingerprints agree exactly on the same target. */
  lemma FingerprintBinds(sha: Sha, x: Json, op: Operation, y: Json, op': Operation)
    requires Stored(x) && Stored(y) && NoCollision(sha, Preimage(x, op), Preimage(y, op'))
    ensures Fingerprint(sha, x, op) == Fingerprint(sha, y, op') <==> SameTarget(x, op, y, op')
  {
    PreimageInjective(x, op, y, op');
    if Fingerprint(sha, x, op) == Fingerprint(sha, y, op') {
      HexInjective(sha(Preimage(x, op)), sha(Preimage(y, op')));
    }
  }

  // ---- The handshake

  datatype Gate = Passed | ConfirmRequired(fingerprint: string) | ConfirmMismatch

  /** RequireConfirm. */
  function RequireConfirm(sha: Sha, live: Json, op: Operation, confirm: string): Gate {
    if confirm == "" then ConfirmRequired(Fingerprint(sha, live, op))
    else if confirm != Fingerprint(sha, live, op) then ConfirmMismatch
    else Passed
  }

  /** The gate for any confirm at all: empty asks, the recomputed fingerprint passes, every other string
      is a mismatch. */
  lemma ConfirmExact(sha: Sha, live: Json, op: Operation, confirm: string)
    ensures var fp, gate := Hex(sha(Preimage(live, op))), RequireConfirm(sha, live, op, confirm);
            && (confirm == "" ==> gate == ConfirmRequired(fp))
            && (confirm == fp ==> gate == Passed)
            && (confirm != "" && confirm != fp ==> gate == ConfirmMismatch)
            && fp != ""
  {
  }

  /** A fingerprint taken from a preview opens the gate later exactly for the same target, so a delete
      survives new versions of the object, and everything else does not. */
  lemma ConfirmOnlyWhatWasPreviewed(sha: Sha, previewed: Json, op: Operation, live: Json, op': Operation)
    requires Stored(previewed) && Stored(live) && NoCollision(sha, Preimage(previewed, op), Preimage(live, op'))
    ensures var preview := RequireConfirm(sha, previewed, op, "");
            && preview.ConfirmRequired?
            && RequireConfirm(sha, live, op', preview.fingerprint)
               == if SameTarget(previewed, op, live, op') then Passed else ConfirmMismatch
  {
    FingerprintBinds(sha, previewed, op, live, op');
  }

  // ---- The protected annotation

  predicate IsProtected(live: Json) {
    StringAt(live, ["metadata", "annotations", PROTECTED]) == "true"
  }

  /** GuardProtectedChange. */
  function GuardProtectedChange(sha: Sha, before: Json, after: Json, confirm: string): Gate {
    if !IsProtected(before) || IsProtected(after) then Passed
    else RequireConfirm(sha, before, OpUnprotect, confirm)
  }

  /** Loosening needs a fingerprint of this very version for this very act; a delete or scale-to-zero
      fingerprint, or one of an earlier version, does not do. */
  lemma LooseningNeedsItsOwnConfirm(sha: Sha, before: Json, after: Json, previewed: Json, op: Operation)
    requires IsProtected(before) && !IsProtected(after)
    requires Stored(previewed) && Stored(before) && NoCollision(sha, Preimage(previewed, op), Preimage(before, OpUnprotect))
    ensures GuardProtectedChange(sha, before, after, Fingerprint(sha, previewed, op)).Passed? <==>
              && op == OpUnprotect
              && MetaString(previewed, "uid") == MetaString(before, "uid")
              && MetaString(previewed, "resourceVersion") == MetaString(before, "resourceVersion")
  {
    FingerprintBinds(sha, previewed, op, before, OpUnprotect);
  }
}
