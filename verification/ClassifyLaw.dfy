/** The classifier read off the two specs alone: what decides each answer, path by path. */
module ClassifyLaw {
  import opened Json
  import opened Edits
  import opened GroupEdits
  import opened Normalize
  import opened Classify

  // ---- The excluded fields, by name

  predicate NamedPodField(r: Path) {
    || [Key("template"), Key("spec"), Key("tolerations")] <= r
    || [Key("template"), Key("spec"), Key("schedulingGates")] <= r
  }

  /** scaleStrategy holds nothing but workersToDelete. */
  predicate OnlyCommands(group: Json) {
    && Get(group, [Key("scaleStrategy")]).Some? && Get(group, [Key("scaleStrategy")]).value.Obj?
    && forall k | k in Get(group, [Key("scaleStrategy")]).value.fields :: k == "workersToDelete"
  }

  predicate NamedGroupField(group: Json, r: Path) {
    || [Key("replicas")] <= r || [Key("minReplicas")] <= r || [Key("maxReplicas")] <= r
    || [Key("scaleStrategy"), Key("workersToDelete")] <= r
    || ([Key("scaleStrategy")] <= r && OnlyCommands(group))
    || NamedPodField(r)
  }

  /** Path q of the config does not count for the operator's hash. */
  predicate Ignored(config: Json, q: Path) {
    || [Key("upgradeStrategy")] <= q
    || (q != [] && q[0] == Key("headGroupSpec") && NamedPodField(q[1..]))
    || (|q| >= 2 && q[0] == Key("workerGroupSpecs") && q[1].Index?
        && Get(config, q[..2]).Some? && NamedGroupField(Get(config, q[..2]).value, q[2..]))
  }

  lemma OnlyCommandsHusk(group: Json)
    ensures OnlyCommands(group) <==> Husk(group)
  {
    GetOne(group, Key(STRATEGY));
    if Child(group, Key(STRATEGY)).Some? && Child(group, Key(STRATEGY)).value.Obj? {
      var fields := Child(group, Key(STRATEGY)).value.fields;
      assert fields - {COMMANDS} == map[] <==> forall k | k in fields :: k == COMMANDS by {
        if forall k | k in fields :: k == COMMANDS {
          assert forall k :: k !in (fields - {COMMANDS});
          assert (fields - {COMMANDS}).Keys == {};
        }
        if fields - {COMMANDS} == map[] {
          forall k | k in fields ensures k == COMMANDS {
            assert k == COMMANDS || k in fields - {COMMANDS};
          }
        }
      }
    }
  }

  lemma PodFieldsNamed(r: Path)
    ensures NamedPodField(r) <==> PodExcluded(r)
  {
    assert POD_SPEC + [Key("tolerations")] == [Key("template"), Key("spec"), Key("tolerations")];
    assert POD_SPEC + [Key("schedulingGates")] == [Key("template"), Key("spec"), Key("schedulingGates")];
  }

  /** The excluded set is these fields. */
  lemma ExcludedByName(config: Json, q: Path)
    ensures Ignored(config, q) <==> Excluded(config, q)
  {
    if q != [] {
      PodFieldsNamed(q[1..]);
    }
    if |q| >= 2 {
      PodFieldsNamed(q[2..]);
      if Get(config, q[..2]).Some? {
        OnlyCommandsHusk(Get(config, q[..2]).value);
      }
    }
  }

  // ---- The two configs

  /** c is the object at rayClusterConfig, if there is one. */
  predicate ConfigIs(spec: Json, c: Option<Json>) {
    c == match Get(spec, [Key("rayClusterConfig")])
         case Some(Obj(fields)) => Some(Obj(fields))
         case _ => None
  }

  lemma ConfigNamed(spec: Json, c: Option<Json>)
    requires ConfigIs(spec, c)
    ensures c == ConfigOf(spec)
  {
    GetOne(spec, Key("rayClusterConfig"));
  }

  /** The label the hash sees at q; a missing config is hashed like an empty one. */
  function Seen(c: Option<Json>, q: Path): Option<Json> {
    if c.None? then (if q == [] then Some(Obj(map[])) else None)
    else if Ignored(c.value, q) then None
    else At(c.value, q)
  }

  lemma AtNormalOpt(c: Option<Json>, q: Path)
    ensures At(NormalOpt(c), q) == Seen(c, q)
  {
    if c.Some? {
      AtNormal(c.value, q);
      ExcludedByName(c.value, q);
    }
  }

  /** The hashes agree exactly when the configs agree at every path the hash sees. */
  lemma SameHashIff(x: Option<Json>, y: Option<Json>)
    ensures NormalOpt(x) == NormalOpt(y) <==> forall q :: Seen(x, q) == Seen(y, q)
  {
    forall q ensures At(NormalOpt(x), q) == Seen(x, q) && At(NormalOpt(y), q) == Seen(y, q) {
      AtNormalOpt(x, q);
      AtNormalOpt(y, q);
    }
    if forall q :: Seen(x, q) == Seen(y, q) {
      forall q ensures At(NormalOpt(x), q) == At(NormalOpt(y), q) {
        assert Seen(x, q) == Seen(y, q);
      }
      Extensional(NormalOpt(x), NormalOpt(y));
    }
  }

  // ---- Appended groups

  /** The config has a worker-group list, of n groups. */
  predicate GroupCount(c: Option<Json>, n: nat) {
    && c.Some? && Get(c.value, [Key("workerGroupSpecs")]).Some?
    && Get(c.value, [Key("workerGroupSpecs")]).value.Arr?
    && |Get(c.value, [Key("workerGroupSpecs")]).value.elems| == n
  }

  predicate FromGroup(q: Path, n: nat) {
    |q| >= 2 && q[0] == Key("workerGroupSpecs") && q[1].Index? && q[1].i >= n
  }

  /** The live config has n worker groups, the submitted one more, and outside the added ones the hash
      sees the same. */
  ghost predicate OnlyAdds(live: Option<Json>, submitted: Option<Json>, n: nat, m: nat) {
    && GroupCount(live, n) && GroupCount(submitted, m) && n < m
    && forall q | !FromGroup(q, n) :: Seen(live, q) == Seen(submitted, q)
  }

  lemma CountIs(c: Option<Json>, n: nat)
    requires c.Some?
    ensures GroupCount(c, n) <==> HasGroups(c.value) && |Groups(c.value)| == n
    ensures HasGroups(Normal(c.value)) == HasGroups(c.value)
    ensures |Groups(Normal(c.value))| == |Groups(c.value)|
  {
    GetOne(c.value, Key(WORKERS));
    NormalGroups(c.value);
  }

  lemma AtTruncated(config: Json, n: nat, q: Path)
    requires HasGroups(config) && n <= |Groups(config)|
    ensures At(Truncated(config, n), q) == if FromGroup(q, n) then None else At(config, q)
  {
    var cut := Truncated(config, n);
    if InGroup(q) {
      GroupAtPath(config, q);
      GroupAtPath(cut, q);
    } else if q != [] {
      if q[0] == Key(WORKERS) {
        OutsideGroups(config, q);
        OutsideGroups(cut, q);
      } else {
        assert Child(cut, q[0]) == Child(config, q[0]);
      }
    }
  }

  lemma AtFew(config: Json, n: nat, q: Path)
    requires HasGroups(config) && n == |Groups(config)| && FromGroup(q, n)
    ensures At(config, q) == None
  {
    GroupAtPath(config, q);
  }

  lemma AppendsByPath(x: Json, y: Json, n: nat)
    requires HasGroups(x) && HasGroups(y) && n == |Groups(x)| < |Groups(y)|
    ensures Appends(x, y) <==> forall q | !FromGroup(q, n) :: At(x, q) == At(y, q)
  {
    forall q ensures At(Truncated(y, n), q) == if FromGroup(q, n) then None else At(y, q) {
      AtTruncated(y, n, q);
    }
    if forall q | !FromGroup(q, n) :: At(x, q) == At(y, q) {
      forall q ensures At(x, q) == At(Truncated(y, n), q) {
        if FromGroup(q, n) {
          AtFew(x, n, q);
        } else {
          assert At(x, q) == At(y, q);
        }
      }
      Extensional(x, Truncated(y, n));
    }
  }

  /** The partial-match tier, path by path. */
  lemma PartialHashByPath(live: Option<Json>, submitted: Option<Json>)
    ensures PartialHashEqual(live, submitted) <==> exists n: nat, m: nat :: OnlyAdds(live, submitted, n, m)
  {
    PartialHashEqualIff(live, submitted);
    if live.Some? && submitted.Some? {
      var n, m := |Groups(live.value)|, |Groups(submitted.value)|;
      AddsHere(live, submitted, n, m);
      forall n': nat, m': nat | OnlyAdds(live, submitted, n', m') ensures n' == n && m' == m {
        CountIs(live, n');
        CountIs(submitted, m');
      }
    }
  }

  lemma AddsHere(live: Option<Json>, submitted: Option<Json>, n: nat, m: nat)
    requires live.Some? && submitted.Some? && n == |Groups(live.value)| && m == |Groups(submitted.value)|
    ensures Appends(Normal(live.value), Normal(submitted.value)) <==> OnlyAdds(live, submitted, n, m)
  {
    CountIs(live, n);
    CountIs(submitted, m);
    if HasGroups(live.value) && HasGroups(submitted.value) && n < m {
      AppendsByPath(Normal(live.value), Normal(submitted.value), n);
      forall q ensures At(Normal(live.value), q) == Seen(live, q) && At(Normal(submitted.value), q) == Seen(submitted, q) {
        AtNormalOpt(live, q);
        AtNormalOpt(submitted, q);
      }
    }
  }

  // ---- The answers

  /** s is the string member k of the spec, "" where there is none. */
  predicate StringIs(spec: Json, k: string, s: string) {
    s == match Get(spec, [Key(k)])
         case Some(Leaf(Str(t))) => t
         case _ => ""
  }

  /** t is upgradeStrategy.type of the spec, "" where it is not a string. */
  predicate StrategyIs(spec: Json, t: string) {
    t == match Get(spec, [Key("upgradeStrategy"), Key("type")])
         case Some(Leaf(Str(s))) => s
         case _ => ""
  }

  /** The swap prediction for a strategy type. */
  predicate SwapFor(t: string, p: Prediction) {
    p == if t == "" then SwapByOperatorDefault
         else if |t| == 4 && t[0] in "nN" && t[1] in "oO" && t[2] in "nN" && t[3] in "eE" then SwapUnlessDisabled
         else Swap
  }

  /** Some path carries different labels, or exactly one of the two is an object. */
  ghost predicate Differ(x: Option<Json>, y: Option<Json>) {
    x.Some? != y.Some? || (x.Some? && y.Some? && exists p :: At(x.value, p) != At(y.value, p))
  }

  lemma DifferIff(x: Option<Json>, y: Option<Json>)
    ensures Differ(x, y) <==> x != y
  {
    if x.Some? && y.Some? && x.value != y.value {
      var p := Distinguish(x.value, y.value);
    }
  }

  /** p is the answer for the two specs, whose configs are lc and sc. */
  ghost predicate Answer(live: Json, submitted: Json, lc: Option<Json>, sc: Option<Json>, p: Prediction) {
    if exists q :: Seen(lc, q) != Seen(sc, q) then
      if exists n: nat, m: nat :: OnlyAdds(lc, sc, n, m) then p == InPlaceAppend
      else forall t | StrategyIs(submitted, t) :: SwapFor(t, p)
    else if exists s, t :: s != t && StringIs(live, "serveConfigV2", s) && StringIs(submitted, "serveConfigV2", t) then
      p == InPlaceServe
    else if Differ(lc, sc) then p == ScaleNoSwap
    else p == NoChange
  }

  lemma StringNamed(spec: Json, k: string)
    ensures StringIs(spec, k, StringMember(spec, k))
    ensures forall s | StringIs(spec, k, s) :: s == StringMember(spec, k)
  {
    GetOne(spec, Key(k));
  }

  lemma StrategyNamed(spec: Json)
    ensures forall t | StrategyIs(spec, t) :: t == StrategyType(spec) && SwapFor(t, ClusterChange(spec))
  {
    GetTwo(spec, Key("upgradeStrategy"), Key("type"));
    ClusterChangeByStrategy(spec);
  }

  /** The classifier, for all specs: a change the hash sees is an append exactly when groups were only
      added, and else the swap its strategy type calls for; without one, a different serve config is
      in-place, any other difference of the configs (one of them missing included) a scale, and nothing
      else a change.  A missing spec is unknown. */
  lemma ClassifiedLaw(live: Json, submitted: Json, lc: Option<Json>, sc: Option<Json>)
    requires ConfigIs(live, lc) && ConfigIs(submitted, sc)
    ensures Answer(live, submitted, lc, sc, Classified(Some(live), Some(submitted)))
    ensures Classified(None, Some(submitted)) == Classified(Some(live), None) == Classified(None, None) == Unknown
  {
    ConfigNamed(live, lc);
    ConfigNamed(submitted, sc);
    SameHashIff(lc, sc);
    PartialHashByPath(lc, sc);
    StrategyNamed(submitted);
    StringNamed(live, "serveConfigV2");
    StringNamed(submitted, "serveConfigV2");
    DifferIff(lc, sc);
  }
}
