/** The RayService update classifier: the partial-hash tier as a strict order on normal forms,
    and the prediction of every curated update. */
module Classify {
  import opened Json
  import opened Edits
  import opened GroupEdits
  import opened Normalize

  // ---- partialHashEqual

  /** The config with its worker groups cut to the first n. */
  function Truncated(config: Json, n: nat): Json
    requires HasGroups(config) && n <= |Groups(config)|
  {
    Obj(config.fields[WORKERS := Arr(Groups(config)[..n])])
  }

  function GroupsOpt(config: Option<Json>): seq<Json> {
    if config.None? then [] else Groups(config.value)
  }

  /** partialHashEqual. */
  predicate PartialHashEqual(live: Option<Json>, submitted: Option<Json>) {
    var n := |GroupsOpt(live)|;
    n < |GroupsOpt(submitted)| && NormalOpt(live) == Normal(Truncated(submitted.value, n))
  }

  /** y is x with at least one worker group appended to x's list. */
  predicate Appends(x: Json, y: Json) {
    && HasGroups(x) && HasGroups(y)
    && |Groups(x)| < |Groups(y)|
    && x == Truncated(y, |Groups(x)|)
  }

  lemma NormalGroups(config: Json)
    ensures HasGroups(Normal(config)) == HasGroups(config)
    ensures Groups(Normal(config)) == EditList(Normalizing, Groups(config))
  {
    var headed := EditHead(Normalizing, config);
    if Child(config, Key(HEAD)).Some? {
      EditedHead(Normalizing, config);
    }
    HasGroupsAfter(Normalizing, headed);
    var grouped := EditGroups(Normalizing, headed);
    if grouped.Obj? {
      RootEdits(grouped, UPGRADE, NULL);
    }
  }

  /** Truncating commutes with normalizing. */
  lemma TruncateNormal(config: Json, n: nat)
    requires HasGroups(config) && n <= |Groups(config)|
    ensures HasGroups(Normal(config)) && n <= |Groups(Normal(config))|
    ensures Normal(Truncated(config, n)) == Truncated(Normal(config), n)
  {
    NormalGroups(config);
    var cut := Truncated(config, n);
    NormalGroups(cut);
    assert EditList(Normalizing, Groups(config)[..n]) == EditList(Normalizing, Groups(config))[..n];
    NormalFields(config);
    NormalFields(cut);
    forall k ensures Child(Normal(cut), Key(k)) == Child(Truncated(Normal(config), n), Key(k)) {
      NormalChild(config, k);
      NormalChild(cut, k);
    }
    forall s ensures Child(Normal(cut), s) == Child(Truncated(Normal(config), n), s) {
      if s.Key? {
        assert Child(Normal(cut), Key(s.key)) == Child(Truncated(Normal(config), n), Key(s.key));
      }
    }
    SameChildren(Normal(cut), Truncated(Normal(config), n));
  }

  lemma NormalFields(config: Json)
    requires config.Obj?
    ensures Normal(config).Obj?
  {
    NormalChild(config, "");
  }

  /** Every member of a normal form is a function of the same member of the config. */
  lemma NormalChild(config: Json, k: string)
    requires config.Obj?
    ensures Normal(config).Obj?
    ensures Child(Normal(config), Key(k))
         == if k == UPGRADE then None
            else match Child(config, Key(k))
                 case None => None
                 case Some(c) =>
                   if k == HEAD then Some(ZeroPodExclusions(c))
                   else if k == WORKERS && c.Arr? then Some(Arr(EditList(Normalizing, c.elems)))
                   else Some(c)
  {
    var headed := EditHead(Normalizing, config);
    if Child(config, Key(HEAD)).Some? {
      EditedHead(Normalizing, config);
    }
    HasGroupsAfter(Normalizing, headed);
    if HasGroups(headed) {
      RootEdits(headed, WORKERS, Arr(EditList(Normalizing, Groups(headed))));
    }
    RootEdits(EditGroups(Normalizing, headed), UPGRADE, NULL);
  }

  /** The tier holds exactly when both configs carry a worker-group list and the submitted normal
      form is the live one with a non-empty suffix of groups. */
  lemma PartialHashEqualIff(live: Option<Json>, submitted: Option<Json>)
    ensures PartialHashEqual(live, submitted)
       <==> live.Some? && submitted.Some? && Appends(Normal(live.value), Normal(submitted.value))
  {
    if live.Some? {
      NormalGroups(live.value);
    }
    if submitted.Some? {
      NormalGroups(submitted.value);
      var n := |GroupsOpt(live)|;
      if n < |GroupsOpt(submitted)| {
        TruncateNormal(submitted.value, n);
        assert HasGroups(Normal(Truncated(submitted.value, n)));
      }
    }
  }

  /** Appending is a strict order, and it only looks at normal forms. */
  lemma AppendsIsStrictOrder(x: Option<Json>, y: Option<Json>, z: Option<Json>)
    ensures !PartialHashEqual(x, x)
    ensures PartialHashEqual(x, y) ==> NormalOpt(x) != NormalOpt(y) && !PartialHashEqual(y, x)
    ensures PartialHashEqual(x, y) && PartialHashEqual(y, z) ==> PartialHashEqual(x, z)
    ensures x.Some? && y.Some? && z.Some? && Normal(x.value) == Normal(z.value)
            ==> PartialHashEqual(x, y) == PartialHashEqual(z, y) && PartialHashEqual(y, x) == PartialHashEqual(y, z)
  {
    PartialHashEqualIff(x, x);
    PartialHashEqualIff(x, y);
    PartialHashEqualIff(y, x);
    PartialHashEqualIff(y, z);
    PartialHashEqualIff(x, z);
    PartialHashEqualIff(z, y);
    if PartialHashEqual(x, y) && PartialHashEqual(y, z) {
      AppendsTransitive(Normal(x.value), Normal(y.value), Normal(z.value));
    }
  }

  lemma AppendsTransitive(x: Json, y: Json, z: Json)
    requires Appends(x, y) && Appends(y, z)
    ensures Appends(x, z)
  {
    var n := |Groups(x)|;
    assert Groups(y) == Groups(z)[..|Groups(y)|];
    assert Groups(y)[..n] == Groups(z)[..n];
    assert x.fields == z.fields[WORKERS := Arr(Groups(z)[..n])];
  }

  // ---- classifyServiceUpdate

  datatype Prediction =
    | Unknown
    | InPlaceServe           // "in-place"
    | InPlaceAppend          // "in-place cluster update (worker group added, no swap)"
    | Swap                   // "zero-downtime-swap"
    | SwapUnlessDisabled     // the hedge for upgradeStrategy.type None
    | SwapByOperatorDefault  // the hedge for an unset upgradeStrategy.type
    | ScaleNoSwap            // "scale (no swap)"
    | NoChange               // "no change detected"

  function ConfigOf(spec: Json): Option<Json> {
    match Child(spec, Key("rayClusterConfig"))
    case Some(Obj(fields)) => Some(Obj(fields))
    case _ => None
  }

  function StringMember(j: Json, k: string): string {
    StringOf(Child(j, Key(k)))
  }

  /** upgradeStrategyType. */
  function StrategyType(spec: Json): string {
    match Child(spec, Key(UPGRADE))
    case Some(Obj(fields)) => StringMember(Obj(fields), "type")
    case _ => ""
  }

  /** strings.ToLower, as far as the comparison with "none" needs it: ASCII letters. */
  function ToLower(s: string): string {
    if s == "" then ""
    else [if 'A' <= s[0] <= 'Z' then s[0] - 'A' + 'a' else s[0]] + ToLower(s[1..])
  }

  /** classifyClusterChange. */
  function ClusterChange(spec: Json): Prediction {
    var t := ToLower(StrategyType(spec));
    if t == "none" then SwapUnlessDisabled
    else if t == "" then SwapByOperatorDefault
    else Swap
  }

  predicate IsSwap(p: Prediction) {
    p.Swap? || p.SwapUnlessDisabled? || p.SwapByOperatorDefault?
  }

  /** Which hedge is attached: none spelled in any case, unset (or not a string), or anything else. */
  lemma ClusterChangeByStrategy(spec: Json)
    ensures var t, p := StrategyType(spec), ClusterChange(spec);
            && (p == SwapByOperatorDefault <==> t == "")
            && (p == SwapUnlessDisabled <==> |t| == 4 && t[0] in "nN" && t[1] in "oO" && t[2] in "nN" && t[3] in "eE")
            && IsSwap(p)
  {
    LowerAt(StrategyType(spec));
  }

  lemma {:induction false} LowerAt(s: string)
    ensures |ToLower(s)| == |s|
    ensures forall i | 0 <= i < |s| :: ToLower(s)[i] == if 'A' <= s[i] <= 'Z' then s[i] - 'A' + 'a' else s[i]
  {
    if s != "" {
      LowerAt(s[1..]);
    }
  }

  /** classifyServiceUpdate.  None stands for a nil spec map, or a nil config map inside a spec:
      DeepEqual tells a nil config from an empty one. */
  function Classified(live: Option<Json>, submitted: Option<Json>): Prediction {
    if live.None? || submitted.None? then Unknown
    else
      var lc, sc := ConfigOf(live.value), ConfigOf(submitted.value);
      if NormalOpt(lc) != NormalOpt(sc) then
        if PartialHashEqual(lc, sc) then InPlaceAppend else ClusterChange(submitted.value)
      else if StringMember(live.value, "serveConfigV2") != StringMember(submitted.value, "serveConfigV2") then InPlaceServe
      else if lc != sc then ScaleNoSwap
      else NoChange
  }

  /** A change confined to what the hash excludes is never predicted to swap the cluster or to
      update it in place. */
  lemma ExcludedChangeNeverSwaps(live: Json, submitted: Json)
    requires ConfigOf(live).Some? && ConfigOf(submitted).Some?
    requires forall q :: Visible(ConfigOf(live).value, q) == Visible(ConfigOf(submitted).value, q)
    ensures var p := Classified(Some(live), Some(submitted));
            p.InPlaceServe? || p.ScaleNoSwap? || p.NoChange?
  {
    NormalEqualIff(ConfigOf(live).value, ConfigOf(submitted).value);
  }

  /** A change the hash sees is always predicted to reach the cluster: by a swap, or, exactly
      when groups were only appended, in place. */
  lemma VisibleChangeReachesCluster(live: Json, submitted: Json, q: Path)
    requires ConfigOf(live).Some? && ConfigOf(submitted).Some?
    requires Visible(ConfigOf(live).value, q) != Visible(ConfigOf(submitted).value, q)
    ensures Classified(Some(live), Some(submitted))
         == if Appends(Normal(ConfigOf(live).value), Normal(ConfigOf(submitted).value)) then InPlaceAppend
            else ClusterChange(submitted)
    ensures IsSwap(ClusterChange(submitted))
  {
    NormalEqualIff(ConfigOf(live).value, ConfigOf(submitted).value);
    PartialHashEqualIff(ConfigOf(live), ConfigOf(submitted));
  }
}
