/** normalizeForHash as a projection: which paths of a cluster config count for the operator's
    hash, normal forms, and the "worker groups appended" relation between configs. */
module Normalize {
  import opened Json
  import opened Edits
  import opened GroupEdits

  const UPGRADE := "upgradeStrategy"

  /** normalizeForHash of a present config. */
  function Normal(config: Json): Json {
    DeleteAt(EditGroups(Normalizing, EditHead(Normalizing, config)), [], UPGRADE)
  }

  /** normalizeForHash; a missing config normalizes to an empty object. */
  function NormalOpt(config: Option<Json>): Json {
    if config.None? then Obj(map[]) else Normal(config.value)
  }

  // ---- What the hash sees

  /** Path q of the config is excluded from the hash comparison. */
  predicate Excluded(config: Json, q: Path) {
    || [Key(UPGRADE)] <= q
    || (q != [] && q[0] == Key(HEAD) && PodExcluded(q[1..]))
    || (InGroup(q) && Get(config, q[..2]).Some? && GroupExcluded(Get(config, q[..2]).value, q[2..]))
  }

  /** The label at q as the comparison sees it. */
  function Visible(config: Json, q: Path): Option<Json> {
    if Excluded(config, q) then None else At(config, q)
  }

  lemma AtNormal(config: Json, q: Path)
    ensures At(Normal(config), q) == Visible(config, q)
  {
    var headed := EditHead(Normalizing, config);
    AtDelete(EditGroups(Normalizing, headed), [], UPGRADE, q);
    assert [] + [Key(UPGRADE)] == [Key(UPGRADE)];
    AtEditGroups(Normalizing, headed, q);
    if InGroup(q) {
      AtEditHead(Normalizing, config, q);
      HeadLeavesGroups(config, q);
      if Get(config, q[..2]).Some? {
        AtNormalizeGroup(Get(config, q[..2]).value, q[2..]);
        GroupAtPath(config, q);
      }
    } else {
      AtHeaded(config, q);
    }
  }

  lemma AtHeaded(config: Json, q: Path)
    ensures At(EditHead(Normalizing, config), q)
         == if q != [] && q[0] == Key(HEAD) && PodExcluded(q[1..]) then None else At(config, q)
  {
    AtEditHead(Normalizing, config, q);
    if Child(config, Key(HEAD)).Some? {
      EditedHead(Normalizing, config);
      if q != [] && q[0] == Key(HEAD) {
        AtZeroPod(Child(config, Key(HEAD)).value, q[1..]);
      }
    }
  }

  lemma HeadLeavesGroups(config: Json, q: Path)
    requires InGroup(q)
    ensures Get(EditHead(Normalizing, config), q[..2]) == Get(config, q[..2])
  {
    assert q[..2][0] == Key(WORKERS);
    if Child(config, Key(HEAD)).Some? {
      RootEdits(config, HEAD, ZeroPodExclusions(Child(config, Key(HEAD)).value));
    }
  }

  /** Two configs normalize to the same value exactly when they agree at every path the hash sees. */
  lemma NormalEqualIff(x: Json, y: Json)
    ensures Normal(x) == Normal(y) <==> forall q :: Visible(x, q) == Visible(y, q)
  {
    forall q ensures At(Normal(x), q) == Visible(x, q) && At(Normal(y), q) == Visible(y, q) {
      AtNormal(x, q);
      AtNormal(y, q);
    }
    if forall q :: Visible(x, q) == Visible(y, q) {
      forall q ensures At(Normal(x), q) == At(Normal(y), q) {
        assert Visible(x, q) == Visible(y, q);
      }
      Extensional(Normal(x), Normal(y));
    }
  }

  /** A normal form contains nothing that is excluded. */
  lemma NormalNothingExcluded(config: Json, q: Path)
    requires Excluded(Normal(config), q)
    ensures At(Normal(config), q) == None
  {
    AtNormal(config, q);
    if !Excluded(config, q) {
      assert InGroup(q) && Get(Normal(config), q[..2]).Some?;
      var n := Get(Normal(config), q[..2]).value;
      NormalGroupAt(config, q);
      var g := Get(config, q[..2]).value;
      assert !GroupExcluded(g, q[2..]);
      NormalizedNoHusk(g);
    }
  }

  lemma NormalGroupAt(config: Json, q: Path)
    requires InGroup(q)
    ensures Get(Normal(config), q[..2])
         == if Get(config, q[..2]).Some? then Some(NormalizeGroup(Get(config, q[..2]).value)) else None
  {
    var headed := EditHead(Normalizing, config);
    var grouped := EditGroups(Normalizing, headed);
    HeadLeavesGroups(config, q);
    HasGroupsAfter(Normalizing, headed);
    GroupAtPath(headed, q);
    GroupAtPath(grouped, q);
    GroupAtPath(Normal(config), q);
    if grouped.Obj? {
      RootEdits(grouped, UPGRADE, NULL);
    }
  }

  /** Normalizing is idempotent. */
  lemma NormalIdempotent(config: Json)
    ensures Normal(Normal(config)) == Normal(config)
  {
    forall q ensures At(Normal(Normal(config)), q) == At(Normal(config), q) {
      AtNormal(Normal(config), q);
      if Excluded(Normal(config), q) {
        NormalNothingExcluded(config, q);
      }
    }
    Extensional(Normal(Normal(config)), Normal(config));
  }
}
