/**
 * What the POP jobs do to the tables: the set-up they share, the claim of a
 * free /16, and each run on a new site and on a site that already exists.
 */
module JobProperties {
  import opened Wrappers
  import opened Ipv4
  import opened Ipam
  import opened Jobs
  import Orm
  import DataSetup

  // ---------------------------------------------------------------------------
  // Set-up
  // ---------------------------------------------------------------------------

  /**
   * After a set-up that raised nothing, the prefix roles and the tenant exist,
   * each listed VLAN id names exactly one VLAN, and every definition's
   * manufacturer, device type and templates exist.
   */
  lemma SetupEffects(t: Tables, defs: seq<DataSetup.DeviceTypeDef>)
    requires Setup(t, defs).1.None?
    ensures var s := Setup(t, defs).0;
      && (forall n :: n in DataSetup.PREFIX_ROLES ==> n in s.roles)
      && DataSetup.TENANT_NAME in s.tenants
      && (forall k :: 0 <= k < |DataSetup.VLAN_INFO| ==> Orm.Count(s.vlans, DataSetup.VidIs(DataSetup.VLAN_INFO[k].1)) == 1)
      && (forall k :: 0 <= k < |defs| ==> DataSetup.Applied(s.catalog, defs[k]))
  {
    var roles := DataSetup.EnsureNames(t.roles, DataSetup.PREFIX_ROLES);
    DataSetup.PrefixRolesPresent(t.roles);
    DataSetup.EnsureNamesPresent(t.tenants, [DataSetup.TENANT_NAME], DataSetup.TENANT_NAME);
    assert DataSetup.DistinctVids(DataSetup.VLAN_INFO);
    DataSetup.EnsureVlansFound(t.vlans, roles, DataSetup.VLAN_INFO);
    DataSetup.ApplyDefinitionsApplied(t.catalog, defs);
  }

  /** A second set-up after one that raised nothing creates nothing. */
  lemma SetupIdempotent(t: Tables, defs: seq<DataSetup.DeviceTypeDef>)
    requires Setup(t, defs).1.None?
    ensures Setup(Setup(t, defs).0, defs) == (Setup(t, defs).0, None)
  {
    var roles := DataSetup.EnsureNames(t.roles, DataSetup.PREFIX_ROLES);
    DataSetup.EnsureNamesIdempotent(t.roles, DataSetup.PREFIX_ROLES);
    DataSetup.EnsureNamesIdempotent(t.tenants, [DataSetup.TENANT_NAME]);
    assert DataSetup.DistinctVids(DataSetup.VLAN_INFO);
    DataSetup.EnsureVlansIdempotent(t.vlans, roles, DataSetup.VLAN_INFO);
    DataSetup.ApplyDefinitionsIdempotent(t.catalog, defs);
  }

  // ---------------------------------------------------------------------------
  // The claim
  // ---------------------------------------------------------------------------

  /** The claim puts one more prefix at the site when a free /16 exists, and none otherwise. */
  lemma ClaimCount(pool: seq<PrefixRecord>, site: nat)
    ensures Orm.Count(Claim(pool, site).0, LocatedAt(site))
         == Orm.Count(pool, LocatedAt(site)) + (if Claim(pool, site).1.Some? then 1 else 0)
  {
    var (after, i) := Claim(pool, site);
    if i.Some? {
      var x := pool[i.value].(location := Some(site));
      assert after == pool[i.value := x];
      Orm.CountUpdate(pool, LocatedAt(site), i.value, x);
    }
  }

  /** With every prefix located at an existing row, none is located at the row a new site gets. */
  lemma NoneAtNewSite(t: Tables)
    requires Consistent(t)
    ensures forall j :: 0 <= j < |t.prefixes| ==> !LocatedAt(|t.locations|)(t.prefixes[j])
  {
  }

  // ---------------------------------------------------------------------------
  // Day 1
  // ---------------------------------------------------------------------------

  /**
   * Re-running day 1 with the same inputs finds the site, creates no location,
   * and still claims a further free /16 for it whenever one is left.
   */
  lemma Day1RerunClaimsAgain(t: Tables, a: SiteArgs)
    requires Day1(t, a).1.None?
    requires exists j :: 0 <= j < |Day1(t, a).0.prefixes| && FreePop(Day1(t, a).0.prefixes[j])
    ensures Orm.GetOrCreate(t.locations, SiteIs(SiteLookup(a, Any)), NewSite(SiteLookup(a, Any))).Ok?
    ensures var site := Orm.GetOrCreate(t.locations, SiteIs(SiteLookup(a, Any)), NewSite(SiteLookup(a, Any))).value.1;
      var t1 := Day1(t, a).0;
      var t2 := Day1(t1, a).0;
      && Day1(t1, a).1.None? && t2.locations == t1.locations
      && Orm.Count(t2.prefixes, LocatedAt(site)) == Orm.Count(t1.prefixes, LocatedAt(site)) + 1
  {
    var q := SiteLookup(a, Any);
    var g := Orm.GetOrCreate(t.locations, SiteIs(q), NewSite(q));
    assert g.Ok?;
    var (after, site, _) := g.value;
    Orm.GetOrCreateIdempotent(t.locations, SiteIs(q), NewSite(q));
    var t1 := Day1(t, a).0;
    assert t1.locations == after;
    ClaimCount(t1.prefixes, site);
  }

  /** The intended day 1 changes nothing on a re-run. */
  lemma Day1FixedRerun(t: Tables, a: SiteArgs)
    requires Day1Fixed(t, a).1.None?
    ensures Day1Fixed(Day1Fixed(t, a).0, a) == (Day1Fixed(t, a).0, None)
  {
    var q := SiteLookup(a, Any);
    var g := Orm.GetOrCreate(t.locations, SiteIs(q), NewSite(q));
    assert g.Ok?;
    Orm.GetOrCreateIdempotent(t.locations, SiteIs(q), NewSite(q));
    DataSetup.EnsureNamesIdempotent(t.roles, DataSetup.PREFIX_ROLES);
  }

  /** The intended day 1 claims a /16 only for a site it creates, at most one per site. */
  lemma Day1FixedClaimsOnce(t: Tables, a: SiteArgs)
    requires Day1Fixed(t, a).1.None?
    ensures Orm.GetOrCreate(t.locations, SiteIs(SiteLookup(a, Any)), NewSite(SiteLookup(a, Any))).Ok?
    ensures var (_, site, created) := Orm.GetOrCreate(t.locations, SiteIs(SiteLookup(a, Any)), NewSite(SiteLookup(a, Any))).value;
      Orm.Count(Day1Fixed(t, a).0.prefixes, LocatedAt(site)) <= Orm.Count(t.prefixes, LocatedAt(site)) + (if created then 1 else 0)
  {
    var q := SiteLookup(a, Any);
    var g := Orm.GetOrCreate(t.locations, SiteIs(q), NewSite(q));
    assert g.Ok?;
    ClaimCount(t.prefixes, g.value.1);
  }

  // ---------------------------------------------------------------------------
  // Day 3
  // ---------------------------------------------------------------------------

  /** No location of the table has the site's name. */
  predicate NewName(t: Tables, name: string) {
    forall j :: 0 <= j < |t.locations| ==> t.locations[j].name != name
  }

  /** A new name creates the site as the last location, found by name afterwards. */
  lemma NewSiteCreated(t: Tables, q: SiteLookup)
    requires NewName(t, q.args.name)
    ensures Orm.GetOrCreate(t.locations, SiteIs(q), NewSite(q)) == Ok((t.locations + [NewSite(q)], |t.locations|, true))
    ensures Orm.Get(t.locations + [NewSite(q)], NameIs(q.args.name)) == Ok(|t.locations|)
  {
    var locations := t.locations + [NewSite(q)];
    Orm.CountZero(t.locations, SiteIs(q));
    Orm.CountExactlyOne(locations, NameIs(q.args.name), |t.locations|);
  }

  /**
   * For a site that already exists, day 3 never completes and leaves the
   * locations and the prefixes as they were: `pop_prefix` is never bound.
   */
  lemma Day3ExistingSite(t: Tables, a: SiteArgs)
    requires Orm.Count(t.locations, SiteIs(SiteLookup(a, Any))) == 1
    ensures Day3(t, a).0 == t.(roles := DataSetup.EnsureNames(t.roles, DataSetup.PREFIX_ROLES))
    ensures Day3(t, a).1.Some?
  {
    Orm.CountZero(t.locations, SiteIs(SiteLookup(a, Any)));
  }

  /** Re-running a day-3 run that went through changes nothing and raises. */
  lemma Day3Rerun(t: Tables, a: SiteArgs)
    requires Day3(t, a).1.None?
    ensures Day3(Day3(t, a).0, a).0 == Day3(t, a).0
    ensures Day3(Day3(t, a).0, a).1.Some?
  {
    var q := SiteLookup(a, Any);
    var g := Orm.GetOrCreate(t.locations, SiteIs(q), NewSite(q));
    assert g.Ok?;
    var t1 := Day3(t, a).0;
    assert t1.locations == g.value.0;
    Orm.CountExactlyOne(g.value.0, SiteIs(q), g.value.1);
    Day3ExistingSite(t1, a);
    DataSetup.EnsureNamesIdempotent(t.roles, DataSetup.PREFIX_ROLES);
  }

  /**
   * A new site with no free /16 left gets no prefix, and the split of its
   * (missing) first prefix raises: `IPv4Network("None")`.
   */
  lemma Day3NoFreePop(t: Tables, a: SiteArgs)
    requires Consistent(t) && NewName(t, a.name)
    requires forall j :: 0 <= j < |t.prefixes| ==> !FreePop(t.prefixes[j])
    ensures Day3(t, a) == (t.(roles := DataSetup.EnsureNames(t.roles, DataSetup.PREFIX_ROLES),
                              locations := t.locations + [NewSite(SiteLookup(a, Any))]), Some(NoSitePrefix))
  {
    NewSiteCreated(t, SiteLookup(a, Any));
    NoneAtNewSite(t);
  }

  /**
   * A new site claims the first free /16, finds it as its first prefix, and
   * the four /18 role prefixes inside it are appended, when no /18 inside it
   * is in the table yet.
   */
  lemma Day3NewSite(t: Tables, a: SiteArgs)
    requires Consistent(t) && NewName(t, a.name)
    requires Orm.First(t.prefixes, FreePop).Some?
    requires var pop := t.prefixes[Orm.First(t.prefixes, FreePop).value].prefix;
      pop.Valid() && NoQuarterIn(t.prefixes, pop)
    ensures var pop := t.prefixes[Orm.First(t.prefixes, FreePop).value].prefix;
      var site := |t.locations|;
      var quarters := Subnets(pop, ROLE_PREFIX_SIZE);
      && quarters.Ok? && |quarters.value| == 4
      && Day3(t, a) == (t.(roles := DataSetup.EnsureNames(t.roles, DataSetup.PREFIX_ROLES),
                           locations := t.locations + [NewSite(SiteLookup(a, Any))],
                           prefixes := Claim(t.prefixes, site).0 + SiteRecords(quarters.value, pop, site)), None)
  {
    var site := |t.locations|;
    var pop := t.prefixes[Orm.First(t.prefixes, FreePop).value].prefix;
    Day3ClaimStep(t, a);
    ClaimKeepsPrefixes(t.prefixes, site, pop);
    SplitSitePrefixFresh(Claim(t.prefixes, site).0, pop, site);
  }

  /** For a new site with a free /16, day 3 is the claim followed by the split of the claimed /16. */
  lemma Day3ClaimStep(t: Tables, a: SiteArgs)
    requires Consistent(t) && NewName(t, a.name)
    requires Orm.First(t.prefixes, FreePop).Some?
    ensures var i := Orm.First(t.prefixes, FreePop).value;
      var pop := t.prefixes[i].prefix;
      var site := |t.locations|;
      var split := SplitSitePrefix(Claim(t.prefixes, site).0, Some(pop), Some(Some(pop)), site);
      var r := Day3(t, a);
      r.0.locations == t.locations + [NewSite(SiteLookup(a, Any))] && r.0.prefixes == split.0 && r.1 == split.1
  {
    var site := |t.locations|;
    var i := Orm.First(t.prefixes, FreePop).value;
    var pool := Claim(t.prefixes, site).0;
    NewSiteCreated(t, SiteLookup(a, Any));
    NoneAtNewSite(t);
    assert pool == t.prefixes[i := t.prefixes[i].(location := Some(site))];
    assert Orm.First(pool, LocatedAt(site)) == Some(i);
  }

  // ---------------------------------------------------------------------------
  // Day 37 and day 38
  // ---------------------------------------------------------------------------

  /** The set-up reads and writes neither the locations nor the prefixes. */
  lemma SetupFrame(t: Tables, defs: seq<DataSetup.DeviceTypeDef>, locations: seq<Location>, prefixes: seq<PrefixRecord>)
    ensures Setup(t.(locations := locations, prefixes := prefixes), defs)
         == (Setup(t, defs).0.(locations := locations, prefixes := prefixes), Setup(t, defs).1)
  {
  }

  /**
   * For a site that already exists, the run raises at the split, `pop_prefix`
   * never having been bound, after the set-up and before any prefix.
   */
  lemma CreatePopExistingSite(t: Tables, a: SiteArgs, tenant: Option<nat>, firstAvail: Option<Prefix>, defs: seq<DataSetup.DeviceTypeDef>)
    requires Setup(t, defs).1.None?
    requires Orm.Count(t.locations, SiteIs(SiteLookup(a, Is(tenant)))) == 1
    ensures CreatePop(t, a, tenant, firstAvail, defs) == (Setup(t, defs).0, Some(UnboundPopPrefix))
  {
    Orm.CountZero(t.locations, SiteIs(SiteLookup(a, Is(tenant))));
  }

  /** Re-running a run that went through creates nothing and raises. */
  lemma CreatePopRerun(t: Tables, a: SiteArgs, tenant: Option<nat>, firstAvail: Option<Prefix>, defs: seq<DataSetup.DeviceTypeDef>)
    requires CreatePop(t, a, tenant, firstAvail, defs).1.None?
    ensures var after := CreatePop(t, a, tenant, firstAvail, defs).0;
      CreatePop(after, a, tenant, firstAvail, defs) == (after, Some(UnboundPopPrefix))
  {
    var after := CreatePop(t, a, tenant, firstAvail, defs).0;
    var q := SiteLookup(a, Is(tenant));
    var g := Orm.GetOrCreate(t.locations, SiteIs(q), NewSite(q));
    assert Setup(t, defs).1.None? && g.Ok?;
    var t1 := Setup(t, defs).0;
    assert after == t1.(locations := after.locations, prefixes := after.prefixes);
    SetupIdempotent(t, defs);
    SetupFrame(t1, defs, after.locations, after.prefixes);
    Orm.CountExactlyOne(g.value.0, SiteIs(q), g.value.1);
    CreatePopExistingSite(after, a, tenant, firstAvail, defs);
  }

  /** For a new site the run is the POP search followed by the split of the POP found. */
  lemma CreatePopNewSite(t: Tables, a: SiteArgs, tenant: Option<nat>, firstAvail: Option<Prefix>, defs: seq<DataSetup.DeviceTypeDef>)
    requires Setup(t, defs).1.None? && Orm.Count(t.locations, SiteIs(SiteLookup(a, Is(tenant)))) == 0
    requires FindPop(t.prefixes, |t.locations|, firstAvail).Ok?
    ensures var (pool, pop) := FindPop(t.prefixes, |t.locations|, firstAvail).value;
      var split := SplitPop(pool, Some(pop), |t.locations|, tenant);
      CreatePop(t, a, tenant, firstAvail, defs)
        == (Setup(t, defs).0.(locations := t.locations + [NewSite(SiteLookup(a, Is(tenant)))], prefixes := split.0), split.1)
  {
    Orm.CountZero(t.locations, SiteIs(SiteLookup(a, Is(tenant))));
  }

  /**
   * A new site claims the first free /16, and the four /18 role prefixes
   * inside it are appended, when no /18 inside it is in the table yet.
   */
  lemma CreatePopClaimed(t: Tables, a: SiteArgs, tenant: Option<nat>, firstAvail: Option<Prefix>, defs: seq<DataSetup.DeviceTypeDef>)
    requires Setup(t, defs).1.None? && Orm.Count(t.locations, SiteIs(SiteLookup(a, Is(tenant)))) == 0
    requires Orm.First(t.prefixes, FreePop).Some?
    requires var pop := t.prefixes[Orm.First(t.prefixes, FreePop).value].prefix;
      pop.Valid() && NoQuarterIn(t.prefixes, pop)
    ensures var pop := t.prefixes[Orm.First(t.prefixes, FreePop).value].prefix;
      var site := |t.locations|;
      var quarters := Subnets(pop, ROLE_PREFIX_SIZE);
      && quarters.Ok? && |quarters.value| == 4
      && CreatePop(t, a, tenant, firstAvail, defs)
         == (Setup(t, defs).0.(locations := t.locations + [NewSite(SiteLookup(a, Is(tenant)))],
                               prefixes := Claim(t.prefixes, site).0 + PopRecords(quarters.value, pop, site, tenant)), None)
  {
    var site := |t.locations|;
    var pop := t.prefixes[Orm.First(t.prefixes, FreePop).value].prefix;
    assert FindPop(t.prefixes, site, firstAvail) == Ok((Claim(t.prefixes, site).0, pop));
    CreatePopNewSite(t, a, tenant, firstAvail, defs);
    ClaimKeepsPrefixes(t.prefixes, site, pop);
    SplitPopFresh(Claim(t.prefixes, site).0, pop, site, tenant);
  }

  /**
   * A new site with no free /16 left gets the first /16 of the /8's free block
   * that is not in the table, as a new `pop` container at the site, followed
   * by its four role prefixes.
   */
  lemma CreatePopAllocated(t: Tables, a: SiteArgs, tenant: Option<nat>, firstAvail: Prefix, defs: seq<DataSetup.DeviceTypeDef>)
    requires Setup(t, defs).1.None? && Orm.Count(t.locations, SiteIs(SiteLookup(a, Is(tenant)))) == 0
    requires forall j :: 0 <= j < |t.prefixes| ==> !FreePop(t.prefixes[j])
    requires firstAvail.Valid() && firstAvail.length <= POP_PREFIX_SIZE
    requires Allocate(t.prefixes, |t.locations|, Some(firstAvail)).Ok?
    requires NoQuarterIn(t.prefixes, Allocate(t.prefixes, |t.locations|, Some(firstAvail)).value.1)
    ensures var pop := Allocate(t.prefixes, |t.locations|, Some(firstAvail)).value.1;
      firstAvail.network <= pop.network && pop.End() <= firstAvail.End() && !Taken(t.prefixes, pop)
    ensures var pop := Allocate(t.prefixes, |t.locations|, Some(firstAvail)).value.1;
      var site := |t.locations|;
      var quarters := Subnets(pop, ROLE_PREFIX_SIZE);
      && quarters.Ok? && |quarters.value| == 4
      && CreatePop(t, a, tenant, Some(firstAvail), defs)
         == (Setup(t, defs).0.(locations := t.locations + [NewSite(SiteLookup(a, Is(tenant)))],
                               prefixes := t.prefixes + [PrefixRecord(pop, Container, Orm.ACTIVE, Some("pop"), Some(site), None, None)]
                                           + PopRecords(quarters.value, pop, site, tenant)), None)
  {
    var site := |t.locations|;
    AllocateLowestAbsent(t.prefixes, site, firstAvail);
    var (pool, pop) := Allocate(t.prefixes, site, Some(firstAvail)).value;
    assert FindPop(t.prefixes, site, Some(firstAvail)) == Ok((pool, pop));
    CreatePopNewSite(t, a, tenant, Some(firstAvail), defs);
    AllocateKeepsPrefixes(t.prefixes, site, firstAvail, pop);
    SplitPopFresh(pool, pop, site, tenant);
  }
}
