/**
 * The `run` methods of the POP jobs over the Nautobot tables they touch: the
 * day-1 `CreatePop1` job, the day-3 `CreatePop` job and the day-37/38
 * `CreatePop` job. Each step of a run is a method on `Nautobot` proved against
 * a function of the tables before it; the lemmas below are about those
 * functions. Jobs are not atomic: rows written before an exception stay.
 */
module Jobs {
  import opened Wrappers
  import opened Ipv4
  import opened Ipam
  import Orm
  import DataSetup
  import InterfacePattern

  /** A row of the location table; the parent and the tenant are row numbers. */
  datatype Location = Location(
    name: string,
    locationType: string,
    facility: string,
    status: string,
    parent: Option<nat>,
    tenant: Option<nat>)

  /** The job's site inputs. */
  datatype SiteArgs = SiteArgs(locationType: string, name: string, facility: string, parent: Option<nat>)

  /**
   * The keyword arguments of `Location.objects.get_or_create(...)`: the site
   * inputs, status Active and, from day 37 on, the tenant.
   */
  datatype SiteLookup = SiteLookup(args: SiteArgs, tenant: Field<Option<nat>>)

  predicate SiteMatches(q: SiteLookup, l: Location) {
    && l.name == q.args.name && l.locationType == q.args.locationType && l.facility == q.args.facility
    && l.status == Orm.ACTIVE && l.parent == q.args.parent && Fits(q.tenant, l.tenant)
  }

  function SiteIs(q: SiteLookup): Location -> bool {
    (l: Location) => SiteMatches(q, l)
  }

  function NewSite(q: SiteLookup): (l: Location)
    ensures SiteMatches(q, l) && l.name == q.args.name
  {
    Location(q.args.name, q.args.locationType, q.args.facility, Orm.ACTIVE, q.args.parent, Given(q.tenant, None))
  }

  function NameIs(name: string): Location -> bool {
    (l: Location) => l.name == name
  }

  /** The prefixes whose location is the site (`site.prefixes`). */
  function LocatedAt(site: nat): PrefixRecord -> bool {
    (r: PrefixRecord) => r.location == Some(site)
  }

  /** The tables the jobs read and write. */
  datatype Tables = Tables(
    roles: seq<string>,
    tenants: seq<string>,
    locations: seq<Location>,
    prefixes: seq<PrefixRecord>,
    vlans: seq<DataSetup.Vlan>,
    catalog: DataSetup.Catalog)

  /** Every prefix's location is a row of the location table. */
  predicate Consistent(t: Tables) {
    forall j :: 0 <= j < |t.prefixes| && t.prefixes[j].location.Some? ==> t.prefixes[j].location.value < |t.locations|
  }

  // ---------------------------------------------------------------------------
  // The steps of a run, as functions of the tables before them
  // ---------------------------------------------------------------------------

  /**
   * The day-37/38 set-up: `create_prefix_roles`, `create_tenant`,
   * `create_vlans`, `create_device_types`. A VLAN lookup that raises ends the
   * run before the device types.
   */
  function Setup(t: Tables, defs: seq<DataSetup.DeviceTypeDef>): (r: (Tables, Option<JobError>))
    ensures r.0.locations == t.locations && r.0.prefixes == t.prefixes
  {
    var roles := DataSetup.EnsureNames(t.roles, DataSetup.PREFIX_ROLES);
    var tenants := DataSetup.EnsureNames(t.tenants, [DataSetup.TENANT_NAME]);
    var (vlans, e) := DataSetup.EnsureVlans(t.vlans, roles, DataSetup.VLAN_INFO);
    var t1 := t.(roles := roles, tenants := tenants, vlans := vlans);
    if e.Some? then (t1, Some(Db(e.value)))
    else (t1.(catalog := DataSetup.ApplyDefinitions(t.catalog, defs)), None)
  }

  /** The POP prefix a claim took, if it took one. */
  function ClaimedPop(pool: seq<PrefixRecord>, site: nat): (r: Option<Prefix>)
    ensures r.Some? <==> Claim(pool, site).1.Some?
    ensures r.Some? ==> r.value == pool[Claim(pool, site).1.value].prefix
  {
    match Claim(pool, site).1
    case None => None
    case Some(i) => Some(pool[i].prefix)
  }

  /** Day 37/38, new site: claim a free /16, or else carve one out of the /8. */
  function FindPop(pool: seq<PrefixRecord>, site: nat, firstAvail: Option<Prefix>): (r: Result<(seq<PrefixRecord>, Prefix), JobError>)
  {
    match ClaimedPop(pool, site)
    case Some(pop) => Ok((Claim(pool, site).0, pop))
    case None => Allocate(pool, site, firstAvail)
  }

  /** The day-1 run. The claim runs whether or not the site was created. */
  function Day1(t: Tables, a: SiteArgs): (r: (Tables, Option<JobError>))
  {
    var t1 := t.(roles := DataSetup.EnsureNames(t.roles, DataSetup.PREFIX_ROLES));
    var q := SiteLookup(a, Any);
    match Orm.GetOrCreate(t1.locations, SiteIs(q), NewSite(q))
    case Err(e) => (t1, Some(Db(e)))
    case Ok((locations, site, _)) => (t1.(locations := locations, prefixes := Claim(t1.prefixes, site).0), None)
  }

  /**
   * Day 1 as evidently intended, claiming only for a site the run created, as
   * day 3 and later do.
   */
  function Day1Fixed(t: Tables, a: SiteArgs): (r: (Tables, Option<JobError>))
  {
    var t1 := t.(roles := DataSetup.EnsureNames(t.roles, DataSetup.PREFIX_ROLES));
    var q := SiteLookup(a, Any);
    match Orm.GetOrCreate(t1.locations, SiteIs(q), NewSite(q))
    case Err(e) => (t1, Some(Db(e)))
    case Ok((locations, site, created)) =>
      (t1.(locations := locations, prefixes := if created then Claim(t1.prefixes, site).0 else t1.prefixes), None)
  }

  /**
   * The day-3 run: the claim only for a new site; then the site looked up by
   * name, its first prefix split into /18s, and the role prefixes created under
   * `pop_prefix` (unbound when the site already existed).
   */
  function Day3(t: Tables, a: SiteArgs): (r: (Tables, Option<JobError>))
  {
    var t1 := t.(roles := DataSetup.EnsureNames(t.roles, DataSetup.PREFIX_ROLES));
    var q := SiteLookup(a, Any);
    match Orm.GetOrCreate(t1.locations, SiteIs(q), NewSite(q))
    case Err(e) => (t1, Some(Db(e)))
    case Ok((locations, site, created)) =>
      var pool := if created then Claim(t1.prefixes, site).0 else t1.prefixes;
      var pop := if created then Some(ClaimedPop(t1.prefixes, site)) else None;
      var t2 := t1.(locations := locations, prefixes := pool);
      match Orm.Get(locations, NameIs(a.name))
      case Err(e) => (t2, Some(Db(e)))
      case Ok(found) =>
        var first := Orm.First(pool, LocatedAt(found));
        var sitePrefix := if first.Some? then Some(pool[first.value].prefix) else None;
        var split := SplitSitePrefix(pool, sitePrefix, pop, site);
        (t2.(prefixes := split.0), split.1)
  }

  /**
   * The day-37/38 run up to the role prefixes. `firstAvail` is what
   * `get_first_available_prefix()` of the first Active container /8 returns,
   * `defs` the parsed device-type definitions.
   */
  function CreatePop(t: Tables, a: SiteArgs, tenant: Option<nat>, firstAvail: Option<Prefix>, defs: seq<DataSetup.DeviceTypeDef>): (r: (Tables, Option<JobError>))
  {
    var (t1, e1) := Setup(t, defs);
    if e1.Some? then (t1, e1)
    else
      var q := SiteLookup(a, Is(tenant));
      match Orm.GetOrCreate(t1.locations, SiteIs(q), NewSite(q))
      case Err(e) => (t1, Some(Db(e)))
      case Ok((locations, site, created)) =>
        var t2 := t1.(locations := locations);
        if !created then
          var split := SplitPop(t2.prefixes, None, site, tenant);
          (t2.(prefixes := split.0), split.1)
        else match FindPop(t2.prefixes, site, firstAvail)
          case Err(e) => (t2, Some(e))
          case Ok((pool, pop)) =>
            var split := SplitPop(pool, Some(pop), site, tenant);
            (t2.(prefixes := split.0), split.1)
  }

  /**
   * Day 38 goes on to the racks, whose status lookup filters `Status` on a
   * field it does not have; that query raises whenever it is reached.
   */
  function Day38(t: Tables, a: SiteArgs, tenant: Option<nat>, firstAvail: Option<Prefix>, defs: seq<DataSetup.DeviceTypeDef>): (r: (Tables, Option<JobError>))
    ensures r.1.Some?
    ensures r.1 == Some(RackStatusQuery) <== CreatePop(t, a, tenant, firstAvail, defs).1.None?
  {
    var run := CreatePop(t, a, tenant, firstAvail, defs);
    (run.0, if run.1.Some? then run.1 else Some(RackStatusQuery))
  }

  // ---------------------------------------------------------------------------
  // The database and the jobs' steps on it
  // ---------------------------------------------------------------------------

  class Nautobot {
    var roles: seq<string>
    var tenants: seq<string>
    var locations: seq<Location>
    var prefixes: seq<PrefixRecord>
    var vlans: seq<DataSetup.Vlan>
    var catalog: DataSetup.Catalog

    function State(): Tables
      reads this
    {
      Tables(roles, tenants, locations, prefixes, vlans, catalog)
    }

    constructor (t: Tables)
      ensures State() == t
    {
      roles, tenants, locations := t.roles, t.tenants, t.locations;
      prefixes, vlans, catalog := t.prefixes, t.vlans, t.catalog;
    }

    /** `create_prefix_roles`: `Role.objects.get_or_create(name=role)` for each role. */
    method CreatePrefixRoles()
      modifies this
      ensures State() == old(State()).(roles := DataSetup.EnsureNames(old(roles), DataSetup.PREFIX_ROLES))
    {
      for i := 0 to |DataSetup.PREFIX_ROLES|
        invariant State() == old(State()).(roles := DataSetup.EnsureNames(old(roles), DataSetup.PREFIX_ROLES[..i]))
      {
        var role := DataSetup.PREFIX_ROLES[i];
        assert DataSetup.PREFIX_ROLES[..i + 1][..i] == DataSetup.PREFIX_ROLES[..i];
        DataSetup.HasNameIn(roles, role);
        if role !in roles {
          roles := roles + [role];
        }
      }
      assert DataSetup.PREFIX_ROLES[..|DataSetup.PREFIX_ROLES|] == DataSetup.PREFIX_ROLES;
    }

    /** `create_tenant`. */
    method CreateTenant()
      modifies this
      ensures State() == old(State()).(tenants := DataSetup.EnsureNames(old(tenants), [DataSetup.TENANT_NAME]))
    {
      DataSetup.HasNameIn(tenants, DataSetup.TENANT_NAME);
      assert [DataSetup.TENANT_NAME][..0] == [];
      if DataSetup.TENANT_NAME !in tenants {
        tenants := tenants + [DataSetup.TENANT_NAME];
      }
    }

    /** `create_vlans`: one `get_or_create(vid=...)` per entry, the first that raises ending the loop. */
    method CreateVlans() returns (err: Option<Orm.OrmError>)
      modifies this
      ensures (vlans, err) == DataSetup.EnsureVlans(old(vlans), roles, DataSetup.VLAN_INFO)
      ensures State() == old(State()).(vlans := vlans)
    {
      var info := DataSetup.VLAN_INFO;
      for i := 0 to |info|
        invariant DataSetup.EnsureVlans(old(vlans), roles, info[..i]) == (vlans, None)
        invariant State() == old(State()).(vlans := vlans)
      {
        var (name, vid) := info[i];
        assert info[..i + 1][..i] == info[..i];
        var r := Orm.GetOrCreate(vlans, DataSetup.VidIs(vid), DataSetup.NewVlan(name, vid, roles));
        if r.Err? {
          DataSetup.EnsureVlansStopped(old(vlans), roles, info, i + 1);
          return Some(r.error);
        }
        vlans := r.value.0;
      }
      assert info[..|info|] == info;
      return None;
    }

    /** `create_device_types`: per definition, the manufacturer, the device type and its templates. */
    method CreateDeviceTypes(defs: seq<DataSetup.DeviceTypeDef>)
      modifies this
      ensures State() == old(State()).(catalog := DataSetup.ApplyDefinitions(old(catalog), defs))
    {
      for i := 0 to |defs|
        invariant State() == old(State()).(catalog := DataSetup.ApplyDefinitions(old(catalog), defs[..i]))
      {
        assert defs[..i + 1][..i] == defs[..i];
        var d := defs[i];
        if !DataSetup.Given(d.manufacturer) {
          continue;
        }
        var m := d.manufacturer.value;
        catalog := catalog.(manufacturers := Orm.InsertIfAbsent(catalog.manufacturers, DataSetup.NameOf, m));
        if !DataSetup.Given(d.model) {
          continue;
        }
        var dt := (m, d.model.value);
        var deviceType := DataSetup.DeviceType(dt.0, dt.1, DataSetup.Defaults(d.attributes));
        catalog := catalog.(deviceTypes := Orm.InsertIfAbsent(catalog.deviceTypes, DataSetup.DeviceTypeKey, deviceType));
        AddTemplates(dt, d.interfaces);
      }
      assert defs[..|defs|] == defs;
    }

    /** The interface loop of `create_device_types`: entries without a pattern or a type are skipped. */
    method AddTemplates(dt: (string, string), interfaces: seq<DataSetup.InterfaceDef>)
      modifies this
      ensures State() == old(State()).(catalog := old(catalog).(templates := DataSetup.AddInterfaces(old(catalog.templates), dt, interfaces)))
    {
      for j := 0 to |interfaces|
        invariant State() == old(State()).(catalog := old(catalog).(templates := DataSetup.AddInterfaces(old(catalog.templates), dt, interfaces[..j])))
      {
        assert interfaces[..j + 1][..j] == interfaces[..j];
        var iface := interfaces[j];
        if !DataSetup.Usable(iface) {
          continue;
        }
        AddTemplateNames(dt, InterfacePattern.Expand(iface.pattern.value), iface.ifaceType.value, DataSetup.MgmtOnly(iface));
      }
      assert interfaces[..|interfaces|] == interfaces;
    }

    /** The inner loop: one template per expanded name, with the entry's type and `mgmt_only`. */
    method AddTemplateNames(dt: (string, string), names: seq<string>, t: string, mgmt: bool)
      modifies this
      ensures State() == old(State()).(catalog := old(catalog).(templates := DataSetup.AddNames(old(catalog.templates), dt, names, t, mgmt)))
    {
      for k := 0 to |names|
        invariant State() == old(State()).(catalog := old(catalog).(templates := DataSetup.AddNames(old(catalog.templates), dt, names[..k], t, mgmt)))
      {
        assert names[..k + 1][..k] == names[..k];
        var template := DataSetup.InterfaceTemplate(dt, names[k], t, mgmt);
        catalog := catalog.(templates := Orm.InsertIfAbsent(catalog.templates, DataSetup.TemplateKey, template));
      }
      assert names[..|names|] == names;
    }

    /** The day-37/38 set-up calls, in order. */
    method SetUp(defs: seq<DataSetup.DeviceTypeDef>) returns (err: Option<JobError>)
      modifies this
      ensures (State(), err) == Setup(old(State()), defs)
    {
      CreatePrefixRoles();
      CreateTenant();
      var e := CreateVlans();
      if e.Some? {
        return Some(Db(e.value));
      }
      CreateDeviceTypes(defs);
      return None;
    }

    /** `Location.objects.get_or_create(...)`: the site's row number and whether it was created. */
    method GetOrCreateSite(q: SiteLookup) returns (r: Result<(nat, bool), Orm.OrmError>)
      modifies this
      ensures var g := Orm.GetOrCreate(old(locations), SiteIs(q), NewSite(q));
        if g.Err? then r == Err(g.error) && State() == old(State())
        else r == Ok((g.value.1, g.value.2)) && State() == old(State()).(locations := g.value.0)
    {
      var g := Orm.GetOrCreate(locations, SiteIs(q), NewSite(q));
      if g.Err? {
        return Err(g.error);
      }
      var (after, site, created) := g.value;
      locations := after;
      return Ok((site, created));
    }

    /** The claim: the first free /16 gets the site as its location, in place. */
    method ClaimPop(site: nat) returns (pop: Option<Prefix>)
      modifies this
      ensures pop == ClaimedPop(old(prefixes), site)
      ensures State() == old(State()).(prefixes := Claim(old(prefixes), site).0)
    {
      var i := Orm.First(prefixes, FreePop);
      if i.None? {
        return None;
      }
      var record := prefixes[i.value];
      prefixes := prefixes[i.value := record.(location := Some(site))];
      return Some(record.prefix);
    }

    /** `Prefix.objects.get_or_create(**q)`. */
    method GetOrCreatePrefix(q: PrefixLookup) returns (e: Option<Orm.OrmError>)
      modifies this
      ensures var c := CreatePrefix(old(prefixes), q);
        if c.Err? then e == Some(c.error) && State() == old(State())
        else e.None? && State() == old(State()).(prefixes := c.value.0)
    {
      var r := CreatePrefix(prefixes, q);
      if r.Err? {
        return Some(r.error);
      }
      prefixes := r.value.0;
      return None;
    }

    /** Day 37/38 for a new site: the claim, or else a /16 carved out of the /8. */
    method FindPopPrefix(site: nat, firstAvail: Option<Prefix>) returns (r: Result<Prefix, JobError>)
      modifies this
      ensures var f := FindPop(old(prefixes), site, firstAvail);
        if f.Err? then r == Err(f.error) && State() == old(State())
        else r == Ok(f.value.1) && State() == old(State()).(prefixes := f.value.0)
    {
      var claimed := ClaimPop(site);
      if claimed.Some? {
        return Ok(claimed.value);
      }
      r := AllocatePop(site, firstAvail);
    }

    /**
     * The scan over the /16s of the /8's first available block for one that is
     * not in the table: the `for` loop whose `else` raises.
     */
    method AllocatePop(site: nat, firstAvail: Option<Prefix>) returns (r: Result<Prefix, JobError>)
      modifies this
      ensures var f := Allocate(old(prefixes), site, firstAvail);
        if f.Err? then r == Err(f.error) && State() == old(State())
        else r == Ok(f.value.1) && State() == old(State()).(prefixes := f.value.0)
    {
      if Orm.First(prefixes, TopLevel).None? {
        return Err(NoTopLevelPrefix);
      }
      if firstAvail.None? {
        return Err(NoAvailableSubnets);
      }
      var subnets := Subnets(firstAvail.value, POP_PREFIX_SIZE);
      if subnets.Err? {
        return Err(BadSplit(subnets.error));
      }
      var candidates := subnets.value;
      for k := 0 to |candidates|
        invariant forall m :: 0 <= m < k ==> Taken(prefixes, candidates[m])
        invariant State() == old(State())
      {
        if !Taken(prefixes, candidates[k]) {
          AllocateScanned(prefixes, site, firstAvail.value, candidates, k);
          CreatePrefixFresh(prefixes, PopLookup(candidates[k], site));
          var _ := GetOrCreatePrefix(PopLookup(candidates[k], site));
          return Ok(candidates[k]);
        }
      }
      AllocateScanned(prefixes, site, firstAvail.value, candidates, |candidates|);
      return Err(PopPoolExhausted);
    }

    /** The four role prefixes, one `get_or_create` after the other; the first that raises ends the run. */
    method CreateRolePrefixes(qs: seq<PrefixLookup>) returns (err: Option<JobError>)
      requires |qs| == 4
      modifies this
      ensures State() == old(State()).(prefixes := RoleResult(old(prefixes), qs).0)
      ensures err == RoleResult(old(prefixes), qs).1
    {
      var e := GetOrCreatePrefix(qs[0]);
      CreateAllUnfold(old(prefixes), qs);
      if e.Some? {
        return Some(Db(e.value));
      }
      ghost var p1 := prefixes;
      e := GetOrCreatePrefix(qs[1]);
      CreateAllUnfold(p1, qs[1..]);
      assert qs[1..][0] == qs[1];
      if e.Some? {
        return Some(Db(e.value));
      }
      ghost var p2 := prefixes;
      e := GetOrCreatePrefix(qs[2]);
      CreateAllUnfold(p2, qs[2..]);
      assert qs[1..][1..] == qs[2..] && qs[2..][0] == qs[2];
      if e.Some? {
        return Some(Db(e.value));
      }
      ghost var p3 := prefixes;
      e := GetOrCreatePrefix(qs[3]);
      CreateAllUnfold(p3, qs[3..]);
      assert qs[2..][1..] == qs[3..] && qs[3..][0] == qs[3];
      if e.Some? {
        return Some(Db(e.value));
      }
      CreateAllUnfold(prefixes, qs[4..]);
      assert qs[3..][1..] == qs[4..] == [];
      return None;
    }

    /**
     * The day-37/38 split: `pop_prefix` as bound, its /18 blocks taken with
     * `next()` four times, then the four role prefixes.
     */
    method SplitPopPrefix(pop: Option<Prefix>, site: nat, tenant: Option<nat>) returns (err: Option<JobError>)
      modifies this
      ensures State() == old(State()).(prefixes := SplitPop(old(prefixes), pop, site, tenant).0)
      ensures err == SplitPop(old(prefixes), pop, site, tenant).1
    {
      if pop.None? {
        return Some(UnboundPopPrefix);
      }
      var subnets := Subnets(pop.value, ROLE_PREFIX_SIZE);
      if subnets.Err? {
        return Some(BadSplit(subnets.error));
      }
      var blocks := subnets.value;
      if |blocks| < 4 {
        return Some(StopIteration);
      }
      err := CreateRolePrefixes(SiteLookups(blocks, pop.value, site, tenant));
    }

    /** The day-3 split of the site's first prefix. */
    method SplitSite(sitePrefix: Option<Prefix>, pop: Option<Option<Prefix>>, site: nat) returns (err: Option<JobError>)
      modifies this
      ensures State() == old(State()).(prefixes := SplitSitePrefix(old(prefixes), sitePrefix, pop, site).0)
      ensures err == SplitSitePrefix(old(prefixes), sitePrefix, pop, site).1
    {
      if sitePrefix.None? {
        return Some(NoSitePrefix);
      }
      var subnets := Subnets(sitePrefix.value, ROLE_PREFIX_SIZE);
      if subnets.Err? {
        return Some(BadSplit(subnets.error));
      }
      var blocks := subnets.value;
      if |blocks| < 4 {
        return Some(StopIteration);
      }
      if pop.None? {
        return Some(UnboundPopPrefix);
      }
      err := CreateRolePrefixes(Day3Lookups(blocks, pop.value, site));
    }

    /** `CreatePop1.run` (day 1). */
    method RunDay1(a: SiteArgs) returns (err: Option<JobError>)
      modifies this
      ensures (State(), err) == Day1(old(State()), a)
    {
      CreatePrefixRoles();
      var r := GetOrCreateSite(SiteLookup(a, Any));
      if r.Err? {
        return Some(Db(r.error));
      }
      var (site, _) := r.value;
      var _ := ClaimPop(site);
      return None;
    }

    /** `CreatePop.run` (day 3). */
    method RunDay3(a: SiteArgs) returns (err: Option<JobError>)
      modifies this
      ensures (State(), err) == Day3(old(State()), a)
    {
      CreatePrefixRoles();
      var r := GetOrCreateSite(SiteLookup(a, Any));
      if r.Err? {
        return Some(Db(r.error));
      }
      var (site, created) := r.value;
      var pop: Option<Option<Prefix>> := None;
      if created {
        var claimed := ClaimPop(site);
        pop := Some(claimed);
      }
      var found := Orm.Get(locations, NameIs(a.name));
      if found.Err? {
        return Some(Db(found.error));
      }
      var first := Orm.First(prefixes, LocatedAt(found.value));
      var sitePrefix := if first.Some? then Some(prefixes[first.value].prefix) else None;
      err := SplitSite(sitePrefix, pop, site);
    }

    /** `CreatePop.run` (day 37), and day 38 up to the racks. */
    method RunCreatePop(a: SiteArgs, tenant: Option<nat>, firstAvail: Option<Prefix>, defs: seq<DataSetup.DeviceTypeDef>) returns (err: Option<JobError>)
      modifies this
      ensures (State(), err) == CreatePop(old(State()), a, tenant, firstAvail, defs)
    {
      err := SetUp(defs);
      if err.Some? {
        return;
      }
      var r := GetOrCreateSite(SiteLookup(a, Is(tenant)));
      if r.Err? {
        return Some(Db(r.error));
      }
      var (site, created) := r.value;
      var pop: Option<Prefix> := None;
      if created {
        var found := FindPopPrefix(site, firstAvail);
        if found.Err? {
          return Some(found.error);
        }
        pop := Some(found.value);
      }
      err := SplitPopPrefix(pop, site, tenant);
    }

    /** `CreatePop.run` (day 38). */
    method RunDay38(a: SiteArgs, tenant: Option<nat>, firstAvail: Option<Prefix>, defs: seq<DataSetup.DeviceTypeDef>) returns (err: Option<JobError>)
      modifies this
      ensures (State(), err) == Day38(old(State()), a, tenant, firstAvail, defs)
    {
      err := RunCreatePop(a, tenant, firstAvail, defs);
      if err.None? {
        err := Some(RackStatusQuery);
      }
    }
  }

  lemma CreateAllUnfold(pool: seq<PrefixRecord>, qs: seq<PrefixLookup>)
    ensures |qs| == 0 ==> CreateAll(pool, qs) == (pool, None)
    ensures |qs| > 0 && CreatePrefix(pool, qs[0]).Err? ==> CreateAll(pool, qs) == (pool, Some(CreatePrefix(pool, qs[0]).error))
    ensures |qs| > 0 && CreatePrefix(pool, qs[0]).Ok? ==> CreateAll(pool, qs) == CreateAll(CreatePrefix(pool, qs[0]).value.0, qs[1..])
  {
  }
}
