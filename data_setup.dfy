/**
 * The objects every POP job makes sure exist before it touches a site: the
 * prefix roles, the tenant, the VLANs and the device types with their
 * interface templates. Each is a `get_or_create` per entry of a constant list.
 */
module DataSetup {
  import opened Wrappers
  import Orm
  import InterfacePattern

  const PREFIX_ROLES: seq<string> := ["p2p", "loopback", "server", "mgmt", "pop"]
  const TENANT_NAME: string := "Data Center"

  /** VLAN name and id; the name doubles as the name of the role the VLAN gets. */
  const VLAN_INFO: seq<(string, nat)> := [("server", 1000), ("mgmt", 99)]

  /** The keys of a device-type definition that become the device type's attributes. */
  const DEVICE_TYPE_KEYS: set<string> := {"part_number", "u_height", "is_full_depth", "comments"}

  /**
   * Roles, tenants and manufacturers are rows identified by their unique name.
   * The key is a named function, not a lambda, so that facts stated with it in
   * one member match the same key in another.
   */
  function NameOf(name: string): string {
    name
  }

  lemma HasNameIn(rows: seq<string>, n: string)
    ensures Orm.HasKey(rows, NameOf, n) <==> n in rows
  {
    if n in rows {
      var i :| 0 <= i < |rows| && rows[i] == n;
      assert NameOf(rows[i]) == n;
    }
  }

  // ---------------------------------------------------------------------------
  // Prefix roles and the tenant
  // ---------------------------------------------------------------------------

  /** `get_or_create(name=n)` for each name in order, on a table of unique names. */
  function EnsureNames(rows: seq<string>, names: seq<string>): seq<string>
    decreases |names|
  {
    if |names| == 0 then rows
    else Orm.InsertIfAbsent(EnsureNames(rows, names[..|names| - 1]), NameOf, names[|names| - 1])
  }

  /** Afterwards exactly the names held before and the names ensured are present. */
  lemma {:induction false} EnsureNamesPresent(rows: seq<string>, names: seq<string>, n: string)
    ensures n in EnsureNames(rows, names) <==> n in rows || n in names
    decreases |names|
  {
    if |names| > 0 {
      var init := names[..|names| - 1];
      var before := EnsureNames(rows, init);
      EnsureNamesPresent(rows, init, n);
      Orm.InsertIfAbsentKeys(before, NameOf, names[|names| - 1], n);
      HasNameIn(before, n);
      HasNameIn(EnsureNames(rows, names), n);
      assert names == init + [names[|names| - 1]];
    }
  }

  /** Names stay unique. */
  lemma {:induction false} EnsureNamesUnique(rows: seq<string>, names: seq<string>)
    requires Orm.UniqueOn(rows, NameOf)
    ensures Orm.UniqueOn(EnsureNames(rows, names), NameOf)
    decreases |names|
  {
    if |names| > 0 {
      EnsureNamesUnique(rows, names[..|names| - 1]);
      Orm.InsertIfAbsentUnique(EnsureNames(rows, names[..|names| - 1]), NameOf, names[|names| - 1]);
    }
  }

  /** When every name is already there, nothing is created. */
  lemma {:induction false} EnsureNamesPresentUnchanged(rows: seq<string>, names: seq<string>)
    requires forall k :: 0 <= k < |names| ==> names[k] in rows
    ensures EnsureNames(rows, names) == rows
    decreases |names|
  {
    if |names| > 0 {
      EnsureNamesPresentUnchanged(rows, names[..|names| - 1]);
      HasNameIn(rows, names[|names| - 1]);
    }
  }

  /** Running the same ensures twice creates nothing the second time. */
  lemma EnsureNamesIdempotent(rows: seq<string>, names: seq<string>)
    ensures EnsureNames(EnsureNames(rows, names), names) == EnsureNames(rows, names)
  {
    forall k | 0 <= k < |names|
      ensures names[k] in EnsureNames(rows, names)
    {
      EnsureNamesPresent(rows, names, names[k]);
    }
    EnsureNamesPresentUnchanged(EnsureNames(rows, names), names);
  }

  /** After `create_prefix_roles` all five role names exist. */
  lemma PrefixRolesPresent(roles: seq<string>)
    ensures forall n :: n in PREFIX_ROLES ==> n in EnsureNames(roles, PREFIX_ROLES)
  {
    forall n | n in PREFIX_ROLES
      ensures n in EnsureNames(roles, PREFIX_ROLES)
    {
      EnsureNamesPresent(roles, PREFIX_ROLES, n);
    }
  }

  // ---------------------------------------------------------------------------
  // VLANs
  // ---------------------------------------------------------------------------

  datatype Vlan = Vlan(vid: nat, name: string, status: string, role: Option<string>)

  function VidIs(vid: nat): Vlan -> bool {
    (v: Vlan) => v.vid == vid
  }

  /** The VLAN created for an entry: its role is the role of the same name, when that role exists. */
  function NewVlan(name: string, vid: nat, roles: seq<string>): (v: Vlan)
    ensures v.vid == vid && v.name == name && v.status == Orm.ACTIVE
    ensures v.role.Some? <==> name in roles
    ensures v.role.Some? ==> v.role.value == name
  {
    Vlan(vid, name, Orm.ACTIVE, if name in roles then Some(name) else None)
  }

  /**
   * `VLAN.objects.get_or_create(vid=..., defaults=...)` for each entry in order.
   * The lookup is on the VLAN id alone, which is not unique, so two VLANs with
   * the id raise `MultipleObjectsReturned`; the VLANs created before stay.
   */
  function EnsureVlans(vlans: seq<Vlan>, roles: seq<string>, info: seq<(string, nat)>): (r: (seq<Vlan>, Option<Orm.OrmError>))
    decreases |info|
  {
    if |info| == 0 then (vlans, None)
    else
      var (before, e) := EnsureVlans(vlans, roles, info[..|info| - 1]);
      var (name, vid) := info[|info| - 1];
      if e.Some? then (before, e)
      else match Orm.GetOrCreate(before, VidIs(vid), NewVlan(name, vid, roles))
        case Err(e') => (before, Some(e'))
        case Ok((after, _, _)) => (after, None)
  }

  predicate DistinctVids(info: seq<(string, nat)>) {
    forall i, j :: 0 <= i < j < |info| ==> info[i].1 != info[j].1
  }

  /** After a run that raised nothing, every listed VLAN id names exactly one VLAN. */
  lemma {:induction false} EnsureVlansFound(vlans: seq<Vlan>, roles: seq<string>, info: seq<(string, nat)>)
    requires DistinctVids(info)
    requires EnsureVlans(vlans, roles, info).1.None?
    ensures forall k :: 0 <= k < |info| ==> Orm.Count(EnsureVlans(vlans, roles, info).0, VidIs(info[k].1)) == 1
    decreases |info|
  {
    if |info| > 0 {
      var init := info[..|info| - 1];
      var (name, vid) := info[|info| - 1];
      var before := EnsureVlans(vlans, roles, init).0;
      assert DistinctVids(init);
      EnsureVlansFound(vlans, roles, init);
      var (after, i, created) := Orm.GetOrCreate(before, VidIs(vid), NewVlan(name, vid, roles)).value;
      assert EnsureVlans(vlans, roles, info).0 == after;
      Orm.CountExactlyOne(after, VidIs(vid), i);
      forall k | 0 <= k < |info| - 1
        ensures Orm.Count(after, VidIs(info[k].1)) == 1
      {
        assert init[k] == info[k];
        if created {
          Orm.CountAppend(before, NewVlan(name, vid, roles), VidIs(info[k].1));
        }
      }
    }
  }

  /** With every listed VLAN id naming exactly one VLAN, the run finds them all and changes nothing. */
  lemma {:induction false} EnsureVlansUnchanged(vlans: seq<Vlan>, roles: seq<string>, info: seq<(string, nat)>)
    requires forall k :: 0 <= k < |info| ==> Orm.Count(vlans, VidIs(info[k].1)) == 1
    ensures EnsureVlans(vlans, roles, info) == (vlans, None)
    decreases |info|
  {
    if |info| > 0 {
      var init := info[..|info| - 1];
      EnsureVlansUnchanged(vlans, roles, init);
      var (name, vid) := info[|info| - 1];
      Orm.CountZero(vlans, VidIs(vid));
    }
  }

  /** `create_vlans` run twice creates no VLAN the second time. */
  lemma EnsureVlansIdempotent(vlans: seq<Vlan>, roles: seq<string>, info: seq<(string, nat)>)
    requires DistinctVids(info)
    requires EnsureVlans(vlans, roles, info).1.None?
    ensures var after := EnsureVlans(vlans, roles, info).0;
      EnsureVlans(after, roles, info) == (after, None)
  {
    EnsureVlansFound(vlans, roles, info);
    EnsureVlansUnchanged(EnsureVlans(vlans, roles, info).0, roles, info);
  }

  /** The loop stops at the first entry that raises: later entries change nothing. */
  lemma {:induction false} EnsureVlansStopped(vlans: seq<Vlan>, roles: seq<string>, info: seq<(string, nat)>, k: nat)
    requires k <= |info| && EnsureVlans(vlans, roles, info[..k]).1.Some?
    ensures EnsureVlans(vlans, roles, info) == EnsureVlans(vlans, roles, info[..k])
    decreases |info|
  {
    if k < |info| {
      var init := info[..|info| - 1];
      assert init[..k] == info[..k];
      EnsureVlansStopped(vlans, roles, init, k);
    } else {
      assert info[..k] == info;
    }
  }

  // ---------------------------------------------------------------------------
  // Device types and interface templates
  // ---------------------------------------------------------------------------

  /** A scalar value of a YAML definition. */
  datatype Scalar = Str(s: string) | Int(i: int) | Bool(b: bool) | Null

  /** One entry of a definition's `interfaces` list; a missing key is `None`. */
  datatype InterfaceDef = InterfaceDef(pattern: Option<string>, ifaceType: Option<string>, mgmtOnly: Option<bool>)

  /**
   * A parsed device-type definition: the `manufacturer` and `model` keys, the
   * other scalar keys, and the `interfaces` list (empty when the key is absent).
   */
  datatype DeviceTypeDef = DeviceTypeDef(
    manufacturer: Option<string>,
    model: Option<string>,
    attributes: map<string, Scalar>,
    interfaces: seq<InterfaceDef>)

  datatype DeviceType = DeviceType(manufacturer: string, model: string, attributes: map<string, Scalar>)

  datatype InterfaceTemplate = InterfaceTemplate(deviceType: (string, string), name: string, ifaceType: string, mgmtOnly: bool)

  /** The tables `create_device_types` writes. */
  datatype Catalog = Catalog(manufacturers: seq<string>, deviceTypes: seq<DeviceType>, templates: seq<InterfaceTemplate>)

  /** Device types are unique per manufacturer and model. */
  function DeviceTypeKey(d: DeviceType): (string, string) {
    (d.manufacturer, d.model)
  }

  /** Interface templates are unique per device type and name. */
  function TemplateKey(t: InterfaceTemplate): ((string, string), string) {
    (t.deviceType, t.name)
  }

  /** Python truthiness of an optional string: present and non-empty. */
  predicate Given(s: Option<string>) {
    s.Some? && s.value != ""
  }

  /** The device type's defaults: exactly the attribute keys among `DEVICE_TYPE_KEYS`, with their values. */
  function Defaults(attributes: map<string, Scalar>): (d: map<string, Scalar>)
    ensures d.Keys == attributes.Keys * DEVICE_TYPE_KEYS
    ensures forall k :: k in d ==> d[k] == attributes[k]
  {
    map k | k in attributes && k in DEVICE_TYPE_KEYS :: attributes[k]
  }

  /** An interface entry is used only with both a pattern and a type. */
  predicate Usable(i: InterfaceDef) {
    Given(i.pattern) && Given(i.ifaceType)
  }

  /** `mgmt_only` defaults to false. */
  function MgmtOnly(i: InterfaceDef): (m: bool)
    ensures m <==> i.mgmtOnly == Some(true)
  {
    if i.mgmtOnly.Some? then i.mgmtOnly.value else false
  }

  /** `get_or_create` of one template per name, in order. */
  function AddNames(templates: seq<InterfaceTemplate>, dt: (string, string), names: seq<string>, t: string, mgmt: bool): (r: seq<InterfaceTemplate>)
    ensures |templates| <= |r| && r[..|templates|] == templates
    ensures forall k :: |templates| <= k < |r| ==> r[k] == InterfaceTemplate(dt, r[k].name, t, mgmt) && r[k].name in names
    decreases |names|
  {
    if |names| == 0 then templates
    else
      var before := AddNames(templates, dt, names[..|names| - 1], t, mgmt);
      assert before[..|templates|] == templates;
      Orm.InsertIfAbsent(before, TemplateKey, InterfaceTemplate(dt, names[|names| - 1], t, mgmt))
  }

  /** The interface loop: each usable entry's pattern is expanded and a template added per name. */
  function AddInterfaces(templates: seq<InterfaceTemplate>, dt: (string, string), interfaces: seq<InterfaceDef>): (r: seq<InterfaceTemplate>)
    ensures |templates| <= |r| && r[..|templates|] == templates
    decreases |interfaces|
  {
    if |interfaces| == 0 then templates
    else
      var before := AddInterfaces(templates, dt, interfaces[..|interfaces| - 1]);
      var i := interfaces[|interfaces| - 1];
      if !Usable(i) then before
      else
        var r := AddNames(before, dt, InterfacePattern.Expand(i.pattern.value), i.ifaceType.value, MgmtOnly(i));
        assert r[..|templates|] == r[..|before|][..|templates|];
        r
  }

  /**
   * A template the interface loop creates for `dt`: a name that a usable entry
   * of `interfaces` expands to, with that entry's type and `mgmt_only`.
   */
  predicate TemplateFrom(t: InterfaceTemplate, dt: (string, string), interfaces: seq<InterfaceDef>) {
    exists e :: 0 <= e < |interfaces| && Usable(interfaces[e]) && t.name in InterfacePattern.Expand(interfaces[e].pattern.value)
      && t == InterfaceTemplate(dt, t.name, interfaces[e].ifaceType.value, MgmtOnly(interfaces[e]))
  }

  /**
   * Every template the interface loop adds comes from a usable entry, with the
   * entry's type and `mgmt_only`: entries without a pattern or a type add nothing.
   */
  lemma {:induction false} AddInterfacesCreated(templates: seq<InterfaceTemplate>, dt: (string, string), interfaces: seq<InterfaceDef>)
    ensures forall k :: |templates| <= k < |AddInterfaces(templates, dt, interfaces)| ==>
      TemplateFrom(AddInterfaces(templates, dt, interfaces)[k], dt, interfaces)
    decreases |interfaces|
  {
    if |interfaces| > 0 {
      var n := |interfaces| - 1;
      var init := interfaces[..n];
      var before := AddInterfaces(templates, dt, init);
      var r := AddInterfaces(templates, dt, interfaces);
      AddInterfacesCreated(templates, dt, init);
      forall k | |templates| <= k < |before|
        ensures TemplateFrom(before[k], dt, interfaces)
      {
        var e :| 0 <= e < |init| && Usable(init[e]) && before[k].name in InterfacePattern.Expand(init[e].pattern.value)
          && before[k] == InterfaceTemplate(dt, before[k].name, init[e].ifaceType.value, MgmtOnly(init[e]));
        assert init[e] == interfaces[e];
      }
      var i := interfaces[n];
      if Usable(i) {
        var names := InterfacePattern.Expand(i.pattern.value);
        assert r == AddNames(before, dt, names, i.ifaceType.value, MgmtOnly(i));
        forall k | |templates| <= k < |r|
          ensures TemplateFrom(r[k], dt, interfaces)
        {
          if k < |before| {
            assert r[k] == r[..|before|][k];
          } else {
            assert r[k].name in names && r[k] == InterfaceTemplate(dt, r[k].name, i.ifaceType.value, MgmtOnly(i));
          }
        }
      }
    }
  }

  /**
   * One definition: skipped without a manufacturer; the manufacturer is
   * get-or-created before the model is checked; skipped after that without a
   * model; otherwise the device type and its interface templates.
   */
  function ApplyDefinition(c: Catalog, d: DeviceTypeDef): Catalog {
    if !Given(d.manufacturer) then c
    else
      var manufacturers := Orm.InsertIfAbsent(c.manufacturers, NameOf, d.manufacturer.value);
      if !Given(d.model) then c.(manufacturers := manufacturers)
      else
        var dt := (d.manufacturer.value, d.model.value);
        var deviceType := DeviceType(dt.0, dt.1, Defaults(d.attributes));
        Catalog(manufacturers,
                Orm.InsertIfAbsent(c.deviceTypes, DeviceTypeKey, deviceType),
                AddInterfaces(c.templates, dt, d.interfaces))
  }

  /** `create_device_types` over a list of definitions, in order. */
  function ApplyDefinitions(c: Catalog, defs: seq<DeviceTypeDef>): Catalog
    decreases |defs|
  {
    if |defs| == 0 then c else ApplyDefinition(ApplyDefinitions(c, defs[..|defs| - 1]), defs[|defs| - 1])
  }

  /** A definition without a manufacturer, or without a model, creates no device type and no template. */
  lemma SkippedDefinition(c: Catalog, d: DeviceTypeDef)
    requires !Given(d.manufacturer) || !Given(d.model)
    ensures ApplyDefinition(c, d).deviceTypes == c.deviceTypes
    ensures ApplyDefinition(c, d).templates == c.templates
    ensures !Given(d.manufacturer) ==> ApplyDefinition(c, d) == c
    ensures Given(d.manufacturer) ==> d.manufacturer.value in ApplyDefinition(c, d).manufacturers
  {
    if Given(d.manufacturer) {
      HasNameIn(ApplyDefinition(c, d).manufacturers, d.manufacturer.value);
      Orm.InsertIfAbsentKeys(c.manufacturers, NameOf, d.manufacturer.value, d.manufacturer.value);
    }
  }

  // ---------------------------------------------------------------------------
  // Re-running create_device_types
  // ---------------------------------------------------------------------------

  /** Every name the usable entries of `interfaces` expand to has a template for `dt`. */
  predicate InterfacesPresent(templates: seq<InterfaceTemplate>, dt: (string, string), interfaces: seq<InterfaceDef>) {
    forall k, n :: 0 <= k < |interfaces| && Usable(interfaces[k]) && n in InterfacePattern.Expand(interfaces[k].pattern.value) ==>
      Orm.HasKey(templates, TemplateKey, (dt, n))
  }

  /** What a definition leaves behind: its manufacturer, its device type and all its templates. */
  predicate Applied(c: Catalog, d: DeviceTypeDef) {
    Given(d.manufacturer) ==>
      && d.manufacturer.value in c.manufacturers
      && (Given(d.model) ==>
            var dt := (d.manufacturer.value, d.model.value);
            Orm.HasKey(c.deviceTypes, DeviceTypeKey, dt) && InterfacesPresent(c.templates, dt, d.interfaces))
  }

  /** A manufacturer row that definition `d` creates. */
  predicate ManufacturerOf(m: string, d: DeviceTypeDef) {
    Given(d.manufacturer) && m == d.manufacturer.value
  }

  /** A device-type row that `d` creates: its manufacturer and model, with `d`'s defaults. */
  predicate DeviceTypeOf(t: DeviceType, d: DeviceTypeDef) {
    Given(d.manufacturer) && Given(d.model)
      && t == DeviceType(d.manufacturer.value, d.model.value, Defaults(d.attributes))
  }

  /** A template row that `d` creates, for its own device type, from its own interface entries. */
  predicate TemplateOf(t: InterfaceTemplate, d: DeviceTypeDef) {
    Given(d.manufacturer) && Given(d.model)
      && TemplateFrom(t, (d.manufacturer.value, d.model.value), d.interfaces)
  }

  /** Every row `more` holds after the rows of `c` was created by definition `d`. */
  predicate CreatedBy(c: Catalog, more: Catalog, d: DeviceTypeDef) {
    && (forall k :: |c.manufacturers| <= k < |more.manufacturers| ==> ManufacturerOf(more.manufacturers[k], d))
    && (forall k :: |c.deviceTypes| <= k < |more.deviceTypes| ==> DeviceTypeOf(more.deviceTypes[k], d))
    && (forall k :: |c.templates| <= k < |more.templates| ==> TemplateOf(more.templates[k], d))
  }

  /** Every row `more` holds after the rows of `c` was created by one of `defs`. */
  predicate CreatedByOneOf(c: Catalog, more: Catalog, defs: seq<DeviceTypeDef>) {
    && (forall k :: |c.manufacturers| <= k < |more.manufacturers| ==>
          exists i :: 0 <= i < |defs| && ManufacturerOf(more.manufacturers[k], defs[i]))
    && (forall k :: |c.deviceTypes| <= k < |more.deviceTypes| ==>
          exists i :: 0 <= i < |defs| && DeviceTypeOf(more.deviceTypes[k], defs[i]))
    && (forall k :: |c.templates| <= k < |more.templates| ==>
          exists i :: 0 <= i < |defs| && TemplateOf(more.templates[k], defs[i]))
  }

  /** `more` holds the rows of `c` and possibly more after them, table by table. */
  predicate Extends(c: Catalog, more: Catalog) {
    && |c.manufacturers| <= |more.manufacturers| && more.manufacturers[..|c.manufacturers|] == c.manufacturers
    && |c.deviceTypes| <= |more.deviceTypes| && more.deviceTypes[..|c.deviceTypes|] == c.deviceTypes
    && |c.templates| <= |more.templates| && more.templates[..|c.templates|] == c.templates
  }

  lemma {:induction false} AddNamesPresent(templates: seq<InterfaceTemplate>, dt: (string, string), names: seq<string>, t: string, mgmt: bool, n: string)
    requires n in names
    ensures Orm.HasKey(AddNames(templates, dt, names, t, mgmt), TemplateKey, (dt, n))
    decreases |names|
  {
    var init := names[..|names| - 1];
    var before := AddNames(templates, dt, init, t, mgmt);
    var row := InterfaceTemplate(dt, names[|names| - 1], t, mgmt);
    Orm.InsertIfAbsentKeys(before, TemplateKey, row, (dt, n));
    if n != names[|names| - 1] {
      assert names == init + [names[|names| - 1]];
      AddNamesPresent(templates, dt, init, t, mgmt, n);
    }
  }

  lemma {:induction false} AddNamesUnchanged(templates: seq<InterfaceTemplate>, dt: (string, string), names: seq<string>, t: string, mgmt: bool)
    requires forall n :: n in names ==> Orm.HasKey(templates, TemplateKey, (dt, n))
    ensures AddNames(templates, dt, names, t, mgmt) == templates
    decreases |names|
  {
    if |names| > 0 {
      AddNamesUnchanged(templates, dt, names[..|names| - 1], t, mgmt);
      assert names[|names| - 1] in names;
    }
  }

  lemma {:induction false} AddInterfacesPresent(templates: seq<InterfaceTemplate>, dt: (string, string), interfaces: seq<InterfaceDef>)
    ensures InterfacesPresent(AddInterfaces(templates, dt, interfaces), dt, interfaces)
    decreases |interfaces|
  {
    if |interfaces| > 0 {
      var init := interfaces[..|interfaces| - 1];
      var before := AddInterfaces(templates, dt, init);
      var after := AddInterfaces(templates, dt, interfaces);
      var last := interfaces[|interfaces| - 1];
      AddInterfacesPresent(templates, dt, init);
      forall k, n | 0 <= k < |interfaces| && Usable(interfaces[k]) && n in InterfacePattern.Expand(interfaces[k].pattern.value)
        ensures Orm.HasKey(after, TemplateKey, (dt, n))
      {
        if k < |interfaces| - 1 {
          assert init[k] == interfaces[k];
          Orm.HasKeyExtend(before, after, TemplateKey, (dt, n));
        } else {
          AddNamesPresent(before, dt, InterfacePattern.Expand(last.pattern.value), last.ifaceType.value, MgmtOnly(last), n);
        }
      }
    }
  }

  lemma {:induction false} AddInterfacesUnchanged(templates: seq<InterfaceTemplate>, dt: (string, string), interfaces: seq<InterfaceDef>)
    requires InterfacesPresent(templates, dt, interfaces)
    ensures AddInterfaces(templates, dt, interfaces) == templates
    decreases |interfaces|
  {
    if |interfaces| > 0 {
      var init := interfaces[..|interfaces| - 1];
      var last := interfaces[|interfaces| - 1];
      assert InterfacesPresent(templates, dt, init) by {
        forall k | 0 <= k < |init|
          ensures init[k] == interfaces[k]
        {
        }
      }
      AddInterfacesUnchanged(templates, dt, init);
      if Usable(last) {
        AddNamesUnchanged(templates, dt, InterfacePattern.Expand(last.pattern.value), last.ifaceType.value, MgmtOnly(last));
      }
    }
  }

  /**
   * A definition's objects exist once it has been applied, applying it only
   * appends, and what it appends is its manufacturer, its device type with
   * its defaults, and templates from its own usable interface entries.
   */
  lemma ApplyDefinitionApplied(c: Catalog, d: DeviceTypeDef)
    ensures Applied(ApplyDefinition(c, d), d)
    ensures Extends(c, ApplyDefinition(c, d))
    ensures CreatedBy(c, ApplyDefinition(c, d), d)
  {
    if Given(d.manufacturer) {
      var after := ApplyDefinition(c, d);
      var m := d.manufacturer.value;
      Orm.InsertIfAbsentKeys(c.manufacturers, NameOf, m, m);
      HasNameIn(after.manufacturers, m);
      if Given(d.model) {
        var dt := (m, d.model.value);
        Orm.InsertIfAbsentKeys(c.deviceTypes, DeviceTypeKey, DeviceType(dt.0, dt.1, Defaults(d.attributes)), dt);
        AddInterfacesPresent(c.templates, dt, d.interfaces);
        AddInterfacesCreated(c.templates, dt, d.interfaces);
        forall k | |c.templates| <= k < |after.templates|
          ensures TemplateOf(after.templates[k], d)
        {
          assert TemplateFrom(after.templates[k], dt, d.interfaces);
        }
      }
    }
  }

  /** Applying a definition whose objects all exist changes nothing. */
  lemma ApplyDefinitionUnchanged(c: Catalog, d: DeviceTypeDef)
    requires Applied(c, d)
    ensures ApplyDefinition(c, d) == c
  {
    if Given(d.manufacturer) {
      HasNameIn(c.manufacturers, d.manufacturer.value);
      if Given(d.model) {
        AddInterfacesUnchanged(c.templates, (d.manufacturer.value, d.model.value), d.interfaces);
      }
    }
  }

  /** Objects that exist keep existing as rows are appended. */
  lemma AppliedExtend(c: Catalog, more: Catalog, d: DeviceTypeDef)
    requires Applied(c, d) && Extends(c, more)
    ensures Applied(more, d)
  {
    if Given(d.manufacturer) {
      var m := d.manufacturer.value;
      HasNameIn(c.manufacturers, m);
      Orm.HasKeyExtend(c.manufacturers, more.manufacturers, NameOf, m);
      HasNameIn(more.manufacturers, m);
      if Given(d.model) {
        var dt := (m, d.model.value);
        Orm.HasKeyExtend(c.deviceTypes, more.deviceTypes, DeviceTypeKey, dt);
        forall k, n | 0 <= k < |d.interfaces| && Usable(d.interfaces[k]) && n in InterfacePattern.Expand(d.interfaces[k].pattern.value)
          ensures Orm.HasKey(more.templates, TemplateKey, (dt, n))
        {
          Orm.HasKeyExtend(c.templates, more.templates, TemplateKey, (dt, n));
        }
      }
    }
  }

  lemma ExtendsTrans(a: Catalog, b: Catalog, c: Catalog)
    requires Extends(a, b) && Extends(b, c)
    ensures Extends(a, c)
  {
    assert c.manufacturers[..|a.manufacturers|] == c.manufacturers[..|b.manufacturers|][..|a.manufacturers|];
    assert c.deviceTypes[..|a.deviceTypes|] == c.deviceTypes[..|b.deviceTypes|][..|a.deviceTypes|];
    assert c.templates[..|a.templates|] == c.templates[..|b.templates|][..|a.templates|];
  }

  /**
   * Rows created by one of `init` and then rows created by `d` were all
   * created by one of `init + [d]`.
   */
  lemma CreatedByAppend(c: Catalog, mid: Catalog, more: Catalog, init: seq<DeviceTypeDef>, d: DeviceTypeDef)
    requires Extends(c, mid) && Extends(mid, more)
    requires CreatedByOneOf(c, mid, init) && CreatedBy(mid, more, d)
    ensures CreatedByOneOf(c, more, init + [d])
  {
    var defs := init + [d];
    forall k | |c.manufacturers| <= k < |more.manufacturers|
      ensures exists i :: 0 <= i < |defs| && ManufacturerOf(more.manufacturers[k], defs[i])
    {
      if k < |mid.manufacturers| {
        assert more.manufacturers[k] == mid.manufacturers[k];
        var i :| 0 <= i < |init| && ManufacturerOf(mid.manufacturers[k], init[i]);
        assert defs[i] == init[i];
      } else {
        assert defs[|init|] == d;
      }
    }
    forall k | |c.deviceTypes| <= k < |more.deviceTypes|
      ensures exists i :: 0 <= i < |defs| && DeviceTypeOf(more.deviceTypes[k], defs[i])
    {
      if k < |mid.deviceTypes| {
        assert more.deviceTypes[k] == mid.deviceTypes[k];
        var i :| 0 <= i < |init| && DeviceTypeOf(mid.deviceTypes[k], init[i]);
        assert defs[i] == init[i];
      } else {
        assert defs[|init|] == d;
      }
    }
    forall k | |c.templates| <= k < |more.templates|
      ensures exists i :: 0 <= i < |defs| && TemplateOf(more.templates[k], defs[i])
    {
      if k < |mid.templates| {
        assert more.templates[k] == mid.templates[k];
        var i :| 0 <= i < |init| && TemplateOf(mid.templates[k], init[i]);
        assert defs[i] == init[i];
      } else {
        assert defs[|init|] == d;
      }
    }
  }

  /**
   * After `create_device_types`, every definition's objects exist, the run only
   * appended rows, and every appended row was created by one of the definitions:
   * a device type with that definition's defaults, a template with the type and
   * `mgmt_only` of one of its usable interface entries.
   */
  lemma {:induction false} ApplyDefinitionsApplied(c: Catalog, defs: seq<DeviceTypeDef>)
    ensures Extends(c, ApplyDefinitions(c, defs))
    ensures forall k :: 0 <= k < |defs| ==> Applied(ApplyDefinitions(c, defs), defs[k])
    ensures CreatedByOneOf(c, ApplyDefinitions(c, defs), defs)
    decreases |defs|
  {
    if |defs| == 0 {
      assert c.manufacturers[..|c.manufacturers|] == c.manufacturers;
      assert c.deviceTypes[..|c.deviceTypes|] == c.deviceTypes;
      assert c.templates[..|c.templates|] == c.templates;
    } else {
      var init := defs[..|defs| - 1];
      var before := ApplyDefinitions(c, init);
      var after := ApplyDefinitions(c, defs);
      ApplyDefinitionsApplied(c, init);
      ApplyDefinitionApplied(before, defs[|defs| - 1]);
      ExtendsTrans(c, before, after);
      assert init + [defs[|defs| - 1]] == defs;
      CreatedByAppend(c, before, after, init, defs[|defs| - 1]);
      forall k | 0 <= k < |defs| - 1
        ensures Applied(after, defs[k])
      {
        assert init[k] == defs[k];
        AppliedExtend(before, after, defs[k]);
      }
    }
  }

  lemma {:induction false} ApplyDefinitionsUnchanged(c: Catalog, defs: seq<DeviceTypeDef>)
    requires forall k :: 0 <= k < |defs| ==> Applied(c, defs[k])
    ensures ApplyDefinitions(c, defs) == c
    decreases |defs|
  {
    if |defs| > 0 {
      ApplyDefinitionsUnchanged(c, defs[..|defs| - 1]);
      ApplyDefinitionUnchanged(c, defs[|defs| - 1]);
    }
  }

  /** Running `create_device_types` again creates no manufacturer, device type or template. */
  lemma ApplyDefinitionsIdempotent(c: Catalog, defs: seq<DeviceTypeDef>)
    ensures ApplyDefinitions(ApplyDefinitions(c, defs), defs) == ApplyDefinitions(c, defs)
  {
    ApplyDefinitionsApplied(c, defs);
    ApplyDefinitionsUnchanged(ApplyDefinitions(c, defs), defs);
  }

  /** Unique keys: manufacturers by name, device types by (manufacturer, model), templates by (device type, name). */
  predicate UniqueCatalog(c: Catalog) {
    && Orm.UniqueOn(c.manufacturers, NameOf)
    && Orm.UniqueOn(c.deviceTypes, DeviceTypeKey)
    && Orm.UniqueOn(c.templates, TemplateKey)
  }

  lemma {:induction false} AddNamesUnique(templates: seq<InterfaceTemplate>, dt: (string, string), names: seq<string>, t: string, mgmt: bool)
    requires Orm.UniqueOn(templates, TemplateKey)
    ensures Orm.UniqueOn(AddNames(templates, dt, names, t, mgmt), TemplateKey)
    decreases |names|
  {
    if |names| > 0 {
      var before := AddNames(templates, dt, names[..|names| - 1], t, mgmt);
      AddNamesUnique(templates, dt, names[..|names| - 1], t, mgmt);
      Orm.InsertIfAbsentUnique(before, TemplateKey, InterfaceTemplate(dt, names[|names| - 1], t, mgmt));
    }
  }

  lemma {:induction false} AddInterfacesUnique(templates: seq<InterfaceTemplate>, dt: (string, string), interfaces: seq<InterfaceDef>)
    requires Orm.UniqueOn(templates, TemplateKey)
    ensures Orm.UniqueOn(AddInterfaces(templates, dt, interfaces), TemplateKey)
    decreases |interfaces|
  {
    if |interfaces| > 0 {
      var before := AddInterfaces(templates, dt, interfaces[..|interfaces| - 1]);
      var last := interfaces[|interfaces| - 1];
      AddInterfacesUnique(templates, dt, interfaces[..|interfaces| - 1]);
      if Usable(last) {
        AddNamesUnique(before, dt, InterfacePattern.Expand(last.pattern.value), last.ifaceType.value, MgmtOnly(last));
      }
    }
  }

  /** `create_device_types` keeps every key unique. */
  lemma {:induction false} ApplyDefinitionsUnique(c: Catalog, defs: seq<DeviceTypeDef>)
    requires UniqueCatalog(c)
    ensures UniqueCatalog(ApplyDefinitions(c, defs))
    decreases |defs|
  {
    if |defs| > 0 {
      var before := ApplyDefinitions(c, defs[..|defs| - 1]);
      var d := defs[|defs| - 1];
      ApplyDefinitionsUnique(c, defs[..|defs| - 1]);
      if Given(d.manufacturer) {
        Orm.InsertIfAbsentUnique(before.manufacturers, NameOf, d.manufacturer.value);
        if Given(d.model) {
          Orm.InsertIfAbsentUnique(before.deviceTypes, DeviceTypeKey, DeviceType(d.manufacturer.value, d.model.value, Defaults(d.attributes)));
          AddInterfacesUnique(before.templates, (d.manufacturer.value, d.model.value), d.interfaces);
        }
      }
    }
  }
}
