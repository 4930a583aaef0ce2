# POP site jobs for Nautobot, modelled in Dafny

The `sample_nautobot_jobs` directory holds successive versions of a Nautobot job that creates a point-of-presence (POP) site. Each version does some of the following:

- creates the prefix roles, a tenant, two VLANs, and the device types with their interface templates;
- gets or creates the site's location row;
- gives the new site a /16 POP prefix:
  - it claims the first free Active container /16;
  - or, when none is free, it creates the lowest /16 of the top-level /8's first available block that is not yet in the prefix table;
- splits that /16 into /18 blocks for the `server`, `mgmt`, `loopback` and `p2p` roles;
- from day 38 on, names the racks and devices of the site and gives a new device's interfaces roles in consecutive blocks.

This project models those versions over an explicit database state:

- `Tables` lists each table as the sequence of its rows, in the order a query returns them.
- Each step of a run is a method of the class `Jobs.Nautobot`, which holds the tables as fields.
- Each method is proved equal to a specification function of the tables before it (`Jobs.Setup`, `Jobs.Day1`, `Jobs.Day3`, `Jobs.CreatePop`, `Jobs.Day38`).
- The lemmas in `JobProperties` state what each run does:
  - on a new site, the whole resulting state, in closed form;
  - on a site that already exists;
  - when it is run again.

The modules:

- `Orm`: `.filter(...).first()`, `.get(...)` and `get_or_create`, with `MultipleObjectsReturned` when two rows match the lookup.
- `Ipv4`: CIDR prefixes (section 3.1 of RFC 4632) and Python's `IPv4Network.subnets(new_prefix=n)`.
- `Ipam`: prefix rows, the claim, the /8 fallback and the /18 split.
- `InterfacePattern`: `expand_interface_pattern`.
- `Decimal`: decimal rendering of numbers.
- `DataSetup`: roles, the tenant, VLANs and device types.
- `Topology`: day-38 rack and device names and interface-role blocks.
- `Jobs`: the runs.
- `JobProperties`: the run-level lemmas.

Jobs are not atomic. When a step raises, rows written before it stay, and the error is returned beside the state.

Where the code and its comments differ, the model follows the code:

- The day-37 and day-38 jobs never bind `pop_prefix` for a site that already exists, so re-running them always fails at the split (`UnboundPopPrefix`). The model keeps that failure.
- Day 3 creates the `mgmt` and `loopback` prefixes without a location. The model does the same.
- Day 38 looks up the rack status with a filter on a field `Status` does not have. The model's day-38 run therefore always ends with `RackStatusQuery` once the role prefixes are in place.
- The p2p `get_or_create` of days 37 and 38 repeats the `location` keyword, which Python rejects at compile time. The model treats it as a single `location` field.

## Model

| member | source | states |
|---|---|---|
| Decimal.NatToString | sample_nautobot_jobs/future_site_day38.py:427 | `str(n)`: a non-empty digit string, starting with `0` only for 0, one digit exactly below 10 |
| Decimal.DigitsValueOfNatToString | sample_nautobot_jobs/future_site_day38.py:427 | reading the rendered digits back gives the number (round trip) |
| Decimal.NatToStringInjective | sample_nautobot_jobs/future_site_day38.py:427 | different numbers render differently |
| Decimal.Pad2 | sample_nautobot_jobs/future_site_day38.py:449 | `{i:02}`: digits only, exactly two of them below 100 |
| Decimal.Pad2Value | sample_nautobot_jobs/future_site_day38.py:449 | the padded digits read back as the number |
| Decimal.Pad2Injective | sample_nautobot_jobs/future_site_day38.py:449 | different numbers pad differently |
| Ipv4.SubnetsValid | sample_nautobot_jobs/future_site_day38.py:364 | for a valid prefix and `len <= n <= 32`, `subnets(new_prefix=n)` succeeds with `2^(n-len)` valid /n prefixes, all inside the prefix |
| Ipv4.SubnetsTile | sample_nautobot_jobs/future_site_day38.py:364 | the k-th subnet starts k subnet sizes after the network address, each ends where the next begins, the last ends where the prefix ends |
| Ipv4.SubnetsAscendingDisjoint | sample_nautobot_jobs/future_site_day38.py:364-370 | the subnets come out in ascending order and pairwise disjoint |
| Ipv4.SubnetsCover | sample_nautobot_jobs/future_site_day38.py:364 | an address lies in the prefix if and only if it lies in one of its subnets |
| Ipv4.PopSplitExample | sample_nautobot_jobs/future_site_day38.py:364-370 | `10.0.0.0/16` splits into `10.0.0.0/18`, `10.0.64.0/18`, `10.0.128.0/18`, `10.0.192.0/18`, in that order |
| InterfacePattern.MatchGroupSound | sample_nautobot_jobs/future_site_day38.py:218 | a match of `\[([0-9]+)-([0-9]+)\]` is two non-empty digit strings and spells `[lo-hi]` |
| InterfacePattern.DigitRunMaximal | sample_nautobot_jobs/future_site_day38.py:218 | the greedy `[0-9]+` run is all digits and stops before the first non-digit |
| InterfacePattern.ScanRoundTrip | sample_nautobot_jobs/future_site_day38.py:218-227 | the tokens read from a pattern (literal characters and range groups) spell the pattern back |
| InterfacePattern.Expand | sample_nautobot_jobs/future_site_day38.py:218-220 | a pattern with no `[a-b]` group expands to exactly `[pattern]`; the code is the same in future_site_day37.py:187-189 and future_site_day35.py:178-180 |
| InterfacePattern.ExpandCount | sample_nautobot_jobs/future_site_day38.py:223-230 | with groups, the number of names is the product of the `b-a+1` range sizes, and it is zero if and only if some group has `a > b` (day 37: 192-199, day 35: 183-190) |
| InterfacePattern.ExpandOrder | sample_nautobot_jobs/future_site_day38.py:223-230 | name i is the pattern rendered with the i-th number combination, and the combinations are strictly increasing in lexicographic order (first group slowest, last fastest, no repeats) |
| InterfacePattern.ExpandMembers | sample_nautobot_jobs/future_site_day38.py:223-230 | a name is in the expansion if and only if it is the pattern rendered with one number from each group's range |
| InterfacePattern.CombosMember | sample_nautobot_jobs/future_site_day38.py:223-229 | a number combination is produced if and only if each number lies within its group's bounds |
| InterfacePattern.SingleGroup | sample_nautobot_jobs/future_site_day38.py:213-216 | for a pattern with one group, the names are the text before and after the group around `lo`, `lo+1`, ..., `hi` in order, written without leading zeros |
| InterfacePattern.SingleGroupExample | sample_nautobot_jobs/future_site_day38.py:215 | `Ethernet[1-24]` expands to exactly 24 names, `Ethernet1` .. `Ethernet24`, name `k` being `Ethernet` followed by `k + 1` |
| InterfacePattern.TwoGroups | sample_nautobot_jobs/future_site_day38.py:216-230 | a pattern with two groups of widths `w1` and `w2` expands to `w1 * w2` names; name `i * w2 + j` carries the first group's `i`-th number and the second's `j`-th, so the last group varies fastest, as `itertools.product` orders them |
| InterfacePattern.TwoGroupExample | sample_nautobot_jobs/future_site_day38.py:216 | `Ethernet[1-60]/[1-4]` expands to 240 names, name `k` being `Ethernet<k/4+1>/<k%4+1>`: `Ethernet1/1`, `Ethernet1/2`, then `Ethernet2/1` at index 4, and `Ethernet60/4` last |
| Orm.First | sample_nautobot_jobs/future_site_day38.py:312-317 | `.filter(p).first()` returns the first matching row in table order, or `None` when no row matches |
| Orm.GetOrCreate | sample_nautobot_jobs/future_site_day38.py:287-294 | raises if and only if two or more rows match; otherwise it returns the only matching row, and it creates (appends) the row exactly when none matched |
| Orm.GetOrCreateIdempotent | sample_nautobot_jobs/future_sites_day1.py:75-89 | a second identical `get_or_create` finds the row the first returned and creates nothing |
| Orm.Get | sample_nautobot_jobs/future_site_day3.py:126 | `.get(...)` is `DoesNotExist` if and only if no row matches, `MultipleObjectsReturned` if and only if two do, and otherwise the only matching row |
| Orm.InsertIfAbsent | sample_nautobot_jobs/future_site_day35.py:159-166 | get-or-create on a unique key only ever appends, at most one row |
| Orm.InsertIfAbsentKeys | sample_nautobot_jobs/future_site_day35.py:159-166 | afterwards the table holds exactly its old keys plus the new row's key |
| Orm.InsertIfAbsentUnique | sample_nautobot_jobs/future_site_day35.py:159-166 | keys stay unique |
| Orm.InsertIfAbsentIsGetOrCreate | sample_nautobot_jobs/future_site_day35.py:159-166 | on a uniquely keyed table, `get_or_create` on the key never raises and is insert-if-absent |
| Ipam.NewRecord | sample_nautobot_jobs/future_site_day38.py:343-349 | a created prefix row matches the lookup it was created from |
| Ipam.CreatePrefix | sample_nautobot_jobs/future_site_day38.py:374-382 | `Prefix.objects.get_or_create`: a row is created only for a prefix not yet in the table, a found row matches the lookup; `IntegrityError` is raised if and only if no row matches the lookup while the prefix is already in the table, and `MultipleObjectsReturned` if and only if two or more rows match |
| Ipam.CreatePrefixFresh | sample_nautobot_jobs/future_site_day38.py:343-349 | a prefix absent from the table is appended with exactly the lookup's fields |
| Ipam.CreatePrefixFound | sample_nautobot_jobs/future_site_day38.py:374-382 | with exactly one matching row, that row is returned and nothing changes |
| Ipam.Claim | sample_nautobot_jobs/future_site_day38.py:312-323 | the claim changes nothing when no row is a free Active container /16 without a location; otherwise it changes only the location of the first such row, to the site |
| Ipam.ClaimTwice | sample_nautobot_jobs/future_sites_day1.py:101-112 | two successive claims take two different rows, the earlier one first, each located at its own site |
| Ipam.ClaimLowest | sample_nautobot_jobs/future_site_day38.py:311-317 | in a table listed in address order, the claimed /16 is the lowest free one |
| Ipam.FirstAbsent | sample_nautobot_jobs/future_site_day38.py:341-342 | the first candidate whose exact prefix is absent from the table, every earlier one being present, or `None` if all are present |
| Ipam.Allocate | sample_nautobot_jobs/future_site_day38.py:327-354 | on success, the table afterwards is the old one plus the new POP row |
| Ipam.AllocateLowestAbsent | sample_nautobot_jobs/future_site_day38.py:335-352 | the new POP prefix is a valid /16 inside the first available block and absent from the table, every lower candidate is present, and it is added as an Active `pop` container at the site |
| Ipam.AllocatedCandidate | sample_nautobot_jobs/future_site_day38.py:341-352 | the allocated prefix is the first absent candidate of the block's /16 subnets |
| Ipam.AllocateScanned | sample_nautobot_jobs/future_site_day38.py:341-354 | once the scan has passed k present candidates, the result is the exhausted-pool error when k is the last, and the k-th candidate created otherwise |
| Ipam.CandidateInside | sample_nautobot_jobs/future_site_day38.py:341 | each candidate is a valid /16 inside the first available block |
| Ipam.EarlierCandidatesTaken | sample_nautobot_jobs/future_site_day38.py:340-342 | every candidate at a lower address than the chosen one is already present |
| Ipam.AllocateNeedsTopLevel | sample_nautobot_jobs/future_site_day38.py:328-335 | without an Active container /8 the fallback fails (`get_first_available_prefix` on `None`) |
| Ipam.CreateAll | sample_nautobot_jobs/future_site_day38.py:373-420 | successive `get_or_create` calls never change or remove an existing row |
| Ipam.CreateAllFresh | sample_nautobot_jobs/future_site_day38.py:373-420 | lookups for distinct prefixes, none of them in the table, append one new row each, in order, with no error |
| Ipam.CreateAllIdempotent | sample_nautobot_jobs/future_site_day37.py:341-387 | repeating the same lookups after they succeeded changes nothing and raises nothing |
| Ipam.CreateAllAvoids | sample_nautobot_jobs/future_site_day38.py:373-420 | rows added by the lookups carry only the lookups' prefixes |
| Ipam.SplitPop | sample_nautobot_jobs/future_site_day38.py:364-420 | the split keeps every existing row and adds at most four |
| Ipam.SplitSitePrefix | sample_nautobot_jobs/future_site_day3.py:134-183 | the day-3 split keeps every existing row and adds at most four |
| Ipam.PopQuarters | sample_nautobot_jobs/future_site_day38.py:364-370 | a /16 has exactly four /18 blocks, all inside it, in ascending order and disjoint |
| Ipam.SplitPopFresh | sample_nautobot_jobs/future_site_day38.py:364-420 | on a POP /16 with no /18 of it in the table, the split appends exactly four network prefixes: the /18 blocks in order, as server, mgmt, loopback and p2p, each Active, located at the site, with the tenant, and parented to the POP prefix |
| Ipam.SplitSitePrefixFresh | sample_nautobot_jobs/future_site_day3.py:134-183 | the day-3 split appends the four /18 blocks as server, mgmt, loopback and p2p under the POP prefix; only server and p2p carry the site's location, and none has a tenant |
| Ipam.SplitPopIdempotent | sample_nautobot_jobs/future_site_day37.py:341-387 | re-running a successful split with the same POP prefix creates no duplicate and raises nothing |
| Ipam.SplitPopUnbound | sample_nautobot_jobs/future_site_day37.py:323-331 | with `pop_prefix` unbound, the split fails before creating any role prefix |
| Ipam.ClaimKeepsPrefixes | sample_nautobot_jobs/future_site_day38.py:321-322 | the claim changes only a location, so no /18 of a POP prefix appears |
| Ipam.AllocateKeepsPrefixes | sample_nautobot_jobs/future_site_day38.py:343-349 | the fallback adds only a /16, so no /18 of a POP prefix appears |
| DataSetup.EnsureNamesPresent | sample_nautobot_jobs/future_site_day3.py:23-26 | after getting or creating names, a name is present if and only if it was present before or is one of the names |
| DataSetup.EnsureNamesIdempotent | sample_nautobot_jobs/future_sites_day1.py:17-21 | a second run of `create_prefix_roles` creates no role |
| DataSetup.EnsureNamesUnique | sample_nautobot_jobs/future_site_day35.py:69-70 | role names stay unique |
| DataSetup.EnsureNamesPresentUnchanged | sample_nautobot_jobs/future_site_day35.py:69-70 | with all names present, nothing is created |
| DataSetup.PrefixRolesPresent | sample_nautobot_jobs/future_site_day3.py:16-26 | after `create_prefix_roles`, all five roles of `PREFIX_ROLES` exist |
| DataSetup.NewVlan | sample_nautobot_jobs/future_site_day35.py:96-103 | a new VLAN has the listed id, the name and Active status, and has a role if and only if a role of the VLAN's name exists, in which case it is that role |
| DataSetup.EnsureVlansFound | sample_nautobot_jobs/future_site_day35.py:88-108 | after a `create_vlans` that raised nothing, each listed VLAN id names exactly one VLAN |
| DataSetup.EnsureVlansUnchanged | sample_nautobot_jobs/future_site_day35.py:100-108 | when every listed id already names exactly one VLAN, nothing changes |
| DataSetup.EnsureVlansIdempotent | sample_nautobot_jobs/future_site_day35.py:100-108 | a second `create_vlans` creates nothing and raises nothing |
| DataSetup.EnsureVlansStopped | sample_nautobot_jobs/future_site_day35.py:100-103 | the first `get_or_create` that raises ends the loop: later entries are not processed |
| DataSetup.Defaults | sample_nautobot_jobs/future_site_day35.py:131-133 | the device-type defaults hold exactly the definition's keys among part_number, u_height, is_full_depth and comments, with their values |
| DataSetup.MgmtOnly | sample_nautobot_jobs/future_site_day35.py:150 | `mgmt_only` is true only when the entry says true; it defaults to false |
| DataSetup.SkippedDefinition | sample_nautobot_jobs/future_site_day35.py:119-128 | a definition missing its manufacturer or its model creates no device type and no template; a given manufacturer is still created |
| DataSetup.AddNames | sample_nautobot_jobs/future_site_day35.py:158-166 | adding templates keeps the existing ones, and every added template is for the device type, carries one of the expanded names, and has the entry's `type` and `mgmt_only` |
| DataSetup.AddInterfaces | sample_nautobot_jobs/future_site_day35.py:147-166 | the interface loop keeps the existing templates |
| DataSetup.AddInterfacesCreated | sample_nautobot_jobs/future_site_day35.py:147-166 | every template the loop adds is a name expanded from an entry with both a pattern and a type, with that entry's `type` and `mgmt_only` (false when absent); entries without a pattern or a type add nothing |
| DataSetup.AddNamesPresent | sample_nautobot_jobs/future_site_day35.py:158-166 | every expanded name has a template for the device type afterwards |
| DataSetup.AddNamesUnchanged | sample_nautobot_jobs/future_site_day35.py:159-166 | names that already have templates add none |
| DataSetup.AddInterfacesPresent | sample_nautobot_jobs/future_site_day35.py:147-166 | every name of every entry with a pattern and a type has a template afterwards |
| DataSetup.AddInterfacesUnchanged | sample_nautobot_jobs/future_site_day35.py:159-166 | a second pass over the same entries adds no template |
| DataSetup.ApplyDefinitionApplied | sample_nautobot_jobs/future_site_day35.py:116-168 | after one definition, its manufacturer, its device type and all its templates exist, and no existing row changed; every row it added is its manufacturer, its device type with the `device_type_defaults` taken from its keys, or a template from one of its usable interface entries |
| DataSetup.ApplyDefinitionUnchanged | sample_nautobot_jobs/future_site_day35.py:116-168 | a definition already applied changes nothing |
| DataSetup.AppliedExtend | sample_nautobot_jobs/future_site_day35.py:116-168 | what one definition created survives later definitions |
| DataSetup.ApplyDefinitionsApplied | sample_nautobot_jobs/future_site_day35.py:116-168 | after `create_device_types`, every definition is applied and the old rows are kept; every added row was created by one of the definitions: a manufacturer it names, a device type with its `device_type_defaults`, or a template with the `type` and `mgmt_only` of one of its usable interface entries |
| DataSetup.ApplyDefinitionsUnchanged | sample_nautobot_jobs/future_site_day35.py:116-168 | with every definition applied already, nothing changes |
| DataSetup.ApplyDefinitionsIdempotent | sample_nautobot_jobs/future_site_day35.py:116-168 | a second `create_device_types` changes nothing |
| DataSetup.AddNamesUnique | sample_nautobot_jobs/future_site_day35.py:159-166 | templates stay unique per device type and name |
| DataSetup.AddInterfacesUnique | sample_nautobot_jobs/future_site_day35.py:147-166 | the interface loop keeps templates unique |
| DataSetup.ApplyDefinitionsUnique | sample_nautobot_jobs/future_site_day35.py:116-168 | manufacturers, device types and templates stay unique on their keys |
| Topology.RackNameInjective | sample_nautobot_jobs/future_site_day38.py:427 | `f"{site_code}-{100 + i}"` names are equal if and only if the site codes and the numbers are |
| Topology.DeviceNameInjective | sample_nautobot_jobs/future_site_day38.py:449 | within a site, `f"{site_code}-{role}-{i:02}"` names are equal if and only if the roles and the numbers are |
| Topology.RackNames | sample_nautobot_jobs/future_site_day38.py:426-427 | the leaf count (6) gives six racks |
| Topology.RackNamesDistinct | sample_nautobot_jobs/future_site_day38.py:426-427 | the six rack names `site_code-101` .. `site_code-106` are pairwise different |
| Topology.Placements | sample_nautobot_jobs/future_site_day38.py:443-445 | a role has one placement per device |
| Topology.DevicePlan | sample_nautobot_jobs/future_site_day38.py:442-449 | the plan has 2 edge + 6 leaf devices |
| Topology.PlanEntry | sample_nautobot_jobs/future_site_day38.py:442-449 | the i-th device is `edge` i+1 for i < 2, otherwise `leaf` i-1, and its rack is the rack of its number |
| Topology.DevicePlanSound | sample_nautobot_jobs/future_site_day38.py:442-449 | the eight device names are pairwise different and each device's rack is one of the six racks |
| Topology.Flat | sample_nautobot_jobs/future_site_day38.py:508-509 | the role sequence has as many entries as the counts add up to |
| Topology.FlatPrefix | sample_nautobot_jobs/future_site_day38.py:508-509 | the roles of the first k entries are a prefix of the roles of all of them |
| Topology.FlatBlocks | sample_nautobot_jobs/future_site_day38.py:508-511 | the interfaces from the total of the first k counts on, as many as entry k counts, get entry k's role |
| Topology.AssignInterfaceRoles | sample_nautobot_jobs/future_site_day38.py:507-512 | the first c1 interfaces get r1, the next c2 get r2, and so on; later interfaces keep their role; it fails (`StopIteration`) if and only if there are fewer interfaces than the counts add up to, after the existing ones got their roles |
| Jobs.NewSite | sample_nautobot_jobs/future_site_day38.py:287-294 | the created location matches the lookup it was created from |
| Jobs.Setup | sample_nautobot_jobs/future_site_day37.py:243-246 | the set-up leaves the locations and prefixes untouched |
| Jobs.ClaimedPop | sample_nautobot_jobs/future_site_day37.py:279-290 | the POP prefix bound by the claim is the claimed row's prefix, and it is bound if and only if a row was claimed |
| Jobs.Day38 | sample_nautobot_jobs/future_site_day38.py:425 | day 38 never finishes: it ends with the rack status error whenever the role prefixes were created |
| Jobs.Nautobot.CreatePrefixRoles | sample_nautobot_jobs/future_site_day35.py:62-74 | the loop gets or creates each of the five roles, and nothing else changes |
| Jobs.Nautobot.CreateTenant | sample_nautobot_jobs/future_site_day35.py:77-81 | the tenant "Data Center" is got or created, and nothing else changes |
| Jobs.Nautobot.CreateVlans | sample_nautobot_jobs/future_site_day35.py:84-108 | the loop over `VLAN_INFO` gives the VLAN table and error of `EnsureVlans`, and nothing else changes |
| Jobs.Nautobot.CreateDeviceTypes | sample_nautobot_jobs/future_site_day35.py:111-168 | the loop over the definitions, with its `continue` skips, gives the catalog of `ApplyDefinitions` |
| Jobs.Nautobot.AddTemplates | sample_nautobot_jobs/future_site_day35.py:147-168 | the nested interface loop gives the templates of `AddInterfaces` |
| Jobs.Nautobot.AddTemplateNames | sample_nautobot_jobs/future_site_day35.py:158-166 | the inner loop over the expanded names gives the templates of `AddNames` |
| Jobs.Nautobot.SetUp | sample_nautobot_jobs/future_site_day37.py:243-246 | the four set-up calls give the state and error of `Setup` |
| Jobs.Nautobot.GetOrCreateSite | sample_nautobot_jobs/future_site_day37.py:254-261 | the site row number and the created flag of `get_or_create`, or its error with nothing changed |
| Jobs.Nautobot.ClaimPop | sample_nautobot_jobs/future_site_day37.py:279-290 | the in-place claim: the claimed row's location is set, and only it changes |
| Jobs.Nautobot.GetOrCreatePrefix | sample_nautobot_jobs/future_site_day37.py:310-316 | the prefix table after `get_or_create`, or its error with nothing changed |
| Jobs.Nautobot.FindPopPrefix | sample_nautobot_jobs/future_site_day37.py:279-321 | the claim, or else the fallback: the POP prefix and the table of `FindPop` |
| Jobs.Nautobot.AllocatePop | sample_nautobot_jobs/future_site_day38.py:327-354 | the `for`/`else` candidate scan gives the POP prefix and table of `Allocate`, and changes nothing when it raises |
| Jobs.Nautobot.CreateRolePrefixes | sample_nautobot_jobs/future_site_day38.py:373-420 | the four `get_or_create` calls, the first that raises ending the run |
| Jobs.Nautobot.SplitPopPrefix | sample_nautobot_jobs/future_site_day38.py:364-420 | four `next()` calls on the /18 subnets, then the role prefixes, as `SplitPop` |
| Jobs.Nautobot.SplitSite | sample_nautobot_jobs/future_site_day3.py:128-183 | the day-3 split of the site's first prefix, as `SplitSitePrefix` |
| Jobs.Nautobot.RunDay1 | sample_nautobot_jobs/future_sites_day1.py:55-114 | the day-1 run gives the state and error of `Day1` |
| Jobs.Nautobot.RunDay3 | sample_nautobot_jobs/future_site_day3.py:58-183 | the day-3 run gives the state and error of `Day3` |
| Jobs.Nautobot.RunCreatePop | sample_nautobot_jobs/future_site_day37.py:236-387 | the day-37 run gives the state and error of `CreatePop` |
| Jobs.Nautobot.RunDay38 | sample_nautobot_jobs/future_site_day38.py:269-425 | the day-38 run up to the rack status lookup gives the state and error of `Day38` |
| JobProperties.SetupEffects | sample_nautobot_jobs/future_site_day37.py:243-246 | after a set-up that raised nothing: the five roles and the tenant exist, each VLAN id names exactly one VLAN, and every device-type definition is applied |
| JobProperties.SetupIdempotent | sample_nautobot_jobs/future_site_day37.py:71-177 | a second set-up changes nothing and raises nothing |
| JobProperties.SetupFrame | sample_nautobot_jobs/future_site_day37.py:243-246 | the set-up neither reads nor writes the locations and prefixes |
| JobProperties.ClaimCount | sample_nautobot_jobs/future_sites_day1.py:101-112 | a claim adds one prefix to the site when it claims, and none otherwise |
| JobProperties.Day1RerunClaimsAgain | sample_nautobot_jobs/future_sites_day1.py:83-112 | day 1 as written: re-running with the same inputs creates no site, but it claims one more /16 for the site while a free one is left |
| JobProperties.Day1FixedRerun | sample_nautobot_jobs/future_sites_day1.py:75-114 | day 1 claiming only for a new site: a re-run changes nothing |
| JobProperties.Day1FixedClaimsOnce | sample_nautobot_jobs/future_sites_day1.py:83-112 | day 1 claiming only for a new site claims nothing for an existing site and at most one /16 for a new one |
| JobProperties.NewSiteCreated | sample_nautobot_jobs/future_site_day3.py:78-86 | a site name not in the table gets a new location row, appended, which `get(name=...)` then finds |
| JobProperties.Day3ExistingSite | sample_nautobot_jobs/future_site_day3.py:117-148 | on an existing site, day 3 only ensures the roles, then fails before any role prefix |
| JobProperties.Day3Rerun | sample_nautobot_jobs/future_site_day3.py:78-148 | re-running a successful day 3 changes nothing and fails |
| JobProperties.Day3NoFreePop | sample_nautobot_jobs/future_site_day3.py:114-134 | with no free /16, day 3 creates the site, leaves the prefixes unchanged and fails on the missing site prefix |
| JobProperties.Day3ClaimStep | sample_nautobot_jobs/future_site_day3.py:102-134 | for a new site with a free /16, day 3 claims it and splits that same prefix |
| JobProperties.Day3NewSite | sample_nautobot_jobs/future_site_day3.py:86-183 | on a new site with a free /16: the whole resulting state, which is the roles, the site appended, the /16 claimed, and the four day-3 role prefixes appended |
| JobProperties.CreatePopExistingSite | sample_nautobot_jobs/future_site_day37.py:323-331 | on an existing site, day 37 performs only the set-up and fails at the split (`pop_prefix` unbound) |
| JobProperties.CreatePopRerun | sample_nautobot_jobs/future_site_day37.py:254-331 | re-running a successful day 37 changes nothing and fails |
| JobProperties.CreatePopNewSite | sample_nautobot_jobs/future_site_day37.py:254-331 | when no location matches the whole site lookup (name, type, facility, status, parent and tenant), even if one shares its name, the run is the set-up, the site appended, the POP prefix found, and the split of it |
| JobProperties.CreatePopClaimed | sample_nautobot_jobs/future_site_day37.py:279-387 | when no location matches the whole site lookup and a free /16 is left: the whole resulting state, which is the set-up, the site appended, the /16 claimed, and the four role prefixes appended, with no error |
| JobProperties.CreatePopAllocated | sample_nautobot_jobs/future_site_day37.py:292-387 | when no location matches the whole site lookup and no free /16 is left: the new POP prefix lies in the first available block and was absent; the whole resulting state is the set-up, the site, the new `pop` container and the four role prefixes |

## Left out

- Nautobot's ORM internals are not part of this model:
  - `validated_save`, content types and model field validation are not modelled.
  - A query's row order is an input: a table is the sequence of its rows in query order.
  - `get_first_available_prefix` of the /8 is a parameter (`firstAvail`), because its allocator is not visible.
- Namespaces are ignored. A prefix's uniqueness is modelled on the prefix alone, which is what raises `IntegrityError` in `Ipam.CreatePrefix`.
- Locations carry no uniqueness constraint in the model. Two rows matching the site lookup make `get_or_create` raise `MultipleObjectsReturned`.
- `LocationType` and `Status` lookups, `Role.objects.get(name=...)` and the `pop_role` lookup are assumed to succeed. Status is the string "Active", and roles, tenants and parents are names or row numbers.
- The YAML text of the device types is not parsed. Definitions are given already parsed (`DataSetup.DeviceTypeDef`), because parsing is library code.
- In `expand_interface_pattern`, `str.format` is applied to the text around the groups. Literal `{` or `}` in a pattern is not modelled: `InterfacePattern.Expand` keeps such text as written.
- Logging, `print`, `register_jobs`, the `Meta` classes and the job variable declarations are not modelled. They carry no stateable behaviour.
- The compile and import failures are not modelled: the repeated `location` keyword of the days 37 and 38 p2p `get_or_create`, and the undefined `RackTypeChoices` of day 38. Each step is modelled as evidently intended, with `location` given once.
- Jobs.Day38: rack creation, devices, loopback IPs, leaf VLANs, VLAN prefixes and relationships (future_site_day38.py:425-570) are not modelled. The rack status query raises before them, and that code uses names that are never defined. Only the naming formulas (`Topology`) and the interface-role assignment (`Topology.AssignInterfaceRoles`) are modelled.
- Topology.AssignInterfaceRoles: an array of role fields stands for the device's interfaces in query order. Saving each interface is not modelled. The source replaces each visited interface's whole custom-field data with `{"role": ...}`, so the other custom-field values of the visited interfaces are erased; the model keeps only the role.
- The order of `VLAN_INFO.items()` is taken as written in the source.
- sample_nautobot_jobs/future_site_day2.py is not part of this model: it stops with a NameError before its split, which repeats the day-3 one.
- python/create_initial_data.py, python/delete_initial_data.py and create_site.py are not part of this model: they are straight-line get-or-create and delete calls.
- The SSH, HTTP, pyATS, Jinja2 and hier_config scripts (python/paramiko_example*.py, the route API jobs, python/slurpit_api_sample.py, python/gather_ospf_neighbors.py, python/renderer.py, python/hier_config/) are not part of this model: they are I/O around libraries.

## Findings

| source | as written | input that shows it | evidently intended | confidence | as-written member | corrected member |
|---|---|---|---|---|---|---|
| sample_nautobot_jobs/future_sites_day1.py:83-112 | the /16 claim runs whether or not `get_or_create` created the site | run the job twice with the same site inputs while a free Active container /16 is left: the second run creates no site but assigns one more /16 to the same site | claim only for a newly created site, as the day-3 and later versions do (future_site_day3.py:86-115) | not executed; high | JobProperties.Day1RerunClaimsAgain | JobProperties.Day1FixedRerun |
