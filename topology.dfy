/**
 * The rack and device layout the CreatePop job of day 38 plans for a new
 * site: the names of its racks and devices, and the roles given to a new
 * device's interfaces.
 */
module Topology {
  import opened Decimal
  import opened Wrappers

  /** One entry of `ROLES`: a device role, how many devices have it, and its interface roles. */
  datatype RoleSpec = RoleSpec(name: string, count: nat, interfaces: seq<(string, nat)>)

  const EDGE := RoleSpec("edge", 2, [("peer", 2), ("leaf", 12), ("external", 8)])
  const LEAF := RoleSpec("leaf", 6, [("edge", 4), ("access", 20)])

  // ---------------------------------------------------------------------------
  // Names
  // ---------------------------------------------------------------------------

  /** No character is a dash. */
  predicate NoDash(s: string) {
    forall k :: 0 <= k < |s| ==> s[k] != '-'
  }

  /** The text after the last dash (all of `s` when it has none). */
  function AfterLastDash(s: string): string {
    if |s| == 0 || s[|s| - 1] == '-' then [] else AfterLastDash(s[..|s| - 1]) + [s[|s| - 1]]
  }

  lemma {:induction false} AfterLastDashOf(a: string, x: string)
    requires NoDash(x)
    ensures AfterLastDash(a + "-" + x) == x
    decreases |x|
  {
    var s := a + "-" + x;
    if |x| == 0 {
      assert s[|s| - 1] == '-';
    } else {
      var init := x[..|x| - 1];
      assert s[..|s| - 1] == a + "-" + init;
      AfterLastDashOf(a, init);
      assert x == init + [x[|x| - 1]];
    }
  }

  /**
   * The text after the last dash is determined by the whole: a name made of a
   * stem, a dash and a dash-free tail can be split back into its two parts.
   */
  lemma SplitAtLastDash(a: string, x: string, b: string, y: string)
    requires NoDash(x) && NoDash(y) && a + "-" + x == b + "-" + y
    ensures a == b && x == y
  {
    AfterLastDashOf(a, x);
    AfterLastDashOf(b, y);
    assert a == (a + "-" + x)[..|a|];
    assert b == (b + "-" + y)[..|b|];
  }

  lemma DigitsNoDash(s: string)
    requires AllDigits(s)
    ensures NoDash(s)
  {
  }

  /** `f"{site_code}-{100 + i}"`. */
  function RackName(siteCode: string, i: nat): string {
    siteCode + "-" + NatToString(100 + i)
  }

  /** `f"{site_code}-{role}-{i:02}"`. */
  function DeviceName(siteCode: string, role: string, i: nat): string {
    siteCode + "-" + role + "-" + Pad2(i)
  }

  /** Different racks get different names, whatever the site codes. */
  lemma RackNameInjective(s1: string, i1: nat, s2: string, i2: nat)
    ensures RackName(s1, i1) == RackName(s2, i2) <==> s1 == s2 && i1 == i2
  {
    if RackName(s1, i1) == RackName(s2, i2) {
      DigitsNoDash(NatToString(100 + i1));
      DigitsNoDash(NatToString(100 + i2));
      SplitAtLastDash(s1, NatToString(100 + i1), s2, NatToString(100 + i2));
      NatToStringInjective(100 + i1, 100 + i2);
    }
  }

  /** Within a site, different (role, number) pairs give different device names. */
  lemma DeviceNameInjective(siteCode: string, r1: string, i1: nat, r2: string, i2: nat)
    ensures DeviceName(siteCode, r1, i1) == DeviceName(siteCode, r2, i2) <==> r1 == r2 && i1 == i2
  {
    if DeviceName(siteCode, r1, i1) == DeviceName(siteCode, r2, i2) {
      DigitsNoDash(Pad2(i1));
      DigitsNoDash(Pad2(i2));
      SplitAtLastDash(siteCode + "-" + r1, Pad2(i1), siteCode + "-" + r2, Pad2(i2));
      Pad2Injective(i1, i2);
      var p1, p2 := siteCode + "-" + r1, siteCode + "-" + r2;
      assert r1 == p1[|siteCode| + 1..];
      assert r2 == p2[|siteCode| + 1..];
    }
  }

  /** The racks `range(1, nbr + 1)` of the leaf role creates, in order. */
  function RackNames(siteCode: string): (r: seq<string>)
    ensures |r| == LEAF.count
  {
    seq(LEAF.count, k requires 0 <= k => RackName(siteCode, k + 1))
  }

  /** One entry per device the job plans: its name and the name of the rack it goes in. */
  datatype Placement = Placement(device: string, rack: string)

  function Placements(siteCode: string, spec: RoleSpec): (r: seq<Placement>)
    ensures |r| == spec.count
  {
    seq(spec.count, k requires 0 <= k => Placement(DeviceName(siteCode, spec.name, k + 1), RackName(siteCode, k + 1)))
  }

  /** All devices of all roles, role by role as `ROLES.items()` lists them. */
  function DevicePlan(siteCode: string): (r: seq<Placement>)
    ensures |r| == EDGE.count + LEAF.count
  {
    Placements(siteCode, EDGE) + Placements(siteCode, LEAF)
  }

  /**
   * The plan names eight devices, no two alike, and puts each in one of the
   * six racks: the edge devices share racks 101 and 102 with the first leaves.
   */
  lemma DevicePlanSound(siteCode: string)
    ensures var plan := DevicePlan(siteCode);
      && (forall i, j :: 0 <= i < j < |plan| ==> plan[i].device != plan[j].device)
      && (forall i :: 0 <= i < |plan| ==> plan[i].rack in RackNames(siteCode))
  {
    var plan := DevicePlan(siteCode);
    forall i, j | 0 <= i < j < |plan|
      ensures plan[i].device != plan[j].device
    {
      var e1 := PlanEntry(siteCode, i);
      var e2 := PlanEntry(siteCode, j);
      DeviceNameInjective(siteCode, e1.0, e1.1, e2.0, e2.1);
    }
    forall i | 0 <= i < |plan|
      ensures plan[i].rack in RackNames(siteCode)
    {
      var e := PlanEntry(siteCode, i);
      assert plan[i].rack == RackNames(siteCode)[e.1 - 1];
    }
  }

  /** Entry `i` of the plan: its role and its number within the role, which is also its rack's number. */
  lemma PlanEntry(siteCode: string, i: nat) returns (r: (string, nat))
    requires i < EDGE.count + LEAF.count
    ensures r == if i < EDGE.count then (EDGE.name, i + 1) else (LEAF.name, i - EDGE.count + 1)
    ensures 1 <= r.1 <= LEAF.count
    ensures DevicePlan(siteCode)[i] == Placement(DeviceName(siteCode, r.0, r.1), RackName(siteCode, r.1))
  {
    r := if i < EDGE.count then (EDGE.name, i + 1) else (LEAF.name, i - EDGE.count + 1);
  }

  /** The six racks have six different names. */
  lemma RackNamesDistinct(siteCode: string)
    ensures forall i, j :: 0 <= i < j < |RackNames(siteCode)| ==> RackNames(siteCode)[i] != RackNames(siteCode)[j]
  {
    forall i, j | 0 <= i < j < LEAF.count
      ensures RackNames(siteCode)[i] != RackNames(siteCode)[j]
    {
      RackNameInjective(siteCode, i + 1, siteCode, j + 1);
    }
  }

  // ---------------------------------------------------------------------------
  // Interface roles
  // ---------------------------------------------------------------------------

  /** How many interfaces a `(role, count)` list asks for. */
  function Total(plan: seq<(string, nat)>): nat {
    if |plan| == 0 then 0 else Total(plan[..|plan| - 1]) + plan[|plan| - 1].1
  }

  /** The role of each interface in turn: `count` times each role, in list order. */
  function Flat(plan: seq<(string, nat)>): (r: seq<string>)
    ensures |r| == Total(plan)
  {
    if |plan| == 0 then []
    else
      var (role, count) := plan[|plan| - 1];
      Flat(plan[..|plan| - 1]) + seq(count, _ => role)
  }

  /** The roles of a shorter list come first in the roles of a longer one. */
  lemma {:induction false} FlatPrefix(plan: seq<(string, nat)>, k: nat)
    requires k <= |plan|
    ensures Total(plan[..k]) <= Total(plan)
    ensures forall j :: 0 <= j < Total(plan[..k]) ==> Flat(plan[..k])[j] == Flat(plan)[j]
    decreases |plan| - k
  {
    if k < |plan| {
      var init := plan[..|plan| - 1];
      assert plan[..k] == init[..k];
      FlatPrefix(init, k);
      assert plan[..|plan|] == plan;
    } else {
      assert plan[..k] == plan;
    }
  }

  /**
   * Blocks: the interfaces from the total of the first `k` entries on, as many
   * as entry `k` counts, get entry `k`'s role.
   */
  lemma FlatBlocks(plan: seq<(string, nat)>, k: nat, j: nat)
    requires k < |plan| && Total(plan[..k]) <= j < Total(plan[..k]) + plan[k].1
    ensures j < Total(plan) && Flat(plan)[j] == plan[k].0
  {
    FlatPrefix(plan, k + 1);
    assert plan[..k + 1][..k] == plan[..k];
  }

  /**
   * Walks the device's interfaces in order and gives the next `count` of them
   * the role, entry by entry. `roles` holds each interface's role custom field.
   * Running out of interfaces raises `StopIteration` (`ok` false) after all of
   * them have been given a role; interfaces after the last block keep theirs.
   */
  method AssignInterfaceRoles(roles: array<Option<string>>, plan: seq<(string, nat)>) returns (ok: bool)
    modifies roles
    ensures ok <==> Total(plan) <= roles.Length
    ensures forall j :: 0 <= j < roles.Length ==>
      roles[j] == if j < Total(plan) then Some(Flat(plan)[j]) else old(roles[j])
  {
    var next := 0;
    for k := 0 to |plan|
      invariant next == Total(plan[..k]) <= roles.Length
      invariant forall j :: 0 <= j < roles.Length ==>
        roles[j] == if j < next then Some(Flat(plan[..k])[j]) else old(roles[j])
    {
      var (role, count) := plan[k];
      assert plan[..k + 1][..k] == plan[..k];
      assert Flat(plan[..k + 1]) == Flat(plan[..k]) + seq(count, _ => role);
      for c := 0 to count
        invariant next == Total(plan[..k]) + c <= roles.Length
        invariant forall j :: 0 <= j < roles.Length ==>
          roles[j] == if j < next then Some(Flat(plan[..k + 1])[j]) else old(roles[j])
      {
        if next == roles.Length {
          FlatPrefix(plan, k + 1);
          return false;
        }
        roles[next] := Some(role);
        next := next + 1;
      }
    }
    assert plan[..|plan|] == plan;
    return true;
  }
}
