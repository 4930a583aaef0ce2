/**
 * The prefix table as the POP jobs see it, and the three steps they take on it:
 * claiming a free /16 for a new site, carving a new /16 out of the first
 * available block of a /8 when none is free, and splitting the POP prefix into
 * the four /18 role prefixes.
 */
module Ipam {
  import opened Wrappers
  import opened Ipv4
  import Orm

  const POP_PREFIX_SIZE: nat := 16
  const ROLE_PREFIX_SIZE: nat := 18
  const TOP_LEVEL_PREFIX_SIZE: nat := 8

  /** The role prefixes, in the order they take the /18 blocks of the POP. */
  const SPLIT_ROLES: seq<string> := ["server", "mgmt", "loopback", "p2p"]

  datatype PrefixType = Container | Network | Pool

  /**
   * A row of the prefix table. Roles are named, sites (locations) and tenants
   * are row numbers of their own tables, and the parent is the parent's prefix.
   */
  datatype PrefixRecord = PrefixRecord(
    prefix: Prefix,
    kind: PrefixType,
    status: string,
    role: Option<string>,
    location: Option<nat>,
    parent: Option<Prefix>,
    tenant: Option<nat>)

  /** A lookup field: left out of the lookup, or required to equal a value. */
  datatype Field<T> = Any | Is(value: T)

  predicate Fits<T(==)>(f: Field<T>, v: T) {
    f.Any? || f.value == v
  }

  /** The value a new row takes for a field: the looked-up one, or the model default. */
  function Given<T>(f: Field<T>, default: T): T {
    if f.Is? then f.value else default
  }

  /** The keyword arguments of a `Prefix.objects.get_or_create(...)`. */
  datatype PrefixLookup = PrefixLookup(
    prefix: Prefix,
    kind: PrefixType,
    status: string,
    role: Option<string>,
    location: Field<Option<nat>>,
    parent: Field<Option<Prefix>>,
    tenant: Field<Option<nat>>)

  predicate Matches(q: PrefixLookup, r: PrefixRecord) {
    && r.prefix == q.prefix && r.kind == q.kind && r.status == q.status && r.role == q.role
    && Fits(q.location, r.location) && Fits(q.parent, r.parent) && Fits(q.tenant, r.tenant)
  }

  function Lookup(q: PrefixLookup): PrefixRecord -> bool {
    (r: PrefixRecord) => Matches(q, r)
  }

  /** The row `get_or_create` inserts: the lookup's values, and no value for the fields it leaves out. */
  function NewRecord(q: PrefixLookup): (r: PrefixRecord)
    ensures Matches(q, r) && r.prefix == q.prefix
  {
    PrefixRecord(q.prefix, q.kind, q.status, q.role,
                 Given(q.location, None), Given(q.parent, None), Given(q.tenant, None))
  }

  /** Some row already holds this network and length (the table's uniqueness key). */
  predicate Taken(pool: seq<PrefixRecord>, p: Prefix) {
    exists j :: 0 <= j < |pool| && pool[j].prefix == p
  }

  /**
   * `Prefix.objects.get_or_create(**q)`: as `Orm.GetOrCreate`, except that a row
   * to be created whose prefix is already in the table violates its uniqueness
   * and raises `IntegrityError`.
   */
  function CreatePrefix(pool: seq<PrefixRecord>, q: PrefixLookup): (r: Result<(seq<PrefixRecord>, nat, bool), Orm.OrmError>)
    ensures r.Ok? && r.value.2 ==> !Taken(pool, q.prefix) && r.value.0 == pool + [NewRecord(q)]
    ensures r.Ok? && !r.value.2 ==> r.value.0 == pool && r.value.1 < |pool| && Matches(q, pool[r.value.1])
    ensures r == Err(Orm.IntegrityError) <==> Orm.Count(pool, Lookup(q)) == 0 && Taken(pool, q.prefix)
    ensures r == Err(Orm.MultipleObjectsReturned) <==> Orm.Count(pool, Lookup(q)) >= 2
    ensures r.Err? ==> r.error == Orm.IntegrityError || r.error == Orm.MultipleObjectsReturned
  {
    Orm.CountZero(pool, Lookup(q));
    if Orm.Count(pool, Lookup(q)) == 0 && Taken(pool, q.prefix) then Err(Orm.IntegrityError)
    else Orm.GetOrCreate(pool, Lookup(q), NewRecord(q))
  }

  /** With no row holding its prefix, a lookup creates its row. */
  lemma CreatePrefixFresh(pool: seq<PrefixRecord>, q: PrefixLookup)
    requires !Taken(pool, q.prefix)
    ensures CreatePrefix(pool, q) == Ok((pool + [NewRecord(q)], |pool|, true))
  {
    Orm.CountZero(pool, Lookup(q));
  }

  /** With exactly one matching row, a lookup returns it and changes nothing. */
  lemma CreatePrefixFound(pool: seq<PrefixRecord>, q: PrefixLookup, i: nat)
    requires i < |pool| && Matches(q, pool[i])
    requires forall j :: 0 <= j < |pool| && Matches(q, pool[j]) ==> j == i
    ensures CreatePrefix(pool, q) == Ok((pool, i, false))
  {
    Orm.CountExactlyOne(pool, Lookup(q), i);
    Orm.CountOne(pool, Lookup(q));
  }

  // ---------------------------------------------------------------------------
  // Claiming a free /16
  // ---------------------------------------------------------------------------

  /** The claim filter: an Active container /16 that no site holds yet. */
  predicate FreePop(r: PrefixRecord) {
    r.kind == Container && r.prefix.length == POP_PREFIX_SIZE && r.status == Orm.ACTIVE && r.location.None?
  }

  /**
   * The first free /16, in table order, gets the new site as its location.
   * Returns the table afterwards and the row claimed, if there was one.
   */
  function Claim(pool: seq<PrefixRecord>, site: nat): (r: (seq<PrefixRecord>, Option<nat>))
    ensures |r.0| == |pool|
    ensures r.1.None? <==> forall j :: 0 <= j < |pool| ==> !FreePop(pool[j])
    ensures r.1.None? ==> r.0 == pool
    ensures r.1.Some? ==> var i := r.1.value;
      && i < |pool| && FreePop(pool[i]) && (forall j :: 0 <= j < i ==> !FreePop(pool[j]))
      && r.0[i] == pool[i].(location := Some(site))
      && forall j :: 0 <= j < |pool| && j != i ==> r.0[j] == pool[j]
  {
    match Orm.First(pool, FreePop)
    case None => (pool, None)
    case Some(i) => (pool[i := pool[i].(location := Some(site))], Some(i))
  }

  /**
   * Two sites created one after the other never share a /16: the second claim
   * takes a later row, and the first site keeps its own.
   */
  lemma ClaimTwice(pool: seq<PrefixRecord>, a: nat, b: nat)
    requires Claim(pool, a).1.Some?
    requires Claim(Claim(pool, a).0, b).1.Some?
    ensures var (after, i) := Claim(pool, a);
      var (final, j) := Claim(after, b);
      i.value < j.value && final[i.value].location == Some(a) && final[j.value].location == Some(b)
  {
    var (after, i) := Claim(pool, a);
    var (final, j) := Claim(after, b);
    assert forall m :: 0 <= m <= i.value ==> !FreePop(after[m]);
  }

  /** With the table ordered by network address, the claim takes the lowest free /16. */
  lemma ClaimLowest(pool: seq<PrefixRecord>, site: nat)
    requires forall i, j :: 0 <= i < j < |pool| ==> pool[i].prefix.network <= pool[j].prefix.network
    requires Claim(pool, site).1.Some?
    ensures var i := Claim(pool, site).1.value;
      forall j :: 0 <= j < |pool| && FreePop(pool[j]) ==> pool[i].prefix.network <= pool[j].prefix.network
  {
  }

  // ---------------------------------------------------------------------------
  // A new /16 from the first available block of a /8
  // ---------------------------------------------------------------------------

  /** Why a POP job stops with an exception. */
  datatype JobError =
    | Db(error: Orm.OrmError)
    /** No Active container /8: `get_first_available_prefix` is called on `None`. */
    | NoTopLevelPrefix
    /** The /8 has no free space left. */
    | NoAvailableSubnets
    /** `subnets(new_prefix=...)` raises `ValueError`. */
    | BadSplit(reason: SubnetsError)
    /** Every /16 of the free block is already in the table. */
    | PopPoolExhausted
    /** The site already existed, so `pop_prefix` was never assigned. */
    | UnboundPopPrefix
    /** The site has no prefix: `IPv4Network("None")` raises. */
    | NoSitePrefix
    /** The POP prefix has fewer than four /18 blocks. */
    | StopIteration
    /** Day 38's rack status lookup filters `Status` on a field it does not have. */
    | RackStatusQuery

  predicate TopLevel(r: PrefixRecord) {
    r.kind == Container && r.status == Orm.ACTIVE && r.prefix.length == TOP_LEVEL_PREFIX_SIZE
  }

  /** The row created for a new POP prefix. */
  function PopLookup(candidate: Prefix, site: nat): PrefixLookup {
    PrefixLookup(candidate, Container, Orm.ACTIVE, Some("pop"), Is(Some(site)), Any, Any)
  }

  /** The index of the first candidate that no row holds yet. */
  function FirstAbsent(pool: seq<PrefixRecord>, candidates: seq<Prefix>): (r: Option<nat>)
    ensures r.Some? ==> r.value < |candidates| && !Taken(pool, candidates[r.value])
    ensures r.Some? ==> forall k :: 0 <= k < r.value ==> Taken(pool, candidates[k])
    ensures r.None? ==> forall k :: 0 <= k < |candidates| ==> Taken(pool, candidates[k])
  {
    if |candidates| == 0 then None
    else if !Taken(pool, candidates[0]) then Some(0)
    else match FirstAbsent(pool, candidates[1..])
      case None => None
      case Some(k) => Some(k + 1)
  }

  /**
   * The fallback when no /16 is free. `firstAvail` is what the first Active
   * container /8's `get_first_available_prefix()` returns (the allocator is not
   * modelled). Returns the table afterwards and the new POP prefix.
   */
  function Allocate(pool: seq<PrefixRecord>, site: nat, firstAvail: Option<Prefix>): (r: Result<(seq<PrefixRecord>, Prefix), JobError>)
    ensures r.Ok? ==> r.value.0 == pool + [NewRecord(PopLookup(r.value.1, site))]
  {
    if Orm.First(pool, TopLevel).None? then Err(NoTopLevelPrefix)
    else if firstAvail.None? then Err(NoAvailableSubnets)
    else match Subnets(firstAvail.value, POP_PREFIX_SIZE)
      case Err(e) => Err(BadSplit(e))
      case Ok(candidates) =>
        match FirstAbsent(pool, candidates)
        case None => Err(PopPoolExhausted)
        case Some(k) =>
          CreatePrefixFresh(pool, PopLookup(candidates[k], site));
          Ok((pool + [NewRecord(PopLookup(candidates[k], site))], candidates[k]))
  }

  /**
   * The new POP prefix is the first /16 of the free block that is not yet in
   * the table, it is an Active container of role `pop` located at the site, and
   * it is appended to the table.
   */
  lemma AllocateLowestAbsent(pool: seq<PrefixRecord>, site: nat, firstAvail: Prefix)
    requires firstAvail.Valid() && firstAvail.length <= POP_PREFIX_SIZE
    requires Allocate(pool, site, Some(firstAvail)).Ok?
    ensures Subnets(firstAvail, POP_PREFIX_SIZE).Ok?
    ensures var (after, pop) := Allocate(pool, site, Some(firstAvail)).value;
      var candidates := Subnets(firstAvail, POP_PREFIX_SIZE).value;
      && pop.Valid() && pop.length == POP_PREFIX_SIZE && firstAvail.network <= pop.network && pop.End() <= firstAvail.End()
      && !Taken(pool, pop)
      && (forall m :: 0 <= m < |candidates| && candidates[m].network < pop.network ==> Taken(pool, candidates[m]))
      && after == pool + [PrefixRecord(pop, Container, Orm.ACTIVE, Some("pop"), Some(site), None, None)]
  {
    var k := AllocatedCandidate(pool, site, firstAvail);
    CandidateInside(firstAvail, k);
    EarlierCandidatesTaken(pool, firstAvail, k);
  }

  lemma CandidateInside(firstAvail: Prefix, k: nat)
    requires firstAvail.Valid() && firstAvail.length <= POP_PREFIX_SIZE
    ensures Subnets(firstAvail, POP_PREFIX_SIZE).Ok?
    ensures var candidates := Subnets(firstAvail, POP_PREFIX_SIZE).value;
      k < |candidates| ==>
        var c := candidates[k];
        c.Valid() && c.length == POP_PREFIX_SIZE && firstAvail.network <= c.network && c.End() <= firstAvail.End()
  {
    SubnetsValid(firstAvail, POP_PREFIX_SIZE);
  }

  lemma EarlierCandidatesTaken(pool: seq<PrefixRecord>, firstAvail: Prefix, k: nat)
    requires firstAvail.Valid() && firstAvail.length <= POP_PREFIX_SIZE
    ensures Subnets(firstAvail, POP_PREFIX_SIZE).Ok?
    ensures var candidates := Subnets(firstAvail, POP_PREFIX_SIZE).value;
      FirstAbsent(pool, candidates) == Some(k) ==>
        forall m :: 0 <= m < |candidates| && candidates[m].network < candidates[k].network ==> Taken(pool, candidates[m])
  {
    SubnetsAscendingDisjoint(firstAvail, POP_PREFIX_SIZE);
    var candidates := Subnets(firstAvail, POP_PREFIX_SIZE).value;
    forall m | k < m < |candidates|
      ensures candidates[k].network < candidates[m].network
    {
      assert candidates[k].End() <= candidates[m].network;
    }
  }

  /** A successful fallback creates the first absent candidate. */
  lemma AllocatedCandidate(pool: seq<PrefixRecord>, site: nat, firstAvail: Prefix) returns (k: nat)
    requires Allocate(pool, site, Some(firstAvail)).Ok?
    ensures Subnets(firstAvail, POP_PREFIX_SIZE).Ok?
    ensures var candidates := Subnets(firstAvail, POP_PREFIX_SIZE).value;
      && FirstAbsent(pool, candidates) == Some(k) && k < |candidates|
      && Allocate(pool, site, Some(firstAvail)).value
         == (pool + [PrefixRecord(candidates[k], Container, Orm.ACTIVE, Some("pop"), Some(site), None, None)], candidates[k])
  {
    k := FirstAbsent(pool, Subnets(firstAvail, POP_PREFIX_SIZE).value).value;
  }

  /** The outcome of the fallback once the scan has found candidate `k`, or found none. */
  lemma AllocateScanned(pool: seq<PrefixRecord>, site: nat, firstAvail: Prefix, candidates: seq<Prefix>, k: nat)
    requires Orm.First(pool, TopLevel).Some? && Subnets(firstAvail, POP_PREFIX_SIZE) == Ok(candidates)
    requires k <= |candidates| && forall m :: 0 <= m < k ==> Taken(pool, candidates[m])
    requires k < |candidates| ==> !Taken(pool, candidates[k])
    ensures k == |candidates| ==> Allocate(pool, site, Some(firstAvail)) == Err(PopPoolExhausted)
    ensures k < |candidates| ==>
      Allocate(pool, site, Some(firstAvail)) == Ok((pool + [NewRecord(PopLookup(candidates[k], site))], candidates[k]))
  {
    var f := FirstAbsent(pool, candidates);
    if k < |candidates| {
      assert f == Some(k);
    } else {
      assert f.None?;
    }
  }

  /** Without a free /16 and without an Active container /8 the job raises. */
  lemma AllocateNeedsTopLevel(pool: seq<PrefixRecord>, site: nat, firstAvail: Option<Prefix>)
    requires forall j :: 0 <= j < |pool| ==> !TopLevel(pool[j])
    ensures Allocate(pool, site, firstAvail) == Err(NoTopLevelPrefix)
  {
  }

  // ---------------------------------------------------------------------------
  // Splitting the POP prefix into the four role prefixes
  // ---------------------------------------------------------------------------

  /** Runs the lookups in order and stops at the first that raises; rows already created stay. */
  function CreateAll(pool: seq<PrefixRecord>, qs: seq<PrefixLookup>): (r: (seq<PrefixRecord>, Option<Orm.OrmError>))
    ensures |pool| <= |r.0| && forall k :: 0 <= k < |pool| ==> r.0[k] == pool[k]
    decreases |qs|
  {
    if |qs| == 0 then (pool, None)
    else match CreatePrefix(pool, qs[0])
      case Err(e) => (pool, Some(e))
      case Ok((after, _, _)) => CreateAll(after, qs[1..])
  }

  /** Every row the lookups add holds one of their prefixes. */
  lemma {:induction false} CreateAllAvoids(pool: seq<PrefixRecord>, qs: seq<PrefixLookup>, p: Prefix)
    requires forall j :: 0 <= j < |qs| ==> qs[j].prefix != p
    ensures forall k :: |pool| <= k < |CreateAll(pool, qs).0| ==> CreateAll(pool, qs).0[k].prefix != p
    decreases |qs|
  {
    if |qs| > 0 {
      match CreatePrefix(pool, qs[0])
      case Err(_) =>
      case Ok((after, _, _)) =>
        assert forall j :: 0 <= j < |qs[1..]| ==> qs[1..][j] == qs[j + 1];
        CreateAllAvoids(after, qs[1..], p);
    }
  }

  predicate DistinctPrefixes(qs: seq<PrefixLookup>) {
    forall i, j :: 0 <= i < j < |qs| ==> qs[i].prefix != qs[j].prefix
  }

  function NewRecords(qs: seq<PrefixLookup>): (rs: seq<PrefixRecord>)
    ensures |rs| == |qs| && forall k :: 0 <= k < |qs| ==> rs[k] == NewRecord(qs[k])
  {
    if |qs| == 0 then [] else [NewRecord(qs[0])] + NewRecords(qs[1..])
  }

  /** Lookups of distinct prefixes that no row holds all create their rows. */
  lemma {:induction false} CreateAllFresh(pool: seq<PrefixRecord>, qs: seq<PrefixLookup>)
    requires DistinctPrefixes(qs)
    requires forall k :: 0 <= k < |qs| ==> !Taken(pool, qs[k].prefix)
    ensures CreateAll(pool, qs) == (pool + NewRecords(qs), None)
    decreases |qs|
  {
    if |qs| > 0 {
      var after := pool + [NewRecord(qs[0])];
      CreateAllFreshStep(pool, qs);
      FreshTail(pool, qs);
      DistinctTail(qs);
      CreateAllFresh(after, qs[1..]);
      NewRecordsCons(pool, qs);
    } else {
      assert pool + NewRecords(qs) == pool;
    }
  }

  lemma CreateAllFreshStep(pool: seq<PrefixRecord>, qs: seq<PrefixLookup>)
    requires |qs| > 0 && !Taken(pool, qs[0].prefix)
    ensures CreateAll(pool, qs) == CreateAll(pool + [NewRecord(qs[0])], qs[1..])
  {
    CreatePrefixFresh(pool, qs[0]);
  }

  lemma NewRecordsCons(pool: seq<PrefixRecord>, qs: seq<PrefixLookup>)
    requires |qs| > 0
    ensures (pool + [NewRecord(qs[0])]) + NewRecords(qs[1..]) == pool + NewRecords(qs)
  {
    assert NewRecords(qs) == [NewRecord(qs[0])] + NewRecords(qs[1..]);
  }

  lemma DistinctTail(qs: seq<PrefixLookup>)
    requires |qs| > 0 && DistinctPrefixes(qs)
    ensures DistinctPrefixes(qs[1..])
    ensures forall k :: 0 <= k < |qs| - 1 ==> qs[1..][k].prefix != qs[0].prefix
  {
    forall a, b | 0 <= a < b < |qs[1..]|
      ensures qs[1..][a].prefix != qs[1..][b].prefix
    {
      assert qs[1..][a] == qs[a + 1] && qs[1..][b] == qs[b + 1];
    }
    forall k | 0 <= k < |qs| - 1
      ensures qs[1..][k].prefix != qs[0].prefix
    {
      assert qs[1..][k] == qs[k + 1];
    }
  }

  lemma FreshTail(pool: seq<PrefixRecord>, qs: seq<PrefixLookup>)
    requires |qs| > 0 && DistinctPrefixes(qs)
    requires forall k :: 0 <= k < |qs| ==> !Taken(pool, qs[k].prefix)
    ensures forall k :: 0 <= k < |qs| - 1 ==> !Taken(pool + [NewRecord(qs[0])], qs[1..][k].prefix)
  {
    var after := pool + [NewRecord(qs[0])];
    forall k | 0 <= k < |qs| - 1
      ensures !Taken(after, qs[1..][k].prefix)
    {
      assert qs[1..][k] == qs[k + 1];
      assert forall j :: 0 <= j < |after| ==> after[j].prefix != qs[k + 1].prefix;
    }
  }

  /**
   * Running lookups of distinct prefixes a second time over the table they
   * produced finds every row and changes nothing.
   */
  lemma {:induction false} CreateAllIdempotent(pool: seq<PrefixRecord>, qs: seq<PrefixLookup>)
    requires DistinctPrefixes(qs)
    requires CreateAll(pool, qs).1.None?
    ensures CreateAll(CreateAll(pool, qs).0, qs) == (CreateAll(pool, qs).0, None)
    decreases |qs|
  {
    if |qs| > 0 {
      var q, rest := qs[0], qs[1..];
      var (p1, i, _) := CreatePrefix(pool, q).value;
      var final := CreateAll(p1, rest).0;
      assert CreateAll(pool, qs).0 == final;
      DistinctTail(qs);
      CreateAllAvoids(p1, rest, q.prefix);
      CreateAllIdempotent(p1, rest);
      OnlyMatch(pool, q, p1, i, final);
      CreatePrefixFound(final, q, i);
    }
  }

  /** After a lookup, its row is the only match, and rows appended for other prefixes keep it so. */
  lemma OnlyMatch(pool: seq<PrefixRecord>, q: PrefixLookup, p1: seq<PrefixRecord>, i: nat, final: seq<PrefixRecord>)
    requires CreatePrefix(pool, q).Ok? && CreatePrefix(pool, q).value.0 == p1 && CreatePrefix(pool, q).value.1 == i
    requires |p1| <= |final| && forall j :: 0 <= j < |p1| ==> final[j] == p1[j]
    requires forall k :: |p1| <= k < |final| ==> final[k].prefix != q.prefix
    ensures i < |final| && Matches(q, final[i])
    ensures forall j :: 0 <= j < |final| && Matches(q, final[j]) ==> j == i
  {
    Orm.CountZero(pool, Lookup(q));
    assert i < |p1| && Matches(q, p1[i]);
  }

  /** The lookups of the day-37/38 split: every role prefix at the site, of the tenant, under the POP. */
  function SiteLookups(s: seq<Prefix>, pop: Prefix, site: nat, tenant: Option<nat>): seq<PrefixLookup>
    requires |s| >= 4
  {
    seq(4, k requires 0 <= k < 4 =>
      PrefixLookup(s[k], Network, Orm.ACTIVE, Some(SPLIT_ROLES[k]), Is(Some(site)), Is(Some(pop)), Is(tenant)))
  }

  /**
   * The lookups of the day-3 split: no tenant, and the `mgmt` and `loopback`
   * prefixes are looked up and created without a location.
   */
  function Day3Lookups(s: seq<Prefix>, pop: Option<Prefix>, site: nat): seq<PrefixLookup>
    requires |s| >= 4
  {
    seq(4, k requires 0 <= k < 4 =>
      PrefixLookup(s[k], Network, Orm.ACTIVE, Some(SPLIT_ROLES[k]),
                   if k == 1 || k == 2 then Any else Is(Some(site)), Is(pop), Any))
  }

  /**
   * The day-37/38 split: `pop` is the POP prefix the run bound, or `None` when the
   * site already existed and nothing was bound. The first four /18 blocks of
   * the POP become the server, mgmt, loopback and p2p prefixes.
   */
  function SplitPop(pool: seq<PrefixRecord>, pop: Option<Prefix>, site: nat, tenant: Option<nat>): (r: (seq<PrefixRecord>, Option<JobError>))
    ensures |pool| <= |r.0| <= |pool| + 4 && forall k :: 0 <= k < |pool| ==> r.0[k] == pool[k]
  {
    if pop.None? then (pool, Some(UnboundPopPrefix))
    else match Subnets(pop.value, ROLE_PREFIX_SIZE)
      case Err(e) => (pool, Some(BadSplit(e)))
      case Ok(s) =>
        if |s| < 4 then (pool, Some(StopIteration))
        else RoleResult(pool, SiteLookups(s, pop.value, site, tenant))
  }

  function RoleResult(pool: seq<PrefixRecord>, qs: seq<PrefixLookup>): (r: (seq<PrefixRecord>, Option<JobError>))
    requires |qs| == 4
    ensures |pool| <= |r.0| <= |pool| + 4 && forall k :: 0 <= k < |pool| ==> r.0[k] == pool[k]
  {
    var (after, e) := CreateAll(pool, qs);
    CreateAllLength(pool, qs);
    (after, if e.Some? then Some(Db(e.value)) else None)
  }

  lemma {:induction false} CreateAllLength(pool: seq<PrefixRecord>, qs: seq<PrefixLookup>)
    ensures |CreateAll(pool, qs).0| <= |pool| + |qs|
    decreases |qs|
  {
    if |qs| > 0 {
      match CreatePrefix(pool, qs[0])
      case Err(_) =>
      case Ok((after, _, _)) => CreateAllLength(after, qs[1..]);
    }
  }

  /**
   * The day-3 split. `sitePrefix` is the first prefix located at the site found
   * by name; `pop` is `None` when `pop_prefix` was never bound (the site
   * already existed) and `Some(p)` with the value it was bound to otherwise.
   */
  function SplitSitePrefix(pool: seq<PrefixRecord>, sitePrefix: Option<Prefix>, pop: Option<Option<Prefix>>, site: nat): (r: (seq<PrefixRecord>, Option<JobError>))
    ensures |pool| <= |r.0| <= |pool| + 4 && forall k :: 0 <= k < |pool| ==> r.0[k] == pool[k]
  {
    if sitePrefix.None? then (pool, Some(NoSitePrefix))
    else match Subnets(sitePrefix.value, ROLE_PREFIX_SIZE)
      case Err(e) => (pool, Some(BadSplit(e)))
      case Ok(s) =>
        if |s| < 4 then (pool, Some(StopIteration))
        else if pop.None? then (pool, Some(UnboundPopPrefix))
        else RoleResult(pool, Day3Lookups(s, pop.value, site))
  }

  /** A POP /16 splits into exactly four /18 blocks inside it, in address order. */
  lemma PopQuarters(pop: Prefix)
    requires pop.Valid() && pop.length == POP_PREFIX_SIZE
    ensures Subnets(pop, ROLE_PREFIX_SIZE).Ok?
    ensures var s := Subnets(pop, ROLE_PREFIX_SIZE).value;
      && |s| == 4
      && (forall k :: 0 <= k < 4 ==> s[k].Valid() && s[k].length == ROLE_PREFIX_SIZE && pop.Contains(s[k].network))
      && (forall i, j :: 0 <= i < j < 4 ==> s[i].End() <= s[j].network)
  {
    SubnetsValid(pop, ROLE_PREFIX_SIZE);
    SubnetsAscendingDisjoint(pop, ROLE_PREFIX_SIZE);
    assert Pow2(2) == 4;
  }

  lemma QuartersDistinct(s: seq<Prefix>)
    requires |s| >= 4
    requires forall i, j :: 0 <= i < j < |s| ==> s[i].End() <= s[j].network
    ensures forall i, j :: 0 <= i < j < 4 ==> s[i] != s[j]
  {
    forall i, j | 0 <= i < j < 4
      ensures s[i] != s[j]
    {
      assert s[i].Size() >= 1;
    }
  }

  /** The four quarters' lookups have distinct prefixes, none of them in a table without /18s inside the POP. */
  lemma FreshQuarters(pool: seq<PrefixRecord>, pop: Prefix, s: seq<Prefix>, qs: seq<PrefixLookup>)
    requires |s| >= 4 && |qs| == 4
    requires forall k :: 0 <= k < 4 ==> qs[k].prefix == s[k]
    requires forall i, j :: 0 <= i < j < 4 ==> s[i] != s[j]
    requires forall k :: 0 <= k < 4 ==> s[k].length == ROLE_PREFIX_SIZE && pop.Contains(s[k].network)
    requires forall j :: 0 <= j < |pool| ==> pool[j].prefix.length != ROLE_PREFIX_SIZE || !pop.Contains(pool[j].prefix.network)
    ensures DistinctPrefixes(qs)
    ensures forall k :: 0 <= k < 4 ==> !Taken(pool, qs[k].prefix)
  {
  }

  /** Four fresh lookups of distinct prefixes append their four rows and raise nothing. */
  lemma RoleResultFresh(pool: seq<PrefixRecord>, qs: seq<PrefixLookup>)
    requires |qs| == 4 && DistinctPrefixes(qs)
    requires forall k :: 0 <= k < 4 ==> !Taken(pool, qs[k].prefix)
    ensures RoleResult(pool, qs) == (pool + NewRecords(qs), None)
  {
    CreateAllFresh(pool, qs);
  }

  /** No /18 inside `pop` is in the table yet. */
  predicate NoQuarterIn(pool: seq<PrefixRecord>, pop: Prefix) {
    forall j :: 0 <= j < |pool| ==> pool[j].prefix.length != ROLE_PREFIX_SIZE || !pop.Contains(pool[j].prefix.network)
  }

  /** The rows of the day-37/38 split: server, mgmt, loopback and p2p, each at the site, of the tenant, under the POP. */
  function PopRecords(s: seq<Prefix>, pop: Prefix, site: nat, tenant: Option<nat>): seq<PrefixRecord>
    requires |s| >= 4
  {
    seq(4, k requires 0 <= k < 4 => PrefixRecord(s[k], Network, Orm.ACTIVE, Some(SPLIT_ROLES[k]), Some(site), Some(pop), tenant))
  }

  /** The rows of the day-3 split: no tenant, and mgmt and loopback without a location. */
  function SiteRecords(s: seq<Prefix>, pop: Prefix, site: nat): seq<PrefixRecord>
    requires |s| >= 4
  {
    seq(4, k requires 0 <= k < 4 =>
      PrefixRecord(s[k], Network, Orm.ACTIVE, Some(SPLIT_ROLES[k]), if k == 1 || k == 2 then None else Some(site), Some(pop), None))
  }

  /**
   * On a fresh POP /16 (no /18 inside it in the table yet), the day-37/38 split
   * appends the four role prefixes, in role order, and raises nothing.
   */
  lemma SplitPopFresh(pool: seq<PrefixRecord>, pop: Prefix, site: nat, tenant: Option<nat>)
    requires pop.Valid() && pop.length == POP_PREFIX_SIZE && NoQuarterIn(pool, pop)
    ensures var quarters := Subnets(pop, ROLE_PREFIX_SIZE);
      && quarters.Ok? && |quarters.value| == 4
      && SplitPop(pool, Some(pop), site, tenant) == (pool + PopRecords(quarters.value, pop, site, tenant), None)
  {
    PopQuarters(pop);
    var s := Subnets(pop, ROLE_PREFIX_SIZE).value;
    var qs := SiteLookups(s, pop, site, tenant);
    assert SplitPop(pool, Some(pop), site, tenant) == RoleResult(pool, qs);
    QuartersDistinct(s);
    FreshQuarters(pool, pop, s, qs);
    RoleResultFresh(pool, qs);
    PopRecordsCreated(s, pop, site, tenant);
  }

  lemma PopRecordsCreated(s: seq<Prefix>, pop: Prefix, site: nat, tenant: Option<nat>)
    requires |s| >= 4
    ensures NewRecords(SiteLookups(s, pop, site, tenant)) == PopRecords(s, pop, site, tenant)
  {
  }

  lemma SiteRecordsCreated(s: seq<Prefix>, pop: Prefix, site: nat)
    requires |s| >= 4
    ensures NewRecords(Day3Lookups(s, Some(pop), site)) == SiteRecords(s, pop, site)
  {
  }

  /** The same for the day-3 split. */
  lemma SplitSitePrefixFresh(pool: seq<PrefixRecord>, pop: Prefix, site: nat)
    requires pop.Valid() && pop.length == POP_PREFIX_SIZE && NoQuarterIn(pool, pop)
    ensures var quarters := Subnets(pop, ROLE_PREFIX_SIZE);
      && quarters.Ok? && |quarters.value| == 4
      && SplitSitePrefix(pool, Some(pop), Some(Some(pop)), site) == (pool + SiteRecords(quarters.value, pop, site), None)
  {
    PopQuarters(pop);
    var s := Subnets(pop, ROLE_PREFIX_SIZE).value;
    var qs := Day3Lookups(s, Some(pop), site);
    assert SplitSitePrefix(pool, Some(pop), Some(Some(pop)), site) == RoleResult(pool, qs);
    QuartersDistinct(s);
    FreshQuarters(pool, pop, s, qs);
    RoleResultFresh(pool, qs);
    SiteRecordsCreated(s, pop, site);
  }

  /** The claim changes locations only, so it keeps a table free of /18s inside a prefix. */
  lemma ClaimKeepsPrefixes(pool: seq<PrefixRecord>, site: nat, pop: Prefix)
    requires NoQuarterIn(pool, pop)
    ensures NoQuarterIn(Claim(pool, site).0, pop)
  {
    var after := Claim(pool, site).0;
    forall j | 0 <= j < |after|
      ensures after[j].prefix == pool[j].prefix
    {
    }
  }

  /** The fallback appends a row for a /16 only, so it keeps a table free of /18s inside a prefix. */
  lemma AllocateKeepsPrefixes(pool: seq<PrefixRecord>, site: nat, firstAvail: Prefix, pop: Prefix)
    requires firstAvail.Valid() && firstAvail.length <= POP_PREFIX_SIZE
    requires NoQuarterIn(pool, pop) && Allocate(pool, site, Some(firstAvail)).Ok?
    ensures NoQuarterIn(Allocate(pool, site, Some(firstAvail)).value.0, pop)
  {
    AllocateLowestAbsent(pool, site, firstAvail);
  }

  /** Re-running a split that went through, with the same POP, finds all four prefixes and changes nothing. */
  lemma SplitPopIdempotent(pool: seq<PrefixRecord>, pop: Prefix, site: nat, tenant: Option<nat>)
    requires pop.Valid()
    requires SplitPop(pool, Some(pop), site, tenant).1.None?
    ensures var after := SplitPop(pool, Some(pop), site, tenant).0;
      SplitPop(after, Some(pop), site, tenant) == (after, None)
  {
    var s := Subnets(pop, ROLE_PREFIX_SIZE).value;
    assert pop.length <= ROLE_PREFIX_SIZE;
    SubnetsAscendingDisjoint(pop, ROLE_PREFIX_SIZE);
    QuartersDistinct(s);
    var qs := SiteLookups(s, pop, site, tenant);
    CreateAllIdempotent(pool, qs);
  }

  /** The day-37/38 split on a site that already existed raises before touching the table. */
  lemma SplitPopUnbound(pool: seq<PrefixRecord>, site: nat, tenant: Option<nat>)
    ensures SplitPop(pool, None, site, tenant) == (pool, Some(UnboundPopPrefix))
  {
  }
}
