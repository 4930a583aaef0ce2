/**
 * Expansion of interface-name patterns such as `Ethernet[1-60]/[1-4]`: every
 * `[lo-hi]` group is a decimal range, and the names are the text with each
 * group replaced by one number, for every combination of numbers, the last
 * group varying fastest.
 */
module InterfacePattern {
  import opened Decimal
  import opened Wrappers

  /** A pattern is read as literal characters and `[lo-hi]` range groups (digits kept as written). */
  datatype Token = Text(c: char) | Group(lo: string, hi: string)

  /** The length of the run of decimal digits at the start of `s`. */
  function DigitRun(s: string): (n: nat)
    ensures n <= |s|
  {
    if |s| > 0 && IsDigit(s[0]) then 1 + DigitRun(s[1..]) else 0
  }

  /** The run is made of digits and stops before the first character that is not one. */
  lemma {:induction false} DigitRunMaximal(s: string)
    ensures var n := DigitRun(s);
      AllDigits(s[..n]) && (n < |s| ==> !IsDigit(s[n]))
  {
    if |s| > 0 && IsDigit(s[0]) {
      DigitRunMaximal(s[1..]);
      var n := DigitRun(s);
      assert s[..n] == [s[0]] + s[1..][..n - 1];
    }
  }

  /**
   * The match of `\[([0-9]+)-([0-9]+)\]` at the very start of `s`: the two digit
   * strings and the number of characters matched. Digit runs are maximal, as
   * the regular expression's greedy `+` leaves nothing to backtrack into.
   */
  function MatchGroup(s: string): (m: Option<(string, string, nat)>)
    ensures m.Some? ==> 3 <= m.value.2 <= |s|
    ensures |s| > 0 && s[0] != '[' ==> m.None?
  {
    if |s| == 0 || s[0] != '[' then None
    else
      var a := DigitRun(s[1..]);
      if a == 0 || 1 + a >= |s| || s[1 + a] != '-' then None
      else
        var b := DigitRun(s[2 + a..]);
        if b == 0 || 2 + a + b >= |s| || s[2 + a + b] != ']' then None
        else Some((s[1..1 + a], s[2 + a..2 + a + b], 3 + a + b))
  }

  /** A match consists of two non-empty digit strings, and spells `[lo-hi]`. */
  lemma MatchGroupSound(s: string)
    ensures var m := MatchGroup(s);
      m.Some? ==> var (lo, hi, n) := m.value;
        && |lo| > 0 && AllDigits(lo) && |hi| > 0 && AllDigits(hi)
        && s[..n] == Bracket(lo, hi)
  {
    if MatchGroup(s).Some? {
      var a := DigitRun(s[1..]);
      var b := DigitRun(s[2 + a..]);
      DigitRunMaximal(s[1..]);
      DigitRunMaximal(s[2 + a..]);
      var lo, hi := s[1..1 + a], s[2 + a..2 + a + b];
      assert MatchGroup(s).value == (lo, hi, 3 + a + b);
      assert AllDigits(lo) by {
        assert lo == s[1..][..a];
      }
      assert AllDigits(hi) by {
        assert hi == s[2 + a..][..b];
      }
      BracketSpelled(s, a, b);
    }
  }

  /** A string that reads `[`, `a` characters, `-`, `b` characters, `]` starts with their bracket. */
  lemma BracketSpelled(s: string, a: nat, b: nat)
    requires 3 + a + b <= |s| && s[0] == '[' && s[1 + a] == '-' && s[2 + a + b] == ']'
    ensures s[..3 + a + b] == Bracket(s[1..1 + a], s[2 + a..2 + a + b])
  {
    var lo, hi := s[1..1 + a], s[2 + a..2 + a + b];
    var t := Bracket(lo, hi);
    forall k | 0 <= k < 3 + a + b
      ensures s[k] == t[k]
    {
      if 1 <= k < 1 + a {
        assert t[k] == lo[k - 1];
      } else if 2 + a <= k < 2 + a + b {
        assert t[k] == hi[k - 2 - a];
      }
    }
  }

  /** The text of a group `[lo-hi]`. */
  function Bracket(lo: string, hi: string): string {
    "[" + lo + "-" + hi + "]"
  }

  /** The text a token was read from. */
  function TokenText(t: Token): string {
    match t
    case Text(c) => [c]
    case Group(lo, hi) => Bracket(lo, hi)
  }

  function Unscan(ts: seq<Token>): string {
    if |ts| == 0 then "" else TokenText(ts[0]) + Unscan(ts[1..])
  }

  predicate WellFormedGroups(ts: seq<Token>) {
    forall i :: 0 <= i < |ts| && ts[i].Group? ==>
      |ts[i].lo| > 0 && AllDigits(ts[i].lo) && |ts[i].hi| > 0 && AllDigits(ts[i].hi)
  }

  /**
   * The pattern scanned left to right as `re.findall` and `re.sub` do: a group
   * wherever the expression matches, otherwise one literal character.
   */
  function Scan(s: string): (ts: seq<Token>)
    ensures WellFormedGroups(ts)
    decreases |s|
  {
    if |s| == 0 then []
    else match MatchGroup(s)
      case Some((lo, hi, n)) =>
        MatchGroupSound(s);
        [Group(lo, hi)] + Scan(s[n..])
      case None => [Text(s[0])] + Scan(s[1..])
  }

  /** Scanning loses nothing: the tokens' texts spell the pattern again. */
  lemma {:induction false} ScanRoundTrip(s: string)
    ensures Unscan(Scan(s)) == s
    decreases |s|
  {
    if |s| > 0 {
      ScanHead(s);
      var ts := Scan(s);
      var n := |TokenText(ts[0])|;
      ScanRoundTrip(s[n..]);
      assert Unscan(ts) == TokenText(ts[0]) + Unscan(ts[1..]);
      assert s == s[..n] + s[n..];
    }
  }

  /** The first token was read from the front of the text, and the rest from what follows it. */
  lemma ScanHead(s: string)
    requires |s| > 0
    ensures |Scan(s)| > 0
    ensures var n := |TokenText(Scan(s)[0])|;
      && 0 < n <= |s| && s[..n] == TokenText(Scan(s)[0]) && Scan(s)[1..] == Scan(s[n..])
  {
    var m := MatchGroup(s);
    if m.Some? {
      var (lo, hi, n) := m.value;
      MatchGroupSound(s);
      ScanGroupStep(s);
      assert Scan(s)[0] == Group(lo, hi);
    } else {
      ScanTextStep(s);
    }
  }

  lemma ScanGroupStep(s: string)
    requires MatchGroup(s).Some?
    ensures var (lo, hi, n) := MatchGroup(s).value;
      Scan(s) == [Group(lo, hi)] + Scan(s[n..])
  {
  }

  lemma ScanTextStep(s: string)
    requires |s| > 0 && MatchGroup(s).None?
    ensures Scan(s) == [Text(s[0])] + Scan(s[1..])
  {
  }

  lemma UnscanCons(t: Token, ts: seq<Token>)
    ensures Unscan([t] + ts) == TokenText(t) + Unscan(ts)
  {
    assert ([t] + ts)[1..] == ts;
  }

  /** The `(start, end)` values of the groups, in order, as `int()` reads them. */
  function Bounds(ts: seq<Token>): (r: seq<(nat, nat)>)
    requires WellFormedGroups(ts)
    ensures |r| <= |ts|
  {
    if |ts| == 0 then []
    else if ts[0].Group? then [(DigitsValue(ts[0].lo), DigitsValue(ts[0].hi))] + Bounds(ts[1..])
    else Bounds(ts[1..])
  }

  /** The number of groups among the tokens. */
  function GroupCount(ts: seq<Token>): nat {
    if |ts| == 0 then 0 else (if ts[0].Group? then 1 else 0) + GroupCount(ts[1..])
  }

  /** `list(range(lo, hi + 1))`. */
  function Interval(lo: nat, hi: nat): (r: seq<nat>)
    ensures |r| == if lo <= hi then hi + 1 - lo else 0
    ensures forall i :: 0 <= i < |r| ==> r[i] == lo + i
  {
    if lo <= hi then seq(hi + 1 - lo, i => lo + i) else []
  }

  function Ranges(bounds: seq<(nat, nat)>): (r: seq<seq<nat>>)
    ensures |r| == |bounds|
    ensures forall i :: 0 <= i < |r| ==> r[i] == Interval(bounds[i].0, bounds[i].1)
  {
    seq(|bounds|, i requires 0 <= i < |bounds| => Interval(bounds[i].0, bounds[i].1))
  }

  /** Every tail in `tails` with `x` put in front. */
  function Prefixed(x: nat, tails: seq<seq<nat>>): (r: seq<seq<nat>>)
    ensures |r| == |tails|
    ensures forall i :: 0 <= i < |r| ==> r[i] == [x] + tails[i]
  {
    seq(|tails|, i requires 0 <= i < |tails| => [x] + tails[i])
  }

  function Cross(xs: seq<nat>, tails: seq<seq<nat>>): seq<seq<nat>> {
    if |xs| == 0 then [] else Prefixed(xs[0], tails) + Cross(xs[1..], tails)
  }

  /** `itertools.product(*ranges)`: the first range varies slowest. */
  function Product(ranges: seq<seq<nat>>): seq<seq<nat>> {
    if |ranges| == 0 then [[]] else Cross(ranges[0], Product(ranges[1..]))
  }

  /** The product of the ranges' lengths. */
  function CountOf(ranges: seq<seq<nat>>): nat {
    if |ranges| == 0 then 1 else |ranges[0]| * CountOf(ranges[1..])
  }

  /** `base_name.format(*numbers)`: each group in turn replaced by the decimal form of the next number. */
  function Render(ts: seq<Token>, nums: seq<nat>): string
    requires GroupCount(ts) == |nums|
  {
    if |ts| == 0 then ""
    else if ts[0].Group? then NatToString(nums[0]) + Render(ts[1..], nums[1..])
    else [ts[0].c] + Render(ts[1..], nums)
  }

  lemma {:induction false} BoundsCount(ts: seq<Token>)
    requires WellFormedGroups(ts)
    ensures |Bounds(ts)| == GroupCount(ts)
  {
    if |ts| > 0 {
      BoundsCount(ts[1..]);
    }
  }

  /** The names the pattern stands for; a pattern without a group is its own only name. */
  function Expand(p: string): (names: seq<string>)
    ensures |Bounds(Scan(p))| == 0 ==> names == [p]
  {
    var ts := Scan(p);
    var bounds := Bounds(ts);
    if |bounds| == 0 then [p]
    else
      var combos := Product(Ranges(bounds));
      BoundsCount(ts);
      ProductArity(Ranges(bounds));
      seq(|combos|, i requires 0 <= i < |combos| => Render(ts, combos[i]))
  }

  lemma {:induction false} CrossArity(xs: seq<nat>, tails: seq<seq<nat>>, n: nat)
    requires forall t :: t in tails ==> |t| == n
    ensures forall t :: t in Cross(xs, tails) ==> |t| == n + 1
  {
    if |xs| > 0 {
      CrossArity(xs[1..], tails, n);
    }
  }

  /** Every combination has one number per range. */
  lemma {:induction false} ProductArity(ranges: seq<seq<nat>>)
    ensures forall t :: t in Product(ranges) ==> |t| == |ranges|
  {
    if |ranges| > 0 {
      ProductArity(ranges[1..]);
      CrossArity(ranges[0], Product(ranges[1..]), |ranges| - 1);
    }
  }

  lemma {:induction false} CrossLength(xs: seq<nat>, tails: seq<seq<nat>>)
    ensures |Cross(xs, tails)| == |xs| * |tails|
  {
    if |xs| > 0 {
      CrossLength(xs[1..], tails);
      assert |xs| * |tails| == |tails| + (|xs| - 1) * |tails|;
    }
  }

  /** There are as many combinations as the product of the ranges' lengths. */
  lemma {:induction false} ProductLength(ranges: seq<seq<nat>>)
    ensures |Product(ranges)| == CountOf(ranges)
  {
    if |ranges| > 0 {
      ProductLength(ranges[1..]);
      CrossLength(ranges[0], Product(ranges[1..]));
    }
  }

  lemma {:induction false} CrossMember(xs: seq<nat>, tails: seq<seq<nat>>, t: seq<nat>)
    ensures t in Cross(xs, tails) <==> |t| > 0 && t[0] in xs && t[1..] in tails
  {
    if |xs| > 0 {
      CrossMember(xs[1..], tails, t);
      if |t| > 0 && t[0] == xs[0] && t[1..] in tails {
        var i :| 0 <= i < |tails| && tails[i] == t[1..];
        assert Prefixed(xs[0], tails)[i] == t;
      }
      if t in Prefixed(xs[0], tails) {
        var i :| 0 <= i < |tails| && Prefixed(xs[0], tails)[i] == t;
        assert t[1..] == tails[i];
      }
      if |t| > 0 {
        assert t[0] in xs <==> t[0] == xs[0] || t[0] in xs[1..] by {
          assert xs == [xs[0]] + xs[1..];
        }
      }
    }
  }

  /** A tuple is a combination exactly when it picks one member from each range, in order. */
  lemma {:induction false} ProductMember(ranges: seq<seq<nat>>, t: seq<nat>)
    ensures t in Product(ranges) <==> |t| == |ranges| && forall i :: 0 <= i < |t| ==> t[i] in ranges[i]
  {
    if |ranges| == 0 {
      assert Product(ranges) == [[]];
    } else {
      CrossMember(ranges[0], Product(ranges[1..]), t);
      if |t| > 0 {
        ProductMember(ranges[1..], t[1..]);
        if |t| == |ranges| && t[0] in ranges[0] && t[1..] in Product(ranges[1..]) {
          forall i | 0 <= i < |t|
            ensures t[i] in ranges[i]
          {
            if i > 0 {
              assert t[1..][i - 1] == t[i];
            }
          }
        }
        if |t| == |ranges| && forall i :: 0 <= i < |t| ==> t[i] in ranges[i] {
          forall i | 0 <= i < |t| - 1
            ensures t[1..][i] in ranges[1..][i]
          {
            assert t[1..][i] == t[i + 1];
          }
        }
      }
    }
  }

  /** `a` comes strictly before `b` in lexicographic order. */
  predicate LexLess(a: seq<nat>, b: seq<nat>) {
    |a| > 0 && |b| > 0 && (a[0] < b[0] || (a[0] == b[0] && LexLess(a[1..], b[1..])))
  }

  predicate StrictlyIncreasing(xs: seq<nat>) {
    forall i, j :: 0 <= i < j < |xs| ==> xs[i] < xs[j]
  }

  predicate LexSorted(ts: seq<seq<nat>>) {
    forall i, j :: 0 <= i < j < |ts| ==> LexLess(ts[i], ts[j])
  }

  lemma {:induction false} CrossSorted(xs: seq<nat>, tails: seq<seq<nat>>)
    requires StrictlyIncreasing(xs) && LexSorted(tails)
    ensures LexSorted(Cross(xs, tails))
  {
    if |xs| > 0 {
      var head, rest := Prefixed(xs[0], tails), Cross(xs[1..], tails);
      CrossSorted(xs[1..], tails);
      var c := Cross(xs, tails);
      assert c == head + rest;
      forall i, j | 0 <= i < j < |c|
        ensures LexLess(c[i], c[j])
      {
        if j < |head| {
          assert c[i] == [xs[0]] + tails[i] && c[j] == [xs[0]] + tails[j];
          assert c[i][1..] == tails[i] && c[j][1..] == tails[j];
        } else if i < |head| {
          var t := c[j];
          assert t == rest[j - |head|];
          CrossMember(xs[1..], tails, t);
          var k :| 0 <= k < |xs[1..]| && xs[1..][k] == t[0];
          assert xs[0] < xs[k + 1];
        } else {
          assert c[i] == rest[i - |head|] && c[j] == rest[j - |head|];
        }
      }
    }
  }

  /** With increasing ranges the combinations come out in strictly increasing lexicographic order, so none repeats. */
  lemma {:induction false} ProductSorted(ranges: seq<seq<nat>>)
    requires forall i :: 0 <= i < |ranges| ==> StrictlyIncreasing(ranges[i])
    ensures LexSorted(Product(ranges))
  {
    if |ranges| > 0 {
      ProductSorted(ranges[1..]);
      CrossSorted(ranges[0], Product(ranges[1..]));
    }
  }

  /** The combinations of numbers a pattern's groups stand for, in expansion order. */
  function Combos(p: string): seq<seq<nat>> {
    Product(Ranges(Bounds(Scan(p))))
  }

  /** How many numbers a group `[lo-hi]` stands for. */
  function Width(b: (nat, nat)): nat {
    if b.0 <= b.1 then b.1 + 1 - b.0 else 0
  }

  function Combinations(bounds: seq<(nat, nat)>): nat {
    if |bounds| == 0 then 1 else Width(bounds[0]) * Combinations(bounds[1..])
  }

  lemma {:induction false} CombinationsZero(bounds: seq<(nat, nat)>)
    ensures Combinations(bounds) == 0 <==> exists i :: 0 <= i < |bounds| && bounds[i].0 > bounds[i].1
  {
    if |bounds| > 0 {
      CombinationsZero(bounds[1..]);
      if exists i :: 0 <= i < |bounds[1..]| && bounds[1..][i].0 > bounds[1..][i].1 {
        var i :| 0 <= i < |bounds[1..]| && bounds[1..][i].0 > bounds[1..][i].1;
        assert bounds[i + 1] == bounds[1..][i];
      }
      if exists i :: 0 <= i < |bounds| && bounds[i].0 > bounds[i].1 {
        var i :| 0 <= i < |bounds| && bounds[i].0 > bounds[i].1;
        if i > 0 {
          assert bounds[1..][i - 1] == bounds[i];
        }
      }
    }
  }

  lemma {:induction false} CountOfRanges(bounds: seq<(nat, nat)>)
    ensures CountOf(Ranges(bounds)) == Combinations(bounds)
  {
    if |bounds| > 0 {
      CountOfRanges(bounds[1..]);
      assert Ranges(bounds)[1..] == Ranges(bounds[1..]);
    }
  }

  /**
   * A pattern with groups stands for as many names as the product of its groups'
   * range lengths, and for none at all exactly when some group's start exceeds its end.
   */
  lemma ExpandCount(p: string)
    ensures var bounds := Bounds(Scan(p));
      |bounds| > 0 ==>
        && |Expand(p)| == Combinations(bounds)
        && (|Expand(p)| == 0 <==> exists i :: 0 <= i < |bounds| && bounds[i].0 > bounds[i].1)
  {
    var bounds := Bounds(Scan(p));
    if |bounds| > 0 {
      ProductLength(Ranges(bounds));
      CountOfRanges(bounds);
      CombinationsZero(bounds);
    }
  }

  /**
   * The names come in strictly increasing lexicographic order of the numbers
   * they were rendered from: the first group varies slowest, and no combination repeats.
   */
  lemma ExpandOrder(p: string)
    ensures var ts := Scan(p);
      GroupCount(ts) > 0 ==>
        && |Expand(p)| == |Combos(p)|
        && LexSorted(Combos(p))
        && forall i :: 0 <= i < |Combos(p)| ==> |Combos(p)[i]| == GroupCount(ts) && Expand(p)[i] == Render(ts, Combos(p)[i])
  {
    var ts := Scan(p);
    BoundsCount(ts);
    var ranges := Ranges(Bounds(ts));
    if GroupCount(ts) > 0 {
      ProductSorted(ranges);
      ProductArity(ranges);
    }
  }

  /** `t` picks, for every group of `ts`, a number between that group's start and end, both included. */
  predicate Picks(ts: seq<Token>, t: seq<nat>)
    requires WellFormedGroups(ts)
  {
    var bounds := Bounds(ts);
    |t| == GroupCount(ts) && |t| == |bounds| && forall i :: 0 <= i < |t| ==> bounds[i].0 <= t[i] <= bounds[i].1
  }

  lemma CombosMember(p: string, t: seq<nat>)
    ensures var ts := Scan(p);
      t in Combos(p) <==> |t| == |Bounds(ts)| && forall i :: 0 <= i < |t| ==> Bounds(ts)[i].0 <= t[i] <= Bounds(ts)[i].1
  {
    var bounds := Bounds(Scan(p));
    var ranges := Ranges(bounds);
    ProductMember(ranges, t);
    if |t| == |bounds| {
      forall i | 0 <= i < |t|
        ensures t[i] in ranges[i] <==> bounds[i].0 <= t[i] <= bounds[i].1
      {
        if bounds[i].0 <= t[i] <= bounds[i].1 {
          assert ranges[i][t[i] - bounds[i].0] == t[i];
        }
      }
    }
  }

  /**
   * A name belongs to the expansion of a pattern with groups exactly when it is
   * the pattern rendered with one number from each group's range.
   */
  lemma ExpandMembers(p: string)
    ensures var ts := Scan(p);
      GroupCount(ts) > 0 ==>
        forall name :: name in Expand(p) <==> exists t :: Picks(ts, t) && name == Render(ts, t)
  {
    var ts := Scan(p);
    BoundsCount(ts);
    if GroupCount(ts) > 0 {
      ExpandOrder(p);
      var combos := Combos(p);
      forall name
        ensures name in Expand(p) <==> exists t :: Picks(ts, t) && name == Render(ts, t)
      {
        if name in Expand(p) {
          var i :| 0 <= i < |Expand(p)| && Expand(p)[i] == name;
          CombosMember(p, combos[i]);
          assert Picks(ts, combos[i]);
        }
        if exists t :: Picks(ts, t) && name == Render(ts, t) {
          var t :| Picks(ts, t) && name == Render(ts, t);
          CombosMember(p, t);
          var i :| 0 <= i < |combos| && combos[i] == t;
          assert Expand(p)[i] == name;
        }
      }
    }
  }

  /** The literal characters of `s`, one token each. */
  function Texts(s: string): (ts: seq<Token>)
    ensures |ts| == |s|
  {
    if |s| == 0 then [] else [Text(s[0])] + Texts(s[1..])
  }

  /** Text without a `[` is read character by character. */
  lemma {:induction false} ScanTexts(pre: string, rest: string)
    requires '[' !in pre
    ensures Scan(pre + rest) == Texts(pre) + Scan(rest)
  {
    if |pre| > 0 {
      var s := pre + rest;
      assert s[0] == pre[0] && s[1..] == pre[1..] + rest;
      ScanText(s);
      ScanTexts(pre[1..], rest);
      TokensConsAppend(Text(pre[0]), Texts(pre[1..]), Scan(rest));
    } else {
      assert pre + rest == rest;
    }
  }

  /** A character other than `[` is read as itself. */
  lemma ScanText(s: string)
    requires |s| > 0 && s[0] != '['
    ensures Scan(s) == [Text(s[0])] + Scan(s[1..])
  {
  }

  lemma TokensConsAppend(t: Token, us: seq<Token>, vs: seq<Token>)
    ensures [t] + (us + vs) == ([t] + us) + vs
  {
  }

  lemma {:induction false} DigitRunOf(d: string, rest: string)
    requires AllDigits(d) && |rest| > 0 && !IsDigit(rest[0])
    ensures DigitRun(d + rest) == |d|
  {
    if |d| > 0 {
      DigitRunOf(d[1..], rest);
      assert (d + rest)[1..] == d[1..] + rest;
    }
  }

  /** A well-formed group is read as one group token. */
  lemma ScanGroup(lo: string, hi: string, rest: string)
    requires |lo| > 0 && AllDigits(lo) && |hi| > 0 && AllDigits(hi)
    ensures Scan(Bracket(lo, hi) + rest) == [Group(lo, hi)] + Scan(rest)
  {
    var s := Bracket(lo, hi) + rest;
    var a, b := |lo|, |hi|;
    assert s[0] == '[' && s[1 + a] == '-' && s[2 + a + b] == ']';
    assert DigitRun(s[1..]) == a by {
      assert s[1..] == lo + ("-" + hi + "]" + rest);
      DigitRunOf(lo, "-" + hi + "]" + rest);
    }
    assert DigitRun(s[2 + a..]) == b by {
      assert s[2 + a..] == hi + ("]" + rest);
      DigitRunOf(hi, "]" + rest);
    }
    assert s[1..1 + a] == lo && s[2 + a..2 + a + b] == hi;
    assert MatchGroup(s) == Some((lo, hi, 3 + a + b));
    assert s[3 + a + b..] == rest;
  }

  /** Literal text in front of the tokens adds no group. */
  lemma {:induction false} TextsNoGroups(pre: string, ts: seq<Token>)
    requires WellFormedGroups(ts)
    ensures WellFormedGroups(Texts(pre) + ts)
    ensures Bounds(Texts(pre) + ts) == Bounds(ts)
    ensures GroupCount(Texts(pre) + ts) == GroupCount(ts)
  {
    var us := Texts(pre) + ts;
    if |pre| > 0 {
      TextsNoGroups(pre[1..], ts);
      assert us == [Text(pre[0])] + (Texts(pre[1..]) + ts);
    } else {
      assert us == ts;
    }
  }

  /** Literal text in front of the tokens is rendered as itself. */
  lemma {:induction false} TextsTransparent(pre: string, ts: seq<Token>, nums: seq<nat>)
    requires WellFormedGroups(ts) && GroupCount(ts) == |nums|
    ensures GroupCount(Texts(pre) + ts) == GroupCount(ts)
    ensures Render(Texts(pre) + ts, nums) == pre + Render(ts, nums)
  {
    TextsNoGroups(pre, ts);
    if |pre| > 0 {
      var rest := Texts(pre[1..]) + ts;
      var tail := Render(ts, nums);
      TextsTransparent(pre[1..], ts, nums);
      assert Texts(pre) + ts == [Text(pre[0])] + rest;
      RenderText(pre[0], rest, nums);
      ConsAppend(pre, tail);
    } else {
      assert Texts(pre) + ts == ts;
    }
  }

  lemma ConsAppend(s: string, t: string)
    requires |s| > 0
    ensures [s[0]] + (s[1..] + t) == s + t
  {
  }

  /** A literal character in front renders in front. */
  lemma RenderText(c: char, ts: seq<Token>, nums: seq<nat>)
    requires GroupCount(ts) == |nums|
    ensures GroupCount([Text(c)] + ts) == |nums|
    ensures Render([Text(c)] + ts, nums) == [c] + Render(ts, nums)
  {
    assert ([Text(c)] + ts)[1..] == ts;
  }

  /** The tokens of a pattern with one group and no other `[`. */
  lemma ScanSingle(pre: string, lo: string, hi: string, post: string)
    requires '[' !in pre && '[' !in post
    requires |lo| > 0 && AllDigits(lo) && |hi| > 0 && AllDigits(hi)
    ensures Scan(pre + (Bracket(lo, hi) + post)) == Texts(pre) + ([Group(lo, hi)] + Texts(post))
  {
    var group := Bracket(lo, hi);
    var tail := [Group(lo, hi)] + Texts(post);
    assert Scan(group + post) == tail by {
      ScanGroup(lo, hi, post);
      ScanTexts(post, "");
      assert post + "" == post;
      assert Scan("") == [];
      assert Texts(post) + [] == Texts(post);
    }
    assert Scan(pre + (group + post)) == Texts(pre) + Scan(group + post) by {
      ScanTexts(pre, group + post);
    }
  }

  /** Text after the last group renders as itself. */
  lemma RenderTexts(post: string)
    ensures WellFormedGroups(Texts(post)) && Bounds(Texts(post)) == [] && GroupCount(Texts(post)) == 0
    ensures Render(Texts(post), []) == post
  {
    TextsNoGroups(post, []);
    TextsTransparent(post, [], []);
    assert Texts(post) + [] == Texts(post);
    assert post + "" == post;
  }

  lemma RenderGroupThenTexts(lo: string, hi: string, post: string, n: nat)
    requires |lo| > 0 && AllDigits(lo) && |hi| > 0 && AllDigits(hi)
    ensures var tail := [Group(lo, hi)] + Texts(post);
      && WellFormedGroups(tail)
      && Bounds(tail) == [(DigitsValue(lo), DigitsValue(hi))]
      && GroupCount(tail) == 1
      && Render(tail, [n]) == NatToString(n) + post
  {
    var tail := [Group(lo, hi)] + Texts(post);
    RenderTexts(post);
    assert tail[1..] == Texts(post);
    assert [n][1..] == [];
  }

  /** Rendering a one-group pattern puts the number between the surrounding text. */
  lemma RenderSingle(pre: string, lo: string, hi: string, post: string, n: nat)
    requires |lo| > 0 && AllDigits(lo) && |hi| > 0 && AllDigits(hi)
    ensures var ts := Texts(pre) + ([Group(lo, hi)] + Texts(post));
      && WellFormedGroups(ts)
      && Bounds(ts) == [(DigitsValue(lo), DigitsValue(hi))]
      && GroupCount(ts) == 1
      && Render(ts, [n]) == pre + NatToString(n) + post
  {
    RenderGroupThenTexts(lo, hi, post, n);
    TextsNoGroups(pre, [Group(lo, hi)] + Texts(post));
    TextsTransparent(pre, [Group(lo, hi)] + Texts(post), [n]);
    ConcatAssoc(pre, NatToString(n), post);
  }

  /**
   * A pattern with one group, such as `Ethernet[1-48]`, stands for the text
   * around the group with each number of the range in between, in increasing
   * order (numbers are written without leading zeros, whatever the group's digits).
   */
  lemma SingleGroup(pre: string, lo: string, hi: string, post: string)
    requires '[' !in pre && '[' !in post
    requires |lo| > 0 && AllDigits(lo) && |hi| > 0 && AllDigits(hi)
    ensures var names := Expand(pre + (Bracket(lo, hi) + post));
      var first, last := DigitsValue(lo), DigitsValue(hi);
      && |names| == Width((first, last))
      && forall k :: 0 <= k < |names| ==> names[k] == pre + NatToString(first + k) + post
  {
    var p := pre + (Bracket(lo, hi) + post);
    var first, last := DigitsValue(lo), DigitsValue(hi);
    var range := Interval(first, last);
    SingleGroupCombos(pre, lo, hi, post);
    ExpandOrder(p);
    forall k | 0 <= k < |Expand(p)|
      ensures Expand(p)[k] == pre + NatToString(first + k) + post
    {
      SingleGroupAt(pre, lo, hi, post, k);
    }
  }

  lemma SingleGroupAt(pre: string, lo: string, hi: string, post: string, k: nat)
    requires '[' !in pre && '[' !in post
    requires |lo| > 0 && AllDigits(lo) && |hi| > 0 && AllDigits(hi)
    requires k < Width((DigitsValue(lo), DigitsValue(hi)))
    ensures var p := pre + (Bracket(lo, hi) + post);
      k < |Expand(p)| && Expand(p)[k] == pre + NatToString(DigitsValue(lo) + k) + post
  {
    var p := pre + (Bracket(lo, hi) + post);
    var first := DigitsValue(lo);
    SingleGroupCombos(pre, lo, hi, post);
    ScanSingle(pre, lo, hi, post);
    ExpandOrder(p);
    CrossIndex(Interval(first, DigitsValue(hi)), k);
    assert Combos(p)[k] == [first + k];
    RenderSingle(pre, lo, hi, post, first + k);
  }

  /** The combinations of a one-group pattern are the numbers of its range, one at a time. */
  lemma SingleGroupCombos(pre: string, lo: string, hi: string, post: string)
    requires '[' !in pre && '[' !in post
    requires |lo| > 0 && AllDigits(lo) && |hi| > 0 && AllDigits(hi)
    ensures var p := pre + (Bracket(lo, hi) + post);
      && GroupCount(Scan(p)) == 1
      && Combos(p) == Cross(Interval(DigitsValue(lo), DigitsValue(hi)), [[]])
      && |Combos(p)| == Width((DigitsValue(lo), DigitsValue(hi)))
  {
    var p := pre + (Bracket(lo, hi) + post);
    var range := Interval(DigitsValue(lo), DigitsValue(hi));
    ScanSingle(pre, lo, hi, post);
    RenderSingle(pre, lo, hi, post, 0);
    var ranges := Ranges(Bounds(Scan(p)));
    assert ranges == [range];
    assert Product(ranges[1..]) == [[]];
    assert Product(ranges) == Cross(range, [[]]);
    CrossLength(range, [[]]);
  }

  lemma {:induction false} CrossIndex(xs: seq<nat>, k: nat)
    requires k < |xs|
    ensures |Cross(xs, [[]])| == |xs| && Cross(xs, [[]])[k] == [xs[k]]
  {
    CrossLength(xs, [[]]);
    if k > 0 {
      CrossIndex(xs[1..], k - 1);
    }
  }

  /** The docstring's one-group example: `Ethernet[1-24]` stands for `Ethernet1` to `Ethernet24`. */
  lemma SingleGroupExample(p: string)
    requires p == "Ethernet[1-24]"
    ensures |Expand(p)| == 24
    ensures forall k :: 0 <= k < 24 ==> Expand(p)[k] == "Ethernet" + NatToString(k + 1)
    ensures Expand(p)[0] == "Ethernet1" && Expand(p)[23] == "Ethernet24"
  {
    var pre, lo, hi, post := "Ethernet", "1", "24", "";
    assert p == pre + (Bracket(lo, hi) + post);
    assert DigitsValue(lo) == 1 && DigitsValue(hi) == 24;
    SingleGroup(pre, lo, hi, post);
    forall k | 0 <= k < 24
      ensures Expand(p)[k] == "Ethernet" + NatToString(k + 1)
    {
      assert pre + NatToString(1 + k) + post == "Ethernet" + NatToString(k + 1);
    }
  }

  /** Entry `i * |tails| + j` of the combinations is `xs[i]` followed by `tails[j]`. */
  lemma {:induction false} CrossAt(xs: seq<nat>, tails: seq<seq<nat>>, i: nat, j: nat)
    requires i < |xs| && j < |tails|
    ensures |Cross(xs, tails)| == |xs| * |tails|
    ensures i * |tails| + j < |Cross(xs, tails)| && Cross(xs, tails)[i * |tails| + j] == [xs[i]] + tails[j]
  {
    CrossLength(xs, tails);
    if i > 0 {
      CrossAt(xs[1..], tails, i - 1, j);
      assert i * |tails| + j == |tails| + ((i - 1) * |tails| + j);
      assert |xs| * |tails| == |tails| + (|xs| - 1) * |tails|;
      assert xs[1..][i - 1] == xs[i];
    }
  }

  /** The tokens of a pattern with two groups and no other `[`. */
  lemma ScanTwo(pre: string, lo1: string, hi1: string, mid: string, lo2: string, hi2: string, post: string)
    requires '[' !in pre && '[' !in mid && '[' !in post
    requires |lo1| > 0 && AllDigits(lo1) && |hi1| > 0 && AllDigits(hi1)
    requires |lo2| > 0 && AllDigits(lo2) && |hi2| > 0 && AllDigits(hi2)
    ensures Scan(pre + (Bracket(lo1, hi1) + (mid + (Bracket(lo2, hi2) + post))))
      == Texts(pre) + ([Group(lo1, hi1)] + (Texts(mid) + ([Group(lo2, hi2)] + Texts(post))))
  {
    var rest := mid + (Bracket(lo2, hi2) + post);
    ScanTexts(pre, Bracket(lo1, hi1) + rest);
    ScanGroup(lo1, hi1, rest);
    ScanSingle(mid, lo2, hi2, post);
  }

  /** A group in front of well-formed tokens adds its bounds first and renders the first number. */
  lemma GroupThen(lo: string, hi: string, ts: seq<Token>, nums: seq<nat>)
    requires |lo| > 0 && AllDigits(lo) && |hi| > 0 && AllDigits(hi)
    requires WellFormedGroups(ts) && |nums| > 0 && GroupCount(ts) == |nums| - 1
    ensures var tail := [Group(lo, hi)] + ts;
      && WellFormedGroups(tail)
      && Bounds(tail) == [(DigitsValue(lo), DigitsValue(hi))] + Bounds(ts)
      && GroupCount(tail) == |nums|
      && Render(tail, nums) == NatToString(nums[0]) + Render(ts, nums[1..])
  {
    var tail := [Group(lo, hi)] + ts;
    assert tail[1..] == ts;
  }

  /** Literal text and a group in front of well-formed tokens: the group's bounds come first, and its number renders after the text. */
  lemma TextsThenGroup(pre: string, lo: string, hi: string, inner: seq<Token>, nums: seq<nat>)
    requires |lo| > 0 && AllDigits(lo) && |hi| > 0 && AllDigits(hi)
    requires WellFormedGroups(inner) && |nums| > 0 && GroupCount(inner) == |nums| - 1
    ensures var ts := Texts(pre) + ([Group(lo, hi)] + inner);
      && WellFormedGroups(ts)
      && Bounds(ts) == [(DigitsValue(lo), DigitsValue(hi))] + Bounds(inner)
      && GroupCount(ts) == |nums|
      && Render(ts, nums) == pre + (NatToString(nums[0]) + Render(inner, nums[1..]))
  {
    var tail := [Group(lo, hi)] + inner;
    GroupThen(lo, hi, inner, nums);
    TextsNoGroups(pre, tail);
    TextsTransparent(pre, tail, nums);
  }

  /** The groups and the rendering of a pattern with two groups and no other `[`. */
  lemma TwoGroupsTokens(pre: string, lo1: string, hi1: string, mid: string, lo2: string, hi2: string, post: string, a: nat, b: nat)
    requires '[' !in pre && '[' !in mid && '[' !in post
    requires |lo1| > 0 && AllDigits(lo1) && |hi1| > 0 && AllDigits(hi1)
    requires |lo2| > 0 && AllDigits(lo2) && |hi2| > 0 && AllDigits(hi2)
    ensures var ts := Scan(pre + (Bracket(lo1, hi1) + (mid + (Bracket(lo2, hi2) + post))));
      && GroupCount(ts) == 2
      && Render(ts, [a, b]) == pre + NatToString(a) + mid + NatToString(b) + post
      && Bounds(ts) == [(DigitsValue(lo1), DigitsValue(hi1)), (DigitsValue(lo2), DigitsValue(hi2))]
  {
    var inner := Texts(mid) + ([Group(lo2, hi2)] + Texts(post));
    var tokens := Texts(pre) + ([Group(lo1, hi1)] + inner);
    var x, y := NatToString(a), NatToString(b);
    var b2 := (DigitsValue(lo2), DigitsValue(hi2));
    assert WellFormedGroups(inner) && Bounds(inner) == [b2] && GroupCount(inner) == 1 && Render(inner, [b]) == mid + y + post by {
      RenderSingle(mid, lo2, hi2, post, b);
    }
    TwoTokens(pre, lo1, hi1, inner, a, b, b2, mid + y + post);
    Reassociate(pre + x, mid, y, post);
    assert Scan(pre + (Bracket(lo1, hi1) + (mid + (Bracket(lo2, hi2) + post)))) == tokens by {
      ScanTwo(pre, lo1, hi1, mid, lo2, hi2, post);
    }
  }

  lemma Reassociate(a: string, b: string, c: string, d: string)
    ensures a + (b + c + d) == a + b + c + d
  {
  }

  /** A text and a group in front of tokens with one group: two groups, rendered in order. */
  lemma TwoTokens(pre: string, lo: string, hi: string, inner: seq<Token>, a: nat, b: nat, bounds: (nat, nat), rest: string)
    requires |lo| > 0 && AllDigits(lo) && |hi| > 0 && AllDigits(hi)
    requires WellFormedGroups(inner) && Bounds(inner) == [bounds] && GroupCount(inner) == 1 && Render(inner, [b]) == rest
    ensures var ts := Texts(pre) + ([Group(lo, hi)] + inner);
      && WellFormedGroups(ts)
      && GroupCount(ts) == 2
      && Render(ts, [a, b]) == pre + NatToString(a) + rest
      && Bounds(ts) == [(DigitsValue(lo), DigitsValue(hi)), bounds]
  {
    TextsThenGroup(pre, lo, hi, inner, [a, b]);
    assert [a, b][1..] == [b];
    ConcatAssoc(pre, NatToString(a), rest);
    assert [(DigitsValue(lo), DigitsValue(hi))] + [bounds] == [(DigitsValue(lo), DigitsValue(hi)), bounds];
  }

  lemma ConcatAssoc(a: string, b: string, c: string)
    ensures a + (b + c) == a + b + c
  {
  }

  /** The combinations of two groups: each number of the first range followed by each of the second. */
  lemma TwoGroupsCombos(p: string, b1: (nat, nat), b2: (nat, nat))
    requires Bounds(Scan(p)) == [b1, b2]
    ensures Combos(p) == Cross(Interval(b1.0, b1.1), Cross(Interval(b2.0, b2.1), [[]]))
  {
    var ranges := Ranges([b1, b2]);
    assert ranges[1..] == [Interval(b2.0, b2.1)];
    assert Product(ranges[1..]) == Cross(Interval(b2.0, b2.1), [[]]);
  }

  /** Pair `i * w + j` of two ranges is the first range's `i`-th number with the second's `j`-th. */
  lemma CrossIntervalsAt(b1: (nat, nat), b2: (nat, nat), i: nat, j: nat)
    requires i < Width(b1) && j < Width(b2)
    ensures var pairs := Cross(Interval(b1.0, b1.1), Cross(Interval(b2.0, b2.1), [[]]));
      && |pairs| == Width(b1) * Width(b2)
      && 0 <= i * Width(b2) + j < |pairs| && pairs[i * Width(b2) + j] == [b1.0 + i, b2.0 + j]
  {
    var r1, r2 := Interval(b1.0, b1.1), Interval(b2.0, b2.1);
    var tails := Cross(r2, [[]]);
    assert |tails| == Width(b2) && tails[j] == [b2.0 + j] by {
      CrossIndex(r2, j);
    }
    CrossAt(r1, tails, i, j);
    ProductNonNegative(i, Width(b2));
    assert [r1[i]] + tails[j] == [b1.0 + i, b2.0 + j];
  }

  /** Combination `i * w + j` of two groups pairs the first range's `i`-th number with the second's `j`-th. */
  lemma TwoGroupsCombosAt(p: string, b1: (nat, nat), b2: (nat, nat), i: nat, j: nat)
    requires Bounds(Scan(p)) == [b1, b2] && i < Width(b1) && j < Width(b2)
    ensures |Combos(p)| == Width(b1) * Width(b2)
    ensures 0 <= i * Width(b2) + j < |Combos(p)| && Combos(p)[i * Width(b2) + j] == [b1.0 + i, b2.0 + j]
  {
    TwoGroupsCombos(p, b1, b2);
    CrossIntervalsAt(b1, b2, i, j);
  }

  lemma ProductNonNegative(a: nat, b: nat)
    ensures 0 <= a * b
  {
  }

  /**
   * A pattern with two groups, such as `Ethernet[1-60]/[1-4]`, stands for one
   * name per pair of numbers, the second group varying fastest: name
   * `i * w + j`, where `w` is the second group's width, carries the first
   * group's `i`-th number and the second group's `j`-th.
   */
  lemma TwoGroups(pre: string, lo1: string, hi1: string, mid: string, lo2: string, hi2: string, post: string, i: nat, j: nat)
    requires '[' !in pre && '[' !in mid && '[' !in post
    requires |lo1| > 0 && AllDigits(lo1) && |hi1| > 0 && AllDigits(hi1)
    requires |lo2| > 0 && AllDigits(lo2) && |hi2| > 0 && AllDigits(hi2)
    requires i < Width((DigitsValue(lo1), DigitsValue(hi1))) && j < Width((DigitsValue(lo2), DigitsValue(hi2)))
    ensures var names := Expand(pre + (Bracket(lo1, hi1) + (mid + (Bracket(lo2, hi2) + post))));
      var w1, w2 := Width((DigitsValue(lo1), DigitsValue(hi1))), Width((DigitsValue(lo2), DigitsValue(hi2)));
      && |names| == w1 * w2
      && 0 <= i * w2 + j < |names|
      && names[i * w2 + j] == pre + NatToString(DigitsValue(lo1) + i) + mid + NatToString(DigitsValue(lo2) + j) + post
  {
    var p := pre + (Bracket(lo1, hi1) + (mid + (Bracket(lo2, hi2) + post)));
    var b1, b2 := (DigitsValue(lo1), DigitsValue(hi1)), (DigitsValue(lo2), DigitsValue(hi2));
    var name := pre + NatToString(b1.0 + i) + mid + NatToString(b2.0 + j) + post;
    TwoGroupsTokens(pre, lo1, hi1, mid, lo2, hi2, post, b1.0 + i, b2.0 + j);
    TwoGroupsAt(p, b1, b2, i, j, name);
  }

  /** Name `i * w + j` of any two-group pattern is its rendering with the `i`-th and `j`-th numbers. */
  lemma TwoGroupsAt(p: string, b1: (nat, nat), b2: (nat, nat), i: nat, j: nat, name: string)
    requires GroupCount(Scan(p)) == 2 && Bounds(Scan(p)) == [b1, b2]
    requires i < Width(b1) && j < Width(b2) && Render(Scan(p), [b1.0 + i, b2.0 + j]) == name
    ensures |Expand(p)| == Width(b1) * Width(b2)
    ensures 0 <= i * Width(b2) + j < |Expand(p)| && Expand(p)[i * Width(b2) + j] == name
  {
    TwoGroupsCombosAt(p, b1, b2, i, j);
    ExpandAt(p, i * Width(b2) + j);
  }

  /** Name `k` of a pattern with groups is the pattern rendered with combination `k`. */
  lemma ExpandAt(p: string, k: int)
    requires GroupCount(Scan(p)) > 0 && 0 <= k < |Combos(p)|
    ensures |Expand(p)| == |Combos(p)| && |Combos(p)[k]| == GroupCount(Scan(p))
    ensures Expand(p)[k] == Render(Scan(p), Combos(p)[k])
  {
    ExpandOrder(p);
  }

  /** Name `k` of `Ethernet[1-60]/[1-4]`. */
  lemma TwoGroupExampleAt(p: string, k: nat)
    requires p == "Ethernet[1-60]/[1-4]" && k < 240
    ensures |Expand(p)| == 240
    ensures Expand(p)[k] == "Ethernet" + NatToString(k / 4 + 1) + "/" + NatToString(k % 4 + 1)
  {
    var pre, lo1, hi1, mid, lo2, hi2, post := "Ethernet", "1", "60", "/", "1", "4", "";
    assert p == pre + (Bracket(lo1, hi1) + (mid + (Bracket(lo2, hi2) + post))) by {
    }
    assert DigitsValue(lo1) == 1 && DigitsValue(hi1) == 60 && DigitsValue(lo2) == 1 && DigitsValue(hi2) == 4 by {
    }
    assert Width((1, 60)) == 60 && Width((1, 4)) == 4 && (k / 4) * 4 + k % 4 == k;
    TwoGroups(pre, lo1, hi1, mid, lo2, hi2, post, k / 4, k % 4);
    assert Expand(p)[k] == pre + NatToString(1 + k / 4) + mid + NatToString(1 + k % 4) + post;
  }

  /** The docstring's two-group example: `Ethernet[1-60]/[1-4]` stands for `Ethernet1/1`, `Ethernet1/2`, ..., `Ethernet60/4`. */
  lemma TwoGroupExample(p: string)
    requires p == "Ethernet[1-60]/[1-4]"
    ensures |Expand(p)| == 240
    ensures forall k :: 0 <= k < 240 ==> Expand(p)[k] == "Ethernet" + NatToString(k / 4 + 1) + "/" + NatToString(k % 4 + 1)
    ensures Expand(p)[0] == "Ethernet1/1" && Expand(p)[1] == "Ethernet1/2"
    ensures Expand(p)[4] == "Ethernet2/1" && Expand(p)[239] == "Ethernet60/4"
  {
    TwoGroupExampleAt(p, 0);
    forall k | 0 <= k < 240
      ensures Expand(p)[k] == "Ethernet" + NatToString(k / 4 + 1) + "/" + NatToString(k % 4 + 1)
    {
      TwoGroupExampleAt(p, k);
    }
    assert NatToString(60) == "60";
  }
}
