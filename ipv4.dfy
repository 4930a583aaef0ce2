/**
 * IPv4 prefixes in CIDR notation (section 3.1 of RFC 4632) and the
 * enumeration of a prefix's subnets performed by Python's
 * `ipaddress.IPv4Network.subnets(new_prefix=n)`.
 */
module Ipv4 {
  import opened Wrappers

  function Pow2(n: nat): (r: nat)
    ensures r >= 1
  {
    if n == 0 then 1 else 2 * Pow2(n - 1)
  }

  lemma {:induction false} Pow2Add(a: nat, b: nat)
    ensures Pow2(a + b) == Pow2(a) * Pow2(b)
  {
    if a > 0 {
      Pow2Add(a - 1, b);
      assert Pow2(a + b) == 2 * Pow2(a - 1 + b);
      MulAssoc(2, Pow2(a - 1), Pow2(b));
    }
  }

  /** The number of IPv4 addresses, 2^32. */
  const AddressSpace: nat := 0x1_0000_0000

  lemma Pow2Of32()
    ensures Pow2(32) == AddressSpace
  {
    assert Pow2(8) == 256;
    Pow2Add(8, 8);
    Pow2Add(16, 16);
  }

  /** The address `a.b.c.d` as a 32-bit number. */
  function Addr(a: nat, b: nat, c: nat, d: nat): (r: nat)
    requires a < 256 && b < 256 && c < 256 && d < 256
  {
    ((a * 256 + b) * 256 + c) * 256 + d
  }

  /** A network `network/length`; valid when the host bits of `network` are zero. */
  datatype Prefix = Prefix(network: nat, length: nat) {

    function HostBits(): nat {
      if length <= 32 then 32 - length else 0
    }

    /** The number of addresses the prefix covers. */
    function Size(): nat {
      Pow2(HostBits())
    }

    /** The first address after the prefix. */
    function End(): nat {
      network + Size()
    }

    predicate Valid() {
      length <= 32 && network < AddressSpace && network % Size() == 0
    }

    predicate Contains(address: nat) {
      network <= address < End()
    }
  }

  /** Why `subnets(new_prefix=n)` raises `ValueError`. */
  datatype SubnetsError = NewPrefixShorter | NewPrefixBeyond32

  /**
   * `IPv4Network(str(p)).subnets(new_prefix=newLength)`, drained in order.
   * A /32 yields itself whatever the new length; otherwise the new length must lie
   * between the prefix's own length and 32, and the subnets are the blocks of
   * `range(network, end, 2^(32 - newLength))`.
   */
  function Subnets(p: Prefix, newLength: nat): Result<seq<Prefix>, SubnetsError> {
    if p.length == 32 then Ok([p])
    else if newLength < p.length then Err(NewPrefixShorter)
    else if newLength > 32 then Err(NewPrefixBeyond32)
    else Ok(Blocks(p.network, p.End(), Pow2(32 - newLength), newLength))
  }

  /** The prefixes `start/length`, `start + step/length`, ... that start before `end`. */
  function Blocks(start: nat, end: nat, step: nat, length: nat): seq<Prefix>
    requires step > 0
    decreases end - start
  {
    if start >= end then [] else [Prefix(start, length)] + Blocks(start + step, end, step, length)
  }

  lemma Distrib(a: nat, b: nat, c: nat)
    ensures (a + b) * c == a * c + b * c
  {
  }

  lemma MulAssoc(a: nat, b: nat, c: nat)
    ensures a * (b * c) == (a * b) * c
  {
  }

  lemma MulMono(a: nat, b: nat, c: nat)
    requires a <= b
    ensures a * c <= b * c
  {
    Distrib(a, b - a, c);
  }

  lemma MulModZero(q: nat, m: nat)
    requires m > 0
    ensures (q * m) % m == 0
  {
    var d := (q * m) / m;
    var r := (q * m) % m;
    assert q * m == d * m + r;
    if q > d {
      MulMono(d + 1, q, m);
      Distrib(d, 1, m);
    } else if q < d {
      MulMono(q + 1, d, m);
      Distrib(q, 1, m);
    }
  }

  lemma ModZeroMul(x: nat, m: nat) returns (q: nat)
    requires m > 0 && x % m == 0
    ensures x == q * m
  {
    q := x / m;
  }

  lemma AddModSelf(x: nat, m: nat)
    requires m > 0 && x % m == 0
    ensures (x + m) % m == 0
  {
    var q := ModZeroMul(x, m);
    Distrib(q, 1, m);
    MulModZero(q + 1, m);
  }

  /** A multiple of `size` below `hi * size` ends, with its block, at `hi * size` at the latest. */
  lemma AlignedBelow(x: nat, size: nat, hi: nat)
    requires size > 0 && x % size == 0 && x < hi * size
    ensures x + size <= hi * size
  {
    var q := ModZeroMul(x, size);
    assert q < hi by {
      if q >= hi {
        MulMono(hi, q, size);
      }
    }
    MulMono(q + 1, hi, size);
    Distrib(q, 1, size);
  }

  /** A multiple of `a * b` is a multiple of `b`. */
  lemma ModOfProduct(x: nat, a: nat, b: nat)
    requires a > 0 && b > 0 && x % (a * b) == 0
    ensures x % b == 0
  {
    var q := ModZeroMul(x, a * b);
    MulAssoc(q, a, b);
    MulModZero(q * a, b);
  }

  /** A valid prefix lies inside the 32-bit address space. */
  lemma ValidEnd(p: Prefix)
    requires p.Valid()
    ensures p.End() <= AddressSpace
  {
    var size, hi := p.Size(), Pow2(p.length);
    Pow2Add(p.length, p.HostBits());
    Pow2Of32();
    assert AddressSpace == hi * size;
    AlignedBelow(p.network, size, hi);
  }

  /** A valid prefix of length `l` is `2^(n - l)` blocks of length `n` long, and starts on such a block. */
  lemma SplitSize(p: Prefix, n: nat)
    requires p.Valid() && p.length <= n <= 32
    ensures p.Size() == Pow2(n - p.length) * Pow2(32 - n)
    ensures p.network % Pow2(32 - n) == 0
  {
    var step, count := Pow2(32 - n), Pow2(n - p.length);
    Pow2Add(n - p.length, 32 - n);
    assert n - p.length + (32 - n) == p.HostBits();
    ModOfProduct(p.network, count, step);
  }

  /**
   * `count` blocks of `step` addresses starting at `start`: the k-th starts `k`
   * steps after `start`, each ends where the next begins, and the last ends at
   * `start + count * step`.
   */
  lemma {:induction false} BlocksTile(start: nat, count: nat, step: nat, length: nat)
    requires step > 0
    ensures var s := Blocks(start, start + count * step, step, length);
      && |s| == count
      && (forall k :: 0 <= k < |s| ==> s[k].length == length && s[k].network == start + k * step)
      && (forall k :: 0 <= k < |s| ==> start <= s[k].network && s[k].network + step <= start + count * step)
      && (forall k :: 0 <= k < |s| - 1 ==> s[k].network + step == s[k + 1].network)
    decreases count
  {
    var end := start + count * step;
    var s := Blocks(start, end, step, length);
    if count > 0 {
      Distrib(count - 1, 1, step);
      assert end == (start + step) + (count - 1) * step;
      BlocksTile(start + step, count - 1, step, length);
      var t := Blocks(start + step, end, step, length);
      assert s == [Prefix(start, length)] + t;
      forall k | 1 <= k < |s|
        ensures s[k].network == start + k * step
      {
        assert s[k] == t[k - 1];
        Distrib(k - 1, 1, step);
      }
    }
  }

  /** Some prefix of `s` contains `address`. */
  predicate Covers(s: seq<Prefix>, address: nat) {
    exists k :: 0 <= k < |s| && s[k].Contains(address)
  }

  /** An address between `start` and `start + count * step` lies in one of the blocks. */
  lemma {:induction false} BlocksCover(start: nat, count: nat, step: nat, length: nat, address: nat)
    requires step > 0 && step == Pow2(if length <= 32 then 32 - length else 0)
    requires start <= address < start + count * step
    ensures Covers(Blocks(start, start + count * step, step, length), address)
    decreases count
  {
    var end := start + count * step;
    var s := Blocks(start, end, step, length);
    Distrib(count - 1, 1, step);
    assert end == (start + step) + (count - 1) * step;
    var t := Blocks(start + step, end, step, length);
    assert s == [Prefix(start, length)] + t;
    if address < start + step {
      assert |s| > 0 && s[0] == Prefix(start, length) && s[0].Size() == step;
      assert s[0].Contains(address);
    } else {
      BlocksCover(start + step, count - 1, step, length, address);
      var k :| 0 <= k < |t| && t[k].Contains(address);
      assert s[k + 1] == t[k];
      assert s[k + 1].Contains(address);
    }
    assert Covers(s, address);
  }

  /** Every prefix of `s` is valid and starts in `[lo, hi)`. */
  predicate AllValidWithin(s: seq<Prefix>, lo: nat, hi: nat) {
    forall k :: 0 <= k < |s| ==> s[k].Valid() && lo <= s[k].network < hi
  }

  /** Blocks aligned to their own size that start below `end <= AddressSpace` are valid prefixes. */
  lemma {:induction false} BlocksValid(start: nat, end: nat, length: nat)
    requires length <= 32 && start % Pow2(32 - length) == 0 && end <= AddressSpace
    ensures AllValidWithin(Blocks(start, end, Pow2(32 - length), length), start, end)
    decreases end - start
  {
    var step := Pow2(32 - length);
    var s := Blocks(start, end, step, length);
    if start < end {
      AddModSelf(start, step);
      BlocksValid(start + step, end, length);
      var t := Blocks(start + step, end, step, length);
      assert s == [Prefix(start, length)] + t;
      assert Prefix(start, length).Valid();
      forall k | 0 <= k < |s|
        ensures s[k].Valid() && start <= s[k].network < end
      {
        if k > 0 {
          assert s[k] == t[k - 1];
        }
      }
    }
    assert AllValidWithin(s, start, end);
  }

  /**
   * The subnets of a valid prefix at a length `n` it can be split to are
   * `2^(n - length)` valid prefixes of length `n`, each inside the prefix.
   */
  lemma SubnetsValid(p: Prefix, n: nat)
    requires p.Valid() && p.length <= n <= 32
    ensures Subnets(p, n).Ok?
    ensures var s := Subnets(p, n).value;
      && |s| == Pow2(n - p.length)
      && forall k :: 0 <= k < |s| ==> s[k].length == n && s[k].Valid() && p.network <= s[k].network && s[k].End() <= p.End()
  {
    var s := Subnets(p, n).value;
    if p.length == 32 {
      assert |s| == 1 && s[0] == p;
      return;
    }
    var step, count := Pow2(32 - n), Pow2(n - p.length);
    SplitSize(p, n);
    ValidEnd(p);
    assert s == Blocks(p.network, p.network + count * step, step, n);
    BlocksTile(p.network, count, step, n);
    BlocksValid(p.network, p.network + count * step, n);
    forall k | 0 <= k < |s|
      ensures s[k].End() <= p.End()
    {
      assert s[k].Size() == step;
    }
  }

  /**
   * The subnets tile the prefix: the k-th starts `k` of its own sizes after the
   * prefix's network address, each ends where the next begins, and the last ends
   * where the prefix ends.
   */
  lemma SubnetsTile(p: Prefix, n: nat)
    requires p.Valid() && p.length <= n <= 32
    ensures Subnets(p, n).Ok?
    ensures var s := Subnets(p, n).value;
      && |s| == Pow2(n - p.length)
      && (forall k :: 0 <= k < |s| ==> s[k].length == n && s[k].network == p.network + k * s[k].Size())
      && (forall k :: 0 <= k < |s| - 1 ==> s[k].End() == s[k + 1].network)
      && s[|s| - 1].End() == p.End()
  {
    var s := Subnets(p, n).value;
    if p.length == 32 {
      assert |s| == 1 && s[0] == p;
      return;
    }
    var step, count := Pow2(32 - n), Pow2(n - p.length);
    SplitSize(p, n);
    assert s == Blocks(p.network, p.network + count * step, step, n);
    BlocksTile(p.network, count, step, n);
    assert forall k :: 0 <= k < |s| ==> s[k].Size() == step;
    assert s[|s| - 1].End() == p.End() by {
      assert s[count - 1].network == p.network + (count - 1) * step;
      Distrib(count - 1, 1, step);
    }
  }

  /** The subnets come out in ascending order and no two of them overlap. */
  lemma SubnetsAscendingDisjoint(p: Prefix, n: nat)
    requires p.Valid() && p.length <= n <= 32
    ensures Subnets(p, n).Ok?
    ensures var s := Subnets(p, n).value;
      forall i, j :: 0 <= i < j < |s| ==> s[i].End() <= s[j].network
  {
    SubnetsTile(p, n);
    var s := Subnets(p, n).value;
    forall i, j | 0 <= i < j < |s|
      ensures s[i].End() <= s[j].network
    {
      var step := s[i].Size();
      assert s[j].Size() == step;
      MulMono(i + 1, j, step);
      Distrib(i, 1, step);
    }
  }

  /** An address lies in the prefix exactly when it lies in one of its subnets. */
  lemma SubnetsCover(p: Prefix, n: nat, address: nat)
    requires p.Valid() && p.length <= n <= 32
    ensures Subnets(p, n).Ok?
    ensures var s := Subnets(p, n).value;
      p.Contains(address) <==> Covers(s, address)
  {
    SubnetsValid(p, n);
    var s := Subnets(p, n).value;
    if Covers(s, address) {
      var k :| 0 <= k < |s| && s[k].Contains(address);
      assert p.network <= s[k].network && s[k].End() <= p.End();
    }
    if p.Contains(address) {
      if p.length == 32 {
        assert s[0] == p;
      } else {
        var step, count := Pow2(32 - n), Pow2(n - p.length);
        assert p.End() == p.network + count * step by {
          SplitSize(p, n);
        }
        BlocksCover(p.network, count, step, n, address);
      }
    }
  }

  /** `10.0.0.0/16` split into /18 blocks gives the four quarters, in address order. */
  lemma PopSplitExample()
    ensures Subnets(Prefix(Addr(10, 0, 0, 0), 16), 18)
         == Ok([Prefix(Addr(10, 0, 0, 0), 18), Prefix(Addr(10, 0, 64, 0), 18),
                Prefix(Addr(10, 0, 128, 0), 18), Prefix(Addr(10, 0, 192, 0), 18)])
  {
    var p := Prefix(Addr(10, 0, 0, 0), 16);
    assert Pow2(14) == 16384 by {
      Pow2Add(7, 7);
      assert Pow2(7) == 128;
    }
    assert Pow2(16) == 65536 by {
      Pow2Add(8, 8);
      assert Pow2(8) == 256;
    }
    var s := Subnets(p, 18).value;
    assert s == Blocks(167772160, 167772160 + 65536, 16384, 18);
    assert s == [Prefix(Addr(10, 0, 0, 0), 18), Prefix(Addr(10, 0, 64, 0), 18),
                 Prefix(Addr(10, 0, 128, 0), 18), Prefix(Addr(10, 0, 192, 0), 18)];
  }
}
