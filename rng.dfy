/**
 * The seeded RNG playground: a string seed is hashed to a 32-bit integer, a
 * generator built from it yields `count` draws in [0, 1), and the draws are
 * counted into a 20-bucket histogram.
 */
module Rng {
  import opened JsInt
  import opened JsText
  import opened Wrappers
  import opened Mix32

  /** The constant `seededRng` adds to its seed, once, when it is built. */
  const SEED_OFFSET: int := 0x6D2B79F5

  /** The state a generator built from `seed` starts in. */
  function StartState(seed: int): bv32 {
    Bits(seed + SEED_OFFSET)
  }

  /** The closure returned by `seededRng`: its captured variable `t` is the field. */
  class SeededRng {
    var t: bv32

    /** `seededRng(seed)`: the state starts at seed + 0x6D2B79F5, wrapped to 32 bits. */
    constructor(seed: int)
      ensures t == StartState(seed)
    {
      t := Bits(seed + SEED_OFFSET);
    }

    /** One call: the state is mixed (the constant is not added again) and its tempered value returned. */
    method Next() returns (v: real)
      modifies this
      ensures t == Mix(old(t))
      ensures v == DrawValue(Output(t))
      ensures 0.0 <= v < 1.0
    {
      t := Mix(t);
      v := DrawValue(Output(t));
    }
  }

  /** The `values` memo: `count` successive calls of a fresh generator built from `seed`. */
  method Values(seed: int, count: nat) returns (values: seq<real>)
    ensures values == Floats(Draws(StartState(seed), count))
    ensures |values| == count
  {
    var rng := new SeededRng(seed);
    values := [];
    var i := 0;
    while i < count
      invariant 0 <= i <= count
      invariant rng.t == Advance(StartState(seed), i)
      invariant values == Floats(Draws(StartState(seed), i))
    {
      FloatsNext(StartState(seed), i);
      var v := rng.Next();
      values := values + [v];
      i := i + 1;
    }
  }

  /** `hashString` on the UTF-16 code units of a string: h -> 31h + unit, wrapped to signed 32 bits. */
  function HashOf(units: seq<int>): (h: int)
    ensures -TWO31 <= h < TWO31
    ensures units == [] ==> h == 0
  {
    if units == [] then 0 else ToInt32(31 * HashOf(units[..|units| - 1]) + units[|units| - 1])
  }

  /** `(hash << 5) - hash + c`, then `|= 0`, is 31 * hash + c wrapped to signed 32 bits. */
  lemma HashStep(h: int, c: int)
    ensures ToInt32(ToInt32(h * 32) - h + c) == ToInt32(31 * h + c)
  {
    ToInt32Congruent(31 * h + c, ToInt32(h * 32) - h + c);
  }

  /** `hashString`: the loop over `charCodeAt(i)` with a shift-and-subtract accumulator. */
  method HashString(str: string) returns (hash: int)
    ensures hash == HashOf(Utf16(str))
    ensures -TWO31 <= hash < TWO31
  {
    var units := Utf16(str);
    hash := 0;
    var i := 0;
    while i < |units|
      invariant 0 <= i <= |units|
      invariant hash == HashOf(units[..i])
    {
      var c := units[i];
      HashStep(hash, c);
      hash := ToInt32(hash * 32) - hash + c;
      hash := ToInt32(hash);
      assert units[..i + 1][..i] == units[..i];
      i := i + 1;
    }
    assert units[..i] == units;
  }

  /** Appending a character below U+10000 multiplies the hash by 31 and adds its code, wrapped. */
  lemma HashAppend(s: string, c: char)
    requires (c as int) < 0x10000
    ensures HashOf(Utf16(s + [c])) == ToInt32(31 * HashOf(Utf16(s)) + c as int)
  {
    Utf16Snoc(s, c);
    var x := c as int;
    var units := Utf16(s);
    HashSnoc(units, x, Utf16(s + [c]));
  }

  lemma Utf16Snoc(s: string, c: char)
    requires (c as int) < 0x10000
    ensures Utf16(s + [c]) == Utf16(s) + [c as int]
  {
    Utf16Append(s, [c]);
    Utf16Single(c);
  }

  lemma Utf16Single(c: char)
    requires (c as int) < 0x10000
    ensures Utf16([c]) == [c as int]
  {
    assert [c][1..] == [];
  }

  lemma HashSnoc(units: seq<int>, x: int, u: seq<int>)
    requires u == units + [x]
    ensures HashOf(u) == ToInt32(31 * HashOf(units) + x)
  {
    assert u[..|u| - 1] == units;
  }

  /** `Math.min(Math.floor(v * 20), 19)`: the histogram bucket of a draw. */
  function BucketOf(num: bv32): (b: int)
    ensures 0 <= b < 20
    ensures b * 0x1_0000_0000 <= (num as int) * 20 < (b + 1) * 0x1_0000_0000
  {
    var idx := (DrawValue(num) * 20.0).Floor;
    if idx < 19 then idx else 19
  }

  /** How many of the draws fall into bucket b. */
  function CountBucket(nums: seq<bv32>, b: int): (c: nat)
    ensures c <= |nums|
  {
    if nums == [] then 0
    else CountBucket(nums[..|nums| - 1], b) + (if BucketOf(nums[|nums| - 1]) == b then 1 else 0)
  }

  function Total(s: seq<nat>): nat {
    if s == [] then 0 else Total(s[..|s| - 1]) + s[|s| - 1]
  }

  /** Incrementing one entry of a sequence increments its total by one. */
  lemma {:induction false} TotalIncrement(s: seq<nat>, k: nat)
    requires k < |s|
    ensures Total(s[k := s[k] + 1]) == Total(s) + 1
  {
    var t := s[k := s[k] + 1];
    if k < |s| - 1 {
      assert t[..|t| - 1] == s[..|s| - 1][k := s[k] + 1];
      TotalIncrement(s[..|s| - 1], k);
    } else {
      assert t[..|t| - 1] == s[..|s| - 1];
    }
  }

  /**
   * The `histogram` memo: 20 counters, one increment per value in the bucket
   * of that value. Values are given by their numerators.
   */
  method Histogram(nums: seq<bv32>) returns (counts: seq<nat>)
    ensures |counts| == 20
    ensures forall b :: 0 <= b < 20 ==> counts[b] == CountBucket(nums, b)
    ensures Total(counts) == |nums|
  {
    var buckets := new nat[20](_ => 0);
    assert buckets[..] == BucketCounts(nums[..0]);
    var i := 0;
    while i < |nums|
      invariant 0 <= i <= |nums|
      invariant buckets[..] == BucketCounts(nums[..i])
    {
      var idx := BucketOf(nums[i]);
      BucketCountsNext(nums, i);
      buckets[idx] := buckets[idx] + 1;
      i := i + 1;
    }
    assert nums[..i] == nums;
    counts := buckets[..];
    BucketCountsTotal(nums);
  }

  /** The 20 bucket counts of a run of draws. */
  function BucketCounts(nums: seq<bv32>): (r: seq<nat>)
    ensures |r| == 20
    ensures forall b :: 0 <= b < 20 ==> r[b] == CountBucket(nums, b)
  {
    seq(20, (b: int) requires 0 <= b < 20 => CountBucket(nums, b))
  }

  /** One more draw adds one to its own bucket and leaves the other buckets alone. */
  lemma BucketCountsNext(nums: seq<bv32>, i: nat)
    requires i < |nums|
    ensures BucketCounts(nums[..i + 1]) == BucketCounts(nums[..i])[BucketOf(nums[i]) := BucketCounts(nums[..i])[BucketOf(nums[i])] + 1]
  {
    assert nums[..i + 1][..i] == nums[..i];
  }

  /** Every draw lands in exactly one bucket, so the counts add up to the number of draws. */
  lemma {:induction false} BucketCountsTotal(nums: seq<bv32>)
    ensures Total(BucketCounts(nums)) == |nums|
  {
    if nums == [] {
      TotalZero(BucketCounts(nums));
    } else {
      var i := |nums| - 1;
      assert nums[..i + 1] == nums;
      BucketCountsTotal(nums[..i]);
      BucketCountsNext(nums, i);
      TotalIncrement(BucketCounts(nums[..i]), BucketOf(nums[i]));
    }
  }

  lemma {:induction false} TotalZero(s: seq<nat>)
    requires forall k :: 0 <= k < |s| ==> s[k] == 0
    ensures Total(s) == 0
  {
    if s != [] {
      TotalZero(s[..|s| - 1]);
    }
  }

  /**
   * The Count field: `Math.min(10000, Math.max(1, parseInt(v) || 1))`; NaN
   * and 0 become 1, and the infinities are capped like any large number.
   */
  function CountFromInput(v: string): (r: int)
    ensures 1 <= r <= 10000
    ensures ParseInt(v, true).None? ==> r == 1
    ensures ParseInt(v, true).Some? && ParseInt(v, true).value <= 0 ==> r == 1
    ensures ParseInt(v, true).Some? && 1 <= ParseInt(v, true).value <= 10000 ==> r == ParseInt(v, true).value
    ensures ParseInt(v, true).Some? && ParseInt(v, true).value > 10000 ==> r == 10000
  {
    ParseIntNumberCases(v, true);
    match ParseIntNumber(v, true)
    case NaN => 1
    case Infinite(negative) => if negative then 1 else 10000
    case Finite(x) =>
      var n := if x == 0 then 1 else x;
      if n > 10000 then 10000 else if n < 1 then 1 else n
  }

  /** A printed count in range reads back; a larger one is capped at 10000. */
  lemma CountFromPrinted(n: nat)
    ensures 1 <= n <= 10000 ==> CountFromInput(NatToString(n)) == n
    ensures n > 10000 ==> CountFromInput(NatToString(n)) == 10000
  {
    ParseIntOfNat(n, true);
  }

  /** Input without any digit, such as "" or "abc", and "0" all give a count of 1. */
  lemma CountFromBlankOrZero(v: string)
    requires (forall k :: 0 <= k < |v| ==> !IsDigit(v[k])) || v == "0"
    ensures CountFromInput(v) == 1
  {
    if v == "0" {
      ParseIntOfNat(0, true);
      assert NatToString(0) == v;
    }
  }
}
