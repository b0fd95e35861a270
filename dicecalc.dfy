/**
 * The dice calculator's outcome distribution and its roll. The exact path
 * enumerates every face sequence with a recursive walk and a loop per die; its
 * masses are kept here as counts of face sequences, so a mass is the count
 * divided by `total`.
 */
module DiceCalculator {
  import opened Wrappers
  import opened DiceNotation

  /** `Math.pow(base, exp)` on non-negative integers, with 0^0 = 1. */
  function Pow(base: nat, exp: nat): nat {
    if exp == 0 then 1 else base * Pow(base, exp - 1)
  }

  lemma MulSplit(a: int, b: int, c: int)
    ensures a * c == b * c + (a - b) * c
  {
  }

  lemma MulSucc(a: int, b: int)
    ensures a * b + b == (a + 1) * b
  {
  }

  // ---------------------------------------------------------------------------
  // Finite sums over an integer window

  /** The sum of f over lo <= t < hi. */
  function Sum(f: int -> int, lo: int, hi: int): int
    decreases hi - lo
  {
    if hi <= lo then 0 else Sum(f, lo, hi - 1) + f(hi - 1)
  }

  lemma {:induction false} SumExt(f: int -> int, g: int -> int, lo: int, hi: int)
    requires forall t :: lo <= t < hi ==> f(t) == g(t)
    ensures Sum(f, lo, hi) == Sum(g, lo, hi)
    decreases hi - lo
  {
    if lo < hi {
      SumExt(f, g, lo, hi - 1);
    }
  }

  lemma {:induction false} SumZero(f: int -> int, lo: int, hi: int)
    requires forall t :: lo <= t < hi ==> f(t) == 0
    ensures Sum(f, lo, hi) == 0
    decreases hi - lo
  {
    if lo < hi {
      SumZero(f, lo, hi - 1);
    }
  }

  lemma {:induction false} SumAdd(f: int -> int, g: int -> int, h: int -> int, lo: int, hi: int)
    requires forall t :: lo <= t < hi ==> h(t) == f(t) + g(t)
    ensures Sum(h, lo, hi) == Sum(f, lo, hi) + Sum(g, lo, hi)
    decreases hi - lo
  {
    if lo < hi {
      SumAdd(f, g, h, lo, hi - 1);
    }
  }

  lemma {:induction false} SumScale(f: int -> int, g: int -> int, c: int, lo: int, hi: int)
    requires forall t :: lo <= t < hi ==> g(t) == c * f(t)
    ensures Sum(g, lo, hi) == c * Sum(f, lo, hi)
    decreases hi - lo
  {
    if lo < hi {
      SumScale(f, g, c, lo, hi - 1);
      assert c * Sum(f, lo, hi) == c * Sum(f, lo, hi - 1) + c * f(hi - 1);
    }
  }

  lemma {:induction false} SumShift(f: int -> int, g: int -> int, k: int, lo: int, hi: int)
    requires forall t :: lo <= t < hi ==> g(t) == f(t - k)
    ensures Sum(g, lo, hi) == Sum(f, lo - k, hi - k)
    decreases hi - lo
  {
    if lo < hi {
      SumShift(f, g, k, lo, hi - 1);
    }
  }

  lemma {:induction false} SumSplit(f: int -> int, lo: int, mid: int, hi: int)
    requires lo <= mid <= hi
    ensures Sum(f, lo, hi) == Sum(f, lo, mid) + Sum(f, mid, hi)
    decreases hi - mid
  {
    if mid < hi {
      SumSplit(f, lo, mid, hi - 1);
    }
  }

  /** Reading a window backwards: g(t) = f(c - t) on [lo, hi) sums like f on the mirrored window. */
  lemma {:induction false} SumReverse(f: int -> int, g: int -> int, c: int, lo: int, hi: int)
    requires forall t :: lo <= t < hi ==> g(t) == f(c - t)
    ensures Sum(g, lo, hi) == Sum(f, c - hi + 1, c - lo + 1)
    decreases hi - lo
  {
    if lo < hi {
      SumReverse(f, g, c, lo, hi - 1);
      SumSplit(f, c - hi + 1, c - hi + 2, c - lo + 1);
    }
  }

  // ---------------------------------------------------------------------------
  // Counting face sequences

  /** The number of ways n dice with faces 1..s show a face total of t. */
  function Ways(n: nat, s: nat, t: int): nat
    decreases n, 0
  {
    if n == 0 then (if t == 0 then 1 else 0) else Inner(n - 1, s, t, s)
  }

  /** The ways left after the first die shows 1, 2, ..., or i: the sum of Ways(n, s, t - k) for k in 1..i. */
  function Inner(n: nat, s: nat, t: int, i: nat): nat
    decreases n, 1, i
  {
    if i == 0 then 0 else Inner(n, s, t, i - 1) + Ways(n, s, t - i)
  }

  function WaysAt(n: nat, s: nat): int -> int {
    t => Ways(n, s, t)
  }

  function InnerAt(n: nat, s: nat, i: nat): int -> int {
    t => Inner(n, s, t, i)
  }

  function ShiftedAt(n: nat, s: nat, k: int): int -> int {
    t => Ways(n, s, t - k)
  }

  /** The first die's faces as a function of the face k. */
  function FirstDie(n: nat, s: nat, t: int): int -> int {
    k => Ways(n, s, t - k)
  }

  function WeightedAt(n: nat, s: nat): int -> int {
    t => t * Ways(n, s, t)
  }

  lemma {:induction false} InnerAsSum(n: nat, s: nat, t: int, i: nat)
    ensures Inner(n, s, t, i) == Sum(FirstDie(n, s, t), 1, i + 1)
  {
    if i > 0 {
      InnerAsSum(n, s, t, i - 1);
    }
  }

  lemma {:induction false} InnerPositive(n: nat, s: nat, t: int, i: nat, k: nat)
    requires 1 <= k <= i
    ensures Inner(n, s, t, i) >= Ways(n, s, t - k)
    decreases i
  {
    if k < i {
      InnerPositive(n, s, t, i - 1, k);
    }
  }

  /** Outcomes lie between all ones and all top faces. */
  lemma {:induction false} WaysSupport(n: nat, s: nat, t: int)
    requires Ways(n, s, t) > 0
    ensures n <= t <= n * s
    decreases n, 0
  {
    if n > 0 {
      InnerSupport(n - 1, s, t, s);
      assert (n - 1) * s + s == n * s;
    }
  }

  lemma {:induction false} InnerSupport(n: nat, s: nat, t: int, i: nat)
    requires Inner(n, s, t, i) > 0
    ensures n + 1 <= t <= n * s + i
    decreases n, 1, i
  {
    if Ways(n, s, t - i) > 0 {
      WaysSupport(n, s, t - i);
    } else {
      InnerSupport(n, s, t, i - 1);
    }
  }

  /** With at least one face, every total between all ones and all top faces can be shown. */
  lemma {:induction false} WaysCover(n: nat, s: nat, t: int)
    requires s >= 1 && n <= t <= n * s
    ensures Ways(n, s, t) > 0
  {
    if n > 0 {
      var k := if t - (n - 1) * s >= 1 then t - (n - 1) * s else 1;
      assert (n - 1) * s + s == n * s;
      WaysCover(n - 1, s, t - k);
      InnerPositive(n - 1, s, t, s, k);
    }
  }

  /** A single die shows each of its faces in exactly one way. */
  lemma OneDie(s: nat, t: int)
    ensures Ways(1, s, t) == if 1 <= t <= s then 1 else 0
  {
    OneDieInner(s, t, s);
  }

  lemma {:induction false} OneDieInner(s: nat, t: int, i: nat)
    ensures Inner(0, s, t, i) == if 1 <= t <= i then 1 else 0
  {
    if i > 0 {
      OneDieInner(s, t, i - 1);
    }
  }

  /** Dice with no faces show nothing: the exact walk records no outcome. */
  lemma NoFacesNoWays(n: nat, t: int)
    requires n >= 1
    ensures Ways(n, 0, t) == 0
  {
  }

  /** Over any window covering 0..n*s, the ways add up to s^n: the masses ways/total sum to one. */
  lemma {:induction false} TotalWays(n: nat, s: nat, lo: int, hi: int)
    requires lo <= 0 && hi > n * s
    ensures Sum(WaysAt(n, s), lo, hi) == Pow(s, n)
    decreases n, 0
  {
    if n == 0 {
      SumSplit(WaysAt(0, s), lo, 0, hi);
      SumSplit(WaysAt(0, s), 0, 1, hi);
      SumZero(WaysAt(0, s), lo, 0);
      SumZero(WaysAt(0, s), 1, hi);
    } else {
      SumExt(WaysAt(n, s), InnerAt(n - 1, s, s), lo, hi);
      assert (n - 1) * s + s == n * s;
      InnerTotal(n - 1, s, s, lo, hi);
    }
  }

  lemma {:induction false} InnerTotal(n: nat, s: nat, i: nat, lo: int, hi: int)
    requires i <= s && lo <= 0 && hi > n * s + i
    ensures Sum(InnerAt(n, s, i), lo, hi) == i * Pow(s, n)
    decreases n, 1, i
  {
    if i == 0 {
      SumZero(InnerAt(n, s, 0), lo, hi);
    } else {
      SumAdd(InnerAt(n, s, i - 1), ShiftedAt(n, s, i), InnerAt(n, s, i), lo, hi);
      InnerTotal(n, s, i - 1, lo, hi);
      SumShift(WaysAt(n, s), ShiftedAt(n, s, i), i, lo, hi);
      TotalWays(n, s, lo - i, hi - i);
      MulSucc(i - 1, Pow(s, n));
    }
  }

  /** The distribution is symmetric about its midpoint n(s+1)/2. */
  lemma {:induction false} WaysSymmetric(n: nat, s: nat, t: int)
    ensures Ways(n, s, t) == Ways(n, s, n * (s + 1) - t)
  {
    if n > 0 {
      var m := n - 1;
      var top := n * (s + 1);
      assert top == m * (s + 1) + s + 1;
      var f, g := FirstDie(m, s, t), FirstDie(m, s, top - t);
      forall k | 1 <= k < s + 1
        ensures g(k) == f(s + 1 - k)
      {
        WaysSymmetric(m, s, top - t - k);
      }
      InnerAsSum(m, s, t, s);
      InnerAsSum(m, s, top - t, s);
      SumReverse(f, g, s + 1, 1, s + 1);
    }
  }

  /** The mean face total of n dice with faces 1..s is n(s+1)/2. */
  lemma MeanOfWays(n: nat, s: nat)
    ensures 2 * Sum(WeightedAt(n, s), 0, n * (s + 1) + 1) == n * (s + 1) * Pow(s, n)
  {
    var top := n * (s + 1);
    var mirrored := t => (top - t) * Ways(n, s, t);
    var scaled := t => top * Ways(n, s, t);
    forall t | 0 <= t < top + 1
      ensures mirrored(t) == WeightedAt(n, s)(top - t)
    {
      WaysSymmetric(n, s, t);
    }
    SumReverse(WeightedAt(n, s), mirrored, top, 0, top + 1);
    forall t | 0 <= t < top + 1
      ensures scaled(t) == WeightedAt(n, s)(t) + mirrored(t)
    {
      MulSplit(top, t, Ways(n, s, t));
    }
    SumAdd(WeightedAt(n, s), mirrored, scaled, 0, top + 1);
    SumScale(WaysAt(n, s), scaled, top, 0, top + 1);
    assert top == n * s + n;
    TotalWays(n, s, 0, top + 1);
  }

  // ---------------------------------------------------------------------------
  // The calculation

  function Get(m: map<int, nat>, v: int): nat {
    if v in m then m[v] else 0
  }

  function MassAt(m: map<int, nat>): int -> int {
    v => Get(m, v)
  }

  /**
   * The exact distribution as face-sequence counts over `total` sequences, or
   * the keys of the normal approximation (its densities are not modelled).
   */
  datatype Distribution = Exact(ways: map<int, nat>, total: nat) | Normal(support: set<int>)

  /** The face total still to be shown for outcome v once `base` is counted. */
  function Remaining(v: int, base: int): int {
    v - base
  }

  /**
   * `recurse(depth, sum)`: one leaf per face sequence of the remaining dice,
   * each adding one to the outcome `sum + modifier` plus the remaining faces.
   */
  method Recurse(depth: nat, sum: int, sides: nat, modifier: int, dist: map<int, nat>) returns (dist': map<int, nat>)
    ensures forall v :: Get(dist', v) == Get(dist, v) + Ways(depth, sides, Remaining(v, modifier + sum))
    ensures forall v :: v in dist' <==> v in dist || Ways(depth, sides, Remaining(v, modifier + sum)) > 0
    decreases depth
  {
    if depth == 0 {
      var val := sum + modifier;
      dist' := dist[val := Get(dist, val) + 1];
      return;
    }
    dist' := dist;
    var base := modifier + sum;
    for i := 1 to sides + 1
      invariant forall v :: Get(dist', v) == Get(dist, v) + Inner(depth - 1, sides, Remaining(v, base), i - 1)
      invariant forall v :: v in dist' <==> v in dist || Inner(depth - 1, sides, Remaining(v, base), i - 1) > 0
    {
      dist' := Recurse(depth - 1, sum + i, sides, modifier, dist');
    }
  }

  /** The keys `min..max` the approximation loop sets, in order. */
  method NormalSupport(lo: int, hi: int) returns (keys: set<int>)
    ensures forall v :: v in keys <==> lo <= v <= hi
  {
    keys := {};
    var v := lo;
    while v <= hi
      invariant lo <= v && (v <= hi + 1 || v == lo)
      invariant forall u :: u in keys <==> lo <= u < v
      decreases hi - v
    {
      keys := keys + {v};
      v := v + 1;
    }
  }

  /** `ways` holds, at each outcome v, the number of face sequences that total v - modifier, and only the outcomes that have some. */
  ghost predicate CountsWays(ways: map<int, nat>, count: nat, sides: nat, modifier: int) {
    forall v :: Get(ways, v) == Ways(count, sides, v - modifier) && (v in ways <==> Ways(count, sides, v - modifier) > 0)
  }

  lemma ExactSupport(ways: map<int, nat>, count: nat, sides: nat, modifier: int)
    requires CountsWays(ways, count, sides, modifier)
    ensures sides >= 1 ==> forall v :: v in ways <==> count + modifier <= v <= count * sides + modifier
  {
    if sides >= 1 {
      forall v
        ensures v in ways <==> count + modifier <= v <= count * sides + modifier
      {
        if v in ways {
          WaysSupport(count, sides, v - modifier);
        }
        if count + modifier <= v <= count * sides + modifier {
          WaysCover(count, sides, v - modifier);
        }
      }
    }
  }

  lemma ExactNoFaces(ways: map<int, nat>, count: nat, sides: nat, modifier: int)
    requires CountsWays(ways, count, sides, modifier)
    ensures sides == 0 && count >= 1 ==> ways == map[]
  {
    if sides == 0 && count >= 1 {
      forall v
        ensures v !in ways
      {
        NoFacesNoWays(count, v - modifier);
      }
    }
  }

  lemma ExactNoDice(ways: map<int, nat>, count: nat, sides: nat, modifier: int)
    requires CountsWays(ways, count, sides, modifier)
    ensures count == 0 ==> ways == map[modifier := 1]
  {
    if count == 0 {
      assert Get(ways, modifier) == 1;
      forall v
        ensures v in ways <==> v == modifier
      {
        assert Ways(0, sides, v - modifier) > 0 <==> v == modifier;
      }
    }
  }

  lemma ExactTotal(ways: map<int, nat>, count: nat, sides: nat, modifier: int)
    requires CountsWays(ways, count, sides, modifier)
    ensures Sum(MassAt(ways), modifier, count * sides + modifier + 1) == Pow(sides, count)
  {
    var hi := count * sides + modifier;
    SumShift(WaysAt(count, sides), MassAt(ways), modifier, modifier, hi + 1);
    TotalWays(count, sides, 0, count * sides + 1);
  }

  /** `calculateDistribution`: exact for at most four dice of at most twenty faces, approximate otherwise. */
  method CalculateDistribution(count: nat, sides: nat, modifier: int) returns (d: Distribution)
    ensures d.Exact? <==> count <= 4 && sides <= 20
    ensures d.Exact? ==> d.total == Pow(sides, count)
    ensures d.Exact? ==> forall v :: v in d.ways ==> d.ways[v] == Ways(count, sides, v - modifier)
    ensures d.Exact? && sides >= 1 ==> forall v :: v in d.ways <==> count + modifier <= v <= count * sides + modifier
    ensures d.Exact? && sides == 0 && count >= 1 ==> d.ways == map[]
    ensures d.Exact? && count == 0 ==> d.ways == map[modifier := 1]
    ensures d.Exact? ==> Sum(MassAt(d.ways), modifier, count * sides + modifier + 1) == d.total
    ensures d.Normal? ==> forall v :: v in d.support <==> count + modifier <= v <= count * sides + modifier
  {
    var lo := count + modifier;
    var hi := count * sides + modifier;
    if count <= 4 && sides <= 20 {
      var total := Pow(sides, count);
      var ways := Recurse(count, 0, sides, modifier, map[]);
      assert CountsWays(ways, count, sides, modifier) by {
        forall v
          ensures Get(ways, v) == Ways(count, sides, v - modifier)
          ensures v in ways <==> Ways(count, sides, v - modifier) > 0
        {
          assert Remaining(v, modifier + 0) == v - modifier;
        }
      }
      ExactSupport(ways, count, sides, modifier);
      ExactNoFaces(ways, count, sides, modifier);
      ExactNoDice(ways, count, sides, modifier);
      ExactTotal(ways, count, sides, modifier);
      d := Exact(ways, total);
    } else {
      var keys := NormalSupport(lo, hi);
      d := Normal(keys);
    }
  }

  /** `maxProb`: the largest mass, or 0 for no masses. */
  method MaxProbability(masses: seq<real>) returns (m: real)
    ensures m >= 0.0
    ensures forall k :: 0 <= k < |masses| ==> masses[k] <= m
    ensures m == 0.0 || m in masses
  {
    m := 0.0;
    for k := 0 to |masses|
      invariant m >= 0.0
      invariant forall j :: 0 <= j < k ==> masses[j] <= m
      invariant m == 0.0 || m in masses[..k]
    {
      if masses[k] > m {
        m := masses[k];
      }
    }
  }

  // ---------------------------------------------------------------------------
  // Rolling

  /** `Math.floor(u * sides) + 1` for one draw u of `Math.random()`. */
  function Roll(u: real, sides: nat): (r: int)
    requires 0.0 <= u < 1.0
    ensures sides >= 1 ==> 1 <= r <= sides
    ensures sides == 0 ==> r == 1
  {
    RollRange(u, sides);
    (u * sides as real).Floor + 1
  }

  lemma RollRange(u: real, sides: nat)
    requires 0.0 <= u < 1.0
    ensures 0.0 <= u * sides as real
    ensures sides >= 1 ==> u * sides as real < sides as real
  {
    if sides >= 1 {
      assert u * sides as real < 1.0 * sides as real;
    }
  }

  predicate AreDraws(draws: seq<real>) {
    forall k :: 0 <= k < |draws| ==> 0.0 <= draws[k] < 1.0
  }

  /** `rollDice`: one roll per die from the first `count` draws. */
  function RollDice(count: nat, sides: nat, draws: seq<real>): (rolls: seq<int>)
    requires |draws| >= count && AreDraws(draws)
    ensures |rolls| == count
    ensures sides >= 1 ==> forall k :: 0 <= k < count ==> 1 <= rolls[k] <= sides
    ensures sides == 0 ==> forall k :: 0 <= k < count ==> rolls[k] == 1
  {
    seq(count, k requires 0 <= k < count => Roll(draws[k], sides))
  }

  function SumOf(xs: seq<int>): int {
    if xs == [] then 0 else SumOf(xs[..|xs| - 1]) + xs[|xs| - 1]
  }

  /** A sum of rolls lies between all ones and all top faces. */
  lemma {:induction false} SumOfBounds(xs: seq<int>, lo: int, hi: int)
    requires forall k :: 0 <= k < |xs| ==> lo <= xs[k] <= hi
    ensures |xs| * lo <= SumOf(xs) <= |xs| * hi
  {
    if xs != [] {
      SumOfBounds(xs[..|xs| - 1], lo, hi);
      assert |xs| * lo == (|xs| - 1) * lo + lo;
      assert |xs| * hi == (|xs| - 1) * hi + hi;
    }
  }

  datatype RollResult = RollResult(notation: string, rolls: seq<int>, total: int, min: int, max: int, average: real)

  /** The roll of parsed dice: the rolls, their total plus the modifier, the range and its midpoint. */
  function RollOf(notation: string, d: Dice, draws: seq<real>): (r: RollResult)
    requires AreDraws(draws) && |draws| >= d.count
    ensures |r.rolls| == d.count && r.notation == notation
    ensures d.sides >= 1 ==> forall k :: 0 <= k < d.count ==> 1 <= r.rolls[k] <= d.sides
    ensures r.total == SumOf(r.rolls) + d.modifier
    ensures r.min == d.count + d.modifier && r.max == d.count * d.sides + d.modifier
    ensures d.sides >= 1 ==> r.min <= r.total <= r.max
    ensures 2.0 * r.average == (r.min + r.max) as real
  {
    var rolls := RollDice(d.count, d.sides, draws);
    var lo := d.count + d.modifier;
    var hi := d.count * d.sides + d.modifier;
    SumOfBounds(rolls, 1, if d.sides >= 1 then d.sides else 1);
    assert d.count * (d.sides + 1) == d.count + d.count * d.sides;
    RollResult(notation, rolls, SumOf(rolls) + d.modifier, lo, hi, (d.count * (d.sides + 1)) as real / 2.0 + d.modifier as real)
  }

  /** `handleRoll`: roll the parsed notation, or leave the last roll as it was (None) when it does not parse. */
  function HandleRoll(notation: string, draws: seq<real>): (r: Option<RollResult>)
    requires AreDraws(draws)
    requires ParseDice(notation).Some? ==> |draws| >= ParseDice(notation).value.count
    ensures r.None? <==> ParseDice(notation).None?
    ensures r.Some? ==> r.value == RollOf(notation, ParseDice(notation).value, draws)
  {
    match ParseDice(notation)
    case None => None
    case Some(d) => Some(RollOf(notation, d, draws))
  }

  /** With zero sides every die shows 1, so a roll of `Nd0` totals N plus the modifier, above the displayed maximum. */
  lemma ZeroSidesExceedMax(notation: string, draws: seq<real>)
    requires AreDraws(draws)
    requires ParseDice(notation).Some? && ParseDice(notation).value.sides == 0
    requires ParseDice(notation).value.count >= 1 && |draws| >= ParseDice(notation).value.count
    ensures HandleRoll(notation, draws).value.total > HandleRoll(notation, draws).value.max
  {
    var d := ParseDice(notation).value;
    var rolls := RollDice(d.count, 0, draws);
    SumOfBounds(rolls, 1, 1);
    assert HandleRoll(notation, draws).value == RollOf(notation, d, draws);
  }
}
