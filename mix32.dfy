/**
 * The 32-bit mixing generator shared by the seeded RNG playground and the
 * loot simulator: both keep one 32-bit state word, scramble it on every call
 * with `Math.imul`, `^`, `|` and `>>>`, and return a draw numerator / 2^32.
 * A state is modelled as the 32 bits the bitwise operators see.
 */
module Mix32 {
  import opened JsInt

  /** The state update of one call: two `Math.imul` rounds with xor-shifts. */
  function Mix(t: bv32): bv32 {
    var a := Imul(t ^ (t >> 15), t | 1);
    a ^ (a + Imul(a ^ (a >> 7), a | 61))
  }

  /** The numerator a call returns for the new state: `(t ^ (t >>> 14)) >>> 0`. */
  function Output(t: bv32): bv32 {
    t ^ (t >> 14)
  }

  /** The float a call returns: the numerator divided by 2^32. */
  function DrawValue(num: bv32): (r: real)
    ensures 0.0 <= r < 1.0
    ensures r * 4294967296.0 == (num as int) as real
  {
    (num as int) as real / 4294967296.0
  }

  /** The state after k applications of a state update f, starting from t. */
  function Iterate(f: bv32 -> bv32, t: bv32, k: nat): bv32 {
    if k == 0 then t else f(Iterate(f, t, k - 1))
  }

  /** The state after k calls from state t. */
  function Advance(t: bv32, k: nat): bv32 {
    Iterate(Mix, t, k)
  }

  /** What `out` reads off the states after each of the first k applications of f from t, in order. */
  function Trace(f: bv32 -> bv32, out: bv32 -> bv32, t: bv32, k: nat): (r: seq<bv32>)
    ensures |r| == k
  {
    if k == 0 then [] else Trace(f, out, t, k - 1) + [out(Iterate(f, t, k))]
  }

  /** The numerators of the first k calls from state t, in call order. */
  function Draws(t: bv32, k: nat): (r: seq<bv32>)
    ensures |r| == k
  {
    Trace(Mix, Output, t, k)
  }

  /** One more call appends the numerator of the state it reaches. */
  lemma DrawsNext(t: bv32, i: nat)
    ensures Draws(t, i + 1) == Draws(t, i) + [Output(Advance(t, i + 1))]
  {
  }

  /** Applying f k times and then m more times is applying it k + m times. */
  lemma {:induction false} IterateAdd(f: bv32 -> bv32, t: bv32, k: nat, m: nat)
    ensures Iterate(f, t, k + m) == Iterate(f, Iterate(f, t, k), m)
  {
    if m > 0 {
      IterateAdd(f, t, k, m - 1);
    }
  }

  /** The first k + m outputs are the first k followed by the m outputs from the state reached. */
  lemma {:induction false} TraceAdd(f: bv32 -> bv32, out: bv32 -> bv32, t: bv32, k: nat, m: nat)
    ensures Trace(f, out, t, k + m) == Trace(f, out, t, k) + Trace(f, out, Iterate(f, t, k), m)
  {
    if m > 0 {
      TraceAdd(f, out, t, k, m - 1);
      IterateAdd(f, t, k, m);
    }
  }

  /** The first k + m draws are the first k followed by the m draws from the state reached. */
  lemma DrawsAdd(t: bv32, k: nat, m: nat)
    ensures Draws(t, k + m) == Draws(t, k) + Draws(Advance(t, k), m)
  {
    TraceAdd(Mix, Output, t, k, m);
  }

  /** Asking for more draws only extends the sequence: shorter runs are prefixes of longer ones. */
  lemma DrawsPrefix(t: bv32, k: nat, m: nat)
    requires k <= m
    ensures Draws(t, m)[..k] == Draws(t, k)
  {
    DrawsAdd(t, k, m - k);
  }

  /** The floats of a sequence of numerators. */
  function Floats(nums: seq<bv32>): (r: seq<real>)
    ensures |r| == |nums|
    ensures forall k :: 0 <= k < |r| ==> 0.0 <= r[k] < 1.0
  {
    seq(|nums|, k requires 0 <= k < |nums| => DrawValue(nums[k]))
  }

  lemma FloatsSnoc(nums: seq<bv32>, num: bv32)
    ensures Floats(nums + [num]) == Floats(nums) + [DrawValue(num)]
  {
    var a := Floats(nums + [num]);
    var b := Floats(nums) + [DrawValue(num)];
    assert forall k :: 0 <= k < |a| ==> a[k] == b[k];
  }

  /** One more call appends the float of the next state's numerator. */
  lemma FloatsNext(t: bv32, i: nat)
    ensures Advance(t, i + 1) == Mix(Advance(t, i))
    ensures Floats(Draws(t, i + 1)) == Floats(Draws(t, i)) + [DrawValue(Output(Advance(t, i + 1)))]
  {
    DrawsNext(t, i);
    FloatsSnoc(Draws(t, i), Output(Advance(t, i + 1)));
  }

  /** The i-th float of a run of any length beyond i is the float of the state after i + 1 calls. */
  lemma FloatAt(t: bv32, runs: nat, i: nat)
    requires i < runs
    ensures Advance(t, i + 1) == Mix(Advance(t, i))
    ensures Floats(Draws(t, runs))[i] == DrawValue(Output(Advance(t, i + 1)))
  {
    DrawsPrefix(t, i + 1, runs);
    assert Draws(t, runs)[i] == Draws(t, i + 1)[i];
  }
}
