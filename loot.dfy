/**
 * The loot table explorer: a weighted roll over an ordered item table, and a
 * simulation that rolls a table many times with an optional 32-bit seeded
 * generator and tallies counts and value statistics.
 */
module Loot {
  import opened JsInt
  import opened JsText
  import opened Wrappers
  import opened Mix32

  /** An item of a table; a missing value counts as 0 in the statistics. */
  datatype LootItem = LootItem(name: string, weight: real, value: Option<real>)

  datatype LootTable = LootTable(id: string, title: string, items: seq<LootItem>)

  /** The three built-in tables, in display order. */
  const PRESETS: seq<LootTable> := [
    LootTable("basic-chest", "Basic Chest", [
      LootItem("Gold Pouch (50g)", 40.0, Some(50.0)),
      LootItem("Health Potion", 30.0, Some(25.0)),
      LootItem("Iron Sword", 15.0, Some(100.0)),
      LootItem("Rare Gem", 10.0, Some(250.0)),
      LootItem("Legendary Scroll", 5.0, Some(1000.0))]),
    LootTable("rare-drop", "Rare Drop", [
      LootItem("Nothing", 60.0, Some(0.0)),
      LootItem("Common Material", 20.0, Some(10.0)),
      LootItem("Uncommon Material", 12.0, Some(50.0)),
      LootItem("Rare Material", 6.0, Some(200.0)),
      LootItem("Epic Material", 1.5, Some(800.0)),
      LootItem("Legendary Material", 0.5, Some(5000.0))]),
    LootTable("boss-loot", "Boss Loot", [
      LootItem("Gold Hoard (500g)", 30.0, Some(500.0)),
      LootItem("Boss Armor", 25.0, Some(400.0)),
      LootItem("Boss Weapon", 20.0, Some(600.0)),
      LootItem("Unique Trinket", 15.0, Some(1200.0)),
      LootItem("Mount Scroll", 7.0, Some(3000.0)),
      LootItem("World Drop", 3.0, Some(10000.0))])
  ]

  /** The generator returned by `seededRandom`: its captured variable `s` is the field. */
  class LootRng {
    var s: bv32

    /**
     * `seededRandom(seed)`: the state starts at the raw seed, with no offset.
     * A NaN or infinite seed has 32 bits 0.
     */
    constructor(seed: IntNumber)
      ensures s == SeedState(seed)
    {
      s := if seed.Finite? then Bits(seed.value) else 0;
    }

    /** One call: mix the state and return its tempered value over 2^32. */
    method Next() returns (v: real)
      modifies this
      ensures s == Mix(old(s))
      ensures v == DrawValue(Output(s))
      ensures 0.0 <= v < 1.0
    {
      s := Mix(s);
      v := DrawValue(Output(s));
    }
  }

  /** The 32 bits the bitwise operators see for a seed; NaN and the infinities give 0. */
  function SeedState(seed: IntNumber): bv32 {
    if seed.Finite? then Bits(seed.value) else 0
  }

  /** A NaN or infinite seed behaves as 0, and seeds equal modulo 2^32 give the same generator. */
  lemma SeedStateCases(n: int, m: int, negative: bool)
    requires (n - m) % TWO32 == 0
    ensures SeedState(NaN) == SeedState(Finite(0)) && SeedState(Infinite(negative)) == SeedState(Finite(0))
    ensures SeedState(Finite(n)) == SeedState(Finite(m))
  {
    ToUint32Congruent(n, m);
  }

  /** The sum of the weights of the first k items. */
  function Cum(table: seq<LootItem>, k: nat): real
    requires k <= |table|
  {
    if k == 0 then 0.0 else Cum(table, k - 1) + table[k - 1].weight
  }

  /** `table.reduce((sum, item) => sum + item.weight, 0)`. */
  function TotalWeight(table: seq<LootItem>): real {
    Cum(table, |table|)
  }

  /**
   * The item the walk stops at: the first k whose cumulative weight reaches
   * the roll, or the last item when none does.
   */
  function PickIndex(table: seq<LootItem>, roll: real): (k: nat)
    requires |table| > 0
    ensures k < |table|
    ensures forall j :: 1 <= j <= k ==> roll > Cum(table, j)
    ensures roll <= Cum(table, k + 1) || (k == |table| - 1 && roll > Cum(table, |table|))
  {
    PickFrom(table, roll, 0)
  }

  function PickFrom(table: seq<LootItem>, roll: real, i: nat): (k: nat)
    requires i < |table|
    requires forall j :: 1 <= j <= i ==> roll > Cum(table, j)
    ensures i <= k < |table|
    ensures forall j :: 1 <= j <= k ==> roll > Cum(table, j)
    ensures roll <= Cum(table, k + 1) || (k == |table| - 1 && roll > Cum(table, |table|))
    decreases |table| - i
  {
    if roll <= Cum(table, i + 1) || i == |table| - 1 then i else PickFrom(table, roll, i + 1)
  }

  /** The item a draw u picks: the roll is u times the total weight. */
  function Picked(table: seq<LootItem>, u: real): (item: LootItem)
    requires |table| > 0
    ensures item in table
  {
    table[PickIndex(table, u * TotalWeight(table))]
  }

  /**
   * `rollTable`: scale the draw by the total weight, subtract each weight in
   * table order and stop at the first item that brings the roll to 0 or
   * below; if none does, fall back to the last item. An empty table yields
   * `undefined`, here None.
   */
  method RollTable(table: seq<LootItem>, u: real) returns (item: Option<LootItem>)
    ensures table == [] <==> item.None?
    ensures table != [] ==> item == Some(Picked(table, u))
  {
    var roll0 := u * TotalWeight(table);
    var roll := roll0;
    var i := 0;
    while i < |table|
      invariant 0 <= i <= |table|
      invariant roll == roll0 - Cum(table, i)
      invariant forall j :: 1 <= j <= i ==> roll0 > Cum(table, j)
    {
      roll := roll - table[i].weight;
      if roll <= 0.0 {
        PickStops(table, roll0, i);
        return Some(table[i]);
      }
      i := i + 1;
    }
    if table == [] {
      return None;
    }
    PickStops(table, roll0, |table| - 1);
    item := Some(table[|table| - 1]);
  }

  /** The pick is the index where the walk stops: all earlier cumulative weights fall short. */
  lemma PickStops(table: seq<LootItem>, roll: real, i: nat)
    requires i < |table|
    requires forall j :: 1 <= j <= i ==> roll > Cum(table, j)
    requires roll <= Cum(table, i + 1) || i == |table| - 1
    ensures PickIndex(table, roll) == i
  {
  }

  predicate NonNegativeWeights(table: seq<LootItem>) {
    forall k :: 0 <= k < |table| ==> table[k].weight >= 0.0
  }

  lemma {:induction false} CumMonotone(table: seq<LootItem>, j: nat, k: nat)
    requires NonNegativeWeights(table)
    requires j <= k <= |table|
    ensures Cum(table, j) <= Cum(table, k)
    decreases k - j
  {
    if j < k {
      CumMonotone(table, j, k - 1);
    }
  }

  /**
   * With non-negative weights, a positive total and a draw in (0, 1), the
   * last-item fallback is never needed: the picked item k is the one with
   * Cum(k) < roll <= Cum(k + 1).
   */
  lemma PickInBand(table: seq<LootItem>, u: real)
    requires |table| > 0 && NonNegativeWeights(table)
    requires TotalWeight(table) > 0.0 && 0.0 < u < 1.0
    ensures var roll := u * TotalWeight(table);
      var k := PickIndex(table, roll);
      Cum(table, k) < roll <= Cum(table, k + 1)
  {
    var roll := u * TotalWeight(table);
    var k := PickIndex(table, roll);
    assert roll < TotalWeight(table);
    if k > 0 {
      assert roll > Cum(table, k);
    }
  }

  /** The value a drop adds to the statistics: `drop.value ?? 0`. */
  function ValueOf(item: LootItem): real {
    item.value.GetOr(0.0)
  }

  /** An extended real for the running minimum and maximum, which start at +Infinity and -Infinity. */
  datatype Ext = NegInf | Fin(x: real) | PosInf

  predicate Below(v: real, e: Ext) {
    match e
    case NegInf => false
    case Fin(x) => v < x
    case PosInf => true
  }

  predicate Above(v: real, e: Ext) {
    match e
    case NegInf => true
    case Fin(x) => v > x
    case PosInf => false
  }

  datatype SimResult = SimResult(counts: map<string, int>, totalValue: real, minValue: Ext, maxValue: Ext, runs: nat)

  /** The optional seed of `simulate`: absent, or the number `parseInt` gave. */
  datatype SeedArg = Unseeded | Seeded(parsed: IntNumber)

  /** The draws a simulation of `runs` rolls consumes: the seeded stream, or the first draws of `Math.random`. */
  function Rolls(seed: SeedArg, oracle: seq<real>, runs: nat): (r: seq<real>)
    requires seed.Unseeded? ==> |oracle| >= runs
    ensures |r| == runs
  {
    if seed.Seeded? then Floats(Draws(SeedState(seed.parsed), runs)) else oracle[..runs]
  }

  /** The items a sequence of draws picks, in order. */
  function Drops(table: seq<LootItem>, rolls: seq<real>): (r: seq<LootItem>)
    requires |table| > 0
    ensures |r| == |rolls|
    ensures forall k :: 0 <= k < |r| ==> r[k] in table
  {
    if rolls == [] then [] else Drops(table, rolls[..|rolls| - 1]) + [Picked(table, rolls[|rolls| - 1])]
  }

  /** One more draw adds its pick at the end. */
  lemma DropsPrefix(table: seq<LootItem>, rolls: seq<real>, i: nat)
    requires |table| > 0 && i < |rolls|
    ensures Drops(table, rolls[..i + 1]) == Drops(table, rolls[..i]) + [Picked(table, rolls[i])]
  {
    assert rolls[..i + 1][..i] == rolls[..i];
  }

  /** Drop i is the item that draw i picks. */
  lemma {:induction false} DropAt(table: seq<LootItem>, rolls: seq<real>, i: nat)
    requires |table| > 0 && i < |rolls|
    ensures Drops(table, rolls)[i] == Picked(table, rolls[i])
  {
    if i < |rolls| - 1 {
      DropAt(table, rolls[..|rolls| - 1], i);
    }
  }

  function Names(table: seq<LootItem>): set<string> {
    set k | 0 <= k < |table| :: table[k].name
  }

  /** How many drops carry the given name. */
  function CountName(drops: seq<LootItem>, name: string): nat {
    if drops == [] then 0
    else CountName(drops[..|drops| - 1], name) + (if drops[|drops| - 1].name == name then 1 else 0)
  }

  /** The sum of the drops' values. */
  function SumValues(drops: seq<LootItem>): real {
    if drops == [] then 0.0 else SumValues(drops[..|drops| - 1]) + ValueOf(drops[|drops| - 1])
  }

  /** What `simulate` promises about its result for the drops it rolled. */
  ghost predicate Tallies(table: seq<LootItem>, drops: seq<LootItem>, res: SimResult) {
    && res.counts.Keys == Names(table)
    && (forall name :: name in res.counts ==> res.counts[name] == CountName(drops, name))
    && res.totalValue == SumValues(drops)
    && (drops == [] ==> res.minValue == PosInf && res.maxValue == NegInf)
    && (drops != [] ==>
          && res.minValue.Fin? && res.maxValue.Fin?
          && (exists i :: 0 <= i < |drops| && ValueOf(drops[i]) == res.minValue.x)
          && (exists i :: 0 <= i < |drops| && ValueOf(drops[i]) == res.maxValue.x)
          && (forall i :: 0 <= i < |drops| ==> res.minValue.x <= ValueOf(drops[i]) <= res.maxValue.x))
  }

  /** One run's bookkeeping: count the drop (`get(name) || 0`, plus one), add its value, update minimum and maximum. */
  function Tally(res: SimResult, d: LootItem): SimResult {
    var v := ValueOf(d);
    var c := if d.name in res.counts then res.counts[d.name] else 0;
    var mn := if Below(v, res.minValue) then Fin(v) else res.minValue;
    var mx := if Above(v, res.maxValue) then Fin(v) else res.maxValue;
    SimResult(res.counts[d.name := c + 1], res.totalValue + v, mn, mx, res.runs + 1)
  }

  /** Tallying one more drop keeps the tallies exact. */
  lemma TallyStep(table: seq<LootItem>, drops: seq<LootItem>, res: SimResult, d: LootItem)
    requires Tallies(table, drops, res) && d in table
    ensures Tallies(table, drops + [d], Tally(res, d))
  {
    var e := drops + [d];
    assert e[..|e| - 1] == drops;
    var v := ValueOf(d);
    var mn := Tally(res, d).minValue;
    var mx := Tally(res, d).maxValue;
    assert exists k :: 0 <= k < |table| && table[k].name == d.name;
    if drops == [] {
      assert ValueOf(e[0]) == v;
    } else {
      var i :| 0 <= i < |drops| && ValueOf(drops[i]) == res.minValue.x;
      var i' :| 0 <= i' < |drops| && ValueOf(drops[i']) == res.maxValue.x;
      assert ValueOf(e[|drops|]) == v;
      assert ValueOf(e[i]) == res.minValue.x && ValueOf(e[i']) == res.maxValue.x;
      assert mn.Fin? && (mn.x == v || mn.x == res.minValue.x);
      assert mx.Fin? && (mx.x == v || mx.x == res.maxValue.x);
    }
  }

  /** `counts.set(item.name, 0)` for every item: the map starts with every table name at 0. */
  method InitCounts(table: seq<LootItem>) returns (counts: map<string, int>)
    ensures counts.Keys == Names(table)
    ensures forall name :: name in counts ==> counts[name] == 0
  {
    counts := map[];
    var k := 0;
    while k < |table|
      invariant 0 <= k <= |table|
      invariant counts.Keys == set j | 0 <= j < k :: table[j].name
      invariant forall name :: name in counts ==> counts[name] == 0
    {
      counts := counts[table[k].name := 0];
      k := k + 1;
    }
  }

  /** The i-th call of the simulation's generator: the seeded one when there is a seed, else `Math.random`. */
  method NextRoll(rng: LootRng?, ghost seed: SeedArg, oracle: seq<real>, ghost runs: nat, i: nat) returns (u: real)
    requires i < runs
    requires seed.Unseeded? ==> |oracle| >= runs && rng == null
    requires seed.Seeded? ==> rng != null && rng.s == Advance(SeedState(seed.parsed), i)
    modifies rng
    ensures u == Rolls(seed, oracle, runs)[i]
    ensures seed.Seeded? ==> rng.s == Advance(SeedState(seed.parsed), i + 1)
  {
    if rng != null {
      FloatAt(SeedState(seed.parsed), runs, i);
      u := rng.Next();
    } else {
      u := oracle[i];
    }
  }

  /** Before any run: every count is 0, the total is 0, the minimum is +Infinity and the maximum -Infinity. */
  lemma TalliesInit(table: seq<LootItem>, counts: map<string, int>)
    requires counts.Keys == Names(table)
    requires forall name :: name in counts ==> counts[name] == 0
    ensures Tallies(table, [], SimResult(counts, 0.0, PosInf, NegInf, 0))
  {
  }

  /**
   * One iteration of the `for` loop of `simulate`: draw, roll the table and
   * tally the drop.
   */
  method RunOnce(table: seq<LootItem>, rng: LootRng?, ghost seed: SeedArg, oracle: seq<real>, ghost runs: nat,
                 ghost rolls: seq<real>, i: nat, res: SimResult, ghost drops: seq<LootItem>)
    returns (res': SimResult, ghost drops': seq<LootItem>)
    requires |table| > 0 && i < runs
    requires seed.Unseeded? ==> |oracle| >= runs && rng == null
    requires seed.Seeded? ==> rng != null && rng.s == Advance(SeedState(seed.parsed), i)
    requires rolls == Rolls(seed, oracle, runs)
    requires drops == Drops(table, rolls[..i]) && Tallies(table, drops, res)
    modifies rng
    ensures seed.Seeded? ==> rng.s == Advance(SeedState(seed.parsed), i + 1)
    ensures drops' == Drops(table, rolls[..i + 1]) && Tallies(table, drops', res')
    ensures res'.runs == res.runs + 1
  {
    var u := NextRoll(rng, seed, oracle, runs, i);
    var drop := RollTable(table, u);
    RunStep(table, rolls, i, drops, res, drop.value);
    res' := Tally(res, drop.value);
    drops' := drops + [drop.value];
  }

  /** The ghost bookkeeping of one run: draw `i` extends the drops and the tallies by its pick. */
  lemma RunStep(table: seq<LootItem>, rolls: seq<real>, i: nat, drops: seq<LootItem>, res: SimResult, d: LootItem)
    requires |table| > 0 && i < |rolls|
    requires drops == Drops(table, rolls[..i]) && Tallies(table, drops, res)
    requires d == Picked(table, rolls[i])
    ensures Drops(table, rolls[..i + 1]) == drops + [d]
    ensures Tallies(table, drops + [d], Tally(res, d))
  {
    DropsPrefix(table, rolls, i);
    TallyStep(table, drops, res, d);
  }

  /**
   * `simulate`: every table name starts at count 0; each run rolls the table
   * once and tallies the drop. Without a seed the draws come from
   * `Math.random`, here the oracle sequence.
   */
  method Simulate(table: seq<LootItem>, runs: nat, seed: SeedArg, oracle: seq<real>) returns (res: SimResult)
    requires |table| > 0
    requires seed.Unseeded? ==> |oracle| >= runs
    ensures res.runs == runs
    ensures Tallies(table, Drops(table, Rolls(seed, oracle, runs)), res)
  {
    var rng: LootRng? := null;
    if seed.Seeded? {
      rng := new LootRng(seed.parsed);
    }
    var counts := InitCounts(table);
    TalliesInit(table, counts);
    res := RunAll(table, runs, rng, seed, oracle, SimResult(counts, 0.0, PosInf, NegInf, 0));
  }

  /** The `for` loop of `simulate`: `runs` rolls, each tallied into the result. */
  method RunAll(table: seq<LootItem>, runs: nat, rng: LootRng?, ghost seed: SeedArg, oracle: seq<real>, res0: SimResult)
    returns (res: SimResult)
    requires |table| > 0
    requires seed.Unseeded? ==> |oracle| >= runs && rng == null
    requires seed.Seeded? ==> rng != null && rng.s == SeedState(seed.parsed)
    requires res0.runs == 0 && Tallies(table, [], res0)
    modifies rng
    ensures res.runs == runs
    ensures Tallies(table, Drops(table, Rolls(seed, oracle, runs)), res)
  {
    res := res0;
    ghost var rolls := Rolls(seed, oracle, runs);
    ghost var drops: seq<LootItem> := [];
    var i := 0;
    while i < runs
      invariant 0 <= i <= runs && res.runs == i
      invariant seed.Seeded? ==> rng != null && rng.s == Advance(SeedState(seed.parsed), i)
      invariant drops == Drops(table, rolls[..i])
      invariant Tallies(table, drops, res)
    {
      res, drops := RunOnce(table, rng, seed, oracle, runs, rolls, i, res, drops);
      i := i + 1;
    }
    assert rolls[..runs] == rolls;
  }

  predicate DistinctNames(table: seq<LootItem>) {
    forall j, k :: 0 <= j < k < |table| ==> table[j].name != table[k].name
  }

  /** The sum of the counts the result holds for the table's names, in table order. */
  function CountsOver(table: seq<LootItem>, counts: map<string, int>, m: nat): int
    requires m <= |table|
    requires forall k :: 0 <= k < |table| ==> table[k].name in counts
  {
    if m == 0 then 0 else CountsOver(table, counts, m - 1) + counts[table[m - 1].name]
  }

  /** The number of drops carrying each of the first m table names, summed. */
  function NameTotal(table: seq<LootItem>, drops: seq<LootItem>, m: nat): nat
    requires m <= |table|
  {
    if m == 0 then 0 else NameTotal(table, drops, m - 1) + CountName(drops, table[m - 1].name)
  }

  /** How many of the first m table names equal `name`. */
  function Hits(table: seq<LootItem>, name: string, m: nat): nat
    requires m <= |table|
  {
    if m == 0 then 0 else Hits(table, name, m - 1) + (if table[m - 1].name == name then 1 else 0)
  }

  lemma {:induction false} HitsDistinct(table: seq<LootItem>, name: string, m: nat)
    requires m <= |table| && DistinctNames(table)
    ensures Hits(table, name, m) == if exists j :: 0 <= j < m && table[j].name == name then 1 else 0
  {
    if m > 0 {
      HitsDistinct(table, name, m - 1);
      if table[m - 1].name == name {
        assert !exists j :: 0 <= j < m - 1 && table[j].name == name;
      }
    }
  }

  lemma {:induction false} NameTotalSnoc(table: seq<LootItem>, drops: seq<LootItem>, d: LootItem, m: nat)
    requires m <= |table|
    ensures NameTotal(table, drops + [d], m) == NameTotal(table, drops, m) + Hits(table, d.name, m)
  {
    if m > 0 {
      NameTotalSnoc(table, drops, d, m - 1);
      assert (drops + [d])[..|drops|] == drops;
    }
  }

  /** With distinct names, every drop is counted under exactly one table name. */
  lemma {:induction false} NameTotalIsRuns(table: seq<LootItem>, drops: seq<LootItem>)
    requires DistinctNames(table)
    requires forall i :: 0 <= i < |drops| ==> drops[i] in table
    ensures NameTotal(table, drops, |table|) == |drops|
  {
    if drops == [] {
      NameTotalEmpty(table, |table|);
    } else {
      var p := drops[..|drops| - 1];
      var d := drops[|drops| - 1];
      NameTotalIsRuns(table, p);
      assert p + [d] == drops;
      NameTotalSnoc(table, p, d, |table|);
      HitsDistinct(table, d.name, |table|);
      var j :| 0 <= j < |table| && table[j] == d;
    }
  }

  lemma {:induction false} NameTotalEmpty(table: seq<LootItem>, m: nat)
    requires m <= |table|
    ensures NameTotal(table, [], m) == 0
  {
    if m > 0 {
      NameTotalEmpty(table, m - 1);
    }
  }

  lemma {:induction false} CountsOverNameTotal(table: seq<LootItem>, drops: seq<LootItem>, res: SimResult, m: nat)
    requires m <= |table| && Tallies(table, drops, res)
    ensures forall k :: 0 <= k < |table| ==> table[k].name in res.counts
    ensures CountsOver(table, res.counts, m) == NameTotal(table, drops, m)
  {
    assert forall k :: 0 <= k < |table| ==> table[k].name in Names(table);
    if m > 0 {
      CountsOverNameTotal(table, drops, res, m - 1);
    }
  }

  /**
   * When the names of a table are distinct, the counts a simulation reports
   * for them add up to the number of runs.
   */
  lemma CountsSumToRuns(table: seq<LootItem>, runs: nat, seed: SeedArg, oracle: seq<real>, res: SimResult)
    requires |table| > 0 && DistinctNames(table)
    requires seed.Unseeded? ==> |oracle| >= runs
    requires Tallies(table, Drops(table, Rolls(seed, oracle, runs)), res)
    ensures forall k :: 0 <= k < |table| ==> table[k].name in res.counts
    ensures CountsOver(table, res.counts, |table|) == runs
  {
    var drops := Drops(table, Rolls(seed, oracle, runs));
    CountsOverNameTotal(table, drops, res, |table|);
    NameTotalIsRuns(table, drops);
  }

  predicate WellFormedTable(items: seq<LootItem>) {
    |items| > 0 && DistinctNames(items) && NonNegativeWeights(items) && TotalWeight(items) == 100.0
  }

  /** The preset tables are non-empty, name their items distinctly and weigh 100 in total. */
  lemma PresetsWellFormed()
    ensures forall t :: t in PRESETS ==> WellFormedTable(t.items)
  {
    BasicChestWellFormed();
    RareDropWellFormed();
    BossLootWellFormed();
  }

  lemma BasicChestWellFormed()
    ensures WellFormedTable(PRESETS[0].items)
  {
    var items := PRESETS[0].items;
    assert Cum(items, 1) == 40.0;
    assert Cum(items, 2) == 70.0;
    assert Cum(items, 3) == 85.0;
    assert Cum(items, 4) == 95.0;
    assert Cum(items, 5) == 100.0;
  }

  lemma RareDropWellFormed()
    ensures WellFormedTable(PRESETS[1].items)
  {
    var items := PRESETS[1].items;
    assert Cum(items, 1) == 60.0;
    assert Cum(items, 2) == 80.0;
    assert Cum(items, 3) == 92.0;
    assert Cum(items, 4) == 98.0;
    assert Cum(items, 5) == 99.5;
    assert Cum(items, 6) == 100.0;
  }

  lemma BossLootWellFormed()
    ensures WellFormedTable(PRESETS[2].items)
  {
    var items := PRESETS[2].items;
    assert Cum(items, 1) == 30.0;
    assert Cum(items, 2) == 55.0;
    assert Cum(items, 3) == 75.0;
    assert Cum(items, 4) == 90.0;
    assert Cum(items, 5) == 97.0;
    assert Cum(items, 6) == 100.0;
  }

  /** The seed of a run: none when the trimmed input is empty, else `parseInt(input, 10)`. */
  function SeedFromInput(seedInput: string): (r: SeedArg)
    ensures r.Unseeded? <==> forall k :: 0 <= k < |seedInput| ==> IsWhitespace(seedInput[k])
    ensures r.Seeded? ==> r.parsed == ParseIntNumber(seedInput, false)
  {
    if Trim(seedInput) == [] then Unseeded else Seeded(ParseIntNumber(seedInput, false))
  }

  /**
   * The Runs field: `Math.max(1, Math.min(100000, parseInt(v) || 1))`; NaN
   * and 0 become 1, and the infinities are capped like any large number.
   */
  function RunsFromInput(v: string): (r: int)
    ensures 1 <= r <= 100000
    ensures ParseInt(v, true).None? ==> r == 1
    ensures ParseInt(v, true).Some? && ParseInt(v, true).value <= 0 ==> r == 1
    ensures ParseInt(v, true).Some? && 1 <= ParseInt(v, true).value <= 100000 ==> r == ParseInt(v, true).value
    ensures ParseInt(v, true).Some? && ParseInt(v, true).value > 100000 ==> r == 100000
  {
    ParseIntNumberCases(v, true);
    match ParseIntNumber(v, true)
    case NaN => 1
    case Infinite(negative) => if negative then 1 else 100000
    case Finite(x) =>
      var n := if x == 0 then 1 else x;
      var capped := if n < 100000 then n else 100000;
      if capped > 1 then capped else 1
  }

  /**
   * A printed number is the seed as the nearest double: below 2^53 the number
   * itself; 2^53 + 1 already becomes 2^53, whose generator starts from 0.
   */
  lemma SeedFromPrinted(n: nat)
    ensures SeedFromInput(NatToString(n)) == Seeded(DoubleOfNat(n))
    ensures n < TWO53 ==> SeedFromInput(NatToString(n)) == Seeded(Finite(n))
    ensures n == TWO53 + 1 ==> SeedState(SeedFromInput(NatToString(n)).parsed) == 0
  {
    ParseIntOfNat(n, false);
    var s := NatToString(n);
    assert !IsWhitespace(s[0]);
    if n < TWO53 {
      DoubleOfSmallNat(n);
    }
    if n == TWO53 + 1 {
      DoubleOfTwo53Plus1();
      assert ToUint32(TWO53) == 0;
    }
  }

  /** Blank input means no seed. */
  lemma SeedFromBlank()
    ensures SeedFromInput("") == Unseeded && SeedFromInput("   ") == Unseeded
  {
    assert forall k :: 0 <= k < 3 ==> "   "[k] == ' ';
  }

  /** A non-numeric seed is NaN, which the generator treats as 0. */
  lemma SeedFromText()
    ensures SeedFromInput("abc") == Seeded(NaN) && SeedState(NaN) == SeedState(Finite(0))
  {
    var s := "abc";
    assert !IsWhitespace(s[0]);
    assert forall k :: 0 <= k < |s| ==> !IsDigit(s[k]);
  }

  /** A printed count in range reads back; a larger one is capped at 100000. */
  lemma RunsFromPrinted(n: nat)
    ensures 1 <= n <= 100000 ==> RunsFromInput(NatToString(n)) == n
    ensures n > 100000 ==> RunsFromInput(NatToString(n)) == 100000
  {
    ParseIntOfNat(n, true);
  }

  /** Input without any digit, such as "" or "abc", and "0" all give one run. */
  lemma RunsFromBlankOrZero(v: string)
    requires (forall k :: 0 <= k < |v| ==> !IsDigit(v[k])) || v == "0"
    ensures RunsFromInput(v) == 1
  {
    if v == "0" {
      ParseIntOfNat(0, true);
      assert NatToString(0) == v;
    }
  }
}
