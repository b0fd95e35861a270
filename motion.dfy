/**
 * The list helpers of the motion sandbox: the Fisher-Yates shuffle (with
 * `Math.random` as a sequence of draws in [0, 1)), the demo item generator and
 * the add/remove list of the list-transitions demo.
 */
module Motion {
  import opened JsText

  // ---------------------------------------------------------------------------
  // Shuffle

  /** `Math.floor(r * bound)` for a draw `r` in [0, 1): an index below `bound`. */
  function Pick(r: real, bound: nat): (j: nat)
    requires 0.0 <= r < 1.0 && bound > 0
    ensures j < bound
  {
    assert r * bound as real < bound as real;
    (r * bound as real).Floor
  }

  predicate Draws(draws: seq<real>) {
    forall k :: 0 <= k < |draws| ==> 0.0 <= draws[k] < 1.0
  }

  /** `s` with positions `i` and `j` exchanged. */
  function Swap<T>(s: seq<T>, i: nat, j: nat): (r: seq<T>)
    requires i < |s| && j < |s|
    ensures |r| == |s| && r[i] == s[j] && r[j] == s[i]
    ensures forall k :: 0 <= k < |s| && k != i && k != j ==> r[k] == s[k]
  {
    s[i := s[j]][j := s[i]]
  }

  lemma SwapPermutes<T>(s: seq<T>, i: nat, j: nat)
    requires i < |s| && j < |s|
    ensures multiset(Swap(s, i, j)) == multiset(s)
  {
  }

  /**
   * The passes `i`, `i - 1`, ..., 1 of the shuffle loop on `s`: pass `i` swaps
   * position `i` with the index drawn for it, the draw numbered `|s| - 1 - i`.
   */
  function ShuffleFrom<T>(s: seq<T>, draws: seq<real>, i: nat): seq<T>
    requires i < |s| && |s| - 1 <= |draws| && Draws(draws)
    decreases i
  {
    if i == 0 then s
    else ShuffleFrom(Swap(s, i, Pick(draws[|s| - 1 - i], i + 1)), draws, i - 1)
  }

  /** What `shuffle(arr)` returns when `Math.random` yields `draws`. */
  function Shuffled<T>(s: seq<T>, draws: seq<real>): seq<T>
    requires |s| - 1 <= |draws| && Draws(draws)
  {
    if s == [] then s else ShuffleFrom(s, draws, |s| - 1)
  }

  /** One pass of the loop: pass `i` swaps, then the remaining passes follow. */
  lemma ShuffleFromStep<T>(s: seq<T>, draws: seq<real>, i: nat)
    requires 0 < i < |s| && |s| - 1 <= |draws| && Draws(draws)
    ensures ShuffleFrom(s, draws, i) == ShuffleFrom(Swap(s, i, Pick(draws[|s| - 1 - i], i + 1)), draws, i - 1)
  {
  }

  lemma {:induction false} ShuffleFromPermutes<T>(s: seq<T>, draws: seq<real>, i: nat)
    requires i < |s| && |s| - 1 <= |draws| && Draws(draws)
    ensures |ShuffleFrom(s, draws, i)| == |s|
    ensures multiset(ShuffleFrom(s, draws, i)) == multiset(s)
    decreases i
  {
    if i > 0 {
      var j := Pick(draws[|s| - 1 - i], i + 1);
      SwapPermutes(s, i, j);
      ShuffleFromPermutes(Swap(s, i, j), draws, i - 1);
    }
  }

  /**
   * Whatever the draws, the result is a permutation of the input, and arrays
   * of zero or one element come back as they were.
   */
  lemma ShuffledPermutes<T>(s: seq<T>, draws: seq<real>)
    requires |s| - 1 <= |draws| && Draws(draws)
    ensures |Shuffled(s, draws)| == |s|
    ensures multiset(Shuffled(s, draws)) == multiset(s)
    ensures |s| <= 1 ==> Shuffled(s, draws) == s
  {
    if s != [] {
      ShuffleFromPermutes(s, draws, |s| - 1);
    }
  }

  /** `[...arr]`: a fresh array with the same elements. */
  method CopyOf<T>(arr: array<T>) returns (a: array<T>)
    ensures fresh(a) && a[..] == arr[..]
  {
    a := new T[arr.Length](k requires 0 <= k < arr.Length reads arr => arr[k]);
  }

  /** `[a[i], a[j]] = [a[j], a[i]]`. */
  method SwapCells<T>(a: array<T>, i: nat, j: nat)
    requires i < a.Length && j < a.Length
    modifies a
    ensures a[..] == Swap(old(a[..]), i, j)
  {
    a[i], a[j] := a[j], a[i];
  }

  /** `shuffle`: copies the array, then swaps from the end down, leaving the argument alone. */
  method Shuffle<T>(arr: array<T>, draws: seq<real>) returns (a: array<T>)
    requires arr.Length - 1 <= |draws| && Draws(draws)
    ensures fresh(a)
    ensures a[..] == Shuffled(arr[..], draws)
  {
    a := CopyOf(arr);
    if a.Length == 0 {
      return;
    }
    ghost var target := Shuffled(arr[..], draws);
    var i := a.Length - 1;
    while i > 0
      invariant 0 <= i < a.Length
      invariant ShuffleFrom(a[..], draws, i) == target
      invariant target == Shuffled(arr[..], draws)
      decreases i
    {
      var j := Pick(draws[a.Length - 1 - i], i + 1);
      ghost var before := a[..];
      SwapCells(a, i, j);
      ShuffleFromStep(before, draws, i);
      i := i - 1;
    }
  }

  // ---------------------------------------------------------------------------
  // Items

  datatype Item = Item(id: string, caption: string, color: string)

  const COLORS: seq<string> := ["#ef4444", "#f59e0b", "#10b981", "#3b82f6", "#8b5cf6", "#ec4899", "#06b6d4", "#f97316"]

  /** The item made for counter value `i`. */
  function ItemAt(i: nat): Item {
    Item("item-" + NatToString(i), NatToString(i + 1), COLORS[i % |COLORS|])
  }

  /** Item ids are distinct for distinct counter values. */
  lemma ItemIdsDistinct(i: nat, j: nat)
    ensures ItemAt(i).id == ItemAt(j).id <==> i == j
  {
    if ItemAt(i).id == ItemAt(j).id {
      var p := "item-";
      assert NatToString(i) == ItemAt(i).id[|p|..];
      assert NatToString(j) == ItemAt(j).id[|p|..];
      NatToStringInjective(i, j);
    }
  }

  /** `generateItems(count)`: item i has id `item-i`, label `i+1` and the i-th colour, cycling through eight. */
  function GenerateItems(count: nat): (r: seq<Item>)
    ensures |r| == count
    ensures forall i :: 0 <= i < count ==> r[i] == ItemAt(i)
  {
    seq(count, (i: int) requires 0 <= i => ItemAt(i))
  }

  /** `items.filter(i => i.id !== id)`. */
  function WithoutId(items: seq<Item>, id: string): (r: seq<Item>)
    ensures |r| <= |items|
    ensures forall x :: x in r <==> x in items && x.id != id
  {
    if items == [] then []
    else (if items[0].id != id then [items[0]] else []) + WithoutId(items[1..], id)
  }

  /** The filter keeps the survivors in their order: it distributes over concatenation. */
  lemma {:induction false} WithoutIdAppend(a: seq<Item>, b: seq<Item>, id: string)
    ensures WithoutId(a + b, id) == WithoutId(a, id) + WithoutId(b, id)
  {
    if a == [] {
      assert a + b == b;
    } else {
      assert (a + b)[1..] == a[1..] + b;
      WithoutIdAppend(a[1..], b, id);
    }
  }

  /** A list without that id comes back unchanged. */
  lemma {:induction false} WithoutAbsentId(items: seq<Item>, id: string)
    requires forall x :: x in items ==> x.id != id
    ensures WithoutId(items, id) == items
  {
    if items != [] {
      WithoutAbsentId(items[1..], id);
      assert items == [items[0]] + items[1..];
    }
  }

  /**
   * `items[t]` was made from counter value `made[t]`; these values increase
   * along the list and are all below `counter`.
   */
  ghost predicate Tagged(items: seq<Item>, made: seq<nat>, counter: nat) {
    && |made| == |items|
    && (forall t :: 0 <= t < |items| ==> items[t] == ItemAt(made[t]))
    && (forall s, t :: 0 <= s < t < |made| ==> made[s] < made[t])
    && (forall t :: 0 <= t < |made| ==> made[t] < counter)
  }

  /** The counter values of the items that `WithoutId(items, id)` keeps. */
  ghost function KeepMade(items: seq<Item>, made: seq<nat>, id: string): (r: seq<nat>)
    requires |made| == |items|
    ensures forall x :: x in r ==> x in made
  {
    if items == [] then []
    else (if items[0].id != id then [made[0]] else []) + KeepMade(items[1..], made[1..], id)
  }

  /** Putting an older item in front of a tagged list keeps it tagged. */
  lemma TaggedCons(k: nat, items: seq<Item>, made: seq<nat>, counter: nat)
    requires Tagged(items, made, counter)
    requires k < counter && forall x :: x in made ==> k < x
    ensures Tagged([ItemAt(k)] + items, [k] + made, counter)
  {
    var m := [k] + made;
    forall s, t | 0 <= s < t < |m|
      ensures m[s] < m[t]
    {
      if s == 0 {
        assert m[t] == made[t - 1];
        assert made[t - 1] in made;
      }
    }
  }

  lemma {:induction false} WithoutIdTagged(items: seq<Item>, made: seq<nat>, counter: nat, id: string)
    requires Tagged(items, made, counter)
    ensures Tagged(WithoutId(items, id), KeepMade(items, made, id), counter)
  {
    if items != [] {
      assert Tagged(items[1..], made[1..], counter);
      WithoutIdTagged(items[1..], made[1..], counter, id);
      var rest := KeepMade(items[1..], made[1..], id);
      if items[0].id != id {
        forall x | x in rest
          ensures made[0] < x
        {
          assert x in made[1..];
        }
        TaggedCons(made[0], WithoutId(items[1..], id), rest, counter);
      } else {
        assert WithoutId(items, id) == WithoutId(items[1..], id);
        assert KeepMade(items, made, id) == rest;
      }
    }
  }

  /** Tagged items have pairwise distinct ids. */
  lemma TaggedDistinct(items: seq<Item>, made: seq<nat>, counter: nat)
    requires Tagged(items, made, counter)
    ensures forall s, t :: 0 <= s < t < |items| ==> items[s].id != items[t].id
  {
    forall s, t | 0 <= s < t < |items|
      ensures items[s].id != items[t].id
    {
      ItemIdsDistinct(made[s], made[t]);
    }
  }

  /** The list of `ListTransitionsDemo`: the items shown and the counter `counterRef`. */
  class ListDemo {
    var items: seq<Item>
    var counter: nat
    /** The counter value each item was made from. */
    ghost var made: seq<nat>

    ghost predicate Valid()
      reads this
    {
      Tagged(items, made, counter)
    }

    /** The demo starts with `generateItems(5)` and the counter at 5. */
    constructor ()
      ensures Valid()
      ensures items == GenerateItems(5) && counter == 5
    {
      items := GenerateItems(5);
      counter := 5;
      made := seq(5, (t: int) requires 0 <= t => t);
    }

    /** `addItem`: appends the item for the current counter, whose id no listed item has, and bumps the counter. */
    method AddItem()
      requires Valid()
      modifies this
      ensures Valid()
      ensures items == old(items) + [ItemAt(old(counter))]
      ensures counter == old(counter) + 1
      ensures forall x :: x in old(items) ==> x.id != ItemAt(old(counter)).id
    {
      forall t | 0 <= t < |items|
        ensures items[t].id != ItemAt(counter).id
      {
        ItemIdsDistinct(made[t], counter);
      }
      var i := counter;
      counter := counter + 1;
      items := items + [ItemAt(i)];
      made := made + [i];
    }

    /** `removeItem(id)`: drops the items with that id and keeps the others in order. */
    method RemoveItem(id: string)
      requires Valid()
      modifies this
      ensures Valid()
      ensures items == WithoutId(old(items), id)
      ensures counter == old(counter)
    {
      WithoutIdTagged(items, made, counter, id);
      made := KeepMade(items, made, id);
      items := WithoutId(items, id);
    }
  }
}
