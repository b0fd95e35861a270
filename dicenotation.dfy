/**
 * The dice calculator's notation parser and roller: `[count]d<sides>[±modifier]`,
 * case-insensitive, after trimming; one uniform roll per die.
 */
module DiceNotation {
  import opened JsText
  import opened Wrappers

  /** A parsed notation. The digit groups make count and sides non-negative. */
  datatype Dice = Dice(count: nat, sides: nat, modifier: int)

  predicate IsDieLetter(c: char) {
    c == 'd' || c == 'D'
  }

  predicate IsSign(c: char) {
    c == '+' || c == '-'
  }

  /** `parseInt` of a sign followed by digits of value v. */
  function Signed(c: char, v: nat): int {
    if c == '-' then -(v as int) else v
  }

  /** `parseInt(match[1] || '1', 10)`: an absent count is 1; a present one, even "0", is read. */
  function CountOf(digits: string): nat
    requires AllDigits(digits)
  {
    if digits == [] then 1 else DecimalValue(digits)
  }

  /**
   * The shape of `/^(\d+)?d(\d+)([+-]\d+)?$/i` with its groups located: the
   * count digits end at i, the letter d or D is at i, the sides digits run
   * from i + 1 to j, and either j is the end or a sign at j is followed by
   * digits up to the end.
   */
  ghost predicate ShapeAt(t: string, i: int, j: int) {
    && 0 <= i < j <= |t|
    && AllDigits(t[..i])
    && IsDieLetter(t[i])
    && i + 1 < j && AllDigits(t[i + 1..j])
    && (j == |t| || (IsSign(t[j]) && j + 1 < |t| && AllDigits(t[j + 1..])))
  }

  ghost predicate IsShape(t: string) {
    exists i, j :: ShapeAt(t, i, j)
  }

  /** The triple the groups of a matched shape stand for. */
  function Decode(t: string, i: int, j: int): Dice
    requires 0 <= i < j <= |t| && AllDigits(t[..i]) && AllDigits(t[i + 1..j])
    requires j == |t| || (j + 1 <= |t| && AllDigits(t[j + 1..]))
  {
    Dice(CountOf(t[..i]), DecimalValue(t[i + 1..j]),
         if j == |t| then 0 else Signed(t[j], DecimalValue(t[j + 1..])))
  }

  /** `parseDiceNotation`: match the trimmed text against the notation, or fail with None (null). */
  function ParseDice(notation: string): (r: Option<Dice>)
  {
    Match(Trim(notation))
  }

  /** The regular-expression match on already trimmed text. */
  function Match(t: string): (r: Option<Dice>)
  {
    var i := DigitRun(t, 0);
    if i == |t| || !IsDieLetter(t[i]) then None
    else
      var j := DigitRun(t, i + 1);
      if j == i + 1 then None
      else if j == |t| then Some(Decode(t, i, j))
      else if !IsSign(t[j]) then None
      else
        var k := DigitRun(t, j + 1);
        if k != |t| || k == j + 1 then None
        else Some(Decode(t, i, j))
  }

  /** The located shape is unique: no digit is a die letter or a sign. */
  lemma ShapeUnique(t: string, i: int, j: int)
    requires ShapeAt(t, i, j)
    ensures i == DigitRun(t, 0)
    ensures j == DigitRun(t, i + 1)
    ensures j < |t| ==> DigitRun(t, j + 1) == |t|
  {
    assert t[0..i] == t[..i];
    DigitRunAt(t, 0, i);
    DigitRunAt(t, i + 1, j);
    if j < |t| {
      assert t[j + 1..|t|] == t[j + 1..];
      DigitRunAt(t, j + 1, |t|);
    }
  }

  /** A successful match has located the groups of the shape. */
  lemma MatchedShape(t: string)
    requires Match(t).Some?
    ensures ShapeAt(t, DigitRun(t, 0), DigitRun(t, DigitRun(t, 0) + 1))
  {
    var i := DigitRun(t, 0);
    var j := DigitRun(t, i + 1);
    assert t[0..i] == t[..i];
    if j < |t| {
      var k := DigitRun(t, j + 1);
      assert t[j + 1..k] == t[j + 1..];
    }
  }

  /** The parser succeeds exactly on the trimmed texts of the notation's shape. */
  lemma ParseDiceSucceedsIffShape(notation: string)
    ensures ParseDice(notation).Some? <==> IsShape(Trim(notation))
  {
    var t := Trim(notation);
    if ParseDice(notation).Some? {
      MatchedShape(t);
    }
    if IsShape(t) {
      var i, j :| ShapeAt(t, i, j);
      ParseDiceOfShape(notation, i, j);
    }
  }

  /** On a matched shape the parser returns the triple its groups stand for. */
  lemma ParseDiceOfShape(notation: string, i: int, j: int)
    requires ShapeAt(Trim(notation), i, j)
    ensures ParseDice(notation) == Some(Decode(Trim(notation), i, j))
  {
    MatchOfShape(Trim(notation), i, j);
  }

  lemma MatchOfShape(t: string, i: int, j: int)
    requires ShapeAt(t, i, j)
    ensures Match(t) == Some(Decode(t, i, j))
  {
    ShapeUnique(t, i, j);
  }

  /** Characters of the notation alphabet: digits, die letters and signs. */
  predicate Plain(s: string) {
    forall k :: 0 <= k < |s| ==> IsDigit(s[k]) || IsDieLetter(s[k]) || IsSign(s[k])
  }

  lemma PlainAppend(a: string, b: string)
    requires Plain(a) && Plain(b)
    ensures Plain(a + b)
  {
    assert forall k :: 0 <= k < |a + b| ==> (a + b)[k] == if k < |a| then a[k] else b[k - |a|];
  }

  lemma PlainTrim(s: string)
    requires Plain(s)
    ensures Trim(s) == s
  {
    assert !HasWhitespace(s);
  }

  /** Where the groups of assembled text sit. */
  lemma PartsSlices(c: string, letter: char, n: string, tail: string)
    ensures (c + [letter] + n + tail)[..|c|] == c
    ensures (c + [letter] + n + tail)[|c|] == letter
    ensures (c + [letter] + n + tail)[|c| + 1..|c| + 1 + |n|] == n
    ensures (c + [letter] + n + tail)[|c| + 1 + |n|..] == tail
  {
  }

  /** Text assembled from a count group, a die letter, a sides group and an optional signed modifier. */
  lemma ParseOfParts(c: string, letter: char, n: string, tail: string, sign: char, g: string)
    requires AllDigits(c) && IsDieLetter(letter) && AllDigits(n) && n != []
    requires AllDigits(g) && (tail == [] || (IsSign(sign) && g != [] && tail == [sign] + g))
    ensures Trim(c + [letter] + n + tail) == c + [letter] + n + tail
    ensures Match(c + [letter] + n + tail)
      == Some(Dice(CountOf(c), DecimalValue(n), if tail == [] then 0 else Signed(sign, DecimalValue(g))))
  {
    var t := c + [letter] + n + tail;
    PlainAppend(c, [letter]);
    PlainAppend(c + [letter], n);
    if tail != [] {
      PlainAppend([sign], g);
    }
    PlainAppend(c + [letter] + n, tail);
    PlainTrim(t);
    MatchOfParts(c, letter, n, tail, sign, g);
  }

  /** The match on assembled text reads its groups. */
  lemma MatchOfParts(c: string, letter: char, n: string, tail: string, sign: char, g: string)
    requires AllDigits(c) && IsDieLetter(letter) && AllDigits(n) && n != []
    requires AllDigits(g) && (tail == [] || (IsSign(sign) && g != [] && tail == [sign] + g))
    ensures Match(c + [letter] + n + tail)
      == Some(Dice(CountOf(c), DecimalValue(n), if tail == [] then 0 else Signed(sign, DecimalValue(g))))
  {
    PartsSlices(c, letter, n, tail);
    MatchOfSlices(c + [letter] + n + tail, c, letter, n, tail, sign, g);
  }

  /** Text whose slices are a count group, a die letter, a sides group and a modifier tail matches them. */
  lemma MatchOfSlices(t: string, c: string, letter: char, n: string, tail: string, sign: char, g: string)
    requires AllDigits(c) && IsDieLetter(letter) && AllDigits(n) && n != []
    requires AllDigits(g) && (tail == [] || (IsSign(sign) && g != [] && tail == [sign] + g))
    requires |t| == |c| + 1 + |n| + |tail|
    requires t[..|c|] == c && t[|c|] == letter
    requires t[|c| + 1..|c| + 1 + |n|] == n && t[|c| + 1 + |n|..] == tail
    ensures Match(t) == Some(Dice(CountOf(c), DecimalValue(n), if tail == [] then 0 else Signed(sign, DecimalValue(g))))
  {
    if tail != [] {
      assert t[|c| + 1 + |n| + 1..] == tail[1..] == g;
    }
    assert ShapeAt(t, |c|, |c| + 1 + |n|);
    MatchOfShape(t, |c|, |c| + 1 + |n|);
  }

  /** `<count>d<sides>±<|modifier|>`, the way the presets and the display write a triple. */
  function Print(d: Dice): string {
    var m := if d.modifier < 0 then -d.modifier else d.modifier;
    NatToString(d.count) + ['d'] + NatToString(d.sides) + ([if d.modifier < 0 then '-' else '+'] + NatToString(m))
  }

  /** Printing a triple and parsing the text gives the triple back. */
  lemma ParsePrint(d: Dice)
    ensures ParseDice(Print(d)) == Some(d)
  {
    var m := if d.modifier < 0 then -d.modifier else d.modifier;
    var sign := if d.modifier < 0 then '-' else '+';
    var c, n, g := NatToString(d.count), NatToString(d.sides), NatToString(m);
    var t := c + ['d'] + n + ([sign] + g);
    assert t == Print(d);
    ParseOfParts(c, 'd', n, [sign] + g, sign, g);
    DecimalOfNatToString(d.count);
    DecimalOfNatToString(d.sides);
    DecimalOfNatToString(m);
    assert CountOf(c) == d.count;
    assert Signed(sign, DecimalValue(g)) == d.modifier;
  }

  /** A text of the notation alphabet parses to d when its groups sit at i and j and read as d. */
  lemma ParsesAt(t: string, i: int, j: int, d: Dice)
    requires Plain(t) && ShapeAt(t, i, j) && Decode(t, i, j) == d
    ensures ParseDice(t) == Some(d)
  {
    PlainTrim(t);
    MatchOfShape(t, i, j);
  }

  /** The preset chips parse. */
  lemma PresetsParse()
    ensures ParseDice("1d20") == Some(Dice(1, 20, 0))
    ensures ParseDice("2d6") == Some(Dice(2, 6, 0))
    ensures ParseDice("3d8+5") == Some(Dice(3, 8, 5))
    ensures ParseDice("4d6") == Some(Dice(4, 6, 0))
    ensures ParseDice("1d100") == Some(Dice(1, 100, 0))
    ensures ParseDice("2d12") == Some(Dice(2, 12, 0))
  {
    Parse1d20();
    Parse2d6();
    Parse3d8Plus5();
    Parse4d6();
    Parse1d100();
    Parse2d12();
  }

  /** An absent count is 1 and an absent modifier 0; a count or sides of 0 is read as 0; the die letter may be upper case. */
  lemma DefaultsParse()
    ensures ParseDice("d20") == Some(Dice(1, 20, 0))
    ensures ParseDice("0d6") == Some(Dice(0, 6, 0))
    ensures ParseDice("2d0") == Some(Dice(2, 0, 0))
    ensures ParseDice("2D6-1") == Some(Dice(2, 6, -1))
  {
    ParseD20();
    Parse0d6();
    Parse2d0();
    Parse2D6Minus1();
  }

  lemma Parse1d20() ensures ParseDice("1d20") == Some(Dice(1, 20, 0)) {
    assert "1d20"[2..] == "20";
    ParsesAt("1d20", 1, 4, Dice(1, 20, 0));
  }

  lemma Parse2d6() ensures ParseDice("2d6") == Some(Dice(2, 6, 0)) {
    ParsesAt("2d6", 1, 3, Dice(2, 6, 0));
  }

  lemma Parse3d8Plus5() ensures ParseDice("3d8+5") == Some(Dice(3, 8, 5)) {
    ParsesAt("3d8+5", 1, 3, Dice(3, 8, 5));
  }

  lemma Parse4d6() ensures ParseDice("4d6") == Some(Dice(4, 6, 0)) {
    ParsesAt("4d6", 1, 3, Dice(4, 6, 0));
  }

  lemma Parse1d100() ensures ParseDice("1d100") == Some(Dice(1, 100, 0)) {
    assert "1d100"[2..5] == "100" && "100"[..2] == "10" && "10"[..1] == "1";
    ParsesAt("1d100", 1, 5, Dice(1, 100, 0));
  }

  lemma Parse2d12() ensures ParseDice("2d12") == Some(Dice(2, 12, 0)) {
    ParsesAt("2d12", 1, 4, Dice(2, 12, 0));
  }

  lemma ParseD20() ensures ParseDice("d20") == Some(Dice(1, 20, 0)) {
    assert "d20"[..0] == "" && "d20"[1..3] == "20" && "20"[..1] == "2";
    assert Plain("d20");
    assert ShapeAt("d20", 0, 3);
    assert CountOf("") == 1;
    assert DecimalValue("20") == 20;
    ParsesAt("d20", 0, 3, Dice(1, 20, 0));
  }

  lemma Parse0d6() ensures ParseDice("0d6") == Some(Dice(0, 6, 0)) {
    ParsesAt("0d6", 1, 3, Dice(0, 6, 0));
  }

  lemma Parse2d0() ensures ParseDice("2d0") == Some(Dice(2, 0, 0)) {
    ParsesAt("2d0", 1, 3, Dice(2, 0, 0));
  }

  lemma Parse2D6Minus1() ensures ParseDice("2D6-1") == Some(Dice(2, 6, -1)) {
    ParsesAt("2D6-1", 1, 3, Dice(2, 6, -1));
  }

  /** Surrounding whitespace does not change the parse. */
  lemma ParseIgnoresSurroundingSpace(notation: string)
    ensures ParseDice(Trim(notation)) == ParseDice(notation)
  {
    TrimIdempotent(notation);
  }

  /** Text outside the shape is rejected: no die letter, no sides digits, a bare sign, a stray character. */
  lemma NonNotationRejected()
    ensures ParseDice("not-dice") == None
    ensures ParseDice("2d") == None
    ensures ParseDice("2d6+") == None
    ensures ParseDice("2d6x") == None
  {
    RejectNoLetter();
    RejectNoSides();
    RejectBareSign();
    RejectStray();
  }

  lemma RejectNoLetter() ensures ParseDice("not-dice") == None {
    NoWhitespaceMatch("not-dice");
    DigitRunAt("not-dice", 0, 0);
  }

  lemma RejectNoSides() ensures ParseDice("2d") == None {
    NoWhitespaceMatch("2d");
    DigitRunAt("2d", 0, 1);
    DigitRunAt("2d", 2, 2);
  }

  lemma RejectBareSign() ensures ParseDice("2d6+") == None {
    NoWhitespaceMatch("2d6+");
    DigitRunAt("2d6+", 0, 1);
    DigitRunAt("2d6+", 2, 3);
    DigitRunAt("2d6+", 4, 4);
  }

  lemma RejectStray() ensures ParseDice("2d6x") == None {
    NoWhitespaceMatch("2d6x");
    DigitRunAt("2d6x", 0, 1);
    DigitRunAt("2d6x", 2, 3);
  }

  /** Text with no whitespace is its own trimmed text. */
  lemma NoWhitespaceMatch(s: string)
    requires !HasWhitespace(s)
    ensures ParseDice(s) == Match(s)
  {
  }
}
