/**
 * The input formatter's masks: extract the ASCII digits of the raw text, keep a
 * prefix of them and insert separators. Currency (Intl.NumberFormat) and the
 * custom regular-expression mask are not part of this model.
 */
module InputFormatter {
  import opened Wrappers
  import opened JsText

  /** `s.slice(0, n)`. */
  function Take(s: string, n: nat): (r: string)
    ensures |r| == if |s| < n then |s| else n
    ensures r == s[..|r|]
  {
    if |s| <= n then s else s[..n]
  }

  /** `s.slice(a, b)` for non-negative a and b: both ends clamp to the length. */
  function Slice(s: string, a: nat, b: nat): (r: string)
    ensures a >= |s| || b <= a ==> r == []
    ensures |r| <= |s|
  {
    var lo := if a < |s| then a else |s|;
    var hi := if b < |s| then b else |s|;
    if lo <= hi then s[lo..hi] else []
  }

  predicate NoDigits(s: string) {
    forall k :: 0 <= k < |s| ==> !IsDigit(s[k])
  }

  /** Separators contribute no digits. */
  lemma DigitsOfJoin(a: string, u: string, b: string)
    requires NoDigits(u)
    ensures DigitsOf(a + u + b) == DigitsOf(a) + DigitsOf(b)
  {
    DigitsOfAppend(a, u);
    DigitsOfNoDigits(u);
    assert DigitsOf(a + u) == DigitsOf(a);
    DigitsOfAppend(a + u, b);
  }

  // ---------------------------------------------------------------------------
  // Phone

  /** The digits a phone mask keeps: 10 for "+1", 11 for "+44", all of them otherwise. */
  function PhoneKept(raw: string, countryCode: string): string {
    if countryCode == "+1" then Take(DigitsOf(raw), 10)
    else if countryCode == "+44" then Take(DigitsOf(raw), 11)
    else DigitsOf(raw)
  }

  /** `formatPhone`. */
  function FormatPhone(raw: string, countryCode: string): string {
    var digits := DigitsOf(raw);
    if countryCode == "+1" then
      var d := Take(digits, 10);
      if |d| <= 3 then d
      else if |d| <= 6 then "(" + d[..3] + ") " + d[3..]
      else "(" + d[..3] + ") " + d[3..6] + "-" + d[6..]
    else if countryCode == "+44" then
      var d := Take(digits, 11);
      if |d| <= 4 then d
      else if |d| <= 7 then d[..4] + " " + d[4..]
      else d[..4] + " " + d[4..7] + " " + d[7..]
    else digits
  }

  lemma DigitsOfPiece(pre: string, chunk: string, rest: string)
    requires NoDigits(pre) && AllDigits(chunk)
    ensures DigitsOf(pre + chunk + rest) == chunk + DigitsOf(rest)
  {
    var dp, dc, dr := DigitsOf(pre), DigitsOf(chunk), DigitsOf(rest);
    DigitsOfAppend(pre + chunk, rest);
    DigitsOfAppend(pre, chunk);
    DigitsOfNoDigits(pre);
    DigitsOfDigits(chunk);
    assert dp == [] && dc == chunk;
    assert dp + dc == chunk;
  }

  lemma SliceDigits(s: string, a: nat, b: nat)
    requires AllDigits(s)
    ensures AllDigits(Slice(s, a, b))
  {
  }

  /** Digits cut at `i` with separators before and at the cut read back as the digits. */
  lemma Split2(d: string, i: nat, pre: string, mid: string)
    requires AllDigits(d) && i <= |d| && NoDigits(pre) && NoDigits(mid)
    ensures DigitsOf(pre + d[..i] + mid + d[i..]) == d
  {
    var a, b := d[..i], d[i..];
    CutTwo(d, i);
    Split2Parts(pre, a, mid, b);
  }

  /** Cutting digits at `i` gives two digit groups that run together to the whole. */
  lemma CutTwo(d: string, i: nat)
    requires AllDigits(d) && i <= |d|
    ensures AllDigits(d[..i]) && AllDigits(d[i..])
    ensures d[..i] + d[i..] == d
  {
  }

  /** Two digit groups behind separators read back as the groups run together. */
  lemma Split2Parts(pre: string, a: string, mid: string, b: string)
    requires NoDigits(pre) && NoDigits(mid) && AllDigits(a) && AllDigits(b)
    ensures DigitsOf(pre + a + mid + b) == a + b
  {
    var s1 := pre + a;
    var s2 := s1 + mid;
    assert DigitsOf(s1) == a by {
      DigitsOfAppend(pre, a);
      DigitsOfNoDigits(pre);
      DigitsOfDigits(a);
      assert [] + a == a;
    }
    assert DigitsOf(s2) == a by {
      DigitsOfAppend(s1, mid);
      DigitsOfNoDigits(mid);
      assert a + [] == a;
    }
    DigitsOfAppend(s2, b);
    DigitsOfDigits(b);
  }

  lemma EmptyConcat(s: string)
    ensures "" + s == s
  {
  }

  /** Digits cut at `i` and `j`, with separators, read back as the digits. */
  lemma Split3(d: string, i: nat, j: nat, pre: string, m1: string, m2: string)
    requires AllDigits(d) && i <= j <= |d| && NoDigits(pre) && NoDigits(m1) && NoDigits(m2)
    ensures DigitsOf(pre + d[..i] + m1 + d[i..j] + m2 + d[j..]) == d
  {
    var a, b, c := d[..i], d[i..j], d[j..];
    CutThree(d, i, j);
    Split3Parts(pre, a, m1, b, m2, c);
  }

  /** Cutting digits at `i` and `j` gives three digit groups that run together to the whole. */
  lemma CutThree(d: string, i: nat, j: nat)
    requires AllDigits(d) && i <= j <= |d|
    ensures AllDigits(d[..i]) && AllDigits(d[i..j]) && AllDigits(d[j..])
    ensures d[..i] + d[i..j] + d[j..] == d
  {
    assert d[..i] + d[i..j] == d[..j];
  }

  /** Three digit groups behind separators read back as the groups run together. */
  lemma Split3Parts(pre: string, a: string, m1: string, b: string, m2: string, c: string)
    requires NoDigits(pre) && NoDigits(m1) && NoDigits(m2) && AllDigits(a) && AllDigits(b) && AllDigits(c)
    ensures DigitsOf(pre + a + m1 + b + m2 + c) == a + b + c
  {
    var s1 := pre + a;
    var s2 := s1 + m1;
    var s3 := s2 + b;
    var s4 := s3 + m2;
    assert DigitsOf(s1) == a by {
      DigitsOfAppend(pre, a);
      DigitsOfNoDigits(pre);
      DigitsOfDigits(a);
      assert [] + a == a;
    }
    assert DigitsOf(s2) == a by {
      DigitsOfAppend(s1, m1);
      DigitsOfNoDigits(m1);
      assert a + [] == a;
    }
    assert DigitsOf(s3) == a + b by {
      DigitsOfAppend(s2, b);
      DigitsOfDigits(b);
    }
    assert DigitsOf(s4) == a + b by {
      DigitsOfAppend(s3, m2);
      DigitsOfNoDigits(m2);
      assert (a + b) + [] == a + b;
    }
    DigitsOfAppend(s4, c);
    DigitsOfDigits(c);
  }

  lemma PhoneDigitsUs(d: string)
    requires AllDigits(d)
    ensures DigitsOf(if |d| <= 3 then d
      else if |d| <= 6 then "(" + d[..3] + ") " + d[3..]
      else "(" + d[..3] + ") " + d[3..6] + "-" + d[6..]) == d
  {
    if |d| <= 3 {
      DigitsOfDigits(d);
    } else if |d| <= 6 {
      Split2(d, 3, "(", ") ");
    } else {
      Split3(d, 3, 6, "(", ") ", "-");
    }
  }

  lemma PhoneDigitsUk(d: string)
    requires AllDigits(d)
    ensures DigitsOf(if |d| <= 4 then d
      else if |d| <= 7 then d[..4] + " " + d[4..]
      else d[..4] + " " + d[4..7] + " " + d[7..]) == d
  {
    if |d| <= 4 {
      DigitsOfDigits(d);
    } else if |d| <= 7 {
      Split2(d, 4, "", " ");
      EmptyConcat(d[..4]);
    } else {
      Split3(d, 4, 7, "", " ", " ");
      EmptyConcat(d[..4]);
    }
  }

  /** The digits of the formatted number are exactly the kept digits of the input, in order. */
  lemma PhoneDigits(raw: string, countryCode: string)
    ensures DigitsOf(FormatPhone(raw, countryCode)) == PhoneKept(raw, countryCode)
  {
    var d := PhoneKept(raw, countryCode);
    DigitsOfAllDigits(raw);
    if countryCode == "+1" {
      PhoneDigitsUs(d);
    } else if countryCode == "+44" {
      PhoneDigitsUk(d);
    } else {
      DigitsOfDigits(d);
    }
  }

  /** Formatting a formatted number changes nothing. */
  lemma PhoneIdempotent(raw: string, countryCode: string)
    ensures FormatPhone(FormatPhone(raw, countryCode), countryCode) == FormatPhone(raw, countryCode)
  {
    PhoneDigits(raw, countryCode);
  }

  /** The characters of `r` that are not digits stand exactly at the positions `seps`. */
  predicate SeparatorsAt(r: string, seps: set<int>) {
    forall k :: 0 <= k < |r| ==> (IsDigit(r[k]) <==> k !in seps)
  }

  /**
   * The "+1" mask over any input: up to three digits print bare; four to six
   * print as "(AAA) B..", with "(" at 0, ")" at 4 and a space at 5; seven to
   * ten add "-" at 9; every other character is a kept digit.
   */
  lemma PhoneLayoutUs(raw: string)
    ensures var d, r := PhoneKept(raw, "+1"), FormatPhone(raw, "+1");
      && (|d| <= 3 ==> r == d)
      && |r| == |d| + (if |d| > 6 then 4 else if |d| > 3 then 3 else 0)
      && SeparatorsAt(r, if |d| > 6 then {0, 4, 5, 9} else if |d| > 3 then {0, 4, 5} else {})
      && (|d| > 3 ==> r[0] == '(' && r[4] == ')' && r[5] == ' ')
      && (|d| > 6 ==> r[9] == '-')
  {
    var d, r := PhoneKept(raw, "+1"), FormatPhone(raw, "+1");
    DigitsOfAllDigits(raw);
    assert AllDigits(d);
    if |d| > 6 {
      assert r == "(" + d[..3] + ") " + d[3..6] + "-" + d[6..];
      forall k | 0 <= k < |r| ensures IsDigit(r[k]) <==> k !in {0, 4, 5, 9} {
        if 0 < k < 4 {
          assert r[k] == d[k - 1];
        } else if 5 < k < 9 {
          assert r[k] == d[k - 3];
        } else if k > 9 {
          assert r[k] == d[k - 4];
        }
      }
    } else if |d| > 3 {
      assert r == "(" + d[..3] + ") " + d[3..];
      forall k | 0 <= k < |r| ensures IsDigit(r[k]) <==> k !in {0, 4, 5} {
        if 0 < k < 4 {
          assert r[k] == d[k - 1];
        } else if k > 5 {
          assert r[k] == d[k - 3];
        }
      }
    }
  }

  /**
   * The "+44" mask over any input: up to four digits print bare; five to
   * seven print as "AAAA B..", with a space at 4; eight to eleven add a space
   * at 8; every other character is a kept digit.
   */
  lemma PhoneLayoutUk(raw: string)
    ensures var d, r := PhoneKept(raw, "+44"), FormatPhone(raw, "+44");
      && (|d| <= 4 ==> r == d)
      && |r| == |d| + (if |d| > 7 then 2 else if |d| > 4 then 1 else 0)
      && SeparatorsAt(r, if |d| > 7 then {4, 8} else if |d| > 4 then {4} else {})
      && (|d| > 4 ==> r[4] == ' ')
      && (|d| > 7 ==> r[8] == ' ')
  {
    var d, r := PhoneKept(raw, "+44"), FormatPhone(raw, "+44");
    DigitsOfAllDigits(raw);
    assert AllDigits(d);
    if |d| > 7 {
      assert r == d[..4] + " " + d[4..7] + " " + d[7..];
      forall k | 0 <= k < |r| ensures IsDigit(r[k]) <==> k !in {4, 8} {
        if k < 4 {
          assert r[k] == d[k];
        } else if 4 < k < 8 {
          assert r[k] == d[k - 1];
        } else if k > 8 {
          assert r[k] == d[k - 2];
        }
      }
    } else if |d| > 4 {
      assert r == d[..4] + " " + d[4..];
      forall k | 0 <= k < |r| ensures IsDigit(r[k]) <==> k !in {4} {
        if k < 4 {
          assert r[k] == d[k];
        } else if k > 4 {
          assert r[k] == d[k - 1];
        }
      }
    }
  }

  // ---------------------------------------------------------------------------
  // Credit card

  /**
   * `s.replace(/(\d{4})(?=\d)/g, '$1 ')` from position p: where four digits
   * followed by a fifth start at p, emit them and a space and go on after the
   * four; otherwise copy one character and try the next position.
   */
  function GroupFours(s: string, p: nat): string
    requires p <= |s|
    decreases |s| - p
  {
    if p + 5 <= |s| && AllDigits(s[p..p + 5]) then s[p..p + 4] + " " + GroupFours(s, p + 4)
    else if p < |s| then [s[p]] + GroupFours(s, p + 1)
    else []
  }

  /** `formatCreditCard`. */
  function FormatCreditCard(raw: string): string {
    GroupFours(Take(DigitsOf(raw), 16), 0)
  }

  lemma {:induction false} GroupFoursTail(s: string, p: nat)
    requires p <= |s| && |s| - p < 5
    ensures GroupFours(s, p) == s[p..]
    decreases |s| - p
  {
    if p < |s| {
      GroupFoursTail(s, p + 1);
      assert s[p..] == [s[p]] + s[p + 1..];
    }
  }

  /** Spaces stand at every fifth position and nowhere else. */
  predicate GroupedByFour(r: string) {
    forall k :: 0 <= k < |r| ==> (r[k] == ' ' <==> k % 5 == 4)
  }

  /** On a run of digits the replacement writes a space at every fifth position and nowhere else. */
  lemma {:induction false} GroupFoursSpaces(s: string, p: nat)
    requires p <= |s| && AllDigits(s)
    ensures GroupedByFour(GroupFours(s, p))
    decreases |s| - p
  {
    if |s| - p < 5 {
      GroupFoursTail(s, p);
    } else {
      assert AllDigits(s[p..p + 5]);
      GroupFoursSpaces(s, p + 4);
      var rest := GroupFours(s, p + 4);
      var r := s[p..p + 4] + " " + rest;
      assert GroupFours(s, p) == r;
      assert GroupedByFour(rest);
      forall k | 0 <= k < |r| ensures r[k] == ' ' <==> k % 5 == 4 {
        if k < 4 {
          assert r[k] == s[p + k] && IsDigit(s[p + k]);
        } else if k >= 5 {
          assert r[k] == rest[k - 5];
          assert (k - 5) % 5 == 4 <==> k % 5 == 4;
        }
      }
    }
  }

  /** The replacement keeps the digits, in order, and never ends with a space. */
  lemma {:induction false} GroupFoursDigits(s: string, p: nat)
    requires p <= |s| && AllDigits(s)
    ensures DigitsOf(GroupFours(s, p)) == s[p..]
    ensures GroupFours(s, p) == [] || GroupFours(s, p)[|GroupFours(s, p)| - 1] != ' '
    decreases |s| - p
  {
    if |s| - p < 5 {
      GroupFoursTail(s, p);
      DigitsOfDigits(s[p..]);
    } else {
      assert AllDigits(s[p..p + 5]);
      GroupFoursDigits(s, p + 4);
      var rest := GroupFours(s, p + 4);
      assert GroupFours(s, p) == s[p..p + 4] + " " + rest;
      DigitsOfDigits(s[p..p + 4]);
      DigitsOfJoin(s[p..p + 4], " ", rest);
      assert s[p..p + 4] + s[p + 4..] == s[p..];
    }
  }

  /** The card mask keeps the first 16 digits, groups them by four and is idempotent. */
  lemma CardShape(raw: string)
    ensures var r := FormatCreditCard(raw);
      && DigitsOf(r) == Take(DigitsOf(raw), 16)
      && GroupedByFour(r)
      && (r == [] || r[|r| - 1] != ' ')
      && FormatCreditCard(r) == r
  {
    var d := Take(DigitsOf(raw), 16);
    DigitsOfAllDigits(raw);
    GroupFoursSpaces(d, 0);
    GroupFoursDigits(d, 0);
  }

  // ---------------------------------------------------------------------------
  // SSN

  /** `formatSsn`. */
  function FormatSsn(raw: string): string {
    var digits := Take(DigitsOf(raw), 9);
    if |digits| <= 3 then digits
    else if |digits| <= 5 then digits[..3] + "-" + digits[3..]
    else digits[..3] + "-" + digits[3..5] + "-" + digits[5..]
  }

  /** The SSN mask keeps the first nine digits, hyphenated 3-2-4, and is idempotent. */
  lemma SsnDigits(raw: string)
    ensures DigitsOf(FormatSsn(raw)) == Take(DigitsOf(raw), 9)
    ensures FormatSsn(FormatSsn(raw)) == FormatSsn(raw)
  {
    var d := Take(DigitsOf(raw), 9);
    DigitsOfAllDigits(raw);
    if |d| <= 3 {
      DigitsOfDigits(d);
    } else if |d| <= 5 {
      Split2(d, 3, "", "-");
      EmptyConcat(d[..3]);
    } else {
      Split3(d, 3, 5, "", "-", "-");
      EmptyConcat(d[..3]);
    }
  }

  /**
   * The SSN mask over any input: up to three digits print bare; a hyphen
   * stands at 3 exactly when there are more than three digits and at 6
   * exactly when there are more than five; every other character is a kept
   * digit, so the digits fall into groups of 3, 2 and up to 4.
   */
  lemma SsnLayout(raw: string)
    ensures var d, r := Take(DigitsOf(raw), 9), FormatSsn(raw);
      && (|d| <= 3 ==> r == d)
      && |r| == |d| + (if |d| > 5 then 2 else if |d| > 3 then 1 else 0)
      && SeparatorsAt(r, if |d| > 5 then {3, 6} else if |d| > 3 then {3} else {})
      && (|d| > 3 ==> r[3] == '-')
      && (|d| > 5 ==> r[6] == '-')
  {
    var d, r := Take(DigitsOf(raw), 9), FormatSsn(raw);
    DigitsOfAllDigits(raw);
    assert AllDigits(d);
    if |d| > 5 {
      assert r == d[..3] + "-" + d[3..5] + "-" + d[5..];
      forall k | 0 <= k < |r| ensures IsDigit(r[k]) <==> k !in {3, 6} {
        if k < 3 {
          assert r[k] == d[k];
        } else if 3 < k < 6 {
          assert r[k] == d[k - 1];
        } else if k > 6 {
          assert r[k] == d[k - 2];
        }
      }
    } else if |d| > 3 {
      assert r == d[..3] + "-" + d[3..];
      forall k | 0 <= k < |r| ensures IsDigit(r[k]) <==> k !in {3} {
        if k < 3 {
          assert r[k] == d[k];
        } else if k > 3 {
          assert r[k] == d[k - 1];
        }
      }
    }
  }

  // ---------------------------------------------------------------------------
  // Date

  predicate IsDateSeparator(c: char) {
    c == '/' || c == '-' || c == '.'
  }

  /** `pattern.includes('/') ? '/' : pattern.includes('-') ? '-' : '.'`. */
  function Separator(pattern: string): (sep: char)
    ensures IsDateSeparator(sep)
  {
    if '/' in pattern then '/' else if '-' in pattern then '-' else '.'
  }

  /** `pattern.split(/[/\-.]/)`: the pieces between separators, empty ones included. */
  function SplitParts(pattern: string): (parts: seq<string>)
    ensures |parts| >= 1
    ensures forall k :: 0 <= k < |parts| ==> forall c :: c in parts[k] ==> c in pattern && !IsDateSeparator(c)
  {
    if pattern == [] then [[]]
    else
      var rest := SplitParts(pattern[1..]);
      if IsDateSeparator(pattern[0]) then [[]] + rest
      else [[pattern[0]] + rest[0]] + rest[1..]
  }

  /** What goes before part `i`'s chunk: nothing for the first part, the separator after it. */
  function Lead(i: nat, sep: char): (r: string)
    ensures !IsDigit(sep) ==> DigitsOf(r) == []
  {
    if i > 0 then [sep] else []
  }

  /**
   * The chunks the date loop writes from part `i` and digit position `di` on:
   * each part takes the next `|part|` digits, the first part without and the
   * others with the separator in front, until a chunk comes out empty.
   */
  function Chunks(digits: string, parts: seq<string>, i: nat, di: nat, sep: char): string
    decreases |parts| - i
  {
    if i >= |parts| then []
    else
      var chunk := Slice(digits, di, di + |parts[i]|);
      if chunk == [] then []
      else Lead(i, sep) + chunk + Chunks(digits, parts, i + 1, di + |parts[i]|, sep)
  }

  /** The digit position where the chunks stop. */
  function ChunksEnd(digits: string, parts: seq<string>, i: nat, di: nat): (e: nat)
    ensures e >= di
    decreases |parts| - i
  {
    if i >= |parts| || Slice(digits, di, di + |parts[i]|) == [] then di
    else ChunksEnd(digits, parts, i + 1, di + |parts[i]|)
  }

  /** One part's chunk, when it is not empty, followed by the rest. */
  lemma ChunksCons(digits: string, parts: seq<string>, i: nat, di: nat, sep: char)
    requires i < |parts| && Slice(digits, di, di + |parts[i]|) != []
    ensures Chunks(digits, parts, i, di, sep)
      == Lead(i, sep) + Slice(digits, di, di + |parts[i]|) + Chunks(digits, parts, i + 1, di + |parts[i]|, sep)
  {
  }

  /** Moving one part's chunk from the chunks still to come onto the text written so far. */
  lemma ChunksAppend(done: string, piece: string, written: string, next: nat, target: string,
                     digits: string, parts: seq<string>, i: nat, di: nat, sep: char)
    requires i < |parts| && Slice(digits, di, di + |parts[i]|) != []
    requires piece == Lead(i, sep) + Slice(digits, di, di + |parts[i]|)
    requires done + Chunks(digits, parts, i, di, sep) == target
    requires written == done + piece && next == di + |parts[i]|
    ensures written + Chunks(digits, parts, i + 1, next, sep) == target
  {
    ChunksCons(digits, parts, i, di, sep);
    ConcatAssoc(done, piece, Chunks(digits, parts, i + 1, next, sep));
  }

  lemma ConcatAssoc(a: string, b: string, c: string)
    ensures a + (b + c) == (a + b) + c
  {
  }

  /** A part whose chunk comes out empty ends the chunks: nothing more is written. */
  lemma ChunksStop(done: string, target: string, digits: string, parts: seq<string>, i: nat, di: nat, sep: char)
    requires i < |parts| && Slice(digits, di, di + |parts[i]|) == []
    requires done + Chunks(digits, parts, i, di, sep) == target
    ensures done == target
  {
    assert done + [] == done;
  }

  /** The date `formatDate` writes: the raw digits cut into the pattern's parts. */
  function DateOf(raw: string, pattern: string): string {
    Chunks(DigitsOf(raw), SplitParts(pattern), 0, 0, Separator(pattern))
  }

  /** `formatDate`: digits, separator and parts of the pattern, then the chunk loop. */
  method FormatDate(raw: string, pattern: string) returns (result: string)
    ensures result == DateOf(raw, pattern)
  {
    var digits := DigitsOf(raw);
    var sep := Separator(pattern);
    var parts := SplitParts(pattern);
    result := JoinChunks(digits, parts, sep);
  }

  /**
   * One turn of the `formatDate` loop: the next `|parts[i]|` digits from `di`,
   * with the separator in front after the first part, or nothing when no
   * digits are left.
   */
  method NextChunk(digits: string, parts: seq<string>, i: nat, di: nat, sep: char) returns (piece: string, len: nat)
    requires i < |parts|
    ensures len == |parts[i]|
    ensures piece == [] <==> Slice(digits, di, di + len) == []
    ensures piece != [] ==> piece == Lead(i, sep) + Slice(digits, di, di + len)
  {
    len := |parts[i]|;
    var chunk := Slice(digits, di, di + len);
    if chunk == [] {
      return [], len;
    }
    piece := Lead(i, sep) + chunk;
  }

  /** The loop of `formatDate`: append each part's chunk, separated, until one comes out empty. */
  method JoinChunks(digits: string, parts: seq<string>, sep: char) returns (result: string)
    ensures result == Chunks(digits, parts, 0, 0, sep)
  {
    ghost var target := Chunks(digits, parts, 0, 0, sep);
    result := "";
    var di: nat := 0;
    var i := 0;
    assert result + Chunks(digits, parts, i, di, sep) == target;
    while i < |parts|
      invariant 0 <= i <= |parts|
      invariant result + Chunks(digits, parts, i, di, sep) == target
    {
      var stop, written, next := WriteChunk(digits, parts, i, di, sep, result, target);
      if stop {
        return;
      }
      result, di, i := written, next, i + 1;
    }
    ChunksDone(result, target, digits, parts, i, di, sep);
  }

  /** One pass of the date loop: stop on an empty chunk, else append the separated chunk and move past the part. */
  method WriteChunk(digits: string, parts: seq<string>, i: nat, di: nat, sep: char, result: string, ghost target: string)
    returns (stop: bool, written: string, next: nat)
    requires i < |parts| && result + Chunks(digits, parts, i, di, sep) == target
    ensures stop ==> result == target
    ensures !stop ==> written + Chunks(digits, parts, i + 1, next, sep) == target
  {
    var piece, len := NextChunk(digits, parts, i, di, sep);
    if piece == [] {
      ChunksStop(result, target, digits, parts, i, di, sep);
      return true, result, di;
    }
    stop, written, next := false, result + piece, di + len;
    ChunksAppend(result, piece, written, next, target, digits, parts, i, di, sep);
  }

  /** Past the last part there is nothing more to write. */
  lemma ChunksDone(done: string, target: string, digits: string, parts: seq<string>, i: nat, di: nat, sep: char)
    requires i >= |parts|
    requires done + Chunks(digits, parts, i, di, sep) == target
    ensures done == target
  {
    assert done + [] == done;
  }

  lemma SliceJoin(s: string, a: nat, b: nat, c: nat)
    requires a <= b <= c
    ensures Slice(s, a, b) + Slice(s, b, c) == Slice(s, a, c)
  {
    var la := if a < |s| then a else |s|;
    var lb := if b < |s| then b else |s|;
    var lc := if c < |s| then c else |s|;
    assert s[la..lb] + s[lb..lc] == s[la..lc];
  }

  /** The digits of a separated chunk followed by more text. */
  lemma DigitsOfSeparated(whole: string, i: nat, sep: char, chunk: string, rest: string, tail: string)
    requires !IsDigit(sep) && whole == Lead(i, sep) + chunk + rest && DigitsOf(rest) == DigitsOf(tail)
    ensures DigitsOf(whole) == DigitsOf(chunk + tail)
  {
    var pre := Lead(i, sep);
    var dp := DigitsOf(pre);
    DigitsOfAppend(pre + chunk, rest);
    DigitsOfAppend(pre, chunk);
    DigitsOfAppend(chunk, tail);
    assert dp + DigitsOf(chunk) == DigitsOf(chunk);
  }

  /** Where one part's chunk is not empty, the chunks stop where the later parts' chunks stop. */
  lemma ChunksEndCons(digits: string, parts: seq<string>, i: nat, di: nat)
    requires i < |parts| && Slice(digits, di, di + |parts[i]|) != []
    ensures ChunksEnd(digits, parts, i, di) == ChunksEnd(digits, parts, i + 1, di + |parts[i]|)
  {
  }

  /** A part whose chunk is not empty: its separated chunk, then the later chunks. */
  lemma ChunksDigitsHead(digits: string, parts: seq<string>, i: nat, di: nat, sep: char)
    requires !IsDigit(sep) && i < |parts| && Slice(digits, di, di + |parts[i]|) != []
    requires DigitsOf(Chunks(digits, parts, i + 1, di + |parts[i]|, sep))
      == DigitsOf(Slice(digits, di + |parts[i]|, ChunksEnd(digits, parts, i + 1, di + |parts[i]|)))
    ensures DigitsOf(Chunks(digits, parts, i, di, sep))
      == DigitsOf(Slice(digits, di, di + |parts[i]|) + Slice(digits, di + |parts[i]|, ChunksEnd(digits, parts, i + 1, di + |parts[i]|)))
  {
    var len := |parts[i]|;
    ChunksCons(digits, parts, i, di, sep);
    DigitsOfSeparated(Chunks(digits, parts, i, di, sep), i, sep, Slice(digits, di, di + len), Chunks(digits, parts, i + 1, di + len, sep),
                      Slice(digits, di + len, ChunksEnd(digits, parts, i + 1, di + len)));
  }

  /** A part whose chunk is not empty: its chunk and the later digits make up the digits up to the end. */
  lemma ChunksSliceHead(digits: string, parts: seq<string>, i: nat, di: nat)
    requires i < |parts| && Slice(digits, di, di + |parts[i]|) != []
    ensures Slice(digits, di, di + |parts[i]|) + Slice(digits, di + |parts[i]|, ChunksEnd(digits, parts, i + 1, di + |parts[i]|))
      == Slice(digits, di, ChunksEnd(digits, parts, i, di))
  {
    ChunksEndCons(digits, parts, i, di);
    SliceJoin(digits, di, di + |parts[i]|, ChunksEnd(digits, parts, i + 1, di + |parts[i]|));
  }

  /** The date's digits are the input's digits up to where the chunks stop. */
  lemma {:induction false} ChunksDigits(digits: string, parts: seq<string>, i: nat, di: nat, sep: char)
    requires !IsDigit(sep)
    ensures DigitsOf(Chunks(digits, parts, i, di, sep)) == DigitsOf(Slice(digits, di, ChunksEnd(digits, parts, i, di)))
    decreases |parts| - i
  {
    if i < |parts| && Slice(digits, di, di + |parts[i]|) != [] {
      ChunksDigits(digits, parts, i + 1, di + |parts[i]|, sep);
      ChunksDigitsStep(digits, parts, i, di, sep);
    } else {
      ChunksDigitsStop(digits, parts, i, di, sep);
    }
  }

  /** A part whose chunk is not empty: the claim for the later parts gives it for this one. */
  lemma ChunksDigitsStep(digits: string, parts: seq<string>, i: nat, di: nat, sep: char)
    requires !IsDigit(sep) && i < |parts| && Slice(digits, di, di + |parts[i]|) != []
    requires DigitsOf(Chunks(digits, parts, i + 1, di + |parts[i]|, sep))
      == DigitsOf(Slice(digits, di + |parts[i]|, ChunksEnd(digits, parts, i + 1, di + |parts[i]|)))
    ensures DigitsOf(Chunks(digits, parts, i, di, sep)) == DigitsOf(Slice(digits, di, ChunksEnd(digits, parts, i, di)))
  {
    ChunksDigitsHead(digits, parts, i, di, sep);
    ChunksSliceHead(digits, parts, i, di);
  }

  /** Past the last part, or at an empty chunk, nothing is written and no digit is used. */
  lemma ChunksDigitsStop(digits: string, parts: seq<string>, i: nat, di: nat, sep: char)
    requires !(i < |parts| && Slice(digits, di, di + |parts[i]|) != [])
    ensures DigitsOf(Chunks(digits, parts, i, di, sep)) == DigitsOf(Slice(digits, di, ChunksEnd(digits, parts, i, di)))
  {
    assert Slice(digits, di, di) == [];
  }

  /** A prefix that reaches `b`, or is the whole text, slices like the whole text. */
  lemma SlicePrefix(digits: string, p: string, n: nat, a: nat, b: nat)
    requires n <= |digits| && p == digits[..n]
    requires b <= n || n == |digits|
    ensures Slice(p, a, b) == Slice(digits, a, b)
  {
  }

  /** Where the whole text slices to nothing, so does a prefix. */
  lemma SliceEmptyPrefix(digits: string, p: string, a: nat, b: nat)
    requires |p| <= |digits| && Slice(digits, a, b) == []
    ensures Slice(p, a, b) == []
  {
  }

  /** A part whose chunk is not empty reads the same chunk from the prefix, and the later chunks agree. */
  lemma ChunksPrefixHead(digits: string, p: string, parts: seq<string>, i: nat, di: nat, sep: char)
    requires i < |parts| && Slice(digits, di, di + |parts[i]|) != []
    requires Slice(p, di, di + |parts[i]|) == Slice(digits, di, di + |parts[i]|)
    requires Chunks(p, parts, i + 1, di + |parts[i]|, sep) == Chunks(digits, parts, i + 1, di + |parts[i]|, sep)
    ensures Chunks(p, parts, i, di, sep) == Chunks(digits, parts, i, di, sep)
  {
    ChunksCons(digits, parts, i, di, sep);
    ChunksCons(p, parts, i, di, sep);
  }

  /** Where `digits` yields no more chunks, neither does a shorter text. */
  lemma ChunksPrefixStop(digits: string, p: string, parts: seq<string>, i: nat, di: nat, sep: char)
    requires |p| <= |digits|
    requires i >= |parts| || Slice(digits, di, di + |parts[i]|) == []
    ensures Chunks(p, parts, i, di, sep) == [] == Chunks(digits, parts, i, di, sep)
  {
    if i < |parts| {
      SliceEmptyPrefix(digits, p, di, di + |parts[i]|);
    }
  }

  /**
   * Chunks read only the digits up to where they stop: a text that slices like
   * `digits` up to that point gives the same chunks.
   */
  lemma {:induction false} ChunksPrefix(digits: string, p: string, n: nat, parts: seq<string>, i: nat, di: nat, sep: char)
    requires |p| <= |digits| && n >= ChunksEnd(digits, parts, i, di)
    requires forall a: nat, b: nat {:trigger Slice(p, a, b)} :: b <= n ==> Slice(p, a, b) == Slice(digits, a, b)
    ensures Chunks(p, parts, i, di, sep) == Chunks(digits, parts, i, di, sep)
    decreases |parts| - i
  {
    if i < |parts| && Slice(digits, di, di + |parts[i]|) != [] {
      ChunksEndCons(digits, parts, i, di);
      ChunksPrefix(digits, p, n, parts, i + 1, di + |parts[i]|, sep);
      ChunksPrefixHead(digits, p, parts, i, di, sep);
    } else {
      ChunksPrefixStop(digits, p, parts, i, di, sep);
    }
  }

  /** Formatting a formatted date with the same pattern changes nothing. */
  lemma DateIdempotent(raw: string, pattern: string)
    ensures DateOf(DateOf(raw, pattern), pattern) == DateOf(raw, pattern)
  {
    var digits := DigitsOf(raw);
    var parts := SplitParts(pattern);
    var sep := Separator(pattern);
    ChunksDigits(digits, parts, 0, 0, sep);
    var e := ChunksEnd(digits, parts, 0, 0);
    DigitsOfAllDigits(raw);
    SliceDigits(digits, 0, e);
    DigitsOfDigits(Slice(digits, 0, e));
    if e < |digits| {
      var p := digits[..e];
      assert Slice(digits, 0, e) == p;
      forall a: nat, b: nat | b <= e
        ensures Slice(p, a, b) == Slice(digits, a, b)
      {
        SlicePrefix(digits, p, e, a, b);
      }
      ChunksPrefix(digits, p, e, parts, 0, 0, sep);
    } else {
      assert Slice(digits, 0, e) == digits;
    }
  }

  /** No digits, no date. */
  lemma DateOfNoDigits(raw: string, pattern: string)
    requires NoDigits(raw)
    ensures DateOf(raw, pattern) == []
  {
    DigitsOfNoDigits(raw);
  }

  // ---------------------------------------------------------------------------
  // Edge tests

  datatype FormatType = Phone | CreditCard | Date | Currency | Ssn | Custom

  datatype EdgeTest = EdgeTest(title: string, input: string, expected: string)

  /** `getEdgeTests`: the fixed examples shown for each format. */
  function GetEdgeTests(format: FormatType): seq<EdgeTest> {
    match format
    case Phone => [
      EdgeTest("Full number", "2125551234", "(212) 555-1234"),
      EdgeTest("Partial", "212", "212"),
      EdgeTest("With dashes", "212-555-1234", "(212) 555-1234"),
      EdgeTest("Too long", "21255512345678", "(212) 555-1234"),
      EdgeTest("Empty", "", "")]
    case CreditCard => [
      EdgeTest("Visa", "4111111111111111", "4111 1111 1111 1111"),
      EdgeTest("Partial", "411111", "4111 11"),
      EdgeTest("With spaces", "4111 1111 1111", "4111 1111 1111"),
      EdgeTest("Empty", "", "")]
    case Date => [
      EdgeTest("Full date", "12252025", "12/25/2025"),
      EdgeTest("Partial", "1225", "12/25"),
      EdgeTest("Empty", "", "")]
    case Currency => [
      EdgeTest("Integer", "1000", "$1,000.00"),
      EdgeTest("Decimal", "49.99", "$49.99"),
      EdgeTest("Large", "1234567.89", "$1,234,567.89"),
      EdgeTest("Empty", "", "")]
    case Ssn => [
      EdgeTest("Full SSN", "123456789", "123-45-6789"),
      EdgeTest("Partial", "12345", "123-45"),
      EdgeTest("With dashes", "123-45-6789", "123-45-6789"),
      EdgeTest("Empty", "", "")]
    case Custom => [
      EdgeTest("Digits only", "abc123", "123")]
  }

  /**
   * What the selected mask makes of `input`; currency and custom masks are
   * outside the model and give None.
   */
  function Formatted(format: FormatType, input: string, countryCode: string, dateFormat: string): (r: Option<string>)
    ensures r.None? <==> format == Currency || format == Custom
  {
    match format
    case Phone => Some(FormatPhone(input, countryCode))
    case CreditCard => Some(FormatCreditCard(input))
    case Date => Some(DateOf(input, dateFormat))
    case Ssn => Some(FormatSsn(input))
    case Currency => None
    case Custom => None
  }

  datatype TestResult = TestResult(test: EdgeTest, actual: string, pass: bool)

  /** `testResults`: each edge test run through the selected mask and compared with its expectation. */
  function TestResults(format: FormatType, countryCode: string, dateFormat: string): (r: Option<seq<TestResult>>)
    ensures r.None? <==> format == Currency || format == Custom
    ensures r.Some? ==> |r.value| == |GetEdgeTests(format)|
    ensures r.Some? ==> forall k :: 0 <= k < |r.value| ==>
      && r.value[k].test == GetEdgeTests(format)[k]
      && Formatted(format, r.value[k].test.input, countryCode, dateFormat) == Some(r.value[k].actual)
      && (r.value[k].pass <==> r.value[k].actual == r.value[k].test.expected)
  {
    if format == Currency || format == Custom then None
    else
      var tests := GetEdgeTests(format);
      Some(seq(|tests|, k requires 0 <= k < |tests| =>
        var actual := Formatted(format, tests[k].input, countryCode, dateFormat).value;
        TestResult(tests[k], actual, actual == tests[k].expected)))
  }

  /** A test passes when the mask's output equals its expectation. */
  predicate Passes(format: FormatType, t: EdgeTest, countryCode: string, dateFormat: string) {
    Formatted(format, t.input, countryCode, dateFormat) == Some(t.expected)
  }

  // The expectations `getEdgeTests` lists, checked against the masks. Each
  // shape is proved once for any digits; the concrete examples then arrive as
  // parameters equal to their literals, which keeps the solver from
  // evaluating the masks character by character.

  /** Ten or more digits print as (AAA) BBB-CCCC from the first ten. */
  lemma UsDigits(d: string)
    requires AllDigits(d) && |d| >= 10
    ensures FormatPhone(d, "+1") == "(" + d[..3] + ") " + d[3..6] + "-" + d[6..10]
  {
    DigitsOfDigits(d);
  }

  /** A number typed with dashes prints like the bare digits. */
  lemma UsDashed(a: string, b: string, c: string)
    requires AllDigits(a + b + c) && |a| == 3 && |b| == 3 && |c| == 4
    ensures FormatPhone(a + "-" + b + "-" + c, "+1") == "(" + a + ") " + b + "-" + c
  {
    var d := a + b + c;
    assert d[..3] == a && d[3..6] == b && d[6..] == c;
    EmptyConcat(a);
    Split3(d, 3, 6, "", "-", "-");
    assert Take(d, 10) == d;
  }

  /** Ten digits or more print as area code, exchange and line; later digits are dropped. */
  lemma UsParts(a: string, b: string, c: string, rest: string)
    requires AllDigits(a + b + c + rest) && |a| == 3 && |b| == 3 && |c| == 4
    ensures FormatPhone(a + b + c + rest, "+1") == "(" + a + ") " + b + "-" + c
  {
    var d := a + b + c + rest;
    UsDigits(d);
    assert d[..3] == a && d[3..6] == b && d[6..10] == c;
  }

  lemma PhoneFullNumber(raw: string)
    requires raw == "2125551234"
    ensures FormatPhone(raw, "+1") == "(212) 555-1234"
  {
    var a, b, c, rest := "212", "555", "1234", "";
    assert raw == a + b + c + rest;
    assert AllDigits(raw);
    UsParts(a, b, c, rest);
  }

  lemma PhoneTooLong(raw: string)
    requires raw == "21255512345678"
    ensures FormatPhone(raw, "+1") == "(212) 555-1234"
  {
    var a, b, c, rest := "212", "555", "1234", "5678";
    assert raw == a + b + c + rest;
    assert AllDigits(raw);
    UsParts(a, b, c, rest);
  }

  lemma PhoneWithDashes(raw: string)
    requires raw == "212-555-1234"
    ensures FormatPhone(raw, "+1") == "(212) 555-1234"
  {
    var a, b, c := "212", "555", "1234";
    assert raw == a + "-" + b + "-" + c;
    assert AllDigits(a + b + c);
    UsDashed(a, b, c);
  }

  lemma PhonePartial(raw: string)
    requires raw == "212"
    ensures FormatPhone(raw, "+1") == "212"
  {
    assert AllDigits(raw);
    DigitsOfDigits(raw);
  }

  /** Every phone example of `getEdgeTests` passes with the "+1" country code. */
  lemma PhoneEdgeTests()
    ensures FormatPhone("2125551234", "+1") == "(212) 555-1234"
    ensures FormatPhone("212", "+1") == "212"
    ensures FormatPhone("212-555-1234", "+1") == "(212) 555-1234"
    ensures FormatPhone("21255512345678", "+1") == "(212) 555-1234"
    ensures FormatPhone("", "+1") == ""
  {
    PhoneFullNumber("2125551234");
    PhonePartial("212");
    PhoneWithDashes("212-555-1234");
    PhoneTooLong("21255512345678");
  }

  /** Every phone example of `getEdgeTests` passes under the "+1" mask, whatever the date pattern. */
  lemma PhoneEdgeTestsPass(dateFormat: string)
    ensures forall k :: 0 <= k < |GetEdgeTests(Phone)| ==> Passes(Phone, GetEdgeTests(Phone)[k], "+1", dateFormat)
  {
    var tests := GetEdgeTests(Phone);
    forall k | 0 <= k < |tests| ensures Passes(Phone, tests[k], "+1", dateFormat) {
      if k == 0 {
        assert tests[k] == EdgeTest("Full number", "2125551234", "(212) 555-1234");
        PhoneFullNumber(tests[k].input);
      } else if k == 1 {
        assert tests[k] == EdgeTest("Partial", "212", "212");
        PhonePartial(tests[k].input);
      } else if k == 2 {
        assert tests[k] == EdgeTest("With dashes", "212-555-1234", "(212) 555-1234");
        PhoneWithDashes(tests[k].input);
      } else if k == 3 {
        assert tests[k] == EdgeTest("Too long", "21255512345678", "(212) 555-1234");
        PhoneTooLong(tests[k].input);
      } else {
        assert tests[k] == EdgeTest("Empty", "", "");
      }
    }
  }

  /** Where five digits start at p the replacement emits four of them and a space. */
  lemma GroupFoursStep(s: string, p: nat)
    requires AllDigits(s) && p + 5 <= |s|
    ensures GroupFours(s, p) == s[p..p + 4] + " " + GroupFours(s, p + 4)
  {
    assert AllDigits(s[p..p + 5]);
  }

  /** Twelve digits group as AAAA BBBB CCCC. */
  lemma GroupTwelve(d: string)
    requires AllDigits(d) && |d| == 12
    ensures GroupFours(d, 0) == d[..4] + " " + d[4..8] + " " + d[8..]
  {
    GroupFoursStep(d, 0);
    GroupFoursStep(d, 4);
    GroupFoursTail(d, 8);
  }

  /** Sixteen digits print as four groups of four. */
  lemma CardSixteen(d: string)
    requires AllDigits(d) && |d| == 16
    ensures FormatCreditCard(d) == d[..4] + " " + d[4..8] + " " + d[8..12] + " " + d[12..]
  {
    DigitsOfDigits(d);
    GroupFoursStep(d, 0);
    GroupFoursStep(d, 4);
    GroupFoursStep(d, 8);
    GroupFoursTail(d, 12);
  }

  /** Six digits print as a group of four and the two left over. */
  lemma CardSix(d: string)
    requires AllDigits(d) && |d| == 6
    ensures FormatCreditCard(d) == d[..4] + " " + d[4..]
  {
    DigitsOfDigits(d);
    GroupFoursStep(d, 0);
    GroupFoursTail(d, 4);
  }

  /** Twelve digits typed in groups of four print unchanged. */
  lemma CardSpaced(a: string, b: string, c: string)
    requires AllDigits(a + b + c) && |a| == 4 && |b| == 4 && |c| == 4
    ensures FormatCreditCard(a + " " + b + " " + c) == a + " " + b + " " + c
  {
    var d := a + b + c;
    assert d[..4] == a && d[4..8] == b && d[8..] == c;
    EmptyConcat(a);
    Split3(d, 4, 8, "", " ", " ");
    assert Take(d, 16) == d;
    GroupTwelve(d);
  }

  lemma CardVisa(raw: string)
    requires raw == "4111111111111111"
    ensures FormatCreditCard(raw) == "4111 1111 1111 1111"
  {
    assert AllDigits(raw);
    CardSixteen(raw);
    CardVisaText(raw);
  }

  lemma CardVisaText(raw: string)
    requires raw == "4111111111111111"
    ensures raw[..4] + " " + raw[4..8] + " " + raw[8..12] + " " + raw[12..] == "4111 1111 1111 1111"
  {
    var a, b, c, d := raw[..4], raw[4..8], raw[8..12], raw[12..];
    assert a == "4111" && b == "1111" && c == "1111" && d == "1111";
  }

  lemma CardPartial(raw: string)
    requires raw == "411111"
    ensures FormatCreditCard(raw) == "4111 11"
  {
    assert AllDigits(raw);
    CardSix(raw);
    assert raw[..4] == "4111" && raw[4..] == "11";
  }

  lemma CardWithSpaces(raw: string)
    requires raw == "4111 1111 1111"
    ensures FormatCreditCard(raw) == "4111 1111 1111"
  {
    var a, b, c := "4111", "1111", "1111";
    assert raw == a + " " + b + " " + c;
    assert AllDigits(a + b + c);
    CardSpaced(a, b, c);
  }

  /** Every credit-card example of `getEdgeTests` passes. */
  lemma CardEdgeTests()
    ensures FormatCreditCard("4111111111111111") == "4111 1111 1111 1111"
    ensures FormatCreditCard("411111") == "4111 11"
    ensures FormatCreditCard("4111 1111 1111") == "4111 1111 1111"
    ensures FormatCreditCard("") == ""
  {
    CardVisa("4111111111111111");
    CardPartial("411111");
    CardWithSpaces("4111 1111 1111");
  }

  /** Every credit-card example of `getEdgeTests` passes, whatever the country code and date pattern. */
  lemma CardEdgeTestsPass(countryCode: string, dateFormat: string)
    ensures forall k :: 0 <= k < |GetEdgeTests(CreditCard)| ==> Passes(CreditCard, GetEdgeTests(CreditCard)[k], countryCode, dateFormat)
  {
    var tests := GetEdgeTests(CreditCard);
    forall k | 0 <= k < |tests| ensures Passes(CreditCard, tests[k], countryCode, dateFormat) {
      if k == 0 {
        assert tests[k] == EdgeTest("Visa", "4111111111111111", "4111 1111 1111 1111");
        CardVisa(tests[k].input);
      } else if k == 1 {
        assert tests[k] == EdgeTest("Partial", "411111", "4111 11");
        CardPartial(tests[k].input);
      } else if k == 2 {
        assert tests[k] == EdgeTest("With spaces", "4111 1111 1111", "4111 1111 1111");
        CardWithSpaces(tests[k].input);
      } else {
        assert tests[k] == EdgeTest("Empty", "", "");
      }
    }
  }

  /** Nine digits print as AAA-BB-CCCC. */
  lemma SsnNine(d: string)
    requires AllDigits(d) && |d| == 9
    ensures FormatSsn(d) == d[..3] + "-" + d[3..5] + "-" + d[5..]
  {
    DigitsOfDigits(d);
  }

  /** Five digits print as AAA-BB. */
  lemma SsnFive(d: string)
    requires AllDigits(d) && |d| == 5
    ensures FormatSsn(d) == d[..3] + "-" + d[3..]
  {
    DigitsOfDigits(d);
  }

  /** A number typed with its hyphens prints unchanged. */
  lemma SsnDashed(a: string, b: string, c: string)
    requires AllDigits(a + b + c) && |a| == 3 && |b| == 2 && |c| == 4
    ensures FormatSsn(a + "-" + b + "-" + c) == a + "-" + b + "-" + c
  {
    var d := a + b + c;
    assert d[..3] == a && d[3..5] == b && d[5..] == c;
    EmptyConcat(a);
    Split3(d, 3, 5, "", "-", "-");
    assert Take(d, 9) == d;
  }

  lemma SsnFull(raw: string)
    requires raw == "123456789"
    ensures FormatSsn(raw) == "123-45-6789"
  {
    assert AllDigits(raw);
    SsnNine(raw);
    assert raw[..3] == "123" && raw[3..5] == "45" && raw[5..] == "6789";
  }

  lemma SsnPartial(raw: string)
    requires raw == "12345"
    ensures FormatSsn(raw) == "123-45"
  {
    assert AllDigits(raw);
    SsnFive(raw);
    assert raw[..3] == "123" && raw[3..] == "45";
  }

  lemma SsnWithDashes(raw: string)
    requires raw == "123-45-6789"
    ensures FormatSsn(raw) == "123-45-6789"
  {
    var a, b, c := "123", "45", "6789";
    assert raw == a + "-" + b + "-" + c;
    assert AllDigits(a + b + c);
    SsnDashed(a, b, c);
  }

  /** Every SSN example of `getEdgeTests` passes. */
  lemma SsnEdgeTests()
    ensures FormatSsn("123456789") == "123-45-6789"
    ensures FormatSsn("12345") == "123-45"
    ensures FormatSsn("123-45-6789") == "123-45-6789"
    ensures FormatSsn("") == ""
  {
    SsnFull("123456789");
    SsnPartial("12345");
    SsnWithDashes("123-45-6789");
  }

  /** Every SSN example of `getEdgeTests` passes, whatever the country code and date pattern. */
  lemma SsnEdgeTestsPass(countryCode: string, dateFormat: string)
    ensures forall k :: 0 <= k < |GetEdgeTests(Ssn)| ==> Passes(Ssn, GetEdgeTests(Ssn)[k], countryCode, dateFormat)
  {
    var tests := GetEdgeTests(Ssn);
    forall k | 0 <= k < |tests| ensures Passes(Ssn, tests[k], countryCode, dateFormat) {
      if k == 0 {
        assert tests[k] == EdgeTest("Full SSN", "123456789", "123-45-6789");
        SsnFull(tests[k].input);
      } else if k == 1 {
        assert tests[k] == EdgeTest("Partial", "12345", "123-45");
        SsnPartial(tests[k].input);
      } else if k == 2 {
        assert tests[k] == EdgeTest("With dashes", "123-45-6789", "123-45-6789");
        SsnWithDashes(tests[k].input);
      } else {
        assert tests[k] == EdgeTest("Empty", "", "");
      }
    }
  }

  predicate NoSeparator(s: string) {
    forall k :: 0 <= k < |s| ==> !IsDateSeparator(s[k])
  }

  /** A piece without separators ahead of a separator is one part. */
  lemma {:induction false} SplitPartsCons(x: string, c: char, rest: string)
    requires NoSeparator(x) && IsDateSeparator(c)
    ensures SplitParts(x + [c] + rest) == [x] + SplitParts(rest)
    decreases |x|
  {
    if x == [] {
      assert [] + [c] + rest == [c] + rest;
      assert ([c] + rest)[1..] == rest;
    } else {
      SplitPartsCons(x[1..], c, rest);
      assert (x + [c] + rest)[1..] == x[1..] + [c] + rest;
      assert [x[0]] + x[1..] == x;
    }
  }

  /** Text without separators is a single part. */
  lemma {:induction false} SplitPartsNone(x: string)
    requires NoSeparator(x)
    ensures SplitParts(x) == [x]
    decreases |x|
  {
    if x != [] {
      SplitPartsNone(x[1..]);
      assert [x[0]] + x[1..] == x;
    }
  }

  /** Three pieces joined by separators split back into those pieces. */
  lemma SplitThree(x: string, c1: char, y: string, c2: char, z: string)
    requires NoSeparator(x) && NoSeparator(y) && NoSeparator(z)
    requires IsDateSeparator(c1) && IsDateSeparator(c2)
    ensures SplitParts(x + [c1] + y + [c2] + z) == [x, y, z]
  {
    SplitPartsNone(z);
    SplitPartsCons(y, c2, z);
    SplitPartsCons(x, c1, y + [c2] + z);
    assert x + [c1] + y + [c2] + z == x + [c1] + (y + [c2] + z);
  }

  lemma SliceWithin(s: string, a: nat, b: nat)
    requires a <= b <= |s|
    ensures Slice(s, a, b) == s[a..b]
  {
  }

  /** The part of the chunks after the first: the separator, then the rest. */
  lemma ChunksNext(d: string, parts: seq<string>, i: nat, di: nat, sep: char)
    requires 0 < i < |parts| && di + |parts[i]| <= |d| && 0 < |parts[i]|
    ensures Chunks(d, parts, i, di, sep) == [sep] + d[di..di + |parts[i]|] + Chunks(d, parts, i + 1, di + |parts[i]|, sep)
  {
    SliceWithin(d, di, di + |parts[i]|);
    ChunksCons(d, parts, i, di, sep);
  }

  /** Eight digits cut 2-2-4 with a separator between. */
  lemma ChunksEight(d: string, parts: seq<string>, sep: char)
    requires |d| == 8 && |parts| == 3 && |parts[0]| == 2 && |parts[1]| == 2 && |parts[2]| == 4
    ensures Chunks(d, parts, 0, 0, sep) == d[..2] + ([sep] + d[2..4] + ([sep] + d[4..8]))
  {
    SliceWithin(d, 0, 2);
    ChunksCons(d, parts, 0, 0, sep);
    ChunksNext(d, parts, 1, 2, sep);
    ChunksNext(d, parts, 2, 4, sep);
    var tail := Chunks(d, parts, 3, 8, sep);
    assert tail == [];
    assert [sep] + d[4..8] + tail == [sep] + d[4..8];
    assert Lead(0, sep) + d[0..2] == d[..2];
  }

  /** Four digits fill the first two parts and stop. */
  lemma ChunksFour(d: string, parts: seq<string>, sep: char)
    requires |d| == 4 && |parts| == 3 && |parts[0]| == 2 && |parts[1]| == 2
    ensures Chunks(d, parts, 0, 0, sep) == d[..2] + ([sep] + d[2..4])
  {
    SliceWithin(d, 0, 2);
    ChunksCons(d, parts, 0, 0, sep);
    ChunksNext(d, parts, 2 - 1, 2, sep);
    var tail := Chunks(d, parts, 2, 4, sep);
    assert Slice(d, 4, 4 + |parts[2]|) == [];
    assert tail == [];
    assert [sep] + d[2..4] + tail == [sep] + d[2..4];
    assert Lead(0, sep) + d[0..2] == d[..2];
  }

  lemma MonthDayYear(pattern: string)
    requires pattern == "MM/DD/YYYY"
    ensures SplitParts(pattern) == ["MM", "DD", "YYYY"]
    ensures Separator(pattern) == '/'
  {
    assert pattern == "MM" + ['/'] + "DD" + ['/'] + "YYYY";
    SplitThree("MM", '/', "DD", '/', "YYYY");
    assert pattern[2] == '/';
  }

  /** Under MM/DD/YYYY, eight digits print as MM/DD/YYYY. */
  lemma DateEight(raw: string, pattern: string)
    requires AllDigits(raw) && |raw| == 8 && pattern == "MM/DD/YYYY"
    ensures DateOf(raw, pattern) == raw[..2] + ("/" + raw[2..4] + ("/" + raw[4..8]))
  {
    MonthDayYear(pattern);
    DigitsOfDigits(raw);
    ChunksEight(raw, ["MM", "DD", "YYYY"], '/');
  }

  /** Under MM/DD/YYYY, four digits print as MM/DD. */
  lemma DateFour(raw: string, pattern: string)
    requires AllDigits(raw) && |raw| == 4 && pattern == "MM/DD/YYYY"
    ensures DateOf(raw, pattern) == raw[..2] + ("/" + raw[2..4])
  {
    MonthDayYear(pattern);
    DigitsOfDigits(raw);
    ChunksFour(raw, ["MM", "DD", "YYYY"], '/');
  }

  lemma DateFull(raw: string, pattern: string)
    requires raw == "12252025" && pattern == "MM/DD/YYYY"
    ensures DateOf(raw, pattern) == "12/25/2025"
  {
    assert AllDigits(raw);
    DateEight(raw, pattern);
    DateFullText(raw);
  }

  lemma DateFullText(raw: string)
    requires raw == "12252025"
    ensures raw[..2] + ("/" + raw[2..4] + ("/" + raw[4..8])) == "12/25/2025"
  {
    var m, d, y := raw[..2], raw[2..4], raw[4..8];
    assert m == "12" && d == "25" && y == "2025";
  }

  lemma DatePartial(raw: string, pattern: string)
    requires raw == "1225" && pattern == "MM/DD/YYYY"
    ensures DateOf(raw, pattern) == "12/25"
  {
    assert AllDigits(raw);
    DateFour(raw, pattern);
    DatePartialText(raw);
  }

  lemma DatePartialText(raw: string)
    requires raw == "1225"
    ensures raw[..2] + ("/" + raw[2..4]) == "12/25"
  {
    assert raw[..2] == "12" && raw[2..4] == "25";
  }

  /** Every date example of `getEdgeTests` passes with the MM/DD/YYYY pattern. */
  lemma DateEdgeTests()
    ensures DateOf("12252025", "MM/DD/YYYY") == "12/25/2025"
    ensures DateOf("1225", "MM/DD/YYYY") == "12/25"
    ensures DateOf("", "MM/DD/YYYY") == ""
  {
    DateFull("12252025", "MM/DD/YYYY");
    DatePartial("1225", "MM/DD/YYYY");
    DateOfNoDigits("", "MM/DD/YYYY");
  }

  /** Every date example of `getEdgeTests` passes under the MM/DD/YYYY pattern, whatever the country code. */
  lemma DateEdgeTestsPass(countryCode: string)
    ensures forall k :: 0 <= k < |GetEdgeTests(Date)| ==> Passes(Date, GetEdgeTests(Date)[k], countryCode, "MM/DD/YYYY")
  {
    var tests := GetEdgeTests(Date);
    forall k | 0 <= k < |tests| ensures Passes(Date, tests[k], countryCode, "MM/DD/YYYY") {
      if k == 0 {
        assert tests[k] == EdgeTest("Full date", "12252025", "12/25/2025");
        DateFull(tests[k].input, "MM/DD/YYYY");
      } else if k == 1 {
        assert tests[k] == EdgeTest("Partial", "1225", "12/25");
        DatePartial(tests[k].input, "MM/DD/YYYY");
      } else {
        assert tests[k] == EdgeTest("Empty", "", "");
        DateOfNoDigits(tests[k].input, "MM/DD/YYYY");
      }
    }
  }
}
