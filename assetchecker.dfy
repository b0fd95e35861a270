/**
 * The asset-name linter: every dropped file is checked for naming problems, a
 * missing @2x variant and a large size, then files sharing a size-and-name key
 * are reported as duplicates. A browser `File` becomes its name, relative path
 * and size.
 */
module AssetChecker {
  import opened Wrappers
  import opened JsText

  datatype Severity = Error | Warning | Info

  datatype Category = Naming | Missing2x | OddSizes | LargeFiles | Duplicates

  datatype AssetFile = AssetFile(name: string, relativePath: string, size: nat)

  /** What an issue reports; `Description` gives the text the tool shows. */
  datatype Finding =
    | Uppercase
    | Spaces
    | SpecialChars
    | NoRetina(variant: string)
    | Size(kilobytes: nat)
    | DuplicateOf(original: string)

  /** A suggested `mv` command. */
  datatype Rename = Rename(from: string, to: string)

  datatype Issue = Issue(severity: Severity, category: Category, file: string, finding: Finding, suggestion: Option<Rename>)

  function Description(m: Finding): string {
    match m
    case Uppercase => "Filename contains uppercase characters"
    case Spaces => "Filename contains spaces"
    case SpecialChars => "Filename contains special characters"
    case NoRetina(variant) => "No @2x variant found (" + variant + ")"
    case Size(kb) => "File size: " + NatToString(kb) + " KB"
    case DuplicateOf(original) => "Possible duplicate of " + original + " (same size)"
  }

  /** `file.webkitRelativePath || name`. */
  function PathOf(f: AssetFile): string {
    if f.relativePath == [] then f.name else f.relativePath
  }

  // ---------------------------------------------------------------------------
  // Character classes and text helpers

  predicate IsUpper(c: char) {
    'A' <= c <= 'Z'
  }

  /** `[a-zA-Z0-9._@-]`. */
  predicate IsNameChar(c: char) {
    'a' <= c <= 'z' || IsUpper(c) || IsDigit(c) || c == '.' || c == '_' || c == '@' || c == '-'
  }

  predicate HasUpper(s: string) {
    exists k :: 0 <= k < |s| && IsUpper(s[k])
  }

  predicate HasSpecial(s: string) {
    exists k :: 0 <= k < |s| && !IsNameChar(s[k])
  }

  /** `s.includes(sub)`. */
  predicate Contains(s: string, sub: string)
    decreases |s|
  {
    |sub| <= |s| && (s[..|sub|] == sub || (s != [] && Contains(s[1..], sub)))
  }

  function LowerChar(c: char): char {
    if IsUpper(c) then (c as int + 32) as char else c
  }

  /** `toLowerCase` on ASCII letters. */
  function ToLower(s: string): (r: string)
    ensures |r| == |s|
    ensures forall k :: 0 <= k < |s| ==> r[k] == LowerChar(s[k])
  {
    if s == [] then [] else [LowerChar(s[0])] + ToLower(s[1..])
  }

  /** `s.replace(/\s+/g, '-')`: each maximal run of whitespace becomes one hyphen. */
  function DashSpaces(s: string): string
    decreases |s|
  {
    if s == [] then []
    else if IsWhitespace(s[0]) then "-" + DashSpaces(s[LeadingSpace(s)..])
    else [s[0]] + DashSpaces(s[1..])
  }

  /** The suggested name has no whitespace left, and a name without whitespace is kept. */
  lemma {:induction false} DashSpacesShape(s: string)
    ensures !HasWhitespace(DashSpaces(s))
    ensures !HasWhitespace(s) ==> DashSpaces(s) == s
    decreases |s|
  {
    if s != [] {
      if IsWhitespace(s[0]) {
        DashSpacesShape(s[LeadingSpace(s)..]);
        var r := DashSpaces(s[LeadingSpace(s)..]);
        assert !IsWhitespace('-');
        assert forall k :: 0 < k < |"-" + r| ==> ("-" + r)[k] == r[k - 1];
      } else {
        DashSpacesShape(s[1..]);
        var r := DashSpaces(s[1..]);
        assert forall k :: 0 < k < |[s[0]] + r| ==> ([s[0]] + r)[k] == r[k - 1];
        if !HasWhitespace(s) {
          assert !HasWhitespace(s[1..]) by {
            forall k | 0 <= k < |s[1..]| ensures !IsWhitespace(s[1..][k]) {
              assert s[1..][k] == s[k + 1];
            }
          }
          assert [s[0]] + s[1..] == s;
        }
      }
    }
  }

  /** `mv "<from>" "<to>"`. */
  function Command(r: Rename): string {
    "mv \"" + r.from + "\" \"" + r.to + "\""
  }

  // ---------------------------------------------------------------------------
  // The @2x check

  /** Length of the image extension the name ends in (".png", ".jpg", ".jpeg", ".webp", any case), or 0. */
  function ImageExtLength(name: string): (n: nat)
    ensures n == 0 || n == 3 || n == 4
    ensures n > 0 ==> n < |name| && name[|name| - n - 1] == '.'
  {
    if EndsWithExt(name, "png") then 3
    else if EndsWithExt(name, "jpg") then 3
    else if EndsWithExt(name, "jpeg") then 4
    else if EndsWithExt(name, "webp") then 4
    else 0
  }

  /** The name ends in "." followed by `ext`, letters compared without regard to case. */
  predicate EndsWithExt(name: string, ext: string) {
    |ext| < |name| && name[|name| - |ext| - 1] == '.' && ToLower(name[|name| - |ext|..]) == ext
  }

  /** `/\.(png|jpg|jpeg|webp)$/i.test(name)`. */
  predicate IsImage(name: string) {
    ImageExtLength(name) > 0
  }

  /** The `base@2x.ext` name whose absence is reported. */
  function RetinaName(name: string): string
    requires IsImage(name)
  {
    var dot := |name| - ImageExtLength(name) - 1;
    name[..dot] + "@2x" + name[dot..]
  }

  predicate NameTaken(files: seq<AssetFile>, name: string) {
    exists g :: g in files && g.name == name
  }

  /** An image, not itself a @2x or @3x variant, whose @2x variant is not in the batch. */
  predicate MissingRetina(name: string, files: seq<AssetFile>) {
    IsImage(name) && !Contains(name, "@2x") && !Contains(name, "@3x") && !NameTaken(files, RetinaName(name))
  }

  // ---------------------------------------------------------------------------
  // Per-file issues

  const LARGE_FILE_BYTES: nat := 500 * 1024

  /** `(size / 1024).toFixed(0)`: kilobytes rounded half up. */
  function Kilobytes(size: nat): nat {
    (size + 512) / 1024
  }

  /** The five tests of one pass of the file loop, in the order they run. */
  datatype Check = UpperCheck | SpaceCheck | SpecialCheck | RetinaCheck | LargeCheck

  const CHECKS: seq<Check> := [UpperCheck, SpaceCheck, SpecialCheck, RetinaCheck, LargeCheck]

  /** Whether a check pushes an issue for `f`. */
  predicate Fires(c: Check, f: AssetFile, files: seq<AssetFile>) {
    match c
    case UpperCheck => HasUpper(f.name) && '@' !in f.name
    case SpaceCheck => HasWhitespace(f.name)
    case SpecialCheck => HasSpecial(f.name)
    case RetinaCheck => MissingRetina(f.name, files)
    case LargeCheck => f.size > LARGE_FILE_BYTES
  }

  function SeverityOf(c: Check): Severity {
    match c
    case SpaceCheck => Error
    case RetinaCheck => Info
    case _ => Warning
  }

  function CategoryOf(c: Check): Category {
    match c
    case RetinaCheck => Missing2x
    case LargeCheck => LargeFiles
    case _ => Naming
  }

  /** The issue a check pushes when it fires. */
  function IssueOf(c: Check, f: AssetFile, files: seq<AssetFile>): Issue
    requires Fires(c, f, files)
  {
    var finding := match c
      case UpperCheck => Uppercase
      case SpaceCheck => Spaces
      case SpecialCheck => SpecialChars
      case RetinaCheck => NoRetina(RetinaName(f.name))
      case LargeCheck => Size(Kilobytes(f.size));
    var suggestion := match c
      case UpperCheck => Some(Rename(f.name, ToLower(f.name)))
      case SpaceCheck => Some(Rename(f.name, DashSpaces(f.name)))
      case _ => None;
    Issue(SeverityOf(c), CategoryOf(c), PathOf(f), finding, suggestion)
  }

  /** Runs the checks `cs` in order, keeping the issues of those that fire. */
  function Run(cs: seq<Check>, f: AssetFile, files: seq<AssetFile>): seq<Issue> {
    if cs == [] then []
    else (if Fires(cs[0], f, files) then [IssueOf(cs[0], f, files)] else []) + Run(cs[1..], f, files)
  }

  /** The issues one pass of the file loop pushes. */
  function FileIssues(f: AssetFile, files: seq<AssetFile>): seq<Issue> {
    Run(CHECKS, f, files)
  }

  /** An issue is in a run exactly when some check of it fired and made that issue. */
  lemma {:induction false} RunMembers(cs: seq<Check>, f: AssetFile, files: seq<AssetFile>)
    ensures forall i :: i in Run(cs, f, files) <==> exists c :: c in cs && Fires(c, f, files) && i == IssueOf(c, f, files)
  {
    if cs != [] {
      RunMembers(cs[1..], f, files);
      assert cs == [cs[0]] + cs[1..];
    }
  }

  /** Number of checks in `cs` that fire with severity `s`. */
  function CountFired(cs: seq<Check>, f: AssetFile, files: seq<AssetFile>, s: Severity): nat {
    if cs == [] then 0
    else (if Fires(cs[0], f, files) && SeverityOf(cs[0]) == s then 1 else 0) + CountFired(cs[1..], f, files, s)
  }

  lemma {:induction false} RunCount(cs: seq<Check>, f: AssetFile, files: seq<AssetFile>, s: Severity)
    ensures CountSeverity(Run(cs, f, files), s) == CountFired(cs, f, files, s)
  {
    if cs != [] {
      RunCount(cs[1..], f, files, s);
      var head := if Fires(cs[0], f, files) then [IssueOf(cs[0], f, files)] else [];
      CountSeverityAppend(head, Run(cs[1..], f, files), s);
      if head != [] {
        assert head[..0] == [];
      }
    }
  }

  lemma {:induction false} CountFiredNoErrors(cs: seq<Check>, f: AssetFile, files: seq<AssetFile>)
    requires SpaceCheck !in cs
    ensures CountFired(cs, f, files, Error) == 0
  {
    if cs != [] {
      assert forall c :: c in cs[1..] ==> c in cs;
      CountFiredNoErrors(cs[1..], f, files);
    }
  }

  /** The per-file issues name the file's path and never fall in the duplicates category. */
  lemma FileIssuesPaths(f: AssetFile, files: seq<AssetFile>)
    ensures forall i :: i in FileIssues(f, files) ==> i.file == PathOf(f) && i.category != Duplicates
  {
    RunMembers(CHECKS, f, files);
  }

  /**
   * The only error a file can draw is the whitespace one, and it comes exactly
   * when the name holds whitespace, suggesting a name with every run of it
   * turned into '-' and no whitespace left.
   */
  lemma FileIssuesErrors(f: AssetFile, files: seq<AssetFile>)
    ensures CountSeverity(FileIssues(f, files), Error) == (if HasWhitespace(f.name) then 1 else 0)
    ensures forall i :: i in FileIssues(f, files) && i.severity == Error ==>
      i.finding == Spaces && i.suggestion == Some(Rename(f.name, DashSpaces(f.name)))
    ensures !HasWhitespace(DashSpaces(f.name))
  {
    RunCount(CHECKS, f, files, Error);
    var tail := [SpecialCheck, RetinaCheck, LargeCheck];
    CountFiredNoErrors(tail, f, files);
    assert CHECKS[1..] == [SpaceCheck] + tail;
    assert CHECKS[1..][1..] == tail;
    RunMembers(CHECKS, f, files);
    DashSpacesShape(f.name);
  }

  /** The uppercase warning is raised exactly when the name has an uppercase letter and no '@'; its fix has none left. */
  lemma FileIssuesUpper(f: AssetFile, files: seq<AssetFile>)
    ensures (exists i :: i in FileIssues(f, files) && i.finding == Uppercase) <==> HasUpper(f.name) && '@' !in f.name
    ensures forall i :: i in FileIssues(f, files) && i.finding == Uppercase ==>
      i.severity == Warning && i.suggestion == Some(Rename(f.name, ToLower(f.name)))
    ensures !HasUpper(ToLower(f.name))
  {
    RunMembers(CHECKS, f, files);
    if HasUpper(f.name) && '@' !in f.name {
      assert UpperCheck in CHECKS;
      assert IssueOf(UpperCheck, f, files) in FileIssues(f, files);
    }
  }

  /** The special-character warning is raised exactly when a character falls outside `[A-Za-z0-9._@-]`. */
  lemma FileIssuesSpecial(f: AssetFile, files: seq<AssetFile>)
    ensures (exists i :: i in FileIssues(f, files) && i.finding == SpecialChars) <==> HasSpecial(f.name)
  {
    RunMembers(CHECKS, f, files);
    if HasSpecial(f.name) {
      assert SpecialCheck in CHECKS;
      assert IssueOf(SpecialCheck, f, files) in FileIssues(f, files);
    }
  }

  /** The missing-@2x note and the large-file warning come exactly when their tests hold. */
  lemma FileIssuesRetinaAndSize(f: AssetFile, files: seq<AssetFile>)
    ensures (exists i :: i in FileIssues(f, files) && i.category == Missing2x) <==> MissingRetina(f.name, files)
    ensures (exists i :: i in FileIssues(f, files) && i.category == LargeFiles) <==> f.size > 500 * 1024
  {
    RunMembers(CHECKS, f, files);
    if MissingRetina(f.name, files) {
      assert RetinaCheck in CHECKS;
      assert IssueOf(RetinaCheck, f, files) in FileIssues(f, files);
    }
    if f.size > LARGE_FILE_BYTES {
      assert LargeCheck in CHECKS;
      assert IssueOf(LargeCheck, f, files) in FileIssues(f, files);
    }
  }

  // ---------------------------------------------------------------------------
  // The duplicate key

  /** Index of the first line terminator at or after `i`, or `|s|`. */
  function LineEnd(s: string, i: nat): (e: nat)
    requires i <= |s|
    ensures i <= e <= |s|
    ensures forall k :: i <= k < e ==> !IsLineTerminator(s[k])
    ensures e < |s| ==> IsLineTerminator(s[e])
    decreases |s| - i
  {
    if i == |s| || IsLineTerminator(s[i]) then i else LineEnd(s, i + 1)
  }

  /** The last '/' in `s[i..e]`, if any. */
  function LastSlash(s: string, i: nat, e: nat): (r: Option<nat>)
    requires i <= e <= |s|
    ensures r.Some? ==> i <= r.value < e && s[r.value] == '/' && forall k :: r.value < k < e ==> s[k] != '/'
    ensures r.None? ==> forall k :: i <= k < e ==> s[k] != '/'
    decreases e
  {
    if e == i then None
    else if s[e - 1] == '/' then Some(e - 1)
    else LastSlash(s, i, e - 1)
  }

  /**
   * `name.replace(/.*\//, '')`: the first line that holds a '/' loses
   * everything from its start through its last '/'; with no such line the name
   * is kept.
   */
  function StripDir(s: string): string {
    StripFrom(s, 0)
  }

  function StripFrom(s: string, i: nat): string
    requires i <= |s|
    decreases |s| - i
  {
    var e := LineEnd(s, i);
    var slash := LastSlash(s, i, e);
    if slash.Some? then s[..i] + s[slash.value + 1..]
    else if e == |s| then s
    else StripFrom(s, e + 1)
  }

  /** On a one-line name the key keeps the part after the last '/', the whole name when it has none. */
  lemma StripDirBasename(s: string)
    requires forall k :: 0 <= k < |s| ==> !IsLineTerminator(s[k])
    ensures var r := StripDir(s);
      && |r| <= |s| && s[|s| - |r|..] == r
      && (forall k :: 0 <= k < |r| ==> r[k] != '/')
      && (|r| < |s| ==> s[|s| - |r| - 1] == '/')
      && ((forall k :: 0 <= k < |s| ==> s[k] != '/') ==> r == s)
  {
    assert LineEnd(s, 0) == |s|;
    var slash := LastSlash(s, 0, |s|);
    if slash.Some? {
      var r := s[slash.value + 1..];
      assert StripDir(s) == [] + r;
      forall k | 0 <= k < |r| ensures r[k] != '/' {
        assert r[k] == s[slash.value + 1 + k];
      }
    }
  }

  /** `${file.size}-${basename}`. */
  function Key(f: AssetFile): string {
    NatToString(f.size) + "-" + StripDir(f.name)
  }

  /** A run of digits followed by '-' is determined by the text it starts. */
  lemma DigitsDashSplit(p: string, x: string, q: string, y: string)
    requires AllDigits(p) && AllDigits(q)
    requires p + "-" + x == q + "-" + y
    ensures p == q && x == y
  {
    var s := p + "-" + x;
    assert s[..|p|] == p && s[|p|] == '-';
    assert s[..|q|] == q && s[|q|] == '-';
    DigitRunAt(s, 0, |p|);
    DigitRunAt(s, 0, |q|);
    assert x == s[|p| + 1..];
    assert y == s[|q| + 1..];
  }

  /** Two files share a key exactly when they have the same size and the same stripped name. */
  lemma KeyInjective(f: AssetFile, g: AssetFile)
    ensures Key(f) == Key(g) <==> f.size == g.size && StripDir(f.name) == StripDir(g.name)
  {
    if Key(f) == Key(g) {
      DigitsDashSplit(NatToString(f.size), StripDir(f.name), NatToString(g.size), StripDir(g.name));
      NatToStringInjective(f.size, g.size);
    }
  }

  // ---------------------------------------------------------------------------
  // The whole analysis, as specification functions

  /** The issues the file loop has pushed after its first `n` passes. */
  function PerFileIssues(files: seq<AssetFile>, n: nat): seq<Issue>
    requires n <= |files|
  {
    if n == 0 then [] else PerFileIssues(files, n - 1) + FileIssues(files[n - 1], files)
  }

  /** The key of every file, in input order. */
  function FileKeys(files: seq<AssetFile>): (ks: seq<string>)
    ensures |ks| == |files|
    ensures forall i :: 0 <= i < |files| ==> ks[i] == Key(files[i])
  {
    seq(|files|, i requires 0 <= i < |files| => Key(files[i]))
  }

  /*
   * The grouping below is stated over the files' keys `ks` (file i has key
   * ks[i]) for any key type: only equality of keys matters to it.
   */

  /** The keys of `nameMap` after `n` passes, in insertion order. */
  function Keys<K(==)>(ks: seq<K>, n: nat): seq<K>
    requires n <= |ks|
  {
    if n == 0 then []
    else if ks[n - 1] in Keys(ks, n - 1) then Keys(ks, n - 1)
    else Keys(ks, n - 1) + [ks[n - 1]]
  }

  /** The group `nameMap` holds for key `k` after `n` passes: the files with that key, in input order. */
  function Group<K(==)>(files: seq<AssetFile>, ks: seq<K>, n: nat, k: K): seq<AssetFile>
    requires n <= |files| == |ks|
  {
    if n == 0 then []
    else Group(files, ks, n - 1, k) + (if ks[n - 1] == k then [files[n - 1]] else [])
  }

  /** A key is in the map exactly when its group is non-empty. */
  lemma {:induction false} KeysGroup<K>(files: seq<AssetFile>, ks: seq<K>, n: nat, k: K)
    requires n <= |files| == |ks|
    ensures k in Keys(ks, n) <==> Group(files, ks, n, k) != []
  {
    if n > 0 {
      KeysGroup(files, ks, n - 1, k);
    }
  }

  predicate Distinct<K(==)>(keys: seq<K>) {
    forall a, b :: 0 <= a < b < |keys| ==> keys[a] != keys[b]
  }

  /** No key is inserted twice. */
  lemma {:induction false} KeysDistinct<K>(ks: seq<K>, n: nat)
    requires n <= |ks|
    ensures Distinct(Keys(ks, n))
  {
    if n > 0 {
      KeysDistinct(ks, n - 1);
    }
  }

  function DupIssue(first: AssetFile, f: AssetFile): Issue {
    Issue(Warning, Duplicates, PathOf(f), DuplicateOf(PathOf(first)), None)
  }

  /** One duplicate warning per file of `rest`, in order, each referencing `first`. */
  function DupsAgainst(first: AssetFile, rest: seq<AssetFile>): (r: seq<Issue>)
    ensures |r| == |rest|
    ensures forall t :: 0 <= t < |rest| ==> r[t] == DupIssue(first, rest[t])
  {
    if rest == [] then [] else DupsAgainst(first, rest[..|rest| - 1]) + [DupIssue(first, rest[|rest| - 1])]
  }

  lemma DupsAgainstStep(g: seq<AssetFile>, t: nat)
    requires 1 <= t < |g|
    ensures DupsAgainst(g[0], g[1..t + 1]) == DupsAgainst(g[0], g[1..t]) + [DupIssue(g[0], g[t])]
  {
    assert g[1..t + 1][..t - 1] == g[1..t];
  }

  /** What one group contributes: nothing for a single file, else a warning for each file after the first. */
  function GroupDups(g: seq<AssetFile>): seq<Issue> {
    if |g| > 1 then DupsAgainst(g[0], g[1..]) else []
  }

  /**
   * A group of one draws nothing; in a larger group each file after the first,
   * in input order, draws one warning that names the first.
   */
  lemma GroupDupsShape(g: seq<AssetFile>)
    ensures |g| <= 1 ==> GroupDups(g) == []
    ensures |g| > 1 ==> |GroupDups(g)| == |g| - 1
    ensures |g| > 1 ==> forall t :: 0 <= t < |g| - 1 ==> GroupDups(g)[t] == DupIssue(g[0], g[t + 1])
  {
  }

  /** The warnings of the duplicate loop after it has visited `keys[..j]`. */
  function DupIssues<K(==)>(files: seq<AssetFile>, ks: seq<K>, keys: seq<K>, j: nat): (r: seq<Issue>)
    requires |files| == |ks| && j <= |keys|
    ensures forall i :: i in r ==> i.category == Duplicates && i.severity == Warning
  {
    if j == 0 then [] else DupIssues(files, ks, keys, j - 1) + GroupDups(Group(files, ks, |files|, keys[j - 1]))
  }

  /** Everything the duplicate loop pushes. */
  function DuplicateIssues(files: seq<AssetFile>): seq<Issue> {
    var ks := FileKeys(files);
    var keys := Keys(ks, |ks|);
    DupIssues(files, ks, keys, |keys|)
  }

  /** What `analyzeFiles` returns. */
  function Analysis(files: seq<AssetFile>): seq<Issue> {
    PerFileIssues(files, |files|) + DuplicateIssues(files)
  }

  /** The two loops of `analyzeFiles`, with `nameMap` as its key order plus a map. */
  method AnalyzeFiles(files: seq<AssetFile>) returns (issues: seq<Issue>)
    ensures issues == Analysis(files)
  {
    ghost var ks := FileKeys(files);
    issues := [];
    var keys: seq<string> := [];
    var groups: map<string, seq<AssetFile>> := map[];
    for i := 0 to |files|
      invariant issues == PerFileIssues(files, i)
      invariant Tracked(files, ks, i, keys, groups)
    {
      var file := files[i];
      issues := issues + FileIssues(file, files);
      keys, groups := Track(keys, groups, Key(file), file, files, ks, i);
    }
    issues := PushDuplicates(issues, files, ks, keys, groups);
  }

  /** `nameMap` after `n` passes: its keys in insertion order, each mapped to its group. */
  ghost predicate Tracked<K(!new)>(files: seq<AssetFile>, ks: seq<K>, n: nat, keys: seq<K>, groups: map<K, seq<AssetFile>>)
    requires n <= |files| == |ks|
  {
    && keys == Keys(ks, n)
    && (forall k :: k in groups <==> k in keys)
    && (forall k :: k in groups ==> groups[k] == Group(files, ks, n, k))
  }

  /** The map update of one pass: start an empty group for a new key, then push the file onto its group. */
  method Track<K(==,!new)>(keys: seq<K>, groups: map<K, seq<AssetFile>>, key: K, file: AssetFile,
                      ghost files: seq<AssetFile>, ghost ks: seq<K>, ghost n: nat)
    returns (keys': seq<K>, groups': map<K, seq<AssetFile>>)
    requires n < |files| == |ks| && key == ks[n] && file == files[n]
    requires Tracked(files, ks, n, keys, groups)
    ensures Tracked(files, ks, n + 1, keys', groups')
  {
    keys', groups' := keys, groups;
    if key !in groups' {
      KeysGroup(files, ks, n, key);
      groups' := groups'[key := []];
      keys' := keys' + [key];
    }
    groups' := groups'[key := groups'[key] + [file]];
  }

  /** The duplicate loop: walks `nameMap` in key order and pushes each group's warnings. */
  method PushDuplicates<K(==)>(issues: seq<Issue>, files: seq<AssetFile>, ghost ks: seq<K>, keys: seq<K>, groups: map<K, seq<AssetFile>>)
    returns (result: seq<Issue>)
    requires |files| == |ks|
    requires forall k :: k in keys ==> k in groups && groups[k] == Group(files, ks, |files|, k)
    ensures result == issues + DupIssues(files, ks, keys, |keys|)
  {
    result := issues;
    for j := 0 to |keys|
      invariant result == issues + DupIssues(files, ks, keys, j)
    {
      var group := groups[keys[j]];
      DupIssuesStep(issues, files, ks, keys, j, group);
      result := PushGroup(result, group);
    }
  }

  lemma DupIssuesStep<K>(issues: seq<Issue>, files: seq<AssetFile>, ks: seq<K>, keys: seq<K>, j: nat, group: seq<AssetFile>)
    requires |files| == |ks| && j < |keys| && group == Group(files, ks, |files|, keys[j])
    ensures issues + DupIssues(files, ks, keys, j + 1) == issues + DupIssues(files, ks, keys, j) + GroupDups(group)
  {
  }

  /** One group's pass: a warning for each file after the first, when there is more than one. */
  method PushGroup(issues: seq<Issue>, group: seq<AssetFile>) returns (result: seq<Issue>)
    ensures result == issues + GroupDups(group)
  {
    result := issues;
    if |group| > 1 {
      for t := 1 to |group|
        invariant result == issues + DupsAgainst(group[0], group[1..t])
      {
        DupsAgainstStep(group, t);
        result := result + [DupIssue(group[0], group[t])];
      }
      assert group[1..|group|] == group[1..];
    }
  }

  // ---------------------------------------------------------------------------
  // Counting, filtering and the rename script

  /** `issues.filter((i) => i.severity === s).length`. */
  function CountSeverity(issues: seq<Issue>, s: Severity): nat {
    if issues == [] then 0
    else CountSeverity(issues[..|issues| - 1], s) + (if issues[|issues| - 1].severity == s then 1 else 0)
  }

  lemma {:induction false} CountSeverityAppend(a: seq<Issue>, b: seq<Issue>, s: Severity)
    ensures CountSeverity(a + b, s) == CountSeverity(a, s) + CountSeverity(b, s)
    decreases |b|
  {
    if b == [] {
      assert a + b == a;
    } else {
      assert (a + b)[..|a + b| - 1] == a + b[..|b| - 1];
      CountSeverityAppend(a, b[..|b| - 1], s);
    }
  }

  lemma {:induction false} CountSeverityNone(issues: seq<Issue>, s: Severity)
    requires forall i :: i in issues ==> i.severity != s
    ensures CountSeverity(issues, s) == 0
  {
    if issues != [] {
      CountSeverityNone(issues[..|issues| - 1], s);
    }
  }

  /** The three severity counts add up to the number of issues. */
  lemma {:induction false} SeverityCountsSum(issues: seq<Issue>)
    ensures CountSeverity(issues, Error) + CountSeverity(issues, Warning) + CountSeverity(issues, Info) == |issues|
  {
    if issues != [] {
      SeverityCountsSum(issues[..|issues| - 1]);
    }
  }

  /** Number of the first `n` files whose name holds whitespace. */
  function SpacedNames(files: seq<AssetFile>, n: nat): nat
    requires n <= |files|
  {
    if n == 0 then 0 else SpacedNames(files, n - 1) + (if HasWhitespace(files[n - 1].name) then 1 else 0)
  }

  lemma {:induction false} PerFileErrors(files: seq<AssetFile>, n: nat)
    requires n <= |files|
    ensures CountSeverity(PerFileIssues(files, n), Error) == SpacedNames(files, n)
  {
    if n > 0 {
      PerFileErrors(files, n - 1);
      CountSeverityAppend(PerFileIssues(files, n - 1), FileIssues(files[n - 1], files), Error);
      FileIssuesErrors(files[n - 1], files);
    }
  }

  /** `errorCount` is the number of files whose name holds whitespace. */
  lemma AnalysisErrorCount(files: seq<AssetFile>)
    ensures CountSeverity(Analysis(files), Error) == SpacedNames(files, |files|)
  {
    CountSeverityAppend(PerFileIssues(files, |files|), DuplicateIssues(files), Error);
    PerFileErrors(files, |files|);
    DuplicatesNoErrors(files);
  }

  lemma DuplicatesNoErrors(files: seq<AssetFile>)
    ensures CountSeverity(DuplicateIssues(files), Error) == 0
  {
    CountSeverityNone(DuplicateIssues(files), Error);
  }

  lemma {:induction false} PerFileNoDuplicates(files: seq<AssetFile>, n: nat)
    requires n <= |files|
    ensures forall i :: i in PerFileIssues(files, n) ==> i.category != Duplicates
  {
    if n > 0 {
      var a := PerFileIssues(files, n - 1);
      var b := FileIssues(files[n - 1], files);
      PerFileNoDuplicates(files, n - 1);
      FileIssuesPaths(files[n - 1], files);
      forall i: Issue | i in a + b ensures i.category != Duplicates {
        if i !in a {
          assert i in b;
        }
      }
    }
  }

  /** Every duplicate warning comes after every per-file issue. */
  lemma DuplicatesLast(files: seq<AssetFile>)
    ensures var a := Analysis(files);
      var n := |PerFileIssues(files, |files|)|;
      && n <= |a|
      && (forall k :: 0 <= k < n ==> a[k].category != Duplicates)
      && (forall k :: n <= k < |a| ==> a[k].category == Duplicates && a[k].severity == Warning)
  {
    var p := PerFileIssues(files, |files|);
    var d := DuplicateIssues(files);
    var a: seq<Issue> := p + d;
    PerFileNoDuplicates(files, |files|);
    forall k | 0 <= k < |p| ensures a[k].category != Duplicates {
      assert a[k] == p[k];
    }
    forall k | |p| <= k < |a| ensures a[k].category == Duplicates && a[k].severity == Warning {
      assert a[k] == d[k - |p|];
    }
  }

  /** Sum of the group sizes over `keys`. */
  function GroupSizes<K(==)>(files: seq<AssetFile>, ks: seq<K>, n: nat, keys: seq<K>): nat
    requires n <= |files| == |ks|
  {
    if keys == [] then 0 else GroupSizes(files, ks, n, keys[..|keys| - 1]) + |Group(files, ks, n, keys[|keys| - 1])|
  }

  /** A non-empty sequence is its front followed by its last element. */
  lemma SplitLast<T>(s: seq<T>)
    requires s != []
    ensures s == s[..|s| - 1] + [s[|s| - 1]]
    ensures forall x :: x in s <==> x in s[..|s| - 1] || x == s[|s| - 1]
  {
  }

  lemma {:induction false} GroupSizesStep<K>(files: seq<AssetFile>, ks: seq<K>, n: nat, keys: seq<K>)
    requires n < |files| == |ks| && Distinct(keys)
    ensures GroupSizes(files, ks, n + 1, keys) == GroupSizes(files, ks, n, keys) + (if ks[n] in keys then 1 else 0)
  {
    if keys != [] {
      var init := keys[..|keys| - 1];
      GroupSizesStep(files, ks, n, init);
      SplitLast(keys);
      if ks[n] == keys[|keys| - 1] {
        assert ks[n] !in init;
      }
    }
  }

  /** Every file lies in exactly one group. */
  lemma {:induction false} GroupSizesAll<K>(files: seq<AssetFile>, ks: seq<K>, n: nat)
    requires n <= |files| == |ks|
    ensures GroupSizes(files, ks, n, Keys(ks, n)) == n
  {
    if n > 0 {
      var keys := Keys(ks, n - 1);
      GroupSizesAll(files, ks, n - 1);
      KeysDistinct(ks, n - 1);
      GroupSizesStep(files, ks, n - 1, keys);
      if ks[n - 1] !in keys {
        KeysGroup(files, ks, n - 1, ks[n - 1]);
        assert (keys + [ks[n - 1]])[..|keys|] == keys;
      }
    }
  }

  lemma {:induction false} DupIssuesCount<K>(files: seq<AssetFile>, ks: seq<K>, keys: seq<K>, j: nat)
    requires |files| == |ks| && j <= |keys|
    requires forall k :: k in keys ==> Group(files, ks, |files|, k) != []
    ensures |DupIssues(files, ks, keys, j)| + j == GroupSizes(files, ks, |files|, keys[..j])
  {
    if j > 0 {
      DupIssuesCount(files, ks, keys, j - 1);
      assert keys[..j][..j - 1] == keys[..j - 1];
      assert Group(files, ks, |files|, keys[j - 1]) != [];
    }
  }

  /** One duplicate warning per file beyond the first of its group: as many as files minus distinct keys. */
  lemma DuplicateCount(files: seq<AssetFile>)
    ensures |DuplicateIssues(files)| == |files| - |Keys(FileKeys(files), |files|)|
  {
    var ks := FileKeys(files);
    var keys := Keys(ks, |files|);
    forall k | k in keys ensures Group(files, ks, |files|, k) != [] {
      KeysGroup(files, ks, |files|, k);
    }
    DupIssuesCount(files, ks, keys, |keys|);
    assert keys[..|keys|] == keys;
    GroupSizesAll(files, ks, |files|);
  }

  /** `issues.filter((i) => i.category === c)`. */
  function OfCategory(issues: seq<Issue>, c: Category): (r: seq<Issue>)
    ensures |r| <= |issues|
  {
    if issues == [] then []
    else OfCategory(issues[..|issues| - 1], c) + (if issues[|issues| - 1].category == c then [issues[|issues| - 1]] else [])
  }

  /** The filter keeps exactly the issues of its category. */
  lemma {:induction false} OfCategoryMembers(issues: seq<Issue>, c: Category)
    ensures forall i :: i in OfCategory(issues, c) <==> i in issues && i.category == c
  {
    if issues != [] {
      var init := issues[..|issues| - 1];
      OfCategoryMembers(init, c);
      assert issues == init + [issues[|issues| - 1]];
    }
  }

  lemma OfCategoryNonEmpty(issues: seq<Issue>, c: Category)
    requires OfCategory(issues, c) != []
    ensures exists i :: i in issues && i.category == c
  {
    OfCategoryMembers(issues, c);
    assert OfCategory(issues, c)[0] in OfCategory(issues, c);
  }

  /** Filtering keeps the order: it distributes over concatenation. */
  lemma {:induction false} OfCategoryAppend(a: seq<Issue>, b: seq<Issue>, c: Category)
    ensures OfCategory(a + b, c) == OfCategory(a, c) + OfCategory(b, c)
    decreases |b|
  {
    if b == [] {
      assert a + b == a;
    } else {
      assert (a + b)[..|a + b| - 1] == a + b[..|b| - 1];
      OfCategoryAppend(a, b[..|b| - 1], c);
    }
  }

  /** The issue list the view shows: every issue under 'all' (`None`), else one category's. */
  function FilterIssues(issues: seq<Issue>, filter: Option<Category>): (r: seq<Issue>)
    ensures filter.None? ==> r == issues
    ensures filter.Some? ==> forall i :: i in r <==> i in issues && i.category == filter.value
  {
    if filter.None? then issues
    else
      OfCategoryMembers(issues, filter.value);
      OfCategory(issues, filter.value)
  }

  lemma {:induction false} OfCategoryAll(issues: seq<Issue>, c: Category)
    requires forall i :: i in issues ==> i.category == c
    ensures OfCategory(issues, c) == issues
  {
    if issues != [] {
      var init, last := issues[..|issues| - 1], issues[|issues| - 1];
      assert issues == init + [last];
      OfCategoryAll(init, c);
      assert last in issues;
    }
  }

  /** The duplicates filter shows exactly the duplicate loop's warnings, in order. */
  lemma FilterDuplicates(files: seq<AssetFile>)
    ensures FilterIssues(Analysis(files), Some(Duplicates)) == DuplicateIssues(files)
  {
    var p := PerFileIssues(files, |files|);
    var d := DuplicateIssues(files);
    OfCategoryAppend(p, d, Duplicates);
    PerFileNoDuplicates(files, |files|);
    OfCategoryMembers(p, Duplicates);
    var none := OfCategory(p, Duplicates);
    if none != [] {
      OfCategoryNonEmpty(p, Duplicates);
    }
    OfCategoryAll(d, Duplicates);
  }

  /** The suggested commands, in issue order (every command is a non-empty string, so all are truthy). */
  function Suggestions(issues: seq<Issue>): (r: seq<string>)
    ensures |r| <= |issues|
  {
    if issues == [] then []
    else
      var last := issues[|issues| - 1];
      Suggestions(issues[..|issues| - 1]) + (if last.suggestion.Some? then [Command(last.suggestion.value)] else [])
  }

  /** `parts.join('\n')`. */
  function JoinLines(parts: seq<string>): string {
    if parts == [] then []
    else if |parts| == 1 then parts[0]
    else parts[0] + "\n" + JoinLines(parts[1..])
  }

  /** `renameScript`. */
  function RenameScript(issues: seq<Issue>): string {
    JoinLines(Suggestions(issues))
  }

  /** Index of the first '\n', or `|s|`. */
  function NewlineAt(s: string): (i: nat)
    ensures i <= |s|
    ensures forall k :: 0 <= k < i ==> s[k] != '\n'
    ensures i < |s| ==> s[i] == '\n'
  {
    if s == [] || s[0] == '\n' then 0 else 1 + NewlineAt(s[1..])
  }

  /** `s.split('\n')`. */
  function SplitLines(s: string): (r: seq<string>)
    ensures r != []
    decreases |s|
  {
    var i := NewlineAt(s);
    if i == |s| then [s] else [s[..i]] + SplitLines(s[i + 1..])
  }

  /** Splitting the script at newlines gives the suggestions back, when none holds a newline itself. */
  lemma {:induction false} SplitJoinLines(parts: seq<string>)
    requires parts != []
    requires forall p :: p in parts ==> '\n' !in p
    ensures SplitLines(JoinLines(parts)) == parts
  {
    if |parts| == 1 {
      assert '\n' !in parts[0];
    } else {
      var p := parts[0];
      var rest := JoinLines(parts[1..]);
      var s := p + "\n" + rest;
      assert '\n' !in p;
      assert s[|p|] == '\n';
      assert NewlineAt(s) == |p|;
      assert s[..|p|] == p;
      assert s[|p| + 1..] == rest;
      SplitJoinLines(parts[1..]);
    }
  }
}
