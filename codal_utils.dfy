/**
 * The snapshot version bump of the CODAL build tools (`utils/python/codal_utils.py`,
 * `get_next_version`). The two git outputs it reads (the last hundred log entries and the current
 * branch name) are parameters; `exit(1)` is an `Err` result. The version is found with the regular
 * expression `Snapshot v(\d+)\.(\d+)\.(\d+)(-([\w\-]+).(\d+))?`, which `re.search` applies at the
 * leftmost position where it matches; the matcher below follows Python's backtracking order,
 * including the unescaped `.` before the branch counter, which accepts any character but a newline.
 */
module CodalUtils {
  import opened Common
  import Numerals

  // ---------------------------------------------------------------------------
  // Versions

  /** The `-<branch>.<counter>` part of a snapshot version. */
  datatype Suffix = Suffix(branch: string, counter: nat)

  /** `vMAJOR.MINOR.PATCH`, with an optional branch suffix. */
  datatype Version = Version(major: nat, minor: nat, patch: nat, suffix: Option<Suffix>)

  /** `"v%d.%d.%d%s" % (v0, v1, v2, suff)`, with `suff` either empty or `"-%s.%d" % (branch, counter)`. */
  function Format(v: Version): string
  {
    "v" + (Numerals.NatToString(v.major) + ("." + (Numerals.NatToString(v.minor) + ("."
    + (Numerals.NatToString(v.patch) + SuffixText(v))))))
  }

  /** `v` comes strictly before `w` in (major, minor, patch) order. */
  predicate NumbersBefore(v: Version, w: Version)
  {
    v.major < w.major
    || (v.major == w.major && v.minor < w.minor)
    || (v.major == w.major && v.minor == w.minor && v.patch < w.patch)
  }

  // ---------------------------------------------------------------------------
  // The snapshot pattern

  const SNAPSHOT: string := "Snapshot v"

  /** `\w` on ASCII text. */
  predicate IsWordChar(c: char)
  {
    'a' <= c <= 'z' || 'A' <= c <= 'Z' || Numerals.IsDigit(c) || c == '_'
  }

  /** `[\w\-]`, the characters of a branch name. */
  predicate IsBranchChar(c: char)
  {
    IsWordChar(c) || c == '-'
  }

  predicate AllBranchChars(s: string)
  {
    forall i :: 0 <= i < |s| ==> IsBranchChar(s[i])
  }

  /** The length of the longest run of digits starting at `i`: what a greedy `\d+` takes. */
  function DigitRun(s: string, i: nat): (n: nat)
    requires i <= |s|
    ensures i + n <= |s|
    ensures i + n < |s| ==> !Numerals.IsDigit(s[i + n])
    decreases |s| - i
  {
    if i < |s| && Numerals.IsDigit(s[i]) then 1 + DigitRun(s, i + 1) else 0
  }

  /** Everything a greedy `\d+` takes is a digit. */
  lemma {:induction false} DigitRunDigits(s: string, i: nat)
    requires i <= |s|
    ensures Numerals.AllDigits(s[i..i + DigitRun(s, i)])
    decreases |s| - i
  {
    if i < |s| && Numerals.IsDigit(s[i]) {
      DigitRunDigits(s, i + 1);
      assert s[i..i + DigitRun(s, i)] == [s[i]] + s[i + 1..i + 1 + DigitRun(s, i + 1)];
    }
  }

  /** The length of the longest run of branch characters starting at `i`: a greedy `[\w\-]+`. */
  function BranchRun(s: string, i: nat): (n: nat)
    requires i <= |s|
    ensures i + n <= |s|
    ensures i + n < |s| ==> !IsBranchChar(s[i + n])
    decreases |s| - i
  {
    if i < |s| && IsBranchChar(s[i]) then 1 + BranchRun(s, i + 1) else 0
  }

  /** Every character a greedy `[\w\-]+` takes, and so every prefix of the run, is a branch character. */
  lemma {:induction false} BranchRunChars(s: string, i: nat, len: nat)
    requires i <= |s| && len <= BranchRun(s, i)
    ensures AllBranchChars(s[i..i + len])
    decreases |s| - i
  {
    if len > 0 {
      BranchRunChars(s, i + 1, len - 1);
      assert s[i..i + len] == [s[i]] + s[i + 1..i + 1 + (len - 1)];
    }
  }

  /** The value of the digits a greedy `\d+` takes at `i`. */
  function NumberAt(s: string, i: nat): nat
    requires i <= |s|
  {
    DigitRunDigits(s, i);
    Numerals.DigitsValue(s[i..i + DigitRun(s, i)])
  }

  /**
   * `([\w\-]+).(\d+)` at `q`, where the greedy branch run has been cut back to `len` characters:
   * the first length, counting down, after which some character other than a newline and then a
   * digit follow.
   */
  function SuffixWithRun(s: string, q: nat, len: nat): (r: Option<Suffix>)
    requires q <= |s| && len <= BranchRun(s, q)
    ensures r.Some? ==> r.value.branch != [] && AllBranchChars(r.value.branch)
    decreases len
  {
    if len == 0 then None
    else if q + len + 1 < |s| && s[q + len] != '\n' && Numerals.IsDigit(s[q + len + 1]) then
      BranchRunChars(s, q, len);
      Some(Suffix(s[q..q + len], NumberAt(s, q + len + 1)))
    else SuffixWithRun(s, q, len - 1)
  }

  /** The optional group `(-([\w\-]+).(\d+))?` at `p`; `None` when it matches the empty string. */
  function SuffixAt(s: string, p: nat): Option<Suffix>
    requires p <= |s|
  {
    if p < |s| && s[p] == '-' then SuffixWithRun(s, p + 1, BranchRun(s, p + 1)) else None
  }

  /** `Snapshot v` is written at `i`. */
  predicate PrefixAt(s: string, i: nat)
  {
    i + |SNAPSHOT| <= |s| && s[i..i + |SNAPSHOT|] == SNAPSHOT
  }

  /** `(\d+)\.` at `a` for the major number, then the rest of the pattern. */
  function MajorFrom(s: string, a: nat): Option<Version>
    requires a <= |s|
  {
    var n := DigitRun(s, a);
    if n > 0 && a + n < |s| && s[a + n] == '.' then MinorFrom(s, NumberAt(s, a), a + n + 1) else None
  }

  /** `(\d+)\.` at `b` for the minor number, then the rest of the pattern. */
  function MinorFrom(s: string, major: nat, b: nat): Option<Version>
    requires b <= |s|
  {
    var n := DigitRun(s, b);
    if n > 0 && b + n < |s| && s[b + n] == '.' then PatchFrom(s, major, NumberAt(s, b), b + n + 1) else None
  }

  /** `(\d+)` at `c` for the patch number, then the optional suffix group. */
  function PatchFrom(s: string, major: nat, minor: nat, c: nat): Option<Version>
    requires c <= |s|
  {
    var n := DigitRun(s, c);
    if n > 0 then Some(Version(major, minor, NumberAt(s, c), SuffixAt(s, c + n))) else None
  }

  /** The whole pattern anchored at `i`. */
  function MatchAt(s: string, i: nat): Option<Version>
  {
    if PrefixAt(s, i) then MajorFrom(s, i + |SNAPSHOT|) else None
  }

  /** The pattern's match, or none, at each position of `s` from 0 to `|s|`. */
  function Matches(s: string): (ms: seq<Option<Version>>)
    ensures |ms| == |s| + 1 && forall j :: 0 <= j <= |s| ==> ms[j] == MatchAt(s, j)
  {
    seq(|s| + 1, j requires 0 <= j <= |s| => MatchAt(s, j))
  }

  /** The first match in `ms` from `i` on. */
  function FirstSome(ms: seq<Option<Version>>, i: nat): Option<Version>
    requires i <= |ms|
    decreases |ms| - i
  {
    if i == |ms| then None
    else if ms[i].Some? then ms[i]
    else FirstSome(ms, i + 1)
  }

  lemma {:induction false} FirstSomeNone(ms: seq<Option<Version>>, i: nat)
    requires i <= |ms|
    ensures FirstSome(ms, i).None? <==> forall j :: i <= j < |ms| ==> ms[j].None?
    decreases |ms| - i
  {
    if i < |ms| && ms[i].None? {
      FirstSomeNone(ms, i + 1);
    }
  }

  lemma {:induction false} FirstSomeLeftmost(ms: seq<Option<Version>>, i: nat) returns (j: nat)
    requires i <= |ms| && FirstSome(ms, i).Some?
    ensures i <= j < |ms| && ms[j] == FirstSome(ms, i)
    ensures forall k :: i <= k < j ==> ms[k].None?
    decreases |ms| - i
  {
    if ms[i].Some? {
      j := i;
    } else {
      j := FirstSomeLeftmost(ms, i + 1);
    }
  }

  /** `re.search`: the match at the leftmost position from `i` on where the pattern matches. */
  function Search(s: string, i: nat): Option<Version>
    requires i <= |s|
  {
    FirstSome(Matches(s), i)
  }

  /** The search finds nothing exactly when the pattern matches at no position. */
  lemma SearchNone(s: string, i: nat)
    requires i <= |s|
    ensures Search(s, i).None? <==> forall j :: i <= j <= |s| ==> MatchAt(s, j).None?
  {
    FirstSomeNone(Matches(s), i);
  }

  /** What the search finds is the match at a position `j`, and the pattern matches nowhere before `j`. */
  lemma SearchLeftmost(s: string, i: nat) returns (j: nat)
    requires i <= |s| && Search(s, i).Some?
    ensures i <= j <= |s| && MatchAt(s, j) == Search(s, i)
    ensures forall k :: i <= k < j ==> MatchAt(s, k).None?
  {
    var ms := Matches(s);
    j := FirstSomeLeftmost(ms, i);
    forall k | i <= k < j
      ensures MatchAt(s, k).None?
    {
      assert ms[k].None?;
    }
  }

  // ---------------------------------------------------------------------------
  // get_next_version

  /** The options `build.py` passes: `-V`, `-b`, `-M` and `-m`. An absent `-V` is the empty string. */
  datatype Options = Options(version: string, branch: bool, updateMajor: bool, updateMinor: bool)

  datatype VersionError =
    | NoSnapshotInLog   // "Cannot determine next version from git log"
    | NotOnMaster       // "On non-master branch use -l -b"

  /**
   * The next version after the last snapshot `last`. With `-b` the numbers stay and the branch
   * counter goes up by one, starting from 0 unless the last snapshot was on the same branch;
   * otherwise `-M`, then `-m`, then the patch number is bumped.
   */
  function Bump(last: Version, options: Options, branchName: string): Version
  {
    if options.branch then
      var vB: int := if last.suffix.Some? && last.suffix.value.branch == branchName then last.suffix.value.counter else -1;
      Version(last.major, last.minor, last.patch, Some(Suffix(branchName, vB + 1)))
    else if options.updateMajor then Version(last.major + 1, 0, 0, None)
    else if options.updateMinor then Version(last.major, last.minor + 1, 0, None)
    else Version(last.major, last.minor, last.patch + 1, None)
  }

  /** `get_next_version(options)` with the output of `git log -n 100` and of `git rev-parse --abbrev-ref HEAD`. */
  function NextVersion(options: Options, log: string, branchName: string): (r: Result<string, VersionError>)
    ensures options.version != [] ==> r == Ok(options.version)
    ensures r == Err(NoSnapshotInLog) <==>
      (options.version == [] && forall j :: 0 <= j <= |log| ==> MatchAt(log, j).None?)
    ensures r == Err(NotOnMaster) <==>
      (options.version == [] && (exists j :: 0 <= j <= |log| && MatchAt(log, j).Some?)
       && !options.branch && branchName != "master")
  {
    SearchNone(log, 0);
    if options.version != [] then Ok(options.version)
    else
      match Search(log, 0)
      case None => Err(NoSnapshotInLog)
      case Some(last) =>
        if !options.branch && branchName != "master" then Err(NotOnMaster)
        else Ok(Format(Bump(last, options, branchName)))
  }

  // ---------------------------------------------------------------------------
  // Properties of the bump

  /**
   * A version computed from the log is the bump of the leftmost snapshot line the pattern matches.
   */
  lemma NextVersionOfLeftmost(options: Options, log: string, branchName: string) returns (j: nat)
    requires options.version == [] && NextVersion(options, log, branchName).Ok?
    ensures j <= |log| && MatchAt(log, j).Some? && forall k :: 0 <= k < j ==> MatchAt(log, k).None?
    ensures NextVersion(options, log, branchName).value == Format(Bump(MatchAt(log, j).value, options, branchName))
  {
    j := SearchLeftmost(log, 0);
  }

  /** Without `-b` the new version is strictly later than the last snapshot and carries no suffix. */
  lemma BumpAdvances(last: Version, options: Options, branchName: string)
    requires !options.branch
    ensures NumbersBefore(last, Bump(last, options, branchName))
    ensures Bump(last, options, branchName).suffix.None?
  {
  }

  /**
   * With `-b` the numbers are kept; the counter follows the last snapshot's when it was made on
   * the same branch, and starts at 0 otherwise.
   */
  lemma BranchBump(last: Version, options: Options, branchName: string)
    requires options.branch
    ensures var next := Bump(last, options, branchName);
      next.major == last.major && next.minor == last.minor && next.patch == last.patch
      && next.suffix.Some? && next.suffix.value.branch == branchName
      && (last.suffix.Some? && last.suffix.value.branch == branchName ==> next.suffix.value.counter == last.suffix.value.counter + 1)
      && (!(last.suffix.Some? && last.suffix.value.branch == branchName) ==> next.suffix.value.counter == 0)
  {
  }

  // ---------------------------------------------------------------------------
  // The snapshot commit message re-parses

  /** A greedy `\d+` at `i` takes exactly the numeral `d` written there. */
  lemma {:induction false} DigitRunOf(s: string, i: nat, d: string)
    requires i + |d| <= |s| && s[i..i + |d|] == d && Numerals.AllDigits(d)
    requires i + |d| == |s| || !Numerals.IsDigit(s[i + |d|])
    ensures DigitRun(s, i) == |d|
    decreases |d|
  {
    if d != [] {
      assert s[i] == d[0];
      assert s[i + 1..i + 1 + |d[1..]|] == d[1..];
      DigitRunOf(s, i + 1, d[1..]);
    }
  }

  /** A greedy `[\w\-]+` at `i` takes exactly the branch name `b` written there. */
  lemma {:induction false} BranchRunOf(s: string, i: nat, b: string)
    requires i + |b| <= |s| && s[i..i + |b|] == b && AllBranchChars(b)
    requires i + |b| == |s| || !IsBranchChar(s[i + |b|])
    ensures BranchRun(s, i) == |b|
    decreases |b|
  {
    if b != [] {
      assert s[i] == b[0];
      assert s[i + 1..i + 1 + |b[1..]|] == b[1..];
      BranchRunOf(s, i + 1, b[1..]);
    }
  }

  /** A branch name the pattern can read back: non-empty and made of `[\w\-]` characters. */
  predicate ValidBranch(v: Version)
  {
    v.suffix.Some? ==> v.suffix.value.branch != [] && AllBranchChars(v.suffix.value.branch)
  }

  /** Text that cannot extend the version before it: nothing, or a character that is neither a digit nor `-`. */
  predicate Ends(rest: string)
  {
    rest == [] || (!Numerals.IsDigit(rest[0]) && rest[0] != '-')
  }

  lemma Assoc(a: string, b: string, c: string)
    ensures a + b + c == a + (b + c)
  {
  }

  /** `s` continues at `i` with `a` and then `b`. */
  lemma SplitAt(s: string, i: nat, a: string, b: string)
    requires i <= |s| && s[i..] == a + b
    ensures i + |a| <= |s| && s[i..i + |a|] == a && s[i + |a|..] == b
  {
    assert s[i..][..|a|] == a;
    assert s[i..][|a|..] == b;
  }

  /** A numeral `d` at `i`, followed by something that is not a digit, is what a greedy `\d+` reads. */
  lemma NumeralThen(s: string, i: nat, d: string, more: string)
    requires d != [] && Numerals.AllDigits(d)
    requires i <= |s| && s[i..] == d + more
    requires more == [] || !Numerals.IsDigit(more[0])
    ensures DigitRun(s, i) == |d| && i + |d| <= |s|
    ensures NumberAt(s, i) == Numerals.DigitsValue(d)
    ensures s[i + |d|..] == more
  {
    SplitAt(s, i, d, more);
    if more != [] {
      assert s[i + |d|] == s[i + |d|..][0];
    }
    DigitRunOf(s, i, d);
  }

  /** The character `c` at `i`, and then `more`. */
  lemma CharThen(s: string, i: nat, c: char, more: string)
    requires i <= |s| && s[i..] == [c] + more
    ensures i < |s| && s[i] == c && s[i + 1..] == more
  {
    SplitAt(s, i, [c], more);
  }

  /** The group matches at `p` once the dash, the branch run from `q`, a separator and the counter at `i` are in place. */
  lemma SuffixFound(s: string, p: nat, q: nat, i: nat, sf: Suffix)
    requires q == p + 1 && i == q + |sf.branch| + 1 && sf.branch != []
    requires i < |s| && s[p] == '-' && s[i - 1] == '.'
    requires s[q..i - 1] == sf.branch && BranchRun(s, q) == |sf.branch|
    requires Numerals.IsDigit(s[i])
    requires NumberAt(s, i) == sf.counter
    ensures SuffixAt(s, p) == Some(sf)
  {
    assert SuffixAt(s, p) == SuffixWithRun(s, q, |sf.branch|);
  }

  /** A suffix written at `p` with the counter numeral `d` reads back as itself. */
  lemma SuffixReadBack(s: string, p: nat, sf: Suffix, d: string, rest: string)
    requires sf.branch != [] && AllBranchChars(sf.branch)
    requires d != [] && Numerals.AllDigits(d) && Numerals.DigitsValue(d) == sf.counter
    requires p <= |s| && s[p..] == "-" + (sf.branch + ("." + (d + rest)))
    requires Ends(rest)
    ensures SuffixAt(s, p) == Some(sf)
  {
    var q := p + 1;
    var i := q + |sf.branch| + 1;
    CharThen(s, p, '-', sf.branch + ("." + (d + rest)));
    SplitAt(s, q, sf.branch, "." + (d + rest));
    CharThen(s, i - 1, '.', d + rest);
    BranchRunOf(s, q, sf.branch);
    NumeralThen(s, i, d, rest);
    SplitAt(s, i, d, rest);
    assert s[i] == d[0];
    SuffixFound(s, p, q, i, sf);
  }

  /** What `Format` writes after the patch number, with the counter written as `d`. */
  function SuffixWith(v: Version, d: string): string
  {
    match v.suffix
    case None => ""
    case Some(sf) => "-" + (sf.branch + ("." + d))
  }

  /** What `Format` writes after the patch number. */
  function SuffixText(v: Version): string
  {
    SuffixWith(v, if v.suffix.Some? then Numerals.NatToString(v.suffix.value.counter) else "")
  }

  /** `(\d+)\.` at `b`, with the run of digits ending just before the dot at `c - 1`. */
  lemma MinorFound(s: string, major: nat, b: nat, c: nat)
    requires b + 1 < c <= |s| && DigitRun(s, b) == c - 1 - b && s[c - 1] == '.'
    ensures MinorFrom(s, major, b) == PatchFrom(s, major, NumberAt(s, b), c)
  {
  }

  /** `(\d+)\.` at `a`, with the run of digits ending just before the dot at `b - 1`. */
  lemma MajorFound(s: string, a: nat, b: nat)
    requires a + 1 < b <= |s| && DigitRun(s, a) == b - 1 - a && s[b - 1] == '.'
    ensures MajorFrom(s, a) == MinorFrom(s, NumberAt(s, a), b)
  {
  }

  /** The pattern matches at 0 once the prefix, the three numbers and their dots, and the suffix are in place. */
  lemma MatchFound(s: string, a: nat, b: nat, c: nat, e: nat, v: Version)
    requires PrefixAt(s, 0) && a == |SNAPSHOT| && a + 1 < b && b + 1 < c && c < e <= |s|
    requires DigitRun(s, a) == b - 1 - a && s[b - 1] == '.' && NumberAt(s, a) == v.major
    requires DigitRun(s, b) == c - 1 - b && s[c - 1] == '.' && NumberAt(s, b) == v.minor
    requires DigitRun(s, c) == e - c && NumberAt(s, c) == v.patch
    requires SuffixAt(s, e) == v.suffix
    ensures MatchAt(s, 0) == Some(v)
  {
    assert PatchFrom(s, v.major, v.minor, c) == Some(v);
    MinorFound(s, v.major, b, c);
    MajorFound(s, a, b);
  }

  /** A numeral: non-empty, all digits, of value `n`. */
  predicate NumeralOf(d: string, n: nat)
  {
    d != [] && Numerals.AllDigits(d) && Numerals.DigitsValue(d) == n
  }

  /** The suffix part of `v`, written at `e` with the counter numeral `dc`, reads back as `v.suffix`. */
  lemma SuffixPartReadBack(s: string, e: nat, v: Version, dc: string, rest: string)
    requires ValidBranch(v) && Ends(rest)
    requires v.suffix.Some? ==> NumeralOf(dc, v.suffix.value.counter)
    requires e <= |s| && s[e..] == SuffixWith(v, dc) + rest
    ensures SuffixAt(s, e) == v.suffix
  {
    if v.suffix.None? {
      if e < |s| {
        assert s[e] == s[e..][0];
      }
    } else {
      var br := v.suffix.value.branch;
      Assoc("-", br + ("." + dc), rest);
      Assoc(br, "." + dc, rest);
      Assoc(".", dc, rest);
      SuffixReadBack(s, e, v.suffix.value, dc, rest);
    }
  }

  /** A numeral of value `n` at `i`, then a dot and `more`. */
  lemma DottedNumeral(s: string, i: nat, d: string, n: nat, more: string)
    requires NumeralOf(d, n) && i <= |s| && s[i..] == d + ("." + more)
    ensures i + |d| < |s| && DigitRun(s, i) == |d| && NumberAt(s, i) == n
    ensures s[i + |d|] == '.' && s[i + |d| + 1..] == more
  {
    NumeralThen(s, i, d, "." + more);
    CharThen(s, i + |d|, '.', more);
  }

  /** `Snapshot v`, the numerals `d0`, `d1`, `d2` with dots between, and a suffix, read back as `v`. */
  lemma VersionReadBack(s: string, v: Version, d0: string, d1: string, d2: string, dc: string, rest: string)
    requires ValidBranch(v) && Ends(rest)
    requires NumeralOf(d0, v.major) && NumeralOf(d1, v.minor) && NumeralOf(d2, v.patch)
    requires v.suffix.Some? ==> NumeralOf(dc, v.suffix.value.counter)
    requires PrefixAt(s, 0) && s[|SNAPSHOT|..] == d0 + ("." + (d1 + ("." + (d2 + (SuffixWith(v, dc) + rest)))))
    ensures MatchAt(s, 0) == Some(v)
  {
    var r3 := SuffixWith(v, dc) + rest;
    var r2 := d2 + r3;
    var a := |SNAPSHOT|;
    var b := a + |d0| + 1;
    var c := b + |d1| + 1;
    var e := c + |d2|;
    DottedNumeral(s, a, d0, v.major, d1 + ("." + r2));
    DottedNumeral(s, b, d1, v.minor, r2);
    NumeralThen(s, c, d2, r3);
    SuffixPartReadBack(s, e, v, dc, rest);
    MatchFound(s, a, b, c, e, v);
  }

  /**
   * The commit message `"Snapshot " + ver` that `lock` writes, followed by anything that cannot
   * continue the version, matches the pattern again and gives back the version that was formatted.
   */
  lemma FormatReparses(v: Version, rest: string)
    requires ValidBranch(v) && Ends(rest)
    ensures MatchAt("Snapshot " + Format(v) + rest, 0) == Some(v)
  {
    var d0 := Numerals.NatToString(v.major);
    var d1 := Numerals.NatToString(v.minor);
    var d2 := Numerals.NatToString(v.patch);
    var dc := if v.suffix.Some? then Numerals.NatToString(v.suffix.value.counter) else "";
    Numerals.NatToStringValue(v.major);
    Numerals.NatToStringValue(v.minor);
    Numerals.NatToStringValue(v.patch);
    if v.suffix.Some? {
      Numerals.NatToStringValue(v.suffix.value.counter);
    }
    var t := SuffixWith(v, dc);
    var f := d0 + ("." + (d1 + ("." + (d2 + t))));
    assert "Snapshot " + ("v" + f) == SNAPSHOT + f;
    Assoc(SNAPSHOT, f, rest);
    Assoc(d0, "." + (d1 + ("." + (d2 + t))), rest);
    Assoc(".", d1 + ("." + (d2 + t)), rest);
    Assoc(d1, "." + (d2 + t), rest);
    Assoc(".", d2 + t, rest);
    Assoc(d2, t, rest);
    var s := "Snapshot " + Format(v) + rest;
    SplitAt(s, 0, SNAPSHOT, d0 + ("." + (d1 + ("." + (d2 + (t + rest))))));
    VersionReadBack(s, v, d0, d1, d2, dc, rest);
  }

  /**
   * The version `get_next_version` returns, committed as `"Snapshot <ver>"`, is found again by the
   * next run's search, with the numbers and the branch counter it was given.
   */
  lemma NextVersionReparses(options: Options, log: string, branchName: string, rest: string)
    requires options.version == []
    requires NextVersion(options, log, branchName).Ok?
    requires options.branch ==> branchName != [] && AllBranchChars(branchName)
    requires Ends(rest)
    ensures Search("Snapshot " + NextVersion(options, log, branchName).value + rest, 0)
      == Some(Bump(Search(log, 0).value, options, branchName))
  {
    var v := Bump(Search(log, 0).value, options, branchName);
    FormatReparses(v, rest);
  }

}
