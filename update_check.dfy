/**
 * The version logic of the update check (`HaystackApp/UpdateCheckController.swift`): reading the
 * newest release's version off the releases page, and comparing it with the installed version.
 * Fetching the page and downloading the update are not modelled.
 */
module UpdateCheck {
  import opened Common
  import Strings
  import Numerals

  /** `VersionCompare`, from the installed version's point of view. */
  datatype VersionCompare = Same | Newer | Older

  /** The opposite verdict, for the arguments swapped. */
  function Flip(c: VersionCompare): VersionCompare
  {
    match c
    case Same => Same
    case Newer => Older
    case Older => Newer
  }

  // ---------------------------------------------------------------------------
  // compareVersions

  /**
   * The comparison of the available version's parts with the installed version's, from the left:
   * the first pair that differs decides, a part that is not an integer makes the installed version
   * older, and when one list is a prefix of the other the longer one is the newer version.
   */
  function CompareParts(available: seq<string>, installed: seq<string>): (c: VersionCompare)
  {
    if available == [] then (if |installed| > 0 then Newer else Same)
    else if installed == [] then Older
    else match (Numerals.ParseInt(available[0]), Numerals.ParseInt(installed[0]))
      case (Some(a), Some(i)) =>
        if a > i then Older else if i > a then Newer else CompareParts(available[1..], installed[1..])
      case _ => Older
  }

  /** `compareVersions(availableVersion:installedVersion:)`: the versions split at their dots (empty parts dropped). */
  function CompareVersions(availableVersion: string, installedVersion: string): (c: VersionCompare)
    ensures availableVersion == installedVersion ==>
      (c == Same <==> Numeric(Strings.Split(availableVersion, '.')))
  {
    CompareReflexive(Strings.Split(availableVersion, '.'));
    CompareParts(Strings.Split(availableVersion, '.'), Strings.Split(installedVersion, '.'))
  }

  /**
   * The loop of `compareVersions` over the split parts: the first pair that differs or does not
   * parse returns early, running out of installed parts makes the installed version older, and
   * after the loop extra installed parts make it newer.
   */
  method CompareVersionParts(available: seq<string>, installed: seq<string>) returns (c: VersionCompare)
    ensures c == CompareParts(available, installed)
  {
    var idx := 0;
    while idx < |available|
      invariant idx <= |available| && idx <= |installed|
      invariant CompareParts(available[idx..], installed[idx..]) == CompareParts(available, installed)
    {
      if idx < |installed| {
        var avpi := Numerals.ParseInt(available[idx]);
        var ivpi := Numerals.ParseInt(installed[idx]);
        if avpi.None? || ivpi.None? {
          return Older;
        }
        if avpi.value > ivpi.value {
          return Older;
        } else if ivpi.value > avpi.value {
          return Newer;
        }
        assert available[idx..][1..] == available[idx + 1..] && installed[idx..][1..] == installed[idx + 1..];
      } else {
        return Older;
      }
      idx := idx + 1;
    }
    if |installed| > |available| {
      return Newer;
    }
    c := Same;
  }

  /** A version written as non-empty runs of digits joined by dots splits back into those runs. */
  lemma CompareVersionsOfParts(available: seq<string>, installed: seq<string>)
    requires forall k :: 0 <= k < |available| ==> available[k] != [] && Numerals.AllDigits(available[k])
    requires forall k :: 0 <= k < |installed| ==> installed[k] != [] && Numerals.AllDigits(installed[k])
    ensures CompareVersions(Strings.Join(available, '.'), Strings.Join(installed, '.')) == CompareParts(available, installed)
  {
    Strings.SplitJoin(available, '.');
    Strings.SplitJoin(installed, '.');
  }

  /** Every part is an integer. */
  predicate Numeric(parts: seq<string>)
  {
    forall k :: 0 <= k < |parts| ==> Numerals.ParseInt(parts[k]).Some?
  }

  /** The first `n` parts of both lists are integers and pairwise equal. */
  predicate EqualPrefix(available: seq<string>, installed: seq<string>, n: nat)
    requires n <= |available| && n <= |installed|
  {
    forall k :: 0 <= k < n ==>
      Numerals.ParseInt(available[k]).Some? && Numerals.ParseInt(available[k]) == Numerals.ParseInt(installed[k])
  }

  lemma EqualPrefixTail(available: seq<string>, installed: seq<string>, n: nat)
    requires 0 < n <= |available| && n <= |installed| && EqualPrefix(available, installed, n)
    ensures EqualPrefix(available[1..], installed[1..], n - 1)
  {
    forall k | 0 <= k < n - 1
      ensures Numerals.ParseInt(available[1..][k]).Some? &&
        Numerals.ParseInt(available[1..][k]) == Numerals.ParseInt(installed[1..][k])
    {
      assert available[1..][k] == available[k + 1] && installed[1..][k] == installed[k + 1];
    }
  }

  /**
   * Past an equal integer prefix, the first pair of parts decides: the larger available part makes
   * the installed version older, the larger installed part makes it newer, and a part that is not an
   * integer on either side makes it older.
   */
  lemma {:induction false} FirstDifferenceDecides(available: seq<string>, installed: seq<string>, n: nat)
    requires n < |available| && n < |installed| && EqualPrefix(available, installed, n)
    requires Numerals.ParseInt(available[n]) != Numerals.ParseInt(installed[n]) ||
      Numerals.ParseInt(available[n]).None?
    ensures Numerals.ParseInt(available[n]).None? || Numerals.ParseInt(installed[n]).None? ==>
      CompareParts(available, installed) == Older
    ensures Numerals.ParseInt(available[n]).Some? && Numerals.ParseInt(installed[n]).Some? ==>
      CompareParts(available, installed) ==
        if Numerals.ParseInt(available[n]).value > Numerals.ParseInt(installed[n]).value then Older else Newer
  {
    if n > 0 {
      EqualPrefixTail(available, installed, n);
      FirstDifferenceDecides(available[1..], installed[1..], n - 1);
      assert available[1..][n - 1] == available[n] && installed[1..][n - 1] == installed[n];
      assert Numerals.ParseInt(available[0]).Some? && Numerals.ParseInt(available[0]) == Numerals.ParseInt(installed[0]);
    }
  }

  /**
   * When one list is an equal integer prefix of the other, the lengths decide: extra available parts
   * make the installed version older, extra installed parts make it newer, and equal lists are the same.
   */
  lemma {:induction false} ExtraPartsDecide(available: seq<string>, installed: seq<string>)
    requires |available| <= |installed| ==> EqualPrefix(available, installed, |available|)
    requires |installed| <= |available| ==> EqualPrefix(available, installed, |installed|)
    ensures CompareParts(available, installed) ==
      if |available| > |installed| then Older else if |available| < |installed| then Newer else Same
  {
    if available != [] && installed != [] {
      if |available| <= |installed| {
        EqualPrefixTail(available, installed, |available|);
      } else {
        EqualPrefixTail(available, installed, |installed|);
      }
      assert Numerals.ParseInt(available[0]).Some? && Numerals.ParseInt(available[0]) == Numerals.ParseInt(installed[0]);
      ExtraPartsDecide(available[1..], installed[1..]);
    }
  }

  /** For integer parts, swapping the versions swaps the verdict. */
  lemma {:induction false} CompareAntisymmetric(available: seq<string>, installed: seq<string>)
    requires Numeric(available) && Numeric(installed)
    ensures CompareParts(installed, available) == Flip(CompareParts(available, installed))
  {
    if available != [] && installed != [] {
      assert Numerals.ParseInt(available[0]).Some? && Numerals.ParseInt(installed[0]).Some?;
      assert Numeric(available[1..]) by {
        forall k | 0 <= k < |available[1..]| ensures Numerals.ParseInt(available[1..][k]).Some? {
          assert available[1..][k] == available[k + 1];
        }
      }
      assert Numeric(installed[1..]) by {
        forall k | 0 <= k < |installed[1..]| ensures Numerals.ParseInt(installed[1..][k]).Some? {
          assert installed[1..][k] == installed[k + 1];
        }
      }
      CompareAntisymmetric(available[1..], installed[1..]);
    }
  }

  /** A version is the same as itself exactly when all its parts are integers. */
  lemma {:induction false} CompareReflexive(parts: seq<string>)
    ensures CompareParts(parts, parts) == Same <==> Numeric(parts)
    ensures !Numeric(parts) ==> CompareParts(parts, parts) == Older
  {
    if parts != [] {
      CompareReflexive(parts[1..]);
      if Numerals.ParseInt(parts[0]).Some? {
        if Numeric(parts[1..]) {
          forall k | 0 <= k < |parts| ensures Numerals.ParseInt(parts[k]).Some? {
            if k > 0 {
              assert parts[k] == parts[1..][k - 1];
            }
          }
        } else {
          var k :| 0 <= k < |parts[1..]| && Numerals.ParseInt(parts[1..][k]).None?;
          assert parts[k + 1] == parts[1..][k];
        }
      }
    }
  }

  // ---------------------------------------------------------------------------
  // getVersion

  /**
   * The characters the pattern's `.` does not match: the regular-expression engine's line
   * terminators.
   */
  predicate IsLineTerminator(c: char)
  {
    c == '\n' || c == '\U{000B}' || c == '\U{000C}' || c == '\r' || c == '\U{0085}' || c == '\U{2028}' || c == '\U{2029}'
  }

  /** The number of ASCII digits at `i` and after, up to the first other character. */
  function DigitRun(s: string, i: nat): (n: nat)
    requires i <= |s|
    ensures i + n <= |s|
    decreases |s| - i
  {
    if i < |s| && Numerals.IsDigit(s[i]) then 1 + DigitRun(s, i + 1) else 0
  }

  /**
   * The optional group `(.[0-9]+)?` at `i`, greedily: one character other than a line terminator and
   * the longest run of digits after it, when there is at least one; otherwise nothing.
   */
  function OptionalPart(s: string, i: nat): (n: nat)
    requires i <= |s|
    ensures i + n <= |s|
  {
    if i < |s| && !IsLineTerminator(s[i]) && DigitRun(s, i + 1) > 0 then 1 + DigitRun(s, i + 1) else 0
  }

  const RELEASE: string := "Release v"

  /** The pattern can start matching at `p`: "Release v" and a digit. */
  predicate MatchAt(s: string, p: nat)
  {
    p + 10 <= |s| && s[p..p + 9] == RELEASE && Numerals.IsDigit(s[p + 9])
  }

  /** The first match at `p` or later. */
  function FirstMatchFrom(s: string, p: nat): (r: Option<nat>)
    ensures r.Some? ==> p <= r.value && MatchAt(s, r.value) && forall k :: p <= k < r.value ==> !MatchAt(s, k)
    ensures r.None? ==> forall k :: p <= k ==> !MatchAt(s, k)
    decreases |s| - p
  {
    if p + 10 > |s| then None
    else if MatchAt(s, p) then Some(p)
    else FirstMatchFrom(s, p + 1)
  }

  /** Capture group 1 of a match at `p`: 'v', the digits, and the two optional parts. */
  function VersionGroup(s: string, p: nat): (g: string)
    requires p + 9 <= |s|
  {
    var start := p + 8;
    var major := DigitRun(s, start + 1);
    var second := OptionalPart(s, start + 1 + major);
    var third := OptionalPart(s, start + 1 + major + second);
    s[start..start + 1 + major + second + third]
  }

  predicate NotV(c: char)
  {
    c != 'v'
  }

  /**
   * `getVersion(from:)`: capture group 1 of the first match of `Release (v[0-9]+(.[0-9]+)?(.[0-9]+)?)`
   * with every 'v' removed, or nothing without a match.
   */
  function GetVersion(htmlString: string): (r: Option<string>)
    ensures r.None? <==> forall k :: 0 <= k ==> !MatchAt(htmlString, k)
    ensures r.Some? ==> 'v' !in r.value
  {
    match FirstMatchFrom(htmlString, 0)
    case None => None
    case Some(p) =>
      var g := Strings.Filter(VersionGroup(htmlString, p), NotV);
      assert forall i :: 0 <= i < |g| ==> NotV(g[i]);
      Some(g)
  }

  lemma FilterOfDigits(s: string)
    requires Numerals.AllDigits(s)
    ensures Strings.Filter(s, NotV) == s
  {
    Strings.FilterIdentity(s, NotV);
  }

  /** The characters from `i` up to `e` are ASCII digits. */
  predicate DigitsBetween(s: string, i: nat, e: nat)
    requires i <= e <= |s|
  {
    forall k :: i <= k < e ==> Numerals.IsDigit(s[k])
  }

  /** The digits from `i` up to `e`, where a non-digit or the end of the string stops them. */
  lemma {:induction false} DigitRunTo(s: string, i: nat, e: nat)
    requires i <= e <= |s| && DigitsBetween(s, i, e) && (e == |s| || !Numerals.IsDigit(s[e]))
    ensures DigitRun(s, i) == e - i
    decreases e - i
  {
    if i < e {
      DigitRunTo(s, i + 1, e);
    }
  }

  /** A separator at `i` followed by digits up to `e`, taken greedily by an optional part. */
  lemma OptionalPartTo(s: string, i: nat, e: nat)
    requires i + 1 < e <= |s| && !IsLineTerminator(s[i]) && DigitsBetween(s, i + 1, e)
    requires e == |s| || !Numerals.IsDigit(s[e])
    ensures OptionalPart(s, i) == e - i
  {
    DigitRunTo(s, i + 1, e);
  }

  /**
   * A match at `p` whose digits end at `e1`, followed by a separator at `e1` and digits up to `e2`,
   * and a separator at `e2` and digits up to `e3`: the capture runs from the 'v' to `e3`.
   */
  lemma GroupAt(html: string, p: nat, e1: nat, e2: nat, e3: nat)
    requires p + 9 < e1 && e1 + 1 < e2 && e2 + 1 < e3 <= |html|
    requires html[p..p + 9] == RELEASE
    requires DigitsBetween(html, p + 9, e1) && DigitsBetween(html, e1 + 1, e2) && DigitsBetween(html, e2 + 1, e3)
    requires !Numerals.IsDigit(html[e1]) && !IsLineTerminator(html[e1])
    requires !Numerals.IsDigit(html[e2]) && !IsLineTerminator(html[e2])
    requires e3 == |html| || !Numerals.IsDigit(html[e3])
    ensures MatchAt(html, p)
    ensures VersionGroup(html, p) == html[p + 8..e3]
  {
    DigitRunTo(html, p + 9, e1);
    OptionalPartTo(html, e1, e2);
    OptionalPartTo(html, e2, e3);
  }

  /**
   * The release version read off the first "Release v" (at `p`) followed by digits up to `e1`, a
   * separator, digits up to `e2`, a separator and digits up to `e3`: exactly the text from the
   * first digit to `e3`. The pattern's unescaped '.' lets any separator through, as long as it is
   * not a digit, a line terminator or 'v'.
   */
  lemma GetVersionReadsRelease(html: string, p: nat, e1: nat, e2: nat, e3: nat)
    requires forall k :: 0 <= k < p ==> !MatchAt(html, k)
    requires p + 9 < e1 && e1 + 1 < e2 && e2 + 1 < e3 <= |html|
    requires html[p..p + 9] == RELEASE
    requires DigitsBetween(html, p + 9, e1) && DigitsBetween(html, e1 + 1, e2) && DigitsBetween(html, e2 + 1, e3)
    requires !Numerals.IsDigit(html[e1]) && !IsLineTerminator(html[e1]) && html[e1] != 'v'
    requires !Numerals.IsDigit(html[e2]) && !IsLineTerminator(html[e2]) && html[e2] != 'v'
    requires e3 == |html| || !Numerals.IsDigit(html[e3])
    ensures GetVersion(html) == Some(html[p + 9..e3])
  {
    GroupAt(html, p, e1, e2, e3);
    assert FirstMatchFrom(html, 0) == Some(p);
    var v := html[p + 9..e3];
    var g := VersionGroup(html, p);
    assert g[0] == html[p..p + 9][8] == 'v';
    assert g[1..] == v;
    assert Strings.Filter(g, NotV) == Strings.Filter(v, NotV);
    forall i | 0 <= i < |v|
      ensures NotV(v[i])
    {
      assert v[i] == html[p + 9 + i];
    }
    Strings.FilterIdentity(v, NotV);
  }

  /**
   * A release with a single number ("Release v1" before markup): the version is that number, since
   * neither optional part can match when no digit follows the character after it.
   */
  lemma GetVersionReadsMajor(html: string, p: nat, e1: nat)
    requires forall k :: 0 <= k < p ==> !MatchAt(html, k)
    requires p + 9 < e1 <= |html| && html[p..p + 9] == RELEASE && DigitsBetween(html, p + 9, e1)
    requires e1 == |html| || (!Numerals.IsDigit(html[e1]) && (e1 + 1 == |html| || !Numerals.IsDigit(html[e1 + 1])))
    ensures GetVersion(html) == Some(html[p + 9..e1])
  {
    DigitRunTo(html, p + 9, e1);
    assert MatchAt(html, p);
    assert FirstMatchFrom(html, 0) == Some(p);
    if e1 < |html| {
      assert DigitRun(html, e1 + 1) == 0;
    }
    var v := html[p + 9..e1];
    var g := VersionGroup(html, p);
    assert g == html[p + 8..e1];
    assert g[0] == html[p..p + 9][8] == 'v';
    assert g[1..] == v;
    assert Strings.Filter(g, NotV) == Strings.Filter(v, NotV);
    forall i | 0 <= i < |v|
      ensures NotV(v[i])
    {
      assert v[i] == html[p + 9 + i];
    }
    Strings.FilterIdentity(v, NotV);
  }

  /**
   * A release with two numbers ("Release v0.5"): the version is the text from the first digit to
   * the end of the second number, when no digit follows the character after it.
   */
  lemma GetVersionReadsMinor(html: string, p: nat, e1: nat, e2: nat)
    requires forall k :: 0 <= k < p ==> !MatchAt(html, k)
    requires p + 9 < e1 && e1 + 1 < e2 <= |html|
    requires html[p..p + 9] == RELEASE
    requires DigitsBetween(html, p + 9, e1) && DigitsBetween(html, e1 + 1, e2)
    requires !Numerals.IsDigit(html[e1]) && !IsLineTerminator(html[e1]) && html[e1] != 'v'
    requires e2 == |html| || (!Numerals.IsDigit(html[e2]) && (e2 + 1 == |html| || !Numerals.IsDigit(html[e2 + 1])))
    ensures GetVersion(html) == Some(html[p + 9..e2])
  {
    DigitRunTo(html, p + 9, e1);
    OptionalPartTo(html, e1, e2);
    assert MatchAt(html, p);
    assert FirstMatchFrom(html, 0) == Some(p);
    if e2 < |html| {
      assert DigitRun(html, e2 + 1) == 0;
    }
    var v := html[p + 9..e2];
    var g := VersionGroup(html, p);
    assert g == html[p + 8..e2];
    assert g[0] == html[p..p + 9][8] == 'v';
    assert g[1..] == v;
    assert Strings.Filter(g, NotV) == Strings.Filter(v, NotV);
    forall i | 0 <= i < |v|
      ensures NotV(v[i])
    {
      assert v[i] == html[p + 9 + i];
    }
    Strings.FilterIdentity(v, NotV);
  }

  /**
   * The two-number releases of the unit tests: "<h1>Release v0.5</h1>" reads "0.5" and
   * "<h1>Release v1.5</h1>" reads "1.5"; any leading digit reads the same way.
   */
  lemma GetVersionTwoPartSample(h: string, d: char)
    requires Numerals.IsDigit(d) && h == "<h1>Release v" + [d] + ".5</h1>"
    ensures GetVersion(h) == Some([d] + ".5")
  {
    assert h[4..13] == RELEASE;
    assert DigitsBetween(h, 13, 14) && DigitsBetween(h, 15, 16);
    forall k | 0 <= k < 4 ensures !MatchAt(h, k) {
      assert h[k] != 'R';
      if k + 9 <= |h| {
        assert h[k..k + 9][0] == h[k];
      }
    }
    GetVersionReadsMinor(h, 4, 14, 16);
    assert h[13..16] == [d] + ".5";
  }
}
