/** String helpers with the library semantics the sources rely on. */
module Strings {

  /** Index of the first `c` in `s`, or `|s|` when there is none. */
  function FirstIndexOf(s: string, c: char): (k: nat)
    ensures k <= |s|
    ensures forall i :: 0 <= i < k ==> s[i] != c
    ensures k < |s| ==> s[k] == c
  {
    if s == [] then 0
    else if s[0] == c then 0
    else 1 + FirstIndexOf(s[1..], c)
  }

  /**
   * Swift's `split(separator:)` with its default `omittingEmptySubsequences: true`:
   * the maximal runs of characters other than `sep`, in order.
   */
  function Split(s: string, sep: char): (parts: seq<string>)
    ensures forall i :: 0 <= i < |parts| ==> parts[i] != [] && sep !in parts[i]
    decreases |s|
  {
    if s == [] then []
    else if s[0] == sep then Split(s[1..], sep)
    else
      var k := FirstIndexOf(s, sep);
      [s[..k]] + Split(s[k..], sep)
  }

  /** `joined(separator:)` / Python's `sep.join(parts)` for a one-character separator. */
  function Join(parts: seq<string>, sep: char): string
  {
    if |parts| == 0 then ""
    else if |parts| == 1 then parts[0]
    else parts[0] + [sep] + Join(parts[1..], sep)
  }

  predicate SplitSafe(parts: seq<string>, sep: char)
  {
    forall i :: 0 <= i < |parts| ==> parts[i] != [] && sep !in parts[i]
  }

  lemma SplitOfLeadingSep(s: string, sep: char)
    ensures Split([sep] + s, sep) == Split(s, sep)
  {
    assert ([sep] + s)[1..] == s;
  }

  lemma {:induction false} SplitJoin(parts: seq<string>, sep: char)
    requires SplitSafe(parts, sep)
    ensures Split(Join(parts, sep), sep) == parts
    decreases |parts|
  {
    if |parts| == 0 {
    } else {
      var p := parts[0];
      var rest := if |parts| == 1 then "" else [sep] + Join(parts[1..], sep);
      var s := p + rest;
      assert Join(parts, sep) == s;
      FirstIndexOfPrefix(p, rest, sep);
      assert s[..|p|] == p;
      assert s[|p|..] == rest;
      if |parts| > 1 {
        SplitOfLeadingSep(Join(parts[1..], sep), sep);
        SplitJoin(parts[1..], sep);
        assert parts == [p] + parts[1..];
      }
    }
  }

  lemma FirstIndexOfPrefix(p: string, rest: string, sep: char)
    requires p != [] && sep !in p
    requires rest == [] || rest[0] == sep
    ensures FirstIndexOf(p + rest, sep) == |p|
  {
    assert forall i :: 0 <= i < |p| ==> (p + rest)[i] == p[i];
    if rest != [] {
      assert (p + rest)[|p|] == sep;
    }
  }

  /** `haystack` starts with `needle`. */
  predicate StartsWith(haystack: string, needle: string)
  {
    |needle| <= |haystack| && haystack[..|needle|] == needle
  }

  /** Python's `needle in haystack` / Swift's `contains` for substrings. */
  predicate Contains(haystack: string, needle: string)
    decreases |haystack|
  {
    StartsWith(haystack, needle) || (haystack != [] && Contains(haystack[1..], needle))
  }

  lemma {:induction false} ContainsAt(haystack: string, needle: string, i: nat)
    requires i + |needle| <= |haystack| && haystack[i..i + |needle|] == needle
    ensures Contains(haystack, needle)
    decreases i
  {
    if i > 0 {
      assert haystack[1..][i - 1..i - 1 + |needle|] == needle;
      ContainsAt(haystack[1..], needle, i - 1);
    }
  }

  /** Every occurrence of the character `c` replaced by `r` (Python `str.replace`, Swift `replacingOccurrences`). */
  function ReplaceChar(s: string, c: char, r: string): (t: string)
    ensures c !in r ==> c !in t
    ensures forall x :: x in t ==> (x in s && x != c) || x in r
  {
    if s == [] then ""
    else (if s[0] == c then r else [s[0]]) + ReplaceChar(s[1..], c, r)
  }

  lemma ReplaceCharAppend(a: string, b: string, c: char, r: string)
    ensures ReplaceChar(a + b, c, r) == ReplaceChar(a, c, r) + ReplaceChar(b, c, r)
  {
    if a != [] {
      assert (a + b)[0] == a[0] && (a + b)[1..] == a[1..] + b;
      ReplaceCharAppend(a[1..], b, c, r);
      var head := if a[0] == c then r else [a[0]];
      calc {
        ReplaceChar(a + b, c, r);
        head + ReplaceChar(a[1..] + b, c, r);
        head + (ReplaceChar(a[1..], c, r) + ReplaceChar(b, c, r));
        (head + ReplaceChar(a[1..], c, r)) + ReplaceChar(b, c, r);
      }
    } else {
      assert a + b == b;
    }
  }

  /** Number of occurrences of `c` in `s`. */
  function CountChar(s: string, c: char): nat
  {
    if s == [] then 0 else (if s[0] == c then 1 else 0) + CountChar(s[1..], c)
  }

  lemma ReplaceCharLength(s: string, c: char, r: string)
    ensures |ReplaceChar(s, c, r)| == |s| + CountChar(s, c) * (|r| - 1)
  {
  }

  /** Characters of `s` that satisfy `keep`, in order (Swift's `filter`). */
  function Filter(s: string, keep: char -> bool): (t: string)
    ensures |t| <= |s|
    ensures forall i :: 0 <= i < |t| ==> keep(t[i])
  {
    if s == [] then "" else (if keep(s[0]) then [s[0]] else "") + Filter(s[1..], keep)
  }

  lemma FilterIdentity(s: string, keep: char -> bool)
    requires forall i :: 0 <= i < |s| ==> keep(s[i])
    ensures Filter(s, keep) == s
  {
    if s != [] {
      FilterIdentity(s[1..], keep);
    }
  }

  /** Concatenation of a list of strings (Swift's `joined()`, Python's `"".join`). */
  function Concat(parts: seq<string>): string
  {
    if parts == [] then "" else parts[0] + Concat(parts[1..])
  }

  lemma ConcatAppend(a: seq<string>, b: seq<string>)
    ensures Concat(a + b) == Concat(a) + Concat(b)
  {
    if a != [] {
      assert (a + b)[0] == a[0] && (a + b)[1..] == a[1..] + b;
      ConcatAppend(a[1..], b);
      calc {
        Concat(a + b);
        a[0] + Concat(a[1..] + b);
        a[0] + (Concat(a[1..]) + Concat(b));
        (a[0] + Concat(a[1..])) + Concat(b);
      }
    } else {
      assert a + b == b;
    }
  }

  /**
   * Lexicographic order by Unicode scalar value: Python's `str` `<`. Swift's `String` `<` compares
   * the canonical (NFC) forms, so it agrees with this order only on text already in NFC.
   */
  predicate Less(a: string, b: string)
    decreases |a|
  {
    if a == [] then b != []
    else if b == [] then false
    else if a[0] != b[0] then a[0] < b[0]
    else Less(a[1..], b[1..])
  }

  predicate LessEq(a: string, b: string)
  {
    a == b || Less(a, b)
  }

  lemma {:induction false} LessIrreflexive(a: string)
    ensures !Less(a, a)
    decreases |a|
  {
    if a != [] {
      LessIrreflexive(a[1..]);
    }
  }

  lemma {:induction false} LessTotal(a: string, b: string)
    ensures Less(a, b) || a == b || Less(b, a)
    decreases |a|
  {
    if a != [] && b != [] && a[0] == b[0] {
      LessTotal(a[1..], b[1..]);
      if a[1..] == b[1..] {
        assert a == [a[0]] + a[1..] && b == [b[0]] + b[1..];
      }
    }
  }

  lemma {:induction false} LessTransitive(a: string, b: string, c: string)
    requires Less(a, b) && Less(b, c)
    ensures Less(a, c)
    decreases |a|
  {
    if a != [] && a[0] == b[0] && b[0] == c[0] {
      LessTransitive(a[1..], b[1..], c[1..]);
    }
  }

  lemma LessEqTransitive(a: string, b: string, c: string)
    requires LessEq(a, b) && LessEq(b, c)
    ensures LessEq(a, c)
  {
    if a != b && b != c {
      LessTransitive(a, b, c);
    }
  }
}
