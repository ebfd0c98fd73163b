/**
 * The linker-map size report (`utils/debug/meminfo.js`): the lines of a GNU ld map file are scanned
 * between "Linker script and memory map" and the `OUTPUT(` line, each memory-map entry is matched
 * against the entry pattern, and non-empty entries are summed per object file into a ROM and a RAM
 * table; each table is then listed in ascending size order with its total.
 *
 * Reading the file and splitting it into lines are left to the caller; the printed lines are
 * returned instead of written to the console.
 */
module MemInfo {
  import opened Common
  import Numerals
  import Strings

  // ---------------------------------------------------------------------------
  // Character classes and runs

  /** JavaScript's `\s`: the ASCII white space, no-break space, BOM and the Unicode space separators. */
  predicate IsSpace(c: char)
  {
    c == ' ' || c == '\t' || c == '\n' || c == '\r' || c == '\U{000B}' || c == '\U{000C}'
    || c == '\U{00A0}' || c == '\U{1680}' || '\U{2000}' <= c <= '\U{200A}' || c == '\U{2028}'
    || c == '\U{2029}' || c == '\U{202F}' || c == '\U{205F}' || c == '\U{3000}' || c == '\U{FEFF}'
  }

  /** JavaScript's `\S`. */
  predicate IsNonSpace(c: char)
  {
    !IsSpace(c)
  }

  /** `[0-9a-f]`. */
  predicate IsLowerHex(c: char)
  {
    Numerals.IsHexDigit(c)
  }

  /** The character classes of the entry pattern. */
  datatype Class = Space | NonSpace | LowerHex

  predicate In(c: char, cls: Class)
  {
    match cls
    case Space => IsSpace(c)
    case NonSpace => IsNonSpace(c)
    case LowerHex => IsLowerHex(c)
  }

  /** Length of the longest run of `cls` characters of `s` starting at `i`. */
  function Run(s: string, i: nat, cls: Class): (n: nat)
    requires i <= |s|
    ensures i + n <= |s|
    decreases |s| - i
  {
    if i == |s| || !In(s[i], cls) then 0 else 1 + Run(s, i + 1, cls)
  }

  /** `s` holds the literal `lit` at position `i`. */
  predicate LitAt(s: string, i: nat, lit: string)
  {
    i + |lit| <= |s| && s[i..i + |lit|] == lit
  }

  // ---------------------------------------------------------------------------
  // The entry pattern ^\s*(\S*)\s+0x00000([0-9a-f]+)\s+0x([0-9a-f]+)\s+(\S+)

  /** The groups of a matched entry line: section mark, address, size and file name. */
  datatype Entry = Entry(mark: string, addr: nat, size: nat, file: string)

  /** The part of a match after the mark: address, size and file name. */
  datatype Fields = Fields(addr: nat, size: nat, file: string)

  const ADDR_PREFIX: string := "0x00000"

  function HexDigitOf(c: char): nat
  {
    if Numerals.IsHexDigit(c) then Numerals.HexDigitValue(c) else 0
  }

  /** `parseInt(s[a..b], 16)` of a run the pattern has already restricted to `[0-9a-f]`. */
  function ParseHexAt(s: string, a: nat, b: nat): nat
    requires a <= b <= |s|
    decreases b - a
  {
    if a == b then 0 else 16 * ParseHexAt(s, a, b - 1) + HexDigitOf(s[b - 1])
  }

  lemma {:induction false} ParseHexAtValue(s: string, a: nat, b: nat, t: string)
    requires a <= b <= |s| && s[a..b] == t && Numerals.AllHexDigits(t)
    ensures ParseHexAt(s, a, b) == Numerals.HexValue(t)
    decreases b - a
  {
    if a < b {
      assert s[a..b - 1] == t[..|t| - 1];
      assert s[b - 1] == t[|t| - 1];
      ParseHexAtValue(s, a, b - 1, t[..|t| - 1]);
    }
  }

  /** `0x00000([0-9a-f]+)\s+0x([0-9a-f]+)\s+(\S+)` matched at position `r`. */
  function FieldsAt(s: string, r: nat): Option<Fields>
    requires r <= |s|
  {
    if !LitAt(s, r, ADDR_PREFIX) then None else AddressFrom(s, r + |ADDR_PREFIX|)
  }

  /** `([0-9a-f]+)\s+0x` at `a`, then the rest. */
  function AddressFrom(s: string, a: nat): Option<Fields>
    requires a <= |s|
  {
    var b := a + Run(s, a, LowerHex);
    var c := b + Run(s, b, Space);
    if b == a || c == b || !LitAt(s, c, "0x") then None
    else SizeFrom(s, c + 2, ParseHexAt(s, a, b))
  }

  /** `([0-9a-f]+)\s+(\S+)` at `d`, after the address `addr`. */
  function SizeFrom(s: string, d: nat, addr: nat): Option<Fields>
    requires d <= |s|
  {
    var e := d + Run(s, d, LowerHex);
    var f := e + Run(s, e, Space);
    var g := f + Run(s, f, NonSpace);
    if e == d || f == e || g == f then None
    else Some(Fields(addr, ParseHexAt(s, d, e), s[f..g]))
  }

  /**
   * The first match of the entry pattern on a line, as the backtracking matcher finds it. The leading
   * `\s*` and the mark `\S*` first take as much as they can; when the rest does not match after that
   * mark, the only other way is an empty mark with the address as the first word of an indented line.
   */
  function ParseEntry(ln: string): (r: Option<Entry>)
  {
    EntryAfterSpace(ln, Run(ln, 0, Space))
  }

  /** The match once the leading `\s*` has taken everything up to `p`. */
  function EntryAfterSpace(ln: string, p: nat): Option<Entry>
    requires p <= |ln|
  {
    EntryAfterMark(ln, p, p + Run(ln, p, NonSpace))
  }

  /** The match once the mark `\S*` has taken `ln[p..q]`. */
  function EntryAfterMark(ln: string, p: nat, q: nat): Option<Entry>
    requires p <= q <= |ln|
  {
    var afterMark := if q < |ln| then FieldsAfterSpace(ln, q) else None;
    var indented := if p > 0 then FieldsAt(ln, p) else None;
    EntryOf(ln[p..q], afterMark, indented)
  }

  /** `\s+` and the fields, from `q`. */
  function FieldsAfterSpace(ln: string, q: nat): Option<Fields>
    requires q <= |ln|
  {
    FieldsAt(ln, q + Run(ln, q, Space))
  }

  /** The entry from the fields after the mark, or else from the fields of an indented line, with an empty mark. */
  function EntryOf(mark: string, afterMark: Option<Fields>, indented: Option<Fields>): Option<Entry>
  {
    if afterMark.Some? then Some(Entry(mark, afterMark.value.addr, afterMark.value.size, afterMark.value.file))
    else if indented.Some? then Some(Entry("", indented.value.addr, indented.value.size, indented.value.file))
    else None
  }

  // The lemmas behind the round trips below: each reads one part off the rest of a line.

  /** Every character of `w` is in `cls`. */
  predicate AllOf(w: string, cls: Class)
  {
    w == [] || (In(w[0], cls) && AllOf(w[1..], cls))
  }

  /** A part `w` of class `cls` followed by a character outside it is read as one run, ending at `j`. */
  lemma {:induction false} ReadPart(s: string, i: nat, j: nat, w: string, t: string, cls: Class)
    requires i <= |s| && s[i..] == w + t && j == i + |w|
    requires AllOf(w, cls)
    requires t == [] || !In(t[0], cls)
    ensures j <= |s| && i + Run(s, i, cls) == j
    ensures s[i..j] == w && s[j..] == t
    decreases |w|
  {
    assert s[i..][..|w|] == w && s[i..][|w|..] == t;
    if w == [] {
      if i < |s| {
        assert s[i] == t[0];
      }
    } else {
      assert s[i] == w[0];
      assert s[i + 1..] == w[1..] + t;
      ReadPart(s, i + 1, j, w[1..], t, cls);
    }
  }

  lemma HexAllOf(w: string)
    requires Numerals.AllHexDigits(w)
    ensures AllOf(w, LowerHex)
  {
    AllOfEvery(w, LowerHex);
  }

  lemma {:induction false} HexIsNonSpace(w: string)
    requires AllOf(w, LowerHex)
    ensures AllOf(w, NonSpace)
    decreases |w|
  {
    if w != [] {
      HexIsNonSpace(w[1..]);
    }
  }

  lemma {:induction false} AllOfEvery(w: string, cls: Class)
    requires forall k :: 0 <= k < |w| ==> In(w[k], cls)
    ensures AllOf(w, cls)
    decreases |w|
  {
    if w != [] {
      assert forall k :: 0 <= k < |w| - 1 ==> w[1..][k] == w[k + 1];
      AllOfEvery(w[1..], cls);
    }
  }

  lemma PrefixNonSpace()
    ensures AllOf(ADDR_PREFIX, NonSpace)
  {
    AllOfEvery(ADDR_PREFIX, NonSpace);
  }

  lemma {:induction false} AllOfAppend(u: string, w: string, cls: Class)
    requires AllOf(u, cls) && AllOf(w, cls)
    ensures AllOf(u + w, cls)
    decreases |u|
  {
    if u == [] {
      assert u + w == w;
    } else {
      assert (u + w)[0] == u[0] && (u + w)[1..] == u[1..] + w;
      AllOfAppend(u[1..], w, cls);
    }
  }

  lemma ReadLit(s: string, i: nat, j: nat, lit: string, t: string)
    requires i <= |s| && s[i..] == lit + t && j == i + |lit|
    ensures LitAt(s, i, lit) && j <= |s| && s[j..] == t
  {
    assert s[i..][..|lit|] == lit && s[i..][|lit|..] == t;
  }

  lemma SizeFound(s: string, d: nat, addr: nat, e: nat, f: nat, g: nat)
    requires d < e <= f <= g <= |s|
    requires d + Run(s, d, LowerHex) == e && e + Run(s, e, Space) == f && f + Run(s, f, NonSpace) == g
    requires e < f < g
    ensures SizeFrom(s, d, addr) == Some(Fields(addr, ParseHexAt(s, d, e), s[f..g]))
  {
  }

  lemma AddressFound(s: string, a: nat, b: nat, c: nat, d: nat)
    requires a < b < c <= |s| && a + Run(s, a, LowerHex) == b && b + Run(s, b, Space) == c
    requires LitAt(s, c, "0x") && d == c + 2
    ensures AddressFrom(s, a) == SizeFrom(s, d, ParseHexAt(s, a, b))
  {
  }

  lemma HexNotSpace(c: char)
    requires IsSpace(c)
    ensures !IsLowerHex(c)
  {
  }

  /** The size and file name read back from the text after "0x". */
  lemma SizeRead(s: string, d: nat, addr: nat, b: string, sep3: string, file: string, rest: string,
                 t5: string, t6: string)
    requires d <= |s| && s[d..] == b + t5 && t5 == sep3 + t6 && t6 == file + rest
    requires b != [] && Numerals.AllHexDigits(b) && sep3 != [] && AllOf(sep3, Space)
    requires file != [] && AllOf(file, NonSpace) && (rest == [] || IsSpace(rest[0]))
    ensures SizeFrom(s, d, addr) == Some(Fields(addr, Numerals.HexValue(b), file))
  {
    assert t5[0] == sep3[0] && In(sep3[0], Space);
    HexNotSpace(sep3[0]);
    HexAllOf(b);
    var e := d + |b|;
    ReadPart(s, d, e, b, t5, LowerHex);
    assert t6[0] == file[0] && In(file[0], NonSpace);
    var f := e + |sep3|;
    ReadPart(s, e, f, sep3, t6, Space);
    var g := f + |file|;
    ReadPart(s, f, g, file, rest, NonSpace);
    SizeFound(s, d, addr, e, f, g);
    ParseHexAtValue(s, d, e, b);
  }

  /** The address read back from the text after "0x00000", up to the size at `d`. */
  lemma AddressRead(s: string, i: nat, d: nat, a: string, sep2: string, t2: string, t3: string, t4: string)
    requires i <= |s| && s[i..] == a + t2 && t2 == sep2 + t3 && t3 == "0x" + t4 && d == i + |a| + |sep2| + 2
    requires a != [] && Numerals.AllHexDigits(a) && sep2 != [] && AllOf(sep2, Space)
    ensures d <= |s| && s[d..] == t4
    ensures AddressFrom(s, i) == SizeFrom(s, d, Numerals.HexValue(a))
  {
    assert t2[0] == sep2[0] && In(sep2[0], Space);
    HexNotSpace(sep2[0]);
    HexAllOf(a);
    var b := i + |a|;
    ReadPart(s, i, b, a, t2, LowerHex);
    assert t3[0] == '0';
    var c := b + |sep2|;
    ReadPart(s, b, c, sep2, t3, Space);
    ReadLit(s, c, d, "0x", t4);
    AddressFound(s, i, b, c, d);
    ParseHexAtValue(s, i, b, a);
  }

  /** The fields part of an entry reads back from its text. */
  lemma FieldsRead(s: string, r: nat, a: string, sep2: string, b: string, sep3: string, file: string, rest: string,
                   t1: string, t2: string, t3: string, t4: string, t5: string, t6: string)
    requires r <= |s| && s[r..] == ADDR_PREFIX + t1
    requires t1 == a + t2 && t2 == sep2 + t3 && t3 == "0x" + t4 && t4 == b + t5 && t5 == sep3 + t6 && t6 == file + rest
    requires a != [] && Numerals.AllHexDigits(a) && b != [] && Numerals.AllHexDigits(b)
    requires sep2 != [] && AllOf(sep2, Space) && sep3 != [] && AllOf(sep3, Space)
    requires file != [] && AllOf(file, NonSpace) && (rest == [] || IsSpace(rest[0]))
    ensures FieldsAt(s, r) == Some(Fields(Numerals.HexValue(a), Numerals.HexValue(b), file))
  {
    var i := r + |ADDR_PREFIX|;
    ReadLit(s, r, i, ADDR_PREFIX, t1);
    var d := i + |a| + |sep2| + 2;
    AddressRead(s, i, d, a, sep2, t2, t3, t4);
    SizeRead(s, d, Numerals.HexValue(a), b, sep3, file, rest, t5, t6);
  }

  lemma ConcatFrom(parts: seq<string>, k: nat)
    requires k < |parts|
    ensures Strings.Concat(parts[k..]) == parts[k] + Strings.Concat(parts[k + 1..])
  {
    assert parts[k..][1..] == parts[k + 1..];
  }

  lemma EntryLineSpelled(ln: string, lead: string, mark: string, sep1: string, a: string, sep2: string,
                         b: string, sep3: string, file: string, rest: string)
    requires ln == Strings.Concat([lead, mark, sep1, ADDR_PREFIX, a, sep2, "0x", b, sep3, file, rest])
    ensures ln == lead + (mark + (sep1 + (ADDR_PREFIX + (a + (sep2 + ("0x" + (b + (sep3 + (file + rest)))))))))
  {
    var parts := [lead, mark, sep1, ADDR_PREFIX, a, sep2, "0x", b, sep3, file, rest];
    assert parts[11..] == [];
    ConcatFrom(parts, 10);
    assert Strings.Concat(parts[10..]) == rest;
    ConcatFrom(parts, 9);
    assert Strings.Concat(parts[9..]) == file + rest;
    ConcatFrom(parts, 8);
    assert Strings.Concat(parts[8..]) == sep3 + (file + rest);
    ConcatFrom(parts, 7);
    assert Strings.Concat(parts[7..]) == b + (sep3 + (file + rest));
    ConcatFrom(parts, 6);
    assert Strings.Concat(parts[6..]) == "0x" + (b + (sep3 + (file + rest)));
    ConcatFrom(parts, 5);
    assert Strings.Concat(parts[5..]) == sep2 + ("0x" + (b + (sep3 + (file + rest))));
    ConcatFrom(parts, 4);
    assert Strings.Concat(parts[4..]) == a + (sep2 + ("0x" + (b + (sep3 + (file + rest)))));
    ConcatFrom(parts, 3);
    assert Strings.Concat(parts[3..]) == ADDR_PREFIX + (a + (sep2 + ("0x" + (b + (sep3 + (file + rest))))));
    ConcatFrom(parts, 2);
    assert Strings.Concat(parts[2..]) == sep1 + (ADDR_PREFIX + (a + (sep2 + ("0x" + (b + (sep3 + (file + rest)))))));
    ConcatFrom(parts, 1);
    assert Strings.Concat(parts[1..]) == mark + (sep1 + (ADDR_PREFIX + (a + (sep2 + ("0x" + (b + (sep3 + (file + rest))))))));
    ConcatFrom(parts, 0);
    assert Strings.Concat(parts[0..]) == lead + (mark + (sep1 + (ADDR_PREFIX + (a + (sep2 + ("0x" + (b + (sep3 + (file + rest)))))))));
    assert parts[0..] == parts;
  }

  /** The runs and fields of an entry line laid out from its parts. */
  lemma EntryLineLayout(ln: string, lead: string, mark: string, sep1: string, a: string, sep2: string,
                        b: string, sep3: string, file: string, rest: string) returns (p: nat, q: nat, r: nat)
    requires ln == lead + (mark + (sep1 + (ADDR_PREFIX + (a + (sep2 + ("0x" + (b + (sep3 + (file + rest)))))))))
    requires AllOf(lead, Space) && mark != [] && AllOf(mark, NonSpace) && sep1 != [] && AllOf(sep1, Space)
    requires a != [] && Numerals.AllHexDigits(a) && b != [] && Numerals.AllHexDigits(b)
    requires sep2 != [] && AllOf(sep2, Space) && sep3 != [] && AllOf(sep3, Space)
    requires file != [] && AllOf(file, NonSpace) && (rest == [] || IsSpace(rest[0]))
    ensures p <= q < r <= |ln| && ln[p..q] == mark
    ensures 0 + Run(ln, 0, Space) == p && p + Run(ln, p, NonSpace) == q && q + Run(ln, q, Space) == r
    ensures FieldsAt(ln, r) == Some(Fields(Numerals.HexValue(a), Numerals.HexValue(b), file))
  {
    var t6 := file + rest;
    var t5 := sep3 + t6;
    var t4 := b + t5;
    var t3 := "0x" + t4;
    var t2 := sep2 + t3;
    var t1 := a + t2;
    var tail := ADDR_PREFIX + t1;
    var u := sep1 + tail;
    var v := mark + u;
    assert ln[0..] == lead + v;
    assert v[0] == mark[0] && In(mark[0], NonSpace);
    p := |lead|;
    ReadPart(ln, 0, p, lead, v, Space);
    assert u[0] == sep1[0] && In(sep1[0], Space);
    q := p + |mark|;
    ReadPart(ln, p, q, mark, u, NonSpace);
    assert tail[0] == '0';
    r := q + |sep1|;
    ReadPart(ln, q, r, sep1, tail, Space);
    FieldsRead(ln, r, a, sep2, b, sep3, file, rest, t1, t2, t3, t4, t5, t6);
  }

  /**
   * A map line "<indent><mark><spaces>0x00000<address><spaces>0x<size><spaces><file>..." parses to
   * exactly those groups.
   */
  lemma EntryLineParses(ln: string, lead: string, mark: string, sep1: string, a: string, sep2: string,
                        b: string, sep3: string, file: string, rest: string)
    requires ln == Strings.Concat([lead, mark, sep1, ADDR_PREFIX, a, sep2, "0x", b, sep3, file, rest])
    requires AllOf(lead, Space) && mark != [] && AllOf(mark, NonSpace) && sep1 != [] && AllOf(sep1, Space)
    requires a != [] && Numerals.AllHexDigits(a) && b != [] && Numerals.AllHexDigits(b)
    requires sep2 != [] && AllOf(sep2, Space) && sep3 != [] && AllOf(sep3, Space)
    requires file != [] && AllOf(file, NonSpace) && (rest == [] || IsSpace(rest[0]))
    ensures ParseEntry(ln) == Some(Entry(mark, Numerals.HexValue(a), Numerals.HexValue(b), file))
  {
    EntryLineSpelled(ln, lead, mark, sep1, a, sep2, b, sep3, file, rest);
    var p, q, r := EntryLineLayout(ln, lead, mark, sep1, a, sep2, b, sep3, file, rest);
    EntryFound(ln, p, q, r, Fields(Numerals.HexValue(a), Numerals.HexValue(b), file));
  }

  lemma ContinuationSpelled(ln: string, lead: string, a: string, sep2: string, b: string, sep3: string,
                            file: string, rest: string)
    requires ln == Strings.Concat([lead, ADDR_PREFIX, a, sep2, "0x", b, sep3, file, rest])
    ensures ln == lead + (ADDR_PREFIX + (a + (sep2 + ("0x" + (b + (sep3 + (file + rest)))))))
  {
    var parts := [lead, ADDR_PREFIX, a, sep2, "0x", b, sep3, file, rest];
    assert parts[9..] == [];
    ConcatFrom(parts, 8);
    assert Strings.Concat(parts[8..]) == rest;
    ConcatFrom(parts, 7);
    assert Strings.Concat(parts[7..]) == file + rest;
    ConcatFrom(parts, 6);
    assert Strings.Concat(parts[6..]) == sep3 + (file + rest);
    ConcatFrom(parts, 5);
    assert Strings.Concat(parts[5..]) == b + (sep3 + (file + rest));
    ConcatFrom(parts, 4);
    assert Strings.Concat(parts[4..]) == "0x" + (b + (sep3 + (file + rest)));
    ConcatFrom(parts, 3);
    assert Strings.Concat(parts[3..]) == sep2 + ("0x" + (b + (sep3 + (file + rest))));
    ConcatFrom(parts, 2);
    assert Strings.Concat(parts[2..]) == a + (sep2 + ("0x" + (b + (sep3 + (file + rest)))));
    ConcatFrom(parts, 1);
    assert Strings.Concat(parts[1..]) == ADDR_PREFIX + (a + (sep2 + ("0x" + (b + (sep3 + (file + rest))))));
    ConcatFrom(parts, 0);
    assert Strings.Concat(parts[0..]) == lead + (ADDR_PREFIX + (a + (sep2 + ("0x" + (b + (sep3 + (file + rest)))))));
    assert parts[0..] == parts;
  }

  /** The runs and fields of a continuation line laid out from its parts. */
  lemma ContinuationLayout(ln: string, lead: string, a: string, sep2: string, b: string, sep3: string,
                           file: string, rest: string) returns (p: nat, q: nat, c: nat)
    requires ln == lead + (ADDR_PREFIX + (a + (sep2 + ("0x" + (b + (sep3 + (file + rest)))))))
    requires lead != [] && AllOf(lead, Space)
    requires a != [] && Numerals.AllHexDigits(a) && b != [] && Numerals.AllHexDigits(b)
    requires sep2 != [] && AllOf(sep2, Space) && sep3 != [] && AllOf(sep3, Space)
    requires file != [] && AllOf(file, NonSpace) && (rest == [] || IsSpace(rest[0]))
    requires !(|b| >= 5 && b[..5] == "00000")
    ensures 0 < p <= q <= c <= |ln| && q < |ln|
    ensures 0 + Run(ln, 0, Space) == p && p + Run(ln, p, NonSpace) == q && q + Run(ln, q, Space) == c
    ensures FieldsAt(ln, c) == None
    ensures FieldsAt(ln, p) == Some(Fields(Numerals.HexValue(a), Numerals.HexValue(b), file))
  {
    var t6 := file + rest;
    var t5 := sep3 + t6;
    var t4 := b + t5;
    var t3 := "0x" + t4;
    var t2 := sep2 + t3;
    var t1 := a + t2;
    var tail := ADDR_PREFIX + t1;
    assert ln[0..] == lead + tail;
    assert tail[0] == '0';
    p := |lead|;
    ReadPart(ln, 0, p, lead, tail, Space);
    FieldsRead(ln, p, a, sep2, b, sep3, file, rest, t1, t2, t3, t4, t5, t6);
    // The mark run takes the whole first word, "0x00000" and the address.
    var word := ADDR_PREFIX + a;
    assert tail == word + t2;
    PrefixNonSpace();
    HexAllOf(a);
    HexIsNonSpace(a);
    AllOfAppend(ADDR_PREFIX, a, NonSpace);
    assert t2[0] == sep2[0] && In(sep2[0], Space);
    q := p + |word|;
    ReadPart(ln, p, q, word, t2, NonSpace);
    assert t3[0] == '0';
    c := q + |sep2|;
    ReadPart(ln, q, c, sep2, t3, Space);
    // After that mark the size field would have to read as an address, which it does not.
    MarkedSizeIsNoAddress(ln, c, b, t4, t5);
  }

  /**
   * An indented line that starts with the address (the continuation of a long section name) matches
   * with an empty mark, unless its size field could itself be read as an address.
   */
  lemma ContinuationLineParses(ln: string, lead: string, a: string, sep2: string, b: string, sep3: string,
                               file: string, rest: string)
    requires ln == Strings.Concat([lead, ADDR_PREFIX, a, sep2, "0x", b, sep3, file, rest])
    requires lead != [] && AllOf(lead, Space)
    requires a != [] && Numerals.AllHexDigits(a) && b != [] && Numerals.AllHexDigits(b)
    requires sep2 != [] && AllOf(sep2, Space) && sep3 != [] && AllOf(sep3, Space)
    requires file != [] && AllOf(file, NonSpace) && (rest == [] || IsSpace(rest[0]))
    requires !(|b| >= 5 && b[..5] == "00000")
    ensures ParseEntry(ln) == Some(Entry("", Numerals.HexValue(a), Numerals.HexValue(b), file))
  {
    ContinuationSpelled(ln, lead, a, sep2, b, sep3, file, rest);
    var p, q, c := ContinuationLayout(ln, lead, a, sep2, b, sep3, file, rest);
    ContinuationFound(ln, p, q, c, Fields(Numerals.HexValue(a), Numerals.HexValue(b), file));
  }

  /** A size field that does not start with five zeros cannot be read as "0x00000" and an address. */
  lemma MarkedSizeIsNoAddress(ln: string, c: nat, b: string, t4: string, t5: string)
    requires c <= |ln| && ln[c..] == "0x" + t4 && t4 == b + t5
    requires !(|b| >= 5 && b[..5] == "00000") && t5 != [] && IsSpace(t5[0])
    ensures FieldsAt(ln, c) == None
  {
    if c + |ADDR_PREFIX| <= |ln| {
      // Some digit among the first five of the size field is not '0'.
      var k: nat := |b|;
      if |b| >= 5 {
        assert exists j :: 0 <= j < 5 && b[..5][j] != "00000"[j];
        var j :| 0 <= j < 5 && b[..5][j] != "00000"[j];
        k := j;
      }
      assert ln[c + 2 + k] == ("0x" + t4)[2 + k] == t4[k];
      assert ln[c..c + |ADDR_PREFIX|][2 + k] != ADDR_PREFIX[2 + k];
    }
  }

  /** Where the runs of an entry line end: its groups are read off those positions. */
  lemma EntryFound(ln: string, p: nat, q: nat, r: nat, fs: Fields)
    requires p <= q < r <= |ln|
    requires 0 + Run(ln, 0, Space) == p && p + Run(ln, p, NonSpace) == q && q + Run(ln, q, Space) == r
    requires FieldsAt(ln, r) == Some(fs)
    ensures ParseEntry(ln) == Some(Entry(ln[p..q], fs.addr, fs.size, fs.file))
  {
    ParseEntryAt(ln, p, q);
    SpaceBeforeFields(ln, q, r);
  }

  /** An indented line whose first word cannot be followed by the fields is matched with an empty mark. */
  lemma ContinuationFound(ln: string, p: nat, q: nat, c: nat, fs: Fields)
    requires 0 < p <= q <= c <= |ln| && q < |ln|
    requires 0 + Run(ln, 0, Space) == p && p + Run(ln, p, NonSpace) == q && q + Run(ln, q, Space) == c
    requires FieldsAt(ln, c) == None && FieldsAt(ln, p) == Some(fs)
    ensures ParseEntry(ln) == Some(Entry("", fs.addr, fs.size, fs.file))
  {
    ParseEntryAt(ln, p, q);
    SpaceBeforeFields(ln, q, c);
  }

  /** `ParseEntry` with the ends of the leading space and of the mark given as `p` and `q`. */
  lemma ParseEntryAt(ln: string, p: nat, q: nat)
    requires p <= q <= |ln|
    requires Run(ln, 0, Space) == p && p + Run(ln, p, NonSpace) == q
    ensures ParseEntry(ln) == EntryAfterMark(ln, p, q)
  {
    SpaceTaken(ln, p);
    MarkTaken(ln, p, q);
  }

  /** The fields after the space that ends at `c`. */
  lemma SpaceBeforeFields(ln: string, q: nat, c: nat)
    requires q <= c <= |ln| && q + Run(ln, q, Space) == c
    ensures FieldsAfterSpace(ln, q) == FieldsAt(ln, c)
  {
  }

  /** The leading space ends at `p`. */
  lemma SpaceTaken(ln: string, p: nat)
    requires p <= |ln| && Run(ln, 0, Space) == p
    ensures ParseEntry(ln) == EntryAfterSpace(ln, p)
  {
  }

  /** The mark ends at `q`. */
  lemma MarkTaken(ln: string, p: nat, q: nat)
    requires p <= q <= |ln| && p + Run(ln, p, NonSpace) == q
    ensures EntryAfterSpace(ln, p) == EntryAfterMark(ln, p, q)
  {
  }

  // ---------------------------------------------------------------------------
  // Attributing an entry to a file

  const ARCH: string := "armv6-m"

  /** The last position `j <= i` where `ARCH` starts in `s`, if any. */
  function LastArch(s: string, i: nat): (r: Option<nat>)
    ensures r.Some? ==> r.value <= i && LitAt(s, r.value, ARCH)
    ensures forall j: nat :: r.None? && j <= i ==> !LitAt(s, j, ARCH)
    ensures forall j: nat :: r.Some? && r.value < j <= i ==> !LitAt(s, j, ARCH)
    decreases i
  {
    if LitAt(s, i, ARCH) then Some(i) else if i == 0 then None else LastArch(s, i - 1)
  }

  /** `fn.replace(/.*armv6-m/, "")`: everything up to and including the last "armv6-m" is dropped. */
  function StripArch(fn: string): (r: string)
    ensures |r| <= |fn| && r == fn[|fn| - |r|..]
  {
    var last := LastArch(fn, |fn|);
    if last.None? then fn else fn[last.value + |ARCH|..]
  }

  /** `ARCH` occurs in a suffix of `s` exactly where it occurs in `s`, shifted. */
  lemma LitAtSuffix(s: string, d: nat, k: nat, lit: string)
    requires d <= |s|
    ensures LitAt(s[d..], k, lit) <==> LitAt(s, d + k, lit)
  {
    if d + k + |lit| <= |s| {
      assert s[d..][k..k + |lit|] == s[d + k..d + k + |lit|];
    }
  }

  /** A file name in which "armv6-m" never occurs is kept as it is. */
  lemma StripArchWithout(fn: string)
    requires forall j: nat :: !LitAt(fn, j, ARCH)
    ensures StripArch(fn) == fn
  {
  }

  /** Otherwise exactly the text after its last occurrence is kept. */
  lemma StripArchAfterLast(fn: string, i: nat)
    requires LitAt(fn, i, ARCH)
    requires forall j: nat :: i < j ==> !LitAt(fn, j, ARCH)
    ensures StripArch(fn) == fn[i + |ARCH|..]
  {
    var last := LastArch(fn, |fn|);
    assert last == Some(i);
  }

  /** What is left never contains "armv6-m". */
  lemma StripArchLeavesNone(fn: string, k: nat)
    ensures !LitAt(StripArch(fn), k, ARCH)
  {
    var last := LastArch(fn, |fn|);
    if last.None? {
      if k <= |fn| {
        assert !LitAt(fn, k, ARCH);
      }
    } else {
      var d := last.value + |ARCH|;
      LitAtSuffix(fn, d, k, ARCH);
      if d + k <= |fn| {
        assert !LitAt(fn, d + k, ARCH);
      }
    }
  }

  /** Marks of entries that are never counted. */
  predicate SkippedMark(mark: string)
  {
    mark == "*fill*" || mark == ".bss" || mark == ".relocate"
  }

  /** The file an entry is attributed to: a `load` entry with a mark goes to the mark. */
  function FileOf(e: Entry): string
  {
    StripArch(if e.file == "load" && e.mark != [] then e.mark else e.file)
  }

  /** Addresses below this are flash (ROM). */
  const RAM_START: nat := 0x1000_0000

  /** `mm[fn] = (mm[fn] || 0) + sz`. */
  function AddSize(m: map<string, nat>, fn: string, sz: nat): (r: map<string, nat>)
    ensures r.Keys == m.Keys + {fn}
    ensures r[fn] == (if fn in m then m[fn] else 0) + sz
    ensures forall k :: k in m && k != fn ==> r[k] == m[k]
  {
    m[fn := (if fn in m then m[fn] else 0) + sz]
  }

  // ---------------------------------------------------------------------------
  // The scan over the lines

  const HEADER: string := "Linker script and memory map"

  /** `inSect`: 0 before the memory map, 1 inside it, 2 after the `OUTPUT(` line. */
  function NextSect(inSect: nat, ln: string): nat
  {
    if LitAt(ln, 0, "OUTPUT(") then 2 else if ln == HEADER then 1 else inSect
  }

  /** The two size tables. */
  datatype Tables = Tables(rom: map<string, nat>, ram: map<string, nat>)

  /** What a line inside the memory map adds to the tables. */
  function Account(t: Tables, ln: string): Tables
  {
    AccountMatch(t, ParseEntry(ln))
  }

  /** What the match of the entry pattern on a line, if any, adds to the tables. */
  function AccountMatch(t: Tables, m: Option<Entry>): Tables
  {
    match m
    case None => t
    case Some(e) =>
      if SkippedMark(e.mark) || e.size == 0 then t
      else if e.addr < RAM_START then t.(rom := AddSize(t.rom, FileOf(e), e.size))
      else t.(ram := AddSize(t.ram, FileOf(e), e.size))
  }

  /** The state after the first `n` lines. */
  function Scan(lines: seq<string>, n: nat): (nat, Tables)
    requires n <= |lines|
  {
    if n == 0 then (0, Tables(map[], map[]))
    else
      var (inSect, t) := Scan(lines, n - 1);
      var s := NextSect(inSect, lines[n - 1]);
      (s, if s == 1 then Account(t, lines[n - 1]) else t)
  }

  /** One line of the loop in `main`. */
  method ScanLine(inSect: nat, byFileRAM: map<string, nat>, byFileROM: map<string, nat>, ln: string)
    returns (inSect': nat, byFileRAM': map<string, nat>, byFileROM': map<string, nat>)
    ensures inSect' == NextSect(inSect, ln)
    ensures Tables(byFileROM', byFileRAM')
         == if inSect' == 1 then Account(Tables(byFileROM, byFileRAM), ln) else Tables(byFileROM, byFileRAM)
  {
    inSect', byFileRAM', byFileROM' := inSect, byFileRAM, byFileROM;
    if ln == HEADER {
      inSect' := 1;
    }
    if LitAt(ln, 0, "OUTPUT(") {
      inSect' := 2;
    }
    if inSect' == 1 {
      byFileRAM', byFileROM' := CountEntry(byFileRAM, byFileROM, ln);
    }
  }

  /** The body of the loop in `main` once inside the memory map. */
  method CountEntry(byFileRAM: map<string, nat>, byFileROM: map<string, nat>, ln: string)
    returns (byFileRAM': map<string, nat>, byFileROM': map<string, nat>)
    ensures Tables(byFileROM', byFileRAM') == Account(Tables(byFileROM, byFileRAM), ln)
  {
    byFileRAM', byFileROM' := CountMatch(byFileRAM, byFileROM, ParseEntry(ln));
  }

  /** The same body, given the match of the entry pattern. */
  method CountMatch(byFileRAM: map<string, nat>, byFileROM: map<string, nat>, m: Option<Entry>)
    returns (byFileRAM': map<string, nat>, byFileROM': map<string, nat>)
    ensures Tables(byFileROM', byFileRAM') == AccountMatch(Tables(byFileROM, byFileRAM), m)
  {
    byFileRAM', byFileROM' := byFileRAM, byFileROM;
    if m.Some? {
      var mark := m.value.mark;
      if SkippedMark(mark) {
        return;
      }
      var addr := m.value.addr;
      var sz := m.value.size;
      var fn := EntryFile(m.value);
      if sz != 0 {
        if addr < RAM_START {
          byFileROM' := byFileROM'[fn := (if fn in byFileROM' then byFileROM'[fn] else 0) + sz];
        } else {
          byFileRAM' := byFileRAM'[fn := (if fn in byFileRAM' then byFileRAM'[fn] else 0) + sz];
        }
      }
    }
  }

  /** The file name `main` takes from a matched entry: a `load` entry with a mark goes to the mark. */
  method EntryFile(e: Entry) returns (fn: string)
    ensures fn == FileOf(e)
  {
    fn := e.file;
    if fn == "load" && e.mark != [] {
      fn := e.mark;
    }
    fn := StripArch(fn);
  }

  /** The loop of `main` over the lines of the map file. */
  method ScanMap(lines: seq<string>) returns (byFileROM: map<string, nat>, byFileRAM: map<string, nat>)
    ensures Tables(byFileROM, byFileRAM) == Scan(lines, |lines|).1
  {
    var inSect := 0;
    byFileRAM := map[];
    byFileROM := map[];
    for i := 0 to |lines|
      invariant (inSect, Tables(byFileROM, byFileRAM)) == Scan(lines, i)
    {
      inSect, byFileRAM, byFileROM := ScanLine(inSect, byFileRAM, byFileROM, lines[i]);
    }
  }

  /** Nothing is counted before the "Linker script and memory map" line. */
  lemma {:induction false} NothingBeforeHeader(lines: seq<string>, n: nat)
    requires n <= |lines|
    requires forall i :: 0 <= i < n ==> lines[i] != HEADER
    ensures Scan(lines, n).0 != 1
    ensures Scan(lines, n).1 == Tables(map[], map[])
  {
    if n > 0 {
      NothingBeforeHeader(lines, n - 1);
    }
  }

  /** After the `OUTPUT(` line nothing more is counted, unless the header line comes again. */
  lemma {:induction false} NothingAfterOutput(lines: seq<string>, i: nat, n: nat)
    requires i < n <= |lines| && LitAt(lines[i], 0, "OUTPUT(")
    requires forall k :: i < k < n ==> lines[k] != HEADER
    ensures Scan(lines, n).0 == 2
    ensures Scan(lines, n).1 == Scan(lines, i).1
  {
    if n - 1 > i {
      NothingAfterOutput(lines, i, n - 1);
    }
  }

  /** Padding, `.bss` and `.relocate` entries, zero-size entries and lines that do not match add nothing. */
  lemma AccountSkips(t: Tables, ln: string)
    requires ParseEntry(ln).None? || SkippedMark(ParseEntry(ln).value.mark) || ParseEntry(ln).value.size == 0
    ensures Account(t, ln) == t
  {
  }

  /**
   * A counted entry adds its size to its file's row in the ROM table when its address is below
   * 0x10000000 and in the RAM table otherwise; every other row stays as it was.
   */
  lemma AccountRoutes(t: Tables, ln: string, e: Entry)
    requires ParseEntry(ln) == Some(e) && !SkippedMark(e.mark) && e.size > 0
    ensures e.addr < RAM_START ==>
      Account(t, ln).ram == t.ram
      && Account(t, ln).rom[FileOf(e)] == (if FileOf(e) in t.rom then t.rom[FileOf(e)] else 0) + e.size
      && forall k :: k in t.rom && k != FileOf(e) ==> Account(t, ln).rom[k] == t.rom[k]
    ensures e.addr >= RAM_START ==>
      Account(t, ln).rom == t.rom
      && Account(t, ln).ram[FileOf(e)] == (if FileOf(e) in t.ram then t.ram[FileOf(e)] else 0) + e.size
      && forall k :: k in t.ram && k != FileOf(e) ==> Account(t, ln).ram[k] == t.ram[k]
  {
  }

  /** Every row of the tables is positive. */
  predicate Positive(t: Tables)
  {
    && (forall k :: k in t.rom ==> t.rom[k] > 0)
    && (forall k :: k in t.ram ==> t.ram[k] > 0)
  }

  lemma AddSizePositive(mm: map<string, nat>, fn: string, sz: nat)
    requires (forall k :: k in mm ==> mm[k] > 0) && sz > 0
    ensures forall k :: k in AddSize(mm, fn, sz) ==> AddSize(mm, fn, sz)[k] > 0
  {
  }

  lemma AccountMatchPositive(t: Tables, m: Option<Entry>)
    requires Positive(t)
    ensures Positive(AccountMatch(t, m))
  {
    if m.Some? && !SkippedMark(m.value.mark) && m.value.size != 0 {
      var e := m.value;
      if e.addr < RAM_START {
        AddSizePositive(t.rom, FileOf(e), e.size);
      } else {
        AddSizePositive(t.ram, FileOf(e), e.size);
      }
    }
  }

  /** The scan only ever records positive sizes. */
  lemma {:induction false} TablesPositive(lines: seq<string>, n: nat)
    requires n <= |lines|
    ensures Positive(Scan(lines, n).1)
  {
    if n > 0 {
      TablesPositive(lines, n - 1);
      AccountMatchPositive(Scan(lines, n - 1).1, ParseEntry(lines[n - 1]));
    }
  }

  // ---------------------------------------------------------------------------
  // dumpMap

  /** `("        " + sz).slice(-7) + "  " + s`: the size right-aligned in seven columns, then the name. */
  function PrintEnt(sz: nat, s: string): (r: string)
    ensures |r| == 9 + |s| && r[7..9] == "  " && r[9..] == s
  {
    var padded := "        " + Numerals.NatToString(sz);
    padded[|padded| - 7..] + "  " + s
  }

  /** Sizes below ten million are printed in full, right-aligned. */
  lemma PrintEntReadable(sz: nat, s: string)
    requires sz < 10_000_000
    ensures |Numerals.NatToString(sz)| <= 7
    ensures PrintEnt(sz, s)[..7] == seq(7 - |Numerals.NatToString(sz)|, _ => ' ') + Numerals.NatToString(sz)
  {
    NatToStringLength(sz, 7);
    var d := Numerals.NatToString(sz);
    var padded := "        " + d;
    assert padded[|padded| - 7..] == seq(7 - |d|, _ => ' ') + d;
  }

  function Pow10(k: nat): nat
  {
    if k == 0 then 1 else 10 * Pow10(k - 1)
  }

  lemma {:induction false} NatToStringLength(n: nat, k: nat)
    requires k >= 1 && n < Pow10(k)
    ensures |Numerals.NatToString(n)| <= k
  {
    if n >= 10 {
      NatToStringLength(n / 10, k - 1);
    }
  }

  /** The sum of the values of `keys` in `m`. */
  function SumOf(m: map<string, nat>, keys: seq<string>): nat
    requires forall i :: 0 <= i < |keys| ==> keys[i] in m
  {
    if keys == [] then 0 else SumOf(m, keys[..|keys| - 1]) + m[keys[|keys| - 1]]
  }

  /** `keys` lists every key of `m` exactly once. */
  predicate Enumerates(m: map<string, nat>, keys: seq<string>)
  {
    && |keys| == |m.Keys|
    && (forall k :: k in m.Keys ==> k in keys)
    && (forall i :: 0 <= i < |keys| ==> keys[i] in m)
  }

  predicate SortedBySize(m: map<string, nat>, keys: seq<string>)
    requires forall i :: 0 <= i < |keys| ==> keys[i] in m
  {
    forall i, j :: 0 <= i < j < |keys| ==> m[keys[i]] <= m[keys[j]]
  }

  /** `Object.keys(m)`: the keys in some order. */
  method Keys(m: map<string, nat>) returns (keys: seq<string>)
    ensures Enumerates(m, keys)
  {
    keys := [];
    var rest := m.Keys;
    while rest != {}
      invariant |keys| + |rest| == |m.Keys|
      invariant forall k :: k in m.Keys <==> k in keys || k in rest
      invariant forall k :: k in keys ==> k !in rest
      decreases |rest|
    {
      var k :| k in rest;
      keys := keys + [k];
      rest := rest - {k};
    }
  }

  /** `k.sort((a, b) => m[a] - m[b])`, as a stable insertion sort. */
  method SortBySize(m: map<string, nat>, keys: seq<string>) returns (sorted: seq<string>)
    requires forall i :: 0 <= i < |keys| ==> keys[i] in m
    ensures multiset(sorted) == multiset(keys)
    ensures forall i :: 0 <= i < |sorted| ==> sorted[i] in m
    ensures SortedBySize(m, sorted)
  {
    sorted := [];
    for i := 0 to |keys|
      invariant multiset(sorted) == multiset(keys[..i])
      invariant forall j :: 0 <= j < |sorted| ==> sorted[j] in m
      invariant SortedBySize(m, sorted)
    {
      assert keys[..i + 1] == keys[..i] + [keys[i]];
      sorted := Insert(m, sorted, keys[i]);
    }
    assert keys[..|keys|] == keys;
  }

  /** Insert `x` after every key whose size is not larger. */
  method Insert(m: map<string, nat>, sorted: seq<string>, x: string) returns (r: seq<string>)
    requires x in m && forall j :: 0 <= j < |sorted| ==> sorted[j] in m
    requires SortedBySize(m, sorted)
    ensures multiset(r) == multiset(sorted) + multiset{x}
    ensures forall j :: 0 <= j < |r| ==> r[j] in m
    ensures SortedBySize(m, r)
  {
    var j := 0;
    while j < |sorted| && m[sorted[j]] <= m[x]
      invariant j <= |sorted|
      invariant forall k :: 0 <= k < j ==> m[sorted[k]] <= m[x]
    {
      j := j + 1;
    }
    r := sorted[..j] + [x] + sorted[j..];
    InsertAt(m, sorted, x, j);
  }

  /** Putting `x` between the keys not larger and the keys larger than it keeps the order. */
  lemma InsertAt(m: map<string, nat>, sorted: seq<string>, x: string, j: nat)
    requires x in m && forall k :: 0 <= k < |sorted| ==> sorted[k] in m
    requires SortedBySize(m, sorted) && j <= |sorted|
    requires forall k :: 0 <= k < j ==> m[sorted[k]] <= m[x]
    requires j == |sorted| || m[x] < m[sorted[j]]
    ensures multiset(sorted[..j] + [x] + sorted[j..]) == multiset(sorted) + multiset{x}
    ensures forall k :: 0 <= k < |sorted[..j] + [x] + sorted[j..]| ==> (sorted[..j] + [x] + sorted[j..])[k] in m
    ensures SortedBySize(m, sorted[..j] + [x] + sorted[j..])
  {
    var r := sorted[..j] + [x] + sorted[j..];
    assert sorted == sorted[..j] + sorted[j..];
    InsertAtSorted(m, sorted, x, j, r);
  }

  lemma InsertAtSorted(m: map<string, nat>, sorted: seq<string>, x: string, j: nat, r: seq<string>)
    requires x in m && forall k :: 0 <= k < |sorted| ==> sorted[k] in m
    requires SortedBySize(m, sorted) && j <= |sorted|
    requires forall k :: 0 <= k < j ==> m[sorted[k]] <= m[x]
    requires j == |sorted| || m[x] < m[sorted[j]]
    requires r == sorted[..j] + [x] + sorted[j..]
    ensures forall k :: 0 <= k < |r| ==> r[k] in m
    ensures SortedBySize(m, r)
  {
    forall k | 0 <= k < |r|
      ensures r[k] == if k < j then sorted[k] else if k == j then x else sorted[k - 1]
    {
    }
    forall a, b | 0 <= a < b < |r|
      ensures m[r[a]] <= m[r[b]]
    {
      if b < j {
        assert m[sorted[a]] <= m[sorted[b]];
      } else if b == j {
        assert m[sorted[a]] <= m[x];
      } else if a < j {
        assert m[sorted[a]] <= m[sorted[b - 1]];
      } else if a == j {
        assert m[sorted[j]] <= m[sorted[b - 1]];
      } else {
        assert m[sorted[a - 1]] <= m[sorted[b - 1]];
      }
    }
  }

  /** The sum loop and the printed lines of `dumpMap`. */
  method PrintSorted(m: map<string, nat>, keys: seq<string>) returns (lines: seq<string>)
    requires forall i :: 0 <= i < |keys| ==> keys[i] in m
    ensures |lines| == |keys| + 1
    ensures forall i :: 0 <= i < |keys| ==> lines[i] == PrintEnt(m[keys[i]], keys[i])
    ensures lines[|keys|] == PrintEnt(SumOf(m, keys), "TOTAL")
  {
    lines := [];
    var sum := 0;
    for i := 0 to |keys|
      invariant sum == SumOf(m, keys[..i])
      invariant |lines| == i
      invariant forall j :: 0 <= j < i ==> lines[j] == PrintEnt(m[keys[j]], keys[j])
    {
      assert keys[..i + 1][..i] == keys[..i];
      lines := lines + [PrintEnt(m[keys[i]], keys[i])];
      sum := sum + m[keys[i]];
    }
    assert keys[..|keys|] == keys;
    lines := lines + [PrintEnt(sum, "TOTAL")];
  }

  /**
   * `lines` is what `dumpMap(m)` prints when it lists the files in `order`: every file of `m`
   * once, in ascending size order, one line each, then the total of all sizes.
   */
  predicate Dumped(m: map<string, nat>, order: seq<string>, lines: seq<string>)
  {
    && Enumerates(m, order)
    && (forall i :: 0 <= i < |order| ==> order[i] in m)
    && SortedBySize(m, order)
    && |lines| == |order| + 1
    && (forall i :: 0 <= i < |order| ==> lines[i] == PrintEnt(m[order[i]], order[i]))
    && lines[|order|] == PrintEnt(SumOf(m, order), "TOTAL")
  }

  /**
   * `dumpMap(m)`: one line per file in ascending size order, listing every file once, then the
   * total of all sizes.
   */
  method DumpMap(m: map<string, nat>) returns (order: seq<string>, lines: seq<string>)
    ensures Dumped(m, order, lines)
  {
    var k := Keys(m);
    order := SortBySize(m, k);
    assert |order| == |multiset(order)| == |multiset(k)| == |k|;
    forall key
      ensures key in order <==> key in k
    {
      assert key in order <==> key in multiset(order);
      assert key in k <==> key in multiset(k);
    }
    lines := PrintSorted(m, order);
  }

  /** The report of `main` after the map file is read: the ROM table, then the RAM table. */
  method Report(lines: seq<string>) returns (report: seq<string>)
    ensures exists romOrder, romLines, ramOrder, ramLines ::
      var t := Scan(lines, |lines|).1;
      && Dumped(t.rom, romOrder, romLines)
      && Dumped(t.ram, ramOrder, ramLines)
      && report == ["*\n* ROM\n*"] + romLines + ["*\n* RAM\n*"] + ramLines
  {
    var byFileROM, byFileRAM := ScanMap(lines);
    var romOrder, romLines := DumpMap(byFileROM);
    var ramOrder, ramLines := DumpMap(byFileRAM);
    report := ["*\n* ROM\n*"] + romLines + ["*\n* RAM\n*"] + ramLines;
  }
}
