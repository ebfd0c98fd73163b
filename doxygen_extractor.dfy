/**
 * The XML side of the micro:bit documentation generator
 * (`utils/python/doc_gen/doxygen_extractor.py`): Markdown escaping, the text extractors over a
 * Doxygen element tree, the filter on member-function names, the parameter list of a member
 * function and the matching of documented parameter descriptions onto it.
 *
 * The XML tree is a value (`Element`); `IterText` and `PreOrder` stand for ElementTree's
 * `itertext()` and `iter()`.
 */
module DoxygenExtractor {
  import opened Common
  import Strings
  import MdConverter

  // ---------------------------------------------------------------------------
  // escape_md_chars

  /** An entry of `md_special_chars`; the `replacement` code is listed but never used. */
  datatype SpecialChar = SpecialChar(mdChar: char, replacement: string)

  const MD_SPECIAL_CHARS: seq<SpecialChar> :=
    [SpecialChar('*', "&#42;"), SpecialChar('#', "&#35;"), SpecialChar('`', "&#183;")]

  predicate IsSpecial(c: char)
  {
    c == '*' || c == '#' || c == '`'
  }

  /** One character as `escape_md_chars` leaves it: a special character gets a backslash in front. */
  function EscapeChar(c: char): string
  {
    if IsSpecial(c) then ['\\', c] else [c]
  }

  /** The escaped text, character by character. */
  function Escaped(s: string): string
  {
    if s == [] then [] else EscapeChar(s[0]) + Escaped(s[1..])
  }

  /** The text after the first `k` replacements of the loop in `escape_md_chars`. */
  function Replaced(s: string, k: nat): string
    requires k <= |MD_SPECIAL_CHARS|
  {
    if k == 0 then s
    else
      var c := MD_SPECIAL_CHARS[k - 1].mdChar;
      Strings.ReplaceChar(Replaced(s, k - 1), c, ['\\', c])
  }

  /** `escape_md_chars(text)`. */
  method EscapeMdChars(text: string) returns (r: string)
    ensures r == Escaped(text)
  {
    r := text;
    for k := 0 to |MD_SPECIAL_CHARS|
      invariant r == Replaced(text, k)
    {
      var special := MD_SPECIAL_CHARS[k];
      assert "\\" + [special.mdChar] == ['\\', special.mdChar];
      r := Strings.ReplaceChar(r, special.mdChar, "\\" + [special.mdChar]);
    }
    ReplacedIsEscaped(text);
  }

  lemma {:induction false} ReplaceAbsent(s: string, c: char, r: string)
    requires c !in s
    ensures Strings.ReplaceChar(s, c, r) == s
  {
    if s != [] {
      assert s[0] != c && c !in s[1..];
      ReplaceAbsent(s[1..], c, r);
    }
  }

  lemma {:induction false} ReplacedAppend(a: string, b: string, k: nat)
    requires k <= |MD_SPECIAL_CHARS|
    ensures Replaced(a + b, k) == Replaced(a, k) + Replaced(b, k)
  {
    if k > 0 {
      ReplacedAppend(a, b, k - 1);
      var c := MD_SPECIAL_CHARS[k - 1].mdChar;
      Strings.ReplaceCharAppend(Replaced(a, k - 1), Replaced(b, k - 1), c, ['\\', c]);
    }
  }

  lemma ReplaceOne(c: char, d: char, r: string)
    ensures Strings.ReplaceChar([c], d, r) == if c == d then r else [c]
  {
    assert [c][0] == c && [c][1..] == [];
  }

  lemma ReplacedChar(c: char)
    ensures Replaced([c], 3) == EscapeChar(c)
  {
    var one := if c == '*' then ['\\', '*'] else [c];
    ReplaceOne(c, '*', ['\\', '*']);
    assert Replaced([c], 1) == one;
    var two := if c == '#' then ['\\', '#'] else one;
    if c == '#' {
      ReplaceOne(c, '#', ['\\', '#']);
    } else {
      ReplaceAbsent(one, '#', ['\\', '#']);
    }
    assert Replaced([c], 2) == two;
    if c == '`' {
      ReplaceOne(c, '`', ['\\', '`']);
    } else {
      ReplaceAbsent(two, '`', ['\\', '`']);
    }
  }

  /** The three replacements in table order escape each special character exactly once. */
  lemma {:induction false} ReplacedIsEscaped(s: string)
    ensures Replaced(s, 3) == Escaped(s)
  {
    if s != [] {
      assert s == [s[0]] + s[1..];
      ReplacedAppend([s[0]], s[1..], 3);
      ReplacedChar(s[0]);
      ReplacedIsEscaped(s[1..]);
      calc {
        Replaced(s, 3);
        Replaced([s[0]], 3) + Replaced(s[1..], 3);
        EscapeChar(s[0]) + Escaped(s[1..]);
      }
    } else {
      assert Replaced(s, 1) == [] && Replaced(s, 2) == [];
    }
  }

  /** Number of `*`, `#` and backquote characters in `s`. */
  function SpecialCount(s: string): nat
  {
    if s == [] then 0 else (if IsSpecial(s[0]) then 1 else 0) + SpecialCount(s[1..])
  }

  /** Escaping adds one character per special character. */
  lemma {:induction false} EscapedLength(s: string)
    ensures |Escaped(s)| == |s| + SpecialCount(s)
  {
    if s != [] {
      EscapedLength(s[1..]);
    }
  }

  /** Every special character of the escaped text has a backslash right before it. */
  lemma {:induction false} EscapedGuarded(s: string)
    ensures forall i :: 0 <= i < |Escaped(s)| && IsSpecial(Escaped(s)[i]) ==> i > 0 && Escaped(s)[i - 1] == '\\'
  {
    if s != [] {
      EscapedGuarded(s[1..]);
      var head := EscapeChar(s[0]);
      var e := Escaped(s);
      forall i | 0 <= i < |e| && IsSpecial(e[i])
        ensures i > 0 && e[i - 1] == '\\'
      {
        if i >= |head| {
          assert e[i] == Escaped(s[1..])[i - |head|];
          if i - |head| > 0 {
            assert e[i - 1] == Escaped(s[1..])[i - |head| - 1];
          }
        }
      }
    }
  }

  /** Reading back escaped text: a backslash before a special character is dropped. */
  function Unescape(t: string): string
    decreases |t|
  {
    if t == [] then []
    else if |t| >= 2 && t[0] == '\\' && IsSpecial(t[1]) then [t[1]] + Unescape(t[2..])
    else [t[0]] + Unescape(t[1..])
  }

  lemma EscapedStart(s: string)
    ensures Escaped(s) != [] ==> !IsSpecial(Escaped(s)[0])
  {
  }

  /** Escaping loses nothing: the original text reads back from the escaped text. */
  lemma {:induction false} UnescapeEscaped(s: string)
    ensures Unescape(Escaped(s)) == s
  {
    if s != [] {
      var t := Escaped(s);
      var rest := Escaped(s[1..]);
      UnescapeEscaped(s[1..]);
      if IsSpecial(s[0]) {
        assert t[2..] == rest;
      } else {
        EscapedStart(s[1..]);
        assert t[1..] == rest;
      }
    }
  }

  /** Escaping only adds backslashes, so the escaped text has as many special characters. */
  lemma {:induction false} SpecialCountEscaped(s: string)
    ensures SpecialCount(Escaped(s)) == SpecialCount(s)
  {
    if s != [] {
      SpecialCountEscaped(s[1..]);
      var head := EscapeChar(s[0]);
      SpecialCountAppend(head, Escaped(s[1..]));
      if IsSpecial(s[0]) {
        assert head[1..] == [s[0]];
      }
    }
  }

  lemma {:induction false} SpecialCountAppend(a: string, b: string)
    ensures SpecialCount(a + b) == SpecialCount(a) + SpecialCount(b)
  {
    if a != [] {
      assert (a + b)[1..] == a[1..] + b;
      SpecialCountAppend(a[1..], b);
    } else {
      assert a + b == b;
    }
  }

  /** Escaping is not idempotent: escaping text with a special character twice adds more backslashes. */
  lemma EscapeNotIdempotent(s: string)
    requires SpecialCount(s) > 0
    ensures Escaped(Escaped(s)) != Escaped(s)
  {
    EscapedLength(s);
    EscapedLength(Escaped(s));
    SpecialCountEscaped(s);
  }

  // ---------------------------------------------------------------------------
  // The element tree and its traversals

  /** An ElementTree element: tag, optional text, optional tail, and children. */
  datatype Element = Element(tag: string, text: Option<string>, tail: Option<string>, children: seq<Element>)

  /** `t or ""`. */
  function OrEmpty(t: Option<string>): string
  {
    if t.Some? then t.value else ""
  }

  /** The string `t` as `itertext()` yields it: only when present and non-empty. */
  function NonEmpty(t: Option<string>): seq<string>
  {
    if t.Some? && t.value != [] then [t.value] else []
  }

  /** The number of elements in the tree. */
  function Size(e: Element): nat
    decreases e, 1, 0
  {
    1 + ChildrenSize(e, |e.children|)
  }

  function ChildrenSize(e: Element, k: nat): nat
    requires k <= |e.children|
    decreases e, 0, k
  {
    if k == 0 then 0 else ChildrenSize(e, k - 1) + Size(e.children[k - 1])
  }

  /** ElementTree's `itertext()`: the non-empty texts of the tree in document order, without its own tail. */
  function IterText(e: Element): seq<string>
    decreases e, 1, 0
  {
    NonEmpty(e.text) + ChildrenIterText(e, |e.children|)
  }

  function ChildrenIterText(e: Element, k: nat): seq<string>
    requires k <= |e.children|
    decreases e, 0, k
  {
    if k == 0 then []
    else ChildrenIterText(e, k - 1) + IterText(e.children[k - 1]) + NonEmpty(e.children[k - 1].tail)
  }

  /** ElementTree's `iter()`: the element and all its descendants in pre-order. */
  function PreOrder(e: Element): seq<Element>
    decreases e, 1, 0
  {
    [e] + ChildrenPreOrder(e, |e.children|)
  }

  function ChildrenPreOrder(e: Element, k: nat): seq<Element>
    requires k <= |e.children|
    decreases e, 0, k
  {
    if k == 0 then [] else ChildrenPreOrder(e, k - 1) + PreOrder(e.children[k - 1])
  }

  // ---------------------------------------------------------------------------
  // extract_with_subelements

  /** The strings `extract_with_subelements` lists: text (or ""), the children's lists, tail (or ""). */
  function SubelementTexts(e: Element): seq<string>
    decreases e, 1, 0
  {
    [OrEmpty(e.text)] + ChildrenSubelementTexts(e, |e.children|) + [OrEmpty(e.tail)]
  }

  function ChildrenSubelementTexts(e: Element, k: nat): seq<string>
    requires k <= |e.children|
    decreases e, 0, k
  {
    if k == 0 then [] else ChildrenSubelementTexts(e, k - 1) + SubelementTexts(e.children[k - 1])
  }

  /** `extract_with_subelements(element)`. */
  method ExtractWithSubelements(element: Element) returns (list: seq<string>)
    ensures list == SubelementTexts(element)
    decreases element
  {
    list := [];
    list := list + [OrEmpty(element.text)];
    for i := 0 to |element.children|
      invariant list == [OrEmpty(element.text)] + ChildrenSubelementTexts(element, i)
    {
      var sub := ExtractWithSubelements(element.children[i]);
      list := list + sub;
    }
    list := list + [OrEmpty(element.tail)];
  }

  /** Two strings per element of the tree. */
  lemma {:induction false} TwoPerElement(e: Element)
    ensures |SubelementTexts(e)| == 2 * Size(e)
    decreases e, 1, 0
  {
    TwoPerChild(e, |e.children|);
  }

  lemma {:induction false} TwoPerChild(e: Element, k: nat)
    requires k <= |e.children|
    ensures |ChildrenSubelementTexts(e, k)| == 2 * ChildrenSize(e, k)
    decreases e, 0, k
  {
    if k > 0 {
      TwoPerChild(e, k - 1);
      TwoPerElement(e.children[k - 1]);
    }
  }

  /** The list with its empty strings removed. */
  function DropEmpty(xs: seq<string>): seq<string>
  {
    if xs == [] then [] else DropEmpty(xs[..|xs| - 1]) + (if xs[|xs| - 1] == [] then [] else [xs[|xs| - 1]])
  }

  lemma {:induction false} DropEmptyAppend(xs: seq<string>, ys: seq<string>)
    ensures DropEmpty(xs + ys) == DropEmpty(xs) + DropEmpty(ys)
    decreases |ys|
  {
    if ys == [] {
      assert xs + ys == xs;
    } else {
      assert (xs + ys)[..|xs + ys| - 1] == xs + ys[..|ys| - 1];
      DropEmptyAppend(xs, ys[..|ys| - 1]);
    }
  }

  lemma DropEmptyJoin(xs: seq<string>, ys: seq<string>, a: seq<string>, b: seq<string>, d: seq<string>)
    requires DropEmpty(xs) == a && DropEmpty(ys) == b + d
    ensures DropEmpty(xs + ys) == a + b + d
  {
    DropEmptyAppend(xs, ys);
  }

  /**
   * Up to its empty strings, `extract_with_subelements` lists what `itertext()` yields followed by
   * the element's own tail.
   */
  lemma {:induction false} SubelementTextsAreIterText(e: Element)
    ensures DropEmpty(SubelementTexts(e)) == IterText(e) + NonEmpty(e.tail)
    decreases e, 1, 0
  {
    var kids := ChildrenSubelementTexts(e, |e.children|);
    DropEmptyAppend([OrEmpty(e.text)] + kids, [OrEmpty(e.tail)]);
    DropEmptyAppend([OrEmpty(e.text)], kids);
    assert DropEmpty([OrEmpty(e.text)]) == NonEmpty(e.text) by {
      assert [OrEmpty(e.text)][..0] == [];
    }
    assert DropEmpty([OrEmpty(e.tail)]) == NonEmpty(e.tail) by {
      assert [OrEmpty(e.tail)][..0] == [];
    }
    ChildrenTextsAreIterText(e, |e.children|);
  }

  lemma {:induction false} ChildrenTextsAreIterText(e: Element, k: nat)
    requires k <= |e.children|
    ensures DropEmpty(ChildrenSubelementTexts(e, k)) == ChildrenIterText(e, k)
    decreases e, 0, k
  {
    if k > 0 {
      var j: nat := k - 1;
      var c := e.children[j];
      var prev := ChildrenSubelementTexts(e, j);
      ChildrenTextsAreIterText(e, j);
      SubelementTextsAreIterText(c);
      DropEmptyJoin(prev, SubelementTexts(c), ChildrenIterText(e, j), IterText(c), NonEmpty(c.tail));
    } else {
      assert ChildrenSubelementTexts(e, 0) == [];
    }
  }

  // ---------------------------------------------------------------------------
  // extract_ignoring_refs

  /** The texts of the `ref` elements among `nodes`, in order. */
  function RefTexts(nodes: seq<Element>): seq<Option<string>>
  {
    if nodes == [] then []
    else RefTexts(nodes[..|nodes| - 1]) + (if nodes[|nodes| - 1].tag == "ref" then [nodes[|nodes| - 1].text] else [])
  }

  /** What `extract_ignoring_refs` lists: the element's text if any, then the text of every `ref` in the tree. */
  function IgnoringRefs(e: Element): seq<Option<string>>
  {
    (if e.text.Some? then [e.text] else []) + RefTexts(PreOrder(e))
  }

  /** `extract_ignoring_refs(element)`; a `ref` without text contributes `None`. */
  method ExtractIgnoringRefs(element: Element) returns (list: seq<Option<string>>)
    ensures list == IgnoringRefs(element)
  {
    list := [];
    if element.text.Some? {
      list := list + [element.text];
    }
    var lead := list;
    var nodes := PreOrder(element);
    for i := 0 to |nodes|
      invariant list == lead + RefTexts(nodes[..i])
    {
      assert nodes[..i + 1][..i] == nodes[..i];
      if nodes[i].tag == "ref" {
        list := list + [nodes[i].text];
      }
    }
    assert nodes[..|nodes|] == nodes;
  }

  lemma {:induction false} NoRefTexts(nodes: seq<Element>)
    requires forall i :: 0 <= i < |nodes| ==> nodes[i].tag != "ref"
    ensures RefTexts(nodes) == []
  {
    if nodes != [] {
      NoRefTexts(nodes[..|nodes| - 1]);
    }
  }

  /** An element without any `ref` in its tree gives just its own text: the texts of other children are ignored. */
  lemma IgnoringRefsWithoutRefs(e: Element)
    requires forall i :: 0 <= i < |PreOrder(e)| ==> PreOrder(e)[i].tag != "ref"
    ensures IgnoringRefs(e) == if e.text.Some? then [e.text] else []
  {
    NoRefTexts(PreOrder(e));
  }

  lemma {:induction false} RefTextsAppend(xs: seq<Element>, ys: seq<Element>)
    ensures RefTexts(xs + ys) == RefTexts(xs) + RefTexts(ys)
    decreases |ys|
  {
    if ys == [] {
      assert xs + ys == xs;
    } else {
      assert (xs + ys)[..|xs + ys| - 1] == xs + ys[..|ys| - 1];
      RefTextsAppend(xs, ys[..|ys| - 1]);
    }
  }

  /** `iter()` starts with the element itself, so a `ref` element's own text is listed twice. */
  lemma RefElementListedTwice(e: Element)
    requires e.tag == "ref" && e.text.Some?
    ensures |IgnoringRefs(e)| >= 2 && IgnoringRefs(e)[0] == e.text && IgnoringRefs(e)[1] == e.text
  {
    RefTextsAppend([e], ChildrenPreOrder(e, |e.children|));
    assert RefTexts([e]) == [e.text] by {
      assert [e][..0] == [];
    }
  }

  // ---------------------------------------------------------------------------
  // extract_default

  /** All strings `itertext()` yields are non-empty. */
  lemma {:induction false} IterTextNonEmpty(e: Element)
    ensures forall i :: 0 <= i < |IterText(e)| ==> IterText(e)[i] != []
    decreases e, 1, 0
  {
    ChildrenIterTextNonEmpty(e, |e.children|);
  }

  lemma {:induction false} ChildrenIterTextNonEmpty(e: Element, k: nat)
    requires k <= |e.children|
    ensures forall i :: 0 <= i < |ChildrenIterText(e, k)| ==> ChildrenIterText(e, k)[i] != []
    decreases e, 0, k
  {
    if k > 0 {
      ChildrenIterTextNonEmpty(e, k - 1);
      IterTextNonEmpty(e.children[k - 1]);
    }
  }

  /** `extract_default(element)`: the space-joined text of the `defval` element and an empty value. */
  function ExtractDefault(e: Element): (d: MdConverter.DefaultValue)
    ensures d.value == []
    ensures d.name == [] <==> IterText(e) == []
  {
    IterTextNonEmpty(e);
    JoinOfNonEmpty(IterText(e));
    MdConverter.DefaultValue(Strings.Join(IterText(e), ' '), "")
  }

  lemma JoinOfNonEmpty(parts: seq<string>)
    requires forall i :: 0 <= i < |parts| ==> parts[i] != []
    ensures Strings.Join(parts, ' ') == [] <==> parts == []
  {
  }

  // ---------------------------------------------------------------------------
  // The filter of extract_member_function

  /** `any(filtered_func in short_name for filtered_func in function_filter)`. */
  function AnyContained(shortName: string, functionFilter: seq<string>): bool
  {
    if functionFilter == [] then false
    else Strings.Contains(shortName, functionFilter[0]) || AnyContained(shortName, functionFilter[1..])
  }

  /** With filtering on, a function is dropped exactly when some filter string occurs in its short name. */
  lemma {:induction false} AnyContainedIff(shortName: string, functionFilter: seq<string>)
    ensures AnyContained(shortName, functionFilter)
        <==> exists i :: 0 <= i < |functionFilter| && Strings.Contains(shortName, functionFilter[i])
  {
    if functionFilter != [] {
      AnyContainedIff(shortName, functionFilter[1..]);
      if AnyContained(shortName, functionFilter[1..]) {
        var i :| 0 <= i < |functionFilter[1..]| && Strings.Contains(shortName, functionFilter[1..][i]);
        assert functionFilter[i + 1] == functionFilter[1..][i];
      }
      forall i | 1 <= i < |functionFilter| && Strings.Contains(shortName, functionFilter[i])
        ensures AnyContained(shortName, functionFilter[1..])
      {
        assert functionFilter[1..][i - 1] == functionFilter[i];
      }
    }
  }

  /** An empty filter string occurs in every name, so it filters out every function. */
  lemma EmptyFilterDropsAll(shortName: string, functionFilter: seq<string>)
    requires "" in functionFilter
    ensures AnyContained(shortName, functionFilter)
  {
    AnyContainedIff(shortName, functionFilter);
    var i :| 0 <= i < |functionFilter| && functionFilter[i] == "";
    assert Strings.Contains(shortName, functionFilter[i]);
  }

  // ---------------------------------------------------------------------------
  // The parameters of extract_member_function

  /** A `param` element: its first `type`, `declname` and `defval` children, when present. */
  datatype ParamElement = ParamElement(typ: Option<Element>, declname: Option<Element>, defval: Option<Element>)

  /** `' '.join(list)` of a list that may hold `None`; `None` when it does (Python raises `TypeError`). */
  function JoinTexts(xs: seq<Option<string>>): Option<string>
  {
    if forall i :: 0 <= i < |xs| ==> xs[i].Some? then
      Some(Strings.Join(seq(|xs|, i requires 0 <= i < |xs| => xs[i].value), ' '))
    else None
  }

  /** The parameter dictionary built from a `param` element, `None` when a `ref` in its name has no text. */
  function ParamOf(p: ParamElement): Option<MdConverter.Param>
  {
    var typ := if p.typ.Some? then Escaped(Strings.Join(IterText(p.typ.value), ' ')) else "";
    var name := if p.declname.Some? then JoinTexts(IgnoringRefs(p.declname.value)) else Some("");
    var default := if p.defval.Some? then ExtractDefault(p.defval.value) else MdConverter.DefaultValue("", "");
    if name.None? then None else Some(MdConverter.Param(typ, name.value, default, None))
  }

  /** One iteration of the parameter loop of `extract_member_function`. */
  method ExtractParam(parameter: ParamElement) returns (r: Option<MdConverter.Param>)
    ensures r == ParamOf(parameter)
  {
    var typ := "";
    var name := "";
    if parameter.typ.Some? {
      typ := EscapeMdChars(Strings.Join(IterText(parameter.typ.value), ' '));
    }
    if parameter.declname.Some? {
      var texts := ExtractIgnoringRefs(parameter.declname.value);
      var joined := JoinTexts(texts);
      if joined.None? {
        return None;
      }
      name := joined.value;
    }
    var paramObject := MdConverter.Param(typ, name, MdConverter.DefaultValue("", ""), None);
    if parameter.defval.Some? {
      var extracted := ExtractDefault(parameter.defval.value);
      paramObject := paramObject.(default := paramObject.default.(name := extracted.name, value := extracted.value));
    }
    r := Some(paramObject);
  }

  /**
   * A parameter counts as having no default (and so as required in `derive_functions`) exactly
   * when it has no `defval` or its `defval` has no text.
   */
  lemma ParamDefault(p: ParamElement)
    requires ParamOf(p).Some?
    ensures ParamOf(p).value.default.value == []
    ensures ParamOf(p).value.default.name == [] <==> p.defval.None? || IterText(p.defval.value) == []
  {
  }

  // ---------------------------------------------------------------------------
  // Matching documented parameter descriptions

  /** A `parameteritem`: the texts of its `parametername`s and its `parameterdescription/para` elements. */
  datatype ParamItem = ParamItem(names: seq<string>, additional: seq<Element>)

  /** The documented name: the first `parametername`, or "" when there is none. */
  function ItemName(item: ParamItem): string
  {
    if |item.names| != 0 then item.names[0] else ""
  }

  /** The documented description: the space-joined text of the first `para`, or "". */
  function ItemDescription(item: ParamItem): string
  {
    if |item.additional| != 0 then Strings.Join(IterText(item.additional[0]), ' ') else ""
  }

  /** The description `p` ends up with after the first `k` items: that of the last item whose name occurs in `p`'s name. */
  function DescriptionAfter(p: MdConverter.Param, items: seq<ParamItem>, k: nat): Option<string>
    requires k <= |items|
  {
    if k == 0 then p.description
    else if Strings.Contains(p.name, ItemName(items[k - 1])) then Some(ItemDescription(items[k - 1]))
    else DescriptionAfter(p, items, k - 1)
  }

  /** The inner loop: every parameter whose name contains `name` gets `description`. */
  method ApplyDescriptor(params: seq<MdConverter.Param>, name: string, description: string)
    returns (r: seq<MdConverter.Param>)
    ensures |r| == |params|
    ensures forall i :: 0 <= i < |r| ==>
      r[i] == if Strings.Contains(params[i].name, name) then params[i].(description := Some(description)) else params[i]
  {
    r := params;
    for i := 0 to |r|
      invariant |r| == |params|
      invariant forall j :: 0 <= j < i ==>
        r[j] == if Strings.Contains(params[j].name, name) then params[j].(description := Some(description)) else params[j]
      invariant forall j :: i <= j < |r| ==> r[j] == params[j]
    {
      if Strings.Contains(r[i].name, name) {
        r := r[i := r[i].(description := Some(description))];
      }
    }
  }

  /** The `{'name', 'description'}` dictionary built for one `parameteritem`. */
  datatype ParamDescriptor = ParamDescriptor(name: string, description: string)

  /** The loop over the items of the first `parameterlist`. */
  method MatchParamDescriptions(params: seq<MdConverter.Param>, items: seq<ParamItem>)
    returns (r: seq<MdConverter.Param>)
    ensures |r| == |params|
    ensures forall i :: 0 <= i < |r| ==> r[i] == params[i].(description := DescriptionAfter(params[i], items, |items|))
  {
    r := params;
    for k := 0 to |items|
      invariant |r| == |params|
      invariant forall i :: 0 <= i < |r| ==> r[i] == params[i].(description := DescriptionAfter(params[i], items, k))
    {
      var paramDescriptor := ParamDescriptor(ItemName(items[k]), ItemDescription(items[k]));
      r := ApplyDescriptor(r, paramDescriptor.name, paramDescriptor.description);
    }
  }

  /** An item without a `parametername` has the name "", which occurs in every parameter name. */
  lemma UnnamedItemMatchesAll(p: MdConverter.Param, items: seq<ParamItem>)
    requires |items| > 0 && items[|items| - 1].names == []
    ensures DescriptionAfter(p, items, |items|) == Some(ItemDescription(items[|items| - 1]))
  {
    assert Strings.StartsWith(p.name, "");
  }

  /** A parameter gets a description from the items exactly when some item's name occurs in its name. */
  lemma {:induction false} DescribedIffMatched(p: MdConverter.Param, items: seq<ParamItem>, k: nat)
    requires k <= |items| && p.description.None?
    ensures DescriptionAfter(p, items, k).Some? <==>
      exists j :: 0 <= j < k && Strings.Contains(p.name, ItemName(items[j]))
  {
    if k > 0 {
      DescribedIffMatched(p, items, k - 1);
    }
  }

  /** The description is that of the last item whose name occurs in the parameter's name. */
  lemma {:induction false} LastMatchWins(p: MdConverter.Param, items: seq<ParamItem>, k: nat, j: nat)
    requires j < k <= |items| && Strings.Contains(p.name, ItemName(items[j]))
    requires forall l :: j < l < k ==> !Strings.Contains(p.name, ItemName(items[l]))
    ensures DescriptionAfter(p, items, k) == Some(ItemDescription(items[j]))
  {
    if k - 1 != j {
      LastMatchWins(p, items, k - 1, j);
    }
  }

  // ---------------------------------------------------------------------------
  // extract_member_function, without the walk over the detailed description

  /**
   * A `memberdef` element: the texts of its `definition` and `name`, its `type`, its `param`s, the
   * `parameteritem`s of each `para/parameterlist`, and the already extracted description, return,
   * note and example texts.
   */
  datatype MemberElement = MemberElement(
    definition: string, name: string, typ: Option<Element>, params: seq<ParamElement>,
    paramLists: seq<seq<ParamItem>>, description: seq<string>, returnsText: string, notes: string,
    examples: string)

  /** What `extract_member_function` gives: `None` for a filtered-out function, the function, or a `TypeError`. */
  datatype Extracted = FilteredOut | Function(f: MdConverter.MemberFunc) | MissingRefText

  /** The return type text is not extractable: a `ref` inside `type` has no text. */
  predicate TypeMissing(x: MemberElement)
  {
    x.typ.Some? && JoinTexts(IgnoringRefs(x.typ.value)).None?
  }

  function FirstItems(x: MemberElement): seq<ParamItem>
  {
    if |x.paramLists| != 0 then x.paramLists[0] else []
  }

  /** The loop over the `param` elements; `None` at the first one whose name is not extractable. */
  method ExtractParams(ps: seq<ParamElement>) returns (r: Option<seq<MdConverter.Param>>)
    ensures r.None? <==> exists j :: 0 <= j < |ps| && ParamOf(ps[j]).None?
    ensures r.Some? ==> |r.value| == |ps| && forall j :: 0 <= j < |ps| ==> ParamOf(ps[j]) == Some(r.value[j])
  {
    var params := [];
    for i := 0 to |ps|
      invariant |params| == i
      invariant forall j :: 0 <= j < i ==> ParamOf(ps[j]) == Some(params[j])
    {
      var p := ExtractParam(ps[i]);
      if p.None? {
        return None;
      }
      params := params + [p.value];
    }
    r := Some(params);
  }

  /** `extract_member_function(xml_element, function_filter, filter)`. */
  method ExtractMemberFunction(x: MemberElement, functionFilter: seq<string>, filterOn: bool) returns (r: Extracted)
    ensures r.FilteredOut? <==> filterOn && exists i :: 0 <= i < |functionFilter| && Strings.Contains(x.name, functionFilter[i])
    ensures r.MissingRefText? <==>
      (!r.FilteredOut? && (TypeMissing(x) || exists j :: 0 <= j < |x.params| && ParamOf(x.params[j]).None?))
    ensures r.Function? ==>
      && r.f.shortName == x.name && r.f.name == x.definition
      && r.f.returnType == (if x.typ.Some? then Escaped(JoinTexts(IgnoringRefs(x.typ.value)).value) else "")
      && |r.f.params| == |x.params|
      && (forall j :: 0 <= j < |x.params| ==>
            r.f.params[j] == ParamOf(x.params[j]).value.(description := DescriptionAfter(ParamOf(x.params[j]).value, FirstItems(x), |FirstItems(x)|)))
      && r.f.description == x.description && r.f.returnsText == x.returnsText
      && r.f.notes == x.notes && r.f.examples == x.examples
  {
    AnyContainedIff(x.name, functionFilter);
    if filterOn && AnyContained(x.name, functionFilter) {
      return FilteredOut;
    }
    var returnType := "";
    if x.typ.Some? {
      var texts := ExtractIgnoringRefs(x.typ.value);
      var joined := JoinTexts(texts);
      if joined.None? {
        return MissingRefText;
      }
      returnType := EscapeMdChars(joined.value);
    }
    var params := ExtractParams(x.params);
    if params.None? {
      return MissingRefText;
    }
    var described := MatchParamDescriptions(params.value, FirstItems(x));
    r := Function(MdConverter.MemberFunc(x.name, x.definition, returnType, described, x.description,
                                         x.returnsText, x.notes, x.examples));
  }
}
