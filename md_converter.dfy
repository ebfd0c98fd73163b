/**
 * The Markdown side of the micro:bit documentation generator (`utils/python/doc_gen/md_converter.py`):
 * colouring a piece of text, removing a previously generated section from a page, deriving the
 * overloads a member function with default arguments stands for, and the section headers and
 * terminator of a generated block. What the meta-data comment on a line says (the regular
 * expression and `json.loads`) is a parameter, as is the text rendered for one derived function.
 */
module MdConverter {
  import opened Common

  // ---------------------------------------------------------------------------
  // wrap_text

  const CLOSE_DIV: string := "</div>"

  /** The opening tag `wrap_text` writes for `color`. */
  function OpenDiv(color: string): string
  {
    "<div style='color:" + color + "; display:inline-block'>"
  }

  /** `wrap_text(text, color)`: the text inside a `div` of the given colour; the text reads back from it. */
  function WrapText(text: string, color: string): (r: string)
    ensures |r| == |OpenDiv(color)| + |text| + |CLOSE_DIV|
    ensures r[..|OpenDiv(color)|] == OpenDiv(color)
    ensures r[|OpenDiv(color)|..|r| - |CLOSE_DIV|] == text
    ensures r[|r| - |CLOSE_DIV|..] == CLOSE_DIV
  {
    OpenDiv(color) + text + CLOSE_DIV
  }

  /** Different texts in the same colour give different markup. */
  lemma WrapTextInjective(t1: string, t2: string, color: string)
    requires WrapText(t1, color) == WrapText(t2, color)
    ensures t1 == t2
  {
  }

  // ---------------------------------------------------------------------------
  // clean

  /** The keys of the meta-data comment on a line; both false on a line without one. */
  datatype Meta = Meta(className: bool, end: bool)

  datatype MarkerKind = ClassNameMarker | EndMarker

  predicate Marked(m: Meta, kind: MarkerKind)
  {
    match kind
    case ClassNameMarker => m.className
    case EndMarker => m.end
  }

  /** The 1-based number of the last of the first `n` lines that carries a `kind` marker, or 0. */
  function LastMarked(lines: seq<string>, classify: string -> Meta, kind: MarkerKind, n: nat): (k: nat)
    requires n <= |lines|
    ensures k <= n
    ensures k > 0 ==> Marked(classify(lines[k - 1]), kind)
    ensures forall j :: k <= j < n ==> !Marked(classify(lines[j]), kind)
  {
    if n == 0 then 0
    else if Marked(classify(lines[n - 1]), kind) then n
    else LastMarked(lines, classify, kind, n - 1)
  }

  /** `start`: the number of the last `className` line. */
  function CleanStart(lines: seq<string>, classify: string -> Meta): nat
  {
    LastMarked(lines, classify, ClassNameMarker, |lines|)
  }

  /** `end`: one less than the number of the last `end` line, or 0. */
  function CleanEnd(lines: seq<string>, classify: string -> Meta): nat
  {
    var e := LastMarked(lines, classify, EndMarker, |lines|);
    if e == 0 then 0 else e - 1
  }

  /** `file_lines[:start] + file_lines[end:]`. */
  function Cleaned(lines: seq<string>, classify: string -> Meta): seq<string>
  {
    lines[..CleanStart(lines, classify)] + lines[CleanEnd(lines, classify)..]
  }

  /** `clean(file_lines, regexp)`, with the line classification as `classify`. */
  method Clean(fileLines: seq<string>, classify: string -> Meta) returns (r: seq<string>)
    ensures r == Cleaned(fileLines, classify)
  {
    var start := 0;
    var end := 0;
    for i := 0 to |fileLines|
      invariant start == LastMarked(fileLines, classify, ClassNameMarker, i)
      invariant end == if LastMarked(fileLines, classify, EndMarker, i) == 0 then 0
                       else LastMarked(fileLines, classify, EndMarker, i) - 1
    {
      var lineNumber := i + 1;
      var metaData := classify(fileLines[i]);
      if metaData.className {
        start := lineNumber;
      }
      if metaData.end {
        end := lineNumber - 1;
      }
    }
    r := fileLines[..start] + fileLines[end..];
  }

  /** A page with no meta-data markers comes back unchanged. */
  lemma CleanWithoutMarkers(lines: seq<string>, classify: string -> Meta)
    requires forall i :: 0 <= i < |lines| ==> !classify(lines[i]).className && !classify(lines[i]).end
    ensures Cleaned(lines, classify) == lines
  {
    NoneMarked(lines, classify, ClassNameMarker, |lines|);
    NoneMarked(lines, classify, EndMarker, |lines|);
  }

  lemma {:induction false} NoneMarked(lines: seq<string>, classify: string -> Meta, kind: MarkerKind, n: nat)
    requires n <= |lines|
    requires forall i :: 0 <= i < n ==> !Marked(classify(lines[i]), kind)
    ensures LastMarked(lines, classify, kind, n) == 0
  {
    if n > 0 {
      NoneMarked(lines, classify, kind, n - 1);
    }
  }

  /** The only `kind` marker among the first `n` lines is on line index `a`. */
  lemma {:induction false} OnlyMarked(lines: seq<string>, classify: string -> Meta, kind: MarkerKind, n: nat, a: nat)
    requires a < n <= |lines| && Marked(classify(lines[a]), kind)
    requires forall i :: 0 <= i < n && i != a ==> !Marked(classify(lines[i]), kind)
    ensures LastMarked(lines, classify, kind, n) == a + 1
  {
    if n - 1 != a {
      OnlyMarked(lines, classify, kind, n - 1, a);
    }
  }

  /**
   * A page whose one `className` marker (line index `a`) comes before its one `end` marker (line
   * index `b`) keeps both marker lines and loses exactly the lines between them.
   */
  lemma CleanSection(lines: seq<string>, classify: string -> Meta, a: nat, b: nat)
    requires a < b < |lines|
    requires classify(lines[a]).className && classify(lines[b]).end
    requires forall i :: 0 <= i < |lines| && i != a ==> !classify(lines[i]).className
    requires forall i :: 0 <= i < |lines| && i != b ==> !classify(lines[i]).end
    ensures Cleaned(lines, classify) == lines[..a + 1] + lines[b..]
    ensures |Cleaned(lines, classify)| == |lines| - (b - a - 1)
  {
    OnlyMarked(lines, classify, ClassNameMarker, |lines|, a);
    OnlyMarked(lines, classify, EndMarker, |lines|, b);
  }

  /** Cleaning a page with one well-placed section again changes nothing more. */
  lemma CleanIdempotent(lines: seq<string>, classify: string -> Meta, a: nat, b: nat)
    requires a < b < |lines|
    requires classify(lines[a]).className && classify(lines[b]).end
    requires forall i :: 0 <= i < |lines| && i != a ==> !classify(lines[i]).className
    requires forall i :: 0 <= i < |lines| && i != b ==> !classify(lines[i]).end
    ensures Cleaned(Cleaned(lines, classify), classify) == Cleaned(lines, classify)
  {
    CleanSection(lines, classify, a, b);
    var once := Cleaned(lines, classify);
    assert once[a + 1] == lines[b];
    forall i | 0 <= i < |once| && i != a
      ensures !classify(once[i]).className
    {
      if i <= a {
        assert once[i] == lines[i];
      } else {
        assert once[i] == lines[b + i - (a + 1)];
      }
    }
    forall i | 0 <= i < |once| && i != a + 1
      ensures !classify(once[i]).end
    {
      if i <= a {
        assert once[i] == lines[i];
      } else {
        assert once[i] == lines[b + i - (a + 1)];
      }
    }
    CleanSection(once, classify, a, a + 1);
    assert once[..a + 1] + once[a + 1..] == once;
  }

  /**
   * When the last `className` marker comes after the last `end` marker (or there is no `end`
   * marker at all), the two slices overlap and the lines between them come out twice.
   */
  lemma CleanRepeatsOverlap(lines: seq<string>, classify: string -> Meta)
    requires CleanEnd(lines, classify) < CleanStart(lines, classify)
    ensures |Cleaned(lines, classify)| == |lines| + (CleanStart(lines, classify) - CleanEnd(lines, classify))
    ensures Cleaned(lines, classify)[CleanEnd(lines, classify)..CleanStart(lines, classify)]
         == Cleaned(lines, classify)[CleanStart(lines, classify)..2 * CleanStart(lines, classify) - CleanEnd(lines, classify)]
  {
    var s := CleanStart(lines, classify);
    var e := CleanEnd(lines, classify);
    var r := Cleaned(lines, classify);
    assert r[e..s] == lines[e..s];
    assert r[s..2 * s - e] == lines[e..s];
  }

  // ---------------------------------------------------------------------------
  // derive_functions

  /** A parameter's default: `extract_default` fills the name and leaves the value empty. */
  datatype DefaultValue = DefaultValue(name: string, value: string)

  /** A parameter dictionary; `description` is present only when the documentation names the parameter. */
  datatype Param = Param(typ: string, name: string, default: DefaultValue, description: Option<string>)

  /** A member-function dictionary as `extract_member_function` builds it. */
  datatype MemberFunc = MemberFunc(
    shortName: string, name: string, returnType: string, params: seq<Param>,
    description: seq<string>, returnsText: string, notes: string, examples: string)

  /** The number of leading parameters without a default. */
  function LeadingRequired(params: seq<Param>): (k: nat)
    ensures k <= |params|
    ensures forall i :: 0 <= i < k ==> params[i].default.name == []
    ensures k < |params| ==> params[k].default.name != []
  {
    if params == [] || params[0].default.name != [] then 0 else 1 + LeadingRequired(params[1..])
  }

  /**
   * The overloads `f` stands for: itself when it has no parameters; otherwise one entry per number
   * of parameters from the required ones up to all of them, everything else copied.
   */
  function Derived(f: MemberFunc): (ds: seq<MemberFunc>)
  {
    if f.params == [] then [f]
    else
      var k := LeadingRequired(f.params);
      seq(|f.params| - k + 1, i requires 0 <= i <= |f.params| - k => f.(params := f.params[..k + i]))
  }

  /** `derive_functions(member_func)`. */
  method DeriveFunctions(memberFunc: MemberFunc) returns (derived: seq<MemberFunc>)
    ensures derived == Derived(memberFunc)
  {
    derived := [];
    var params := memberFunc.params;
    if |params| != 0 {
      var paramIndex := CountRequired(params);
      var bareParams := [];
      for i := 0 to paramIndex
        invariant bareParams == params[..i]
      {
        bareParams := bareParams + [params[i]];
      }
      var bareFunction := memberFunc.(params := bareParams);
      derived := derived + [bareFunction];
      var current := bareFunction;
      for remainder := paramIndex to |params|
        invariant current == memberFunc.(params := params[..remainder])
        invariant |derived| == remainder - paramIndex + 1
        invariant forall i :: 0 <= i < |derived| ==> derived[i] == memberFunc.(params := params[..paramIndex + i])
      {
        current := current.(params := current.params + [params[remainder]]);
        assert current.params == params[..remainder + 1];
        derived := derived + [current];
      }
    } else {
      derived := derived + [memberFunc];
    }
  }

  /** The first loop of `derive_functions`: count the parameters up to the first one with a default. */
  method CountRequired(params: seq<Param>) returns (paramIndex: nat)
    ensures paramIndex == LeadingRequired(params)
  {
    paramIndex := 0;
    while paramIndex < |params| && |params[paramIndex].default.name| == 0
      invariant paramIndex <= |params|
      invariant forall i :: 0 <= i < paramIndex ==> params[i].default.name == []
    {
      paramIndex := paramIndex + 1;
    }
    LeadingRequiredIs(params, paramIndex);
  }

  lemma {:induction false} LeadingRequiredIs(params: seq<Param>, k: nat)
    requires k <= |params|
    requires forall i :: 0 <= i < k ==> params[i].default.name == []
    requires k < |params| ==> params[k].default.name != []
    ensures LeadingRequired(params) == k
  {
    if k > 0 {
      LeadingRequiredIs(params[1..], k - 1);
    }
  }

  /**
   * The derived list: one more entry than there are parameters with defaults; the first takes
   * exactly the required parameters, each next one adds the following parameter, and the last is
   * the function itself.
   */
  lemma DerivedShape(f: MemberFunc)
    ensures |Derived(f)| == |f.params| - LeadingRequired(f.params) + 1
    ensures Derived(f)[0].params == f.params[..LeadingRequired(f.params)]
    ensures forall i :: 0 <= i < |Derived(f)| ==> Derived(f)[i].params <= f.params
    ensures forall i :: 0 < i < |Derived(f)| ==>
      Derived(f)[i].params == Derived(f)[i - 1].params + [f.params[LeadingRequired(f.params) + i - 1]]
    ensures Derived(f)[|Derived(f)| - 1] == f
  {
    DerivedPrefixes(f);
    DerivedSteps(f);
    DerivedLast(f);
  }

  /** Every derived entry's parameters are a prefix of the function's. */
  lemma DerivedPrefixes(f: MemberFunc)
    ensures forall i :: 0 <= i < |Derived(f)| ==> Derived(f)[i].params <= f.params
  {
    if f.params != [] {
      forall i | 0 <= i < |Derived(f)|
        ensures Derived(f)[i].params <= f.params
      {
        DerivedAt(f, i);
      }
    }
  }

  /** Each derived entry adds the next parameter to the one before it. */
  lemma DerivedSteps(f: MemberFunc)
    ensures forall i :: 0 < i < |Derived(f)| ==>
      Derived(f)[i].params == Derived(f)[i - 1].params + [f.params[LeadingRequired(f.params) + i - 1]]
  {
    var k := LeadingRequired(f.params);
    if f.params != [] {
      forall i | 0 < i < |Derived(f)|
        ensures Derived(f)[i].params == Derived(f)[i - 1].params + [f.params[k + i - 1]]
      {
        DerivedStep(f, i);
      }
    }
  }

  /** Entry `i` adds parameter `k + i - 1` to entry `i - 1`, `k` the number of leading required ones. */
  lemma DerivedStep(f: MemberFunc, i: nat)
    requires f.params != [] && 0 < i <= |f.params| - LeadingRequired(f.params)
    ensures Derived(f)[i].params == Derived(f)[i - 1].params + [f.params[LeadingRequired(f.params) + i - 1]]
  {
    DerivedAt(f, i);
    DerivedAt(f, i - 1);
    PrefixSnoc(f.params, LeadingRequired(f.params) + i);
  }

  lemma PrefixSnoc(s: seq<Param>, n: nat)
    requires 0 < n <= |s|
    ensures s[..n] == s[..n - 1] + [s[n - 1]]
  {
  }

  /** The last derived entry is the function itself. */
  lemma DerivedLast(f: MemberFunc)
    ensures Derived(f)[|Derived(f)| - 1] == f
  {
    if f.params != [] {
      var k := LeadingRequired(f.params);
      DerivedAt(f, |f.params| - k);
      assert f.params[..|f.params|] == f.params;
    }
  }

  /** Entry `i` of a function with parameters takes the required ones and `i` more. */
  lemma DerivedAt(f: MemberFunc, i: nat)
    requires f.params != [] && i <= |f.params| - LeadingRequired(f.params)
    ensures |Derived(f)| == |f.params| - LeadingRequired(f.params) + 1
    ensures Derived(f)[i] == f.(params := f.params[..LeadingRequired(f.params) + i])
  {
  }

  /** Every derived entry keeps all fields of the original other than its parameter list. */
  lemma DerivedKeepsFields(f: MemberFunc, i: nat)
    requires i < |Derived(f)|
    ensures Derived(f)[i] == f.(params := Derived(f)[i].params)
  {
  }

  // ---------------------------------------------------------------------------
  // gen_member_func_doc: section headers and terminator

  const TERMINATOR: string := "____\n"

  /** The header line for a run of functions called `shortName`. */
  function Header(className: string, shortName: string): (h: string)
    ensures h == "##Constructor\n" <==> shortName == className || shortName == "Constructor"
  {
    var h := if className == shortName then "##Constructor\n" else "##" + shortName + "\n";
    assert h[2..|h| - 1] == if className == shortName then "Constructor" else shortName;
    assert "##Constructor\n"[2..13] == "Constructor";
    h
  }

  /** Function `k` starts a new run of short names, and so gets a header. */
  predicate StartsRun(funcs: seq<MemberFunc>, k: nat)
    requires k < |funcs|
  {
    k == 0 || funcs[k].shortName != funcs[k - 1].shortName
  }

  /** The lines rendered for a list of derived functions, in order. */
  function Blocks(render: MemberFunc -> seq<string>, ds: seq<MemberFunc>): seq<string>
  {
    if ds == [] then [] else Blocks(render, ds[..|ds| - 1]) + render(ds[|ds| - 1])
  }

  /** The lines for the first `n` functions: a header where a run starts, then the rendered overloads. */
  function DocLines(className: string, funcs: seq<MemberFunc>, separateDefaults: bool,
                    render: MemberFunc -> seq<string>, n: nat): seq<string>
    requires n <= |funcs|
  {
    if n == 0 then []
    else
      DocLines(className, funcs, separateDefaults, render, n - 1)
      + (if StartsRun(funcs, n - 1) then [Header(className, funcs[n - 1].shortName)] else [])
      + (if separateDefaults then Blocks(render, Derived(funcs[n - 1])) else [])
  }

  /**
   * `gen_member_func_doc(class_name, member_functions)`; `render` stands for the lines written
   * for one derived function (its signature, description, parameters, returns, example and note).
   */
  method GenMemberFuncDoc(className: string, memberFunctions: seq<MemberFunc>, separateDefaults: bool,
                          render: MemberFunc -> seq<string>) returns (lines: seq<string>)
    ensures lines == DocLines(className, memberFunctions, separateDefaults, render, |memberFunctions|) + [TERMINATOR]
  {
    lines := [];
    for index := 0 to |memberFunctions|
      invariant lines == DocLines(className, memberFunctions, separateDefaults, render, index)
    {
      var memberFunc := memberFunctions[index];
      var header: seq<string> := [];
      if index == 0 || memberFunc.shortName != memberFunctions[index - 1].shortName {
        if className == memberFunc.shortName {
          header := ["##Constructor\n"];
        } else {
          header := ["##" + memberFunc.shortName + "\n"];
        }
      }
      assert header == if StartsRun(memberFunctions, index) then [Header(className, memberFunc.shortName)] else [];
      var memberFunctionsDerived := [];
      if separateDefaults {
        memberFunctionsDerived := DeriveFunctions(memberFunc);
      }
      assert Blocks(render, memberFunctionsDerived)
          == if separateDefaults then Blocks(render, Derived(memberFunc)) else [];
      lines := AppendBlocks(lines + header, memberFunctionsDerived, render);
    }
    lines := lines + [TERMINATOR];
  }

  /** The inner loop of `gen_member_func_doc`: the rendered lines of each derived function in turn. */
  method AppendBlocks(lines: seq<string>, ds: seq<MemberFunc>, render: MemberFunc -> seq<string>) returns (r: seq<string>)
    ensures r == lines + Blocks(render, ds)
  {
    r := lines;
    for j := 0 to |ds|
      invariant r == lines + Blocks(render, ds[..j])
    {
      assert ds[..j + 1][..j] == ds[..j];
      r := r + render(ds[j]);
    }
    assert ds[..|ds|] == ds;
  }

  /** The headers for the first `n` functions. */
  function Headers(className: string, funcs: seq<MemberFunc>, n: nat): seq<string>
    requires n <= |funcs|
  {
    if n == 0 then []
    else Headers(className, funcs, n - 1) + (if StartsRun(funcs, n - 1) then [Header(className, funcs[n - 1].shortName)] else [])
  }

  /** Without `separate_defaults` the block is only the section headers and the terminator. */
  lemma {:induction false} HeadersOnly(className: string, funcs: seq<MemberFunc>, render: MemberFunc -> seq<string>, n: nat)
    requires n <= |funcs|
    ensures DocLines(className, funcs, false, render, n) == Headers(className, funcs, n)
  {
    if n > 0 {
      HeadersOnly(className, funcs, render, n - 1);
    }
  }

  /** There is one header per run of equal short names: one for a non-empty list of overloads of one name. */
  lemma {:induction false} OneHeaderPerName(className: string, funcs: seq<MemberFunc>, n: nat)
    requires 0 < n <= |funcs|
    requires forall i :: 0 <= i < n ==> funcs[i].shortName == funcs[0].shortName
    ensures Headers(className, funcs, n) == [Header(className, funcs[0].shortName)]
  {
    if n > 1 {
      OneHeaderPerName(className, funcs, n - 1);
    }
  }

  /** Each function adds at most one header, and the first always adds one. */
  lemma {:induction false} HeaderCount(className: string, funcs: seq<MemberFunc>, n: nat)
    requires n <= |funcs|
    ensures |Headers(className, funcs, n)| <= n
    ensures n > 0 ==> |Headers(className, funcs, n)| >= 1
  {
    if n > 0 {
      HeaderCount(className, funcs, n - 1);
    }
  }
}
