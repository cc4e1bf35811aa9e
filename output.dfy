/** The generated file as a list of lines written through an indenting text
    writer. A line records how many tabs precede it and what it says; the text
    of types and syntax is kept symbolic (a type prints as its display name, a
    rewritten body is the node itself). */
module Output {
  import opened Symbols
  import opened Syntax

  datatype Item =
    | AutoGenerated                                 // // <auto-generated/>
    | NullableEnable                                // #nullable enable
    | PragmaDisable                                 // #pragma warning disable
    | Blank
    | Usings                                        // the compilation unit's using directives
    | NamespaceHead(nsName: string)                 // namespace N
    | ClassHead(className: string, typeParamList: string) // partial class C<T>
    | StructHead(typeName: string, iface: Ty)       // private struct S : I
    | FieldLine(fieldType: string, fieldName: string) // public T x;
    | MethodHead(returnType: Ty, methodName: string) // public R M(...)
    | BodyText(body: Node)                          // a rewritten body, written without tabs
    | ForwarderHead(isStatic: bool, methodName: string) // private [static] R M_FunctionalInterface(...)
    | LocalLine(typeName: string)                   // S __functionalInterface = default;
    | OpenBrace
    | CloseBrace

  datatype Line = Line(tabs: nat, item: Item)

  /** IndentedTextWriter, as far as the generator uses it. */
  class Writer {
    var indent: nat
    var lines: seq<Line>

    constructor()
      ensures indent == 0 && lines == []
    {
      indent := 0;
      lines := [];
    }

    /** WriteLine: the line is indented by the current indent. */
    method WriteLine(item: Item)
      modifies this
      ensures lines == old(lines) + [Line(old(indent), item)]
      ensures indent == old(indent)
    {
      lines := lines + [Line(indent, item)];
    }

    /** WriteLineNoTabs: the line is written as it is. */
    method WriteLineNoTabs(item: Item)
      modifies this
      ensures lines == old(lines) + [Line(0, item)]
      ensures indent == old(indent)
    {
      lines := lines + [Line(0, item)];
    }

    /** The Indent setter: a negative value is taken as zero. */
    method SetIndent(value: int)
      modifies this
      ensures indent == (if value < 0 then 0 else value)
      ensures lines == old(lines)
    {
      indent := if value < 0 then 0 else value;
    }

    /** `{` followed by Indent++. */
    method Open()
      modifies this
      ensures lines == old(lines) + [Line(old(indent), OpenBrace)]
      ensures indent == old(indent) + 1
    {
      WriteLine(OpenBrace);
      SetIndent(indent + 1);
    }

    /** Indent-- followed by `}`. */
    method Close()
      modifies this
      ensures lines == old(lines) + [Line(if old(indent) == 0 then 0 else old(indent) - 1, CloseBrace)]
      ensures indent == (if old(indent) == 0 then 0 else old(indent) - 1)
    {
      SetIndent(indent - 1);
      WriteLine(CloseBrace);
    }
  }

  // ---------------------------------------------------------------------------
  // Brace structure.

  /** The lines, read from depth d (the number of braces open), have every brace
      closed only after it is opened, and every tabbed line indented by the
      depth at that point; a body written without tabs has none. */
  predicate Nested(d: nat, ls: seq<Line>)
    decreases |ls|
  {
    ls == [] ||
    match ls[0].item
    case OpenBrace => ls[0].tabs == d && Nested(d + 1, ls[1..])
    case CloseBrace => d >= 1 && ls[0].tabs == d - 1 && Nested(d - 1, ls[1..])
    case BodyText(_) => ls[0].tabs == 0 && Nested(d, ls[1..])
    case _ => ls[0].tabs == d && Nested(d, ls[1..])
  }

  /** The depth after the lines, read from depth d. */
  function DepthAfter(d: int, ls: seq<Line>): int
    decreases |ls|
  {
    if ls == [] then d
    else DepthAfter(match ls[0].item
                    case OpenBrace => d + 1
                    case CloseBrace => d - 1
                    case _ => d, ls[1..])
  }

  /** Braces balance: nested from depth 0 back to depth 0. */
  predicate Balanced(ls: seq<Line>) {
    Nested(0, ls) && DepthAfter(0, ls) == 0
  }

  lemma {:induction false} NestedAppend(d: nat, a: seq<Line>, b: seq<Line>)
    requires Nested(d, a) && DepthAfter(d, a) >= 0 && Nested(DepthAfter(d, a) as nat, b)
    ensures Nested(d, a + b)
    ensures DepthAfter(d, a + b) == DepthAfter(DepthAfter(d, a), b)
    decreases |a|
  {
    if a != [] {
      assert (a + b)[1..] == a[1..] + b;
      match a[0].item
      case OpenBrace => NestedAppend(d + 1, a[1..], b);
      case CloseBrace => NestedAppend(d - 1, a[1..], b);
      case _ => NestedAppend(d, a[1..], b);
    } else {
      assert a + b == b;
    }
  }

  /** Nested lines never go below depth zero. */
  lemma {:induction false} NestedDepth(d: nat, ls: seq<Line>)
    requires Nested(d, ls)
    ensures DepthAfter(d, ls) >= 0
    decreases |ls|
  {
    if ls != [] {
      match ls[0].item
      case OpenBrace => NestedDepth(d + 1, ls[1..]);
      case CloseBrace => NestedDepth(d - 1, ls[1..]);
      case _ => NestedDepth(d, ls[1..]);
    }
  }

  /** A line that is not a brace leaves the depth as it is. */
  lemma OneLine(d: nat, l: Line)
    requires !l.item.OpenBrace? && !l.item.CloseBrace?
    requires l.tabs == (if l.item.BodyText? then 0 else d)
    ensures Nested(d, [l]) && DepthAfter(d, [l]) == d
  {
    assert [l][1..] == [];
  }

  /** `}` read at depth d + 1 closes one level. */
  lemma CloseLine(d: nat)
    ensures Nested(d + 1, [Line(d, CloseBrace)]) && DepthAfter(d + 1, [Line(d, CloseBrace)]) == d
  {
    assert [Line(d, CloseBrace)][1..] == [];
  }

  /** `{` at depth d, followed by lines read at depth d + 1. */
  lemma OpenLine(d: nat, rest: seq<Line>)
    requires Nested(d + 1, rest)
    ensures Nested(d, [Line(d, OpenBrace)] + rest)
    ensures DepthAfter(d, [Line(d, OpenBrace)] + rest) == DepthAfter(d + 1, rest)
  {
    assert ([Line(d, OpenBrace)] + rest)[1..] == rest;
  }

  /** A block `{ inner }` opened at depth d is nested and leaves the depth as it was. */
  lemma Braced(d: nat, head: seq<Line>, inner: seq<Line>)
    requires Nested(d, head) && DepthAfter(d, head) == d
    requires Nested(d + 1, inner) && DepthAfter(d + 1, inner) == d + 1
    ensures Nested(d, head + [Line(d, OpenBrace)] + inner + [Line(d, CloseBrace)])
    ensures DepthAfter(d, head + [Line(d, OpenBrace)] + inner + [Line(d, CloseBrace)]) == d
  {
    var close := [Line(d, CloseBrace)];
    CloseLine(d);
    NestedAppend(d + 1, inner, close);
    OpenLine(d, inner + close);
    NestedAppend(d, head, [Line(d, OpenBrace)] + (inner + close));
    assert head + [Line(d, OpenBrace)] + inner + [Line(d, CloseBrace)] == head + ([Line(d, OpenBrace)] + (inner + close));
  }
}
