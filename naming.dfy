/** Names the generator makes up: the specialised struct's type name, the chain
    of enclosing classes and namespace, and the hint name of the generated file. */
module Naming {
  import opened Wrappers

  // ---------------------------------------------------------------------------
  // Numbers as text: `{n:X}` (upper-case hexadecimal, no leading zeros) and the
  // decimal text an int appends as.

  const HexDigits: string := "0123456789ABCDEF"

  /** `{n:X}`: upper-case hexadecimal without leading zeros. */
  function Hex(n: nat): (r: string)
    ensures |r| >= 1 && forall k :: 0 <= k < |r| ==> r[k] in HexDigits
  {
    if n < 16 then [HexDigits[n]] else Hex(n / 16) + [HexDigits[n % 16]]
  }

  /** The decimal text of n. */
  function Decimal(n: nat): (r: string)
    ensures |r| >= 1 && forall k :: 0 <= k < |r| ==> r[k] in HexDigits[..10]
  {
    if n < 10 then [HexDigits[n]] else Decimal(n / 10) + [HexDigits[n % 10]]
  }

  function DigitValue(c: char): nat {
    if '0' <= c <= '9' then (c as int - '0' as int) as nat
    else if 'A' <= c <= 'F' then (c as int - 'A' as int + 10) as nat
    else 0
  }

  /** The value of a hexadecimal digit string (the inverse of Hex). */
  function ParseHex(s: string): nat {
    if s == [] then 0 else ParseHex(s[..|s| - 1]) * 16 + DigitValue(s[|s| - 1])
  }

  lemma DigitRoundTrip(d: nat)
    requires d < 16
    ensures DigitValue(HexDigits[d]) == d
  {
  }

  lemma {:induction false} HexRoundTrip(n: nat)
    ensures ParseHex(Hex(n)) == n
    decreases n
  {
    var r := Hex(n);
    if n < 16 {
      DigitRoundTrip(n);
      assert r[..0] == [];
    } else {
      HexRoundTrip(n / 16);
      DigitRoundTrip(n % 16);
      assert r[..|r| - 1] == Hex(n / 16);
    }
  }

  /** Hex text determines the number: distinct offsets print differently. */
  lemma HexInjective(a: nat, b: nat)
    requires Hex(a) == Hex(b)
    ensures a == b
  {
    HexRoundTrip(a);
    HexRoundTrip(b);
  }

  // ---------------------------------------------------------------------------
  // The specialised struct's type name.

  /** Replace('<', '_').Replace('>', '_'). */
  function ReplaceAngles(s: string): (r: string)
    ensures |r| == |s|
    ensures forall k :: 0 <= k < |s| ==> r[k] == (if s[k] == '<' || s[k] == '>' then '_' else s[k])
  {
    if s == [] then [] else ReplaceAngles(s[..|s| - 1]) + [if s[|s| - 1] == '<' || s[|s| - 1] == '>' then '_' else s[|s| - 1]]
  }

  /** `{identifier}_{methodStart:X}_{lambdaStart:X}` with angle brackets made
      underscores: the name of the struct specialised for one lambda. */
  function TypeName(identifier: string, methodStart: nat, lambdaStart: nat): (r: string)
    ensures forall k :: 0 <= k < |r| ==> r[k] != '<' && r[k] != '>'
  {
    ReplaceAngles(identifier + "_" + Hex(methodStart) + "_" + Hex(lambdaStart))
  }

  lemma ReplaceAnglesAppend(a: string, b: string)
    ensures ReplaceAngles(a + b) == ReplaceAngles(a) + ReplaceAngles(b)
  {
  }

  lemma HexDigitIsPlain(c: char)
    requires c in HexDigits
    ensures c != '<' && c != '>' && c != '_'
  {
  }

  lemma ReplaceAnglesPlain(s: string)
    requires forall k :: 0 <= k < |s| ==> s[k] != '<' && s[k] != '>'
    ensures ReplaceAngles(s) == s
  {
    var r := ReplaceAngles(s);
    assert forall k :: 0 <= k < |s| ==> r[k] == s[k];
  }

  lemma ReplaceAnglesHex(n: nat)
    ensures ReplaceAngles(Hex(n)) == Hex(n)
  {
    var h := Hex(n);
    forall k | 0 <= k < |h| ensures h[k] != '<' && h[k] != '>' {
      HexDigitIsPlain(h[k]);
    }
    ReplaceAnglesPlain(h);
  }

  predicate NoUnderscore(s: string) {
    forall k :: 0 <= k < |s| ==> s[k] != '_'
  }

  /** The index of the last underscore in s, or -1. */
  function LastUnderscore(s: string): (r: int)
    ensures -1 <= r < |s|
  {
    if s == [] then -1 else if s[|s| - 1] == '_' then |s| - 1 else LastUnderscore(s[..|s| - 1])
  }

  lemma {:induction false} LastUnderscoreAt(a: string, x: string)
    requires NoUnderscore(x)
    ensures LastUnderscore(a + "_" + x) == |a|
    decreases |x|
  {
    var s := a + "_" + x;
    if x != [] {
      assert s[..|s| - 1] == a + "_" + x[..|x| - 1];
      LastUnderscoreAt(a, x[..|x| - 1]);
    }
  }

  /** Splitting at the last underscore: a + "_" + x determines a and x when x
      holds no underscore. */
  lemma SplitAtLastUnderscore(a: string, x: string, b: string, y: string)
    requires a + "_" + x == b + "_" + y && NoUnderscore(x) && NoUnderscore(y)
    ensures a == b && x == y
  {
    var s := a + "_" + x;
    LastUnderscoreAt(a, x);
    LastUnderscoreAt(b, y);
    assert x == s[|a| + 1..] == y;
    assert a == s[..|a|] == b;
  }

  lemma HexNoUnderscore(n: nat)
    ensures NoUnderscore(Hex(n))
  {
    var h := Hex(n);
    forall k | 0 <= k < |h| ensures h[k] != '_' {
      HexDigitIsPlain(h[k]);
    }
  }

  /** Two lambdas with distinct positions, or in methods with distinct
      positions, get distinct type names. */
  lemma TypeNameInjective(id1: string, m1: nat, l1: nat, id2: string, m2: nat, l2: nat)
    requires TypeName(id1, m1, l1) == TypeName(id2, m2, l2)
    ensures m1 == m2 && l1 == l2 && ReplaceAngles(id1) == ReplaceAngles(id2)
  {
    ReplaceAnglesAppend(id1 + "_" + Hex(m1) + "_", Hex(l1));
    ReplaceAnglesAppend(id1 + "_" + Hex(m1), "_");
    ReplaceAnglesAppend(id1 + "_", Hex(m1));
    ReplaceAnglesAppend(id1, "_");
    ReplaceAnglesAppend(id2 + "_" + Hex(m2) + "_", Hex(l2));
    ReplaceAnglesAppend(id2 + "_" + Hex(m2), "_");
    ReplaceAnglesAppend(id2 + "_", Hex(m2));
    ReplaceAnglesAppend(id2, "_");
    ReplaceAnglesHex(m1);
    ReplaceAnglesHex(l1);
    ReplaceAnglesHex(m2);
    ReplaceAnglesHex(l2);
    HexNoUnderscore(m1);
    HexNoUnderscore(l1);
    HexNoUnderscore(m2);
    HexNoUnderscore(l2);
    assert ReplaceAngles("_") == "_";
    var p1 := ReplaceAngles(id1) + "_" + Hex(m1);
    var p2 := ReplaceAngles(id2) + "_" + Hex(m2);
    assert TypeName(id1, m1, l1) == p1 + "_" + Hex(l1);
    assert TypeName(id2, m2, l2) == p2 + "_" + Hex(l2);
    SplitAtLastUnderscore(p1, Hex(l1), p2, Hex(l2));
    SplitAtLastUnderscore(ReplaceAngles(id1), Hex(m1), ReplaceAngles(id2), Hex(m2));
    HexInjective(m1, m2);
    HexInjective(l1, l2);
  }

  // ---------------------------------------------------------------------------
  // Enclosing declarations.

  /** A declaration enclosing the method. A class carries its identifier, its
      arity and the text of its type-parameter list. */
  datatype Decl =
    | ClassDecl(name: string, arity: nat, typeParamList: string)
    | NamespaceDecl(nsName: string)
    | OtherDecl
    | CompilationUnit

  /** The positions of the class declarations in the chain of enclosing
      declarations (innermost first). */
  function ClassPositions(chain: seq<Decl>): (r: seq<nat>)
    ensures forall k :: 0 <= k < |r| ==> r[k] < |chain| && chain[r[k]].ClassDecl?
    ensures forall i :: 0 <= i < |chain| && chain[i].ClassDecl? ==> i in r
    ensures forall a, b :: 0 <= a < b < |r| ==> r[a] < r[b]
  {
    if chain == [] then []
    else
      var init := chain[..|chain| - 1];
      assert forall i :: 0 <= i < |init| ==> init[i] == chain[i];
      ClassPositions(init) + (if chain[|chain| - 1].ClassDecl? then [|chain| - 1] else [])
  }

  /** GetHierarchy: walk from the method outwards, collecting class declarations. */
  method GetHierarchy(chain: seq<Decl>) returns (h: seq<nat>)
    ensures h == ClassPositions(chain)
  {
    h := [];
    var i := 0;
    while i < |chain|
      invariant 0 <= i <= |chain|
      invariant h == ClassPositions(chain[..i])
    {
      assert chain[..i + 1][..i] == chain[..i];
      if chain[i].ClassDecl? {
        h := h + [i];
      }
      i := i + 1;
    }
    assert chain[..|chain|] == chain;
  }

  /** The index of the first compilation unit at or after start, or |chain|. */
  function UnitEnd(chain: seq<Decl>, start: nat): (r: nat)
    requires start <= |chain|
    ensures start <= r <= |chain|
    ensures r < |chain| ==> chain[r].CompilationUnit?
    ensures forall j :: start <= j < r ==> !chain[j].CompilationUnit?
    decreases |chain| - start
  {
    if start == |chain| || chain[start].CompilationUnit? then start else UnitEnd(chain, start + 1)
  }

  /** The namespace the walk settles on: the outermost namespace declaration
      between start and the compilation unit. */
  function LastNamespace(chain: seq<Decl>, lo: nat, hi: nat): (r: Option<string>)
    requires lo <= hi <= |chain|
    ensures r.Some? ==> exists j :: lo <= j < hi && chain[j] == NamespaceDecl(r.value)
                                    && forall k :: j < k < hi ==> !chain[k].NamespaceDecl?
    ensures r.None? <==> forall j :: lo <= j < hi ==> !chain[j].NamespaceDecl?
    decreases hi - lo
  {
    if lo == hi then None
    else if chain[hi - 1].NamespaceDecl? then Some(chain[hi - 1].nsName)
    else LastNamespace(chain, lo, hi - 1)
  }

  /** What the walk from the outermost class finds: the namespace it keeps and
      whether it reached the compilation unit (whose usings it writes). */
  datatype Enclosing = Enclosing(ns: Option<string>, reachedUnit: bool)

  function EnclosingOf(chain: seq<Decl>, start: nat): Enclosing
    requires start <= |chain|
  {
    Enclosing(LastNamespace(chain, start, UnitEnd(chain, start)), UnitEnd(chain, start) < |chain|)
  }

  /** The loop from the outermost class through its parents. */
  method FindNamespace(chain: seq<Decl>, start: nat) returns (e: Enclosing)
    requires start <= |chain|
    ensures e == EnclosingOf(chain, start)
  {
    var ns: Option<string> := None;
    var i := start;
    while i < |chain|
      invariant start <= i <= |chain|
      invariant forall j :: start <= j < i ==> !chain[j].CompilationUnit?
      invariant ns == LastNamespace(chain, start, i)
    {
      if chain[i].CompilationUnit? {
        return Enclosing(ns, true);
      } else if chain[i].NamespaceDecl? {
        ns := Some(chain[i].nsName);
      }
      i := i + 1;
    }
    return Enclosing(ns, false);
  }

  // ---------------------------------------------------------------------------
  // The hint name of the generated file.

  /** Replace('.', '_') */
  function DotsToUnderscores(s: string): (r: string)
    ensures |r| == |s| && forall k :: 0 <= k < |s| ==> r[k] == (if s[k] == '.' then '_' else s[k])
  {
    if s == [] then [] else DotsToUnderscores(s[..|s| - 1]) + [if s[|s| - 1] == '.' then '_' else s[|s| - 1]]
  }

  /** The part one class contributes: `Name_`, then `Arity_` when it is generic. */
  function ClassPart(d: Decl): string {
    match d
    case ClassDecl(n, a, _) => n + "_" + (if a > 0 then Decimal(a) + "_" else "")
    case _ => ""
  }

  /** The parts of the classes, outermost first. */
  function ClassParts(classes: seq<Decl>): (r: string)
    decreases |classes|
  {
    if classes == [] then "" else ClassPart(classes[|classes| - 1]) + ClassParts(classes[..|classes| - 1])
  }

  function NamespacePart(ns: Option<string>): string {
    if ns.Some? then DotsToUnderscores(ns.value) + "_" else ""
  }

  function HintName(ns: Option<string>, classes: seq<Decl>, identifier: string): string {
    NamespacePart(ns) + ClassParts(classes) + identifier + ".g.cs"
  }

  /** Within one namespace and class hierarchy, two methods get the same hint
      name exactly when their identifiers agree: the overloads of one method
      share it. */
  lemma HintNameInjective(ns: Option<string>, classes: seq<Decl>, a: string, b: string)
    ensures HintName(ns, classes, a) == HintName(ns, classes, b) <==> a == b
  {
    var p := NamespacePart(ns) + ClassParts(classes);
    if HintName(ns, classes, a) == HintName(ns, classes, b) {
      assert |a| == |b|;
      assert HintName(ns, classes, a)[|p|..|p| + |a|] == a;
      assert HintName(ns, classes, b)[|p|..|p| + |b|] == b;
    }
  }

  /** Peeling the innermost class off a prefix of the hierarchy. */
  lemma ClassPartsPrefix(name: string, classes: seq<Decl>, j: nat)
    requires j < |classes|
    ensures name + ClassParts(classes[..j + 1]) == (name + ClassPart(classes[j])) + ClassParts(classes[..j])
  {
    assert classes[..j + 1][..j] == classes[..j];
  }

  /** The builder loop, from the outermost class (the last in the hierarchy)
      down to the innermost. */
  method BuildHintName(ns: Option<string>, chain: seq<Decl>, h: seq<nat>, identifier: string) returns (name: string)
    requires forall k :: 0 <= k < |h| ==> h[k] < |chain|
    ensures name == HintName(ns, ClassesAt(chain, h), identifier)
  {
    ghost var classes := ClassesAt(chain, h);
    ghost var whole := NamespacePart(ns) + ClassParts(classes);
    name := NamespacePart(ns);
    var j := |h|;
    assert classes[..j] == classes;
    while j > 0
      invariant 0 <= j <= |h|
      invariant name + ClassParts(classes[..j]) == whole
    {
      j := j - 1;
      ClassPartsPrefix(name, classes, j);
      assert classes[j] == chain[h[j]];
      name := name + ClassPart(chain[h[j]]);
    }
    assert classes[..0] == [];
    assert name == whole;
    name := name + identifier + ".g.cs";
  }

  /** The declarations at the given positions. */
  function ClassesAt(chain: seq<Decl>, h: seq<nat>): (r: seq<Decl>)
    requires forall k :: 0 <= k < |h| ==> h[k] < |chain|
    ensures |r| == |h| && forall k :: 0 <= k < |h| ==> r[k] == chain[h[k]]
  {
    seq(|h|, k requires 0 <= k < |h| => chain[h[k]])
  }
}
