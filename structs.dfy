/** GenerateFunctionalInterfaces (lines 322-421): for each dictionary entry of a
    candidate, a private struct that implements the entry's interface, with a
    field per captured variable and the lambda's body, rewritten, as the body of
    the interface method; then the candidate invocation, transformed. */
module Structs {
  import opened Wrappers
  import opened Symbols
  import opened Syntax
  import opened Matcher
  import opened Naming
  import opened Binding
  import opened Output
  import opened Transform

  // ---------------------------------------------------------------------------
  // The lambda body rewrite (lines 401-413): over the body's descendants,
  // bottom-up, `this` becomes `_this` and every invocation is transformed.

  function RewriteNode(ctx: Context, n: Node): (r: Result<Node>)
    decreases Size(n), 0
  {
    var ks :- RewriteAll(ctx, Kids(n));
    var m := WithKids(n, ks);
    if n.This? then Ok(Ident("_this"))
    else if n.Call? then TransformCallSpec(ctx, n, m, false)
    else Ok(m)
  }

  function RewriteAll(ctx: Context, ks: seq<Node>): (r: Result<seq<Node>>)
    ensures r.Ok? ==> |r.value| == |ks|
    decreases SizeAll(ks), 1
  {
    if ks == [] then Ok([])
    else
      var h :- RewriteNode(ctx, ks[0]);
      var t :- RewriteAll(ctx, ks[1..]);
      Ok([h] + t)
  }

  /** The body itself is not among its descendants and is kept. */
  function RewriteLambdaBody(ctx: Context, body: Node): Result<Node> {
    var ks :- RewriteAll(ctx, Kids(body));
    Ok(WithKids(body, ks))
  }

  /** No `this` is left, except as the reference a reinterpreting cast reads. */
  predicate NoThis(n: Node)
    decreases Size(n), 0
  {
    !n.This? && ((n.UnsafeAs? && n.byRef == This) || AllNoThis(Kids(n)))
  }

  predicate AllNoThis(ks: seq<Node>)
    decreases SizeAll(ks), 1
  {
    ks != [] ==> NoThis(ks[0]) && AllNoThis(ks[1..])
  }

  lemma {:induction false} AllNoThisIff(ks: seq<Node>)
    ensures AllNoThis(ks) <==> forall k :: 0 <= k < |ks| ==> NoThis(ks[k])
    decreases |ks|
  {
    if ks != [] {
      AllNoThisIff(ks[1..]);
      assert forall k :: 0 < k < |ks| ==> ks[k] == ks[1..][k - 1];
    }
  }

  lemma CastNoThis(ctx: Context, call: bool, name: string)
    ensures NoThis(Cast(ctx, call, name))
  {
    if call {
      assert Kids(Cast(ctx, call, name)) == [Ident(FunctionalInterface)];
      assert NoThis(Ident(FunctionalInterface));
    }
  }

  lemma CallNoThis(n: Node)
    requires n.Call?
    ensures NoThis(n) <==> NoThis(n.callee) && forall k :: 0 <= k < |n.args| ==> NoThis(n.args[k])
  {
    AllNoThisIff(Kids(n));
    assert forall k :: 0 <= k < |n.args| ==> Kids(n)[k + 1] == n.args[k];
  }

  /** TransformCall introduces `this` only as the reference of its casts. */
  lemma TransformNoThis(ctx: Context, original: Node, invoke: Node, call: bool)
    requires original.Call? && invoke.Call? && NoThis(invoke)
    requires TransformCallSpec(ctx, original, invoke, call).Ok?
    ensures NoThis(TransformCallSpec(ctx, original, invoke, call).value)
  {
    var r := TransformCallSpec(ctx, original, invoke, call).value;
    CallNoThis(invoke);
    TransformArgsNoThis(ctx, original, invoke, call);
    TransformCalleeNoThis(ctx, original, invoke, call);
    CallNoThis(r);
  }

  lemma TransformArgsNoThis(ctx: Context, original: Node, invoke: Node, call: bool)
    requires original.Call? && invoke.Call? && forall k :: 0 <= k < |invoke.args| ==> NoThis(invoke.args[k])
    requires TransformCallSpec(ctx, original, invoke, call).Ok?
    ensures var r := TransformCallSpec(ctx, original, invoke, call).value;
      r.Call? && forall k :: 0 <= k < |r.args| ==> NoThis(r.args[k])
  {
    var r := TransformCallSpec(ctx, original, invoke, call).value;
    TransformArgs(ctx, original, invoke, call);
    forall k | 0 <= k < |r.args| ensures NoThis(r.args[k]) {
      CastNoThis(ctx, call, OtherName(ctx.site, original.args, k));
    }
  }

  lemma TransformCalleeNoThis(ctx: Context, original: Node, invoke: Node, call: bool)
    requires original.Call? && invoke.Call? && NoThis(invoke.callee)
    requires TransformCallSpec(ctx, original, invoke, call).Ok?
    ensures var r := TransformCallSpec(ctx, original, invoke, call).value;
      r.Call? && NoThis(r.callee)
  {
    var r := TransformCallSpec(ctx, original, invoke, call).value;
    TransformArgs(ctx, original, invoke, call);
    if original.id in ctx.facts.targets && Target(ctx.facts, original.id, original.args).value.Some? {
      TransformCallee(ctx, original, invoke, call);
      if invoke.callee.Member? {
        AllNoThisIff(Kids(invoke.callee));
        AllNoThisIff(Kids(r.callee));
        assert Kids(r.callee) == [invoke.callee.target, r.callee.memberName];
        assert NoThis(r.callee.memberName);
      }
    }
  }

  /** After the rewrite no `this` is left outside the casts. */
  lemma {:induction false} RewriteNoThis(ctx: Context, n: Node)
    requires RewriteNode(ctx, n).Ok?
    ensures NoThis(RewriteNode(ctx, n).value)
    decreases Size(n), 0
  {
    RewriteAllNoThis(ctx, Kids(n));
    var ks := RewriteAll(ctx, Kids(n)).value;
    var m := WithKids(n, ks);
    if n.This? {
      assert NoThis(Ident("_this"));
    } else if n.Call? {
      assert NoThis(m);
      TransformNoThis(ctx, n, m, false);
    }
  }

  lemma {:induction false} RewriteAllNoThis(ctx: Context, ks: seq<Node>)
    requires RewriteAll(ctx, ks).Ok?
    ensures AllNoThis(RewriteAll(ctx, ks).value)
    decreases SizeAll(ks), 1
  {
    if ks != [] {
      RewriteNoThis(ctx, ks[0]);
      RewriteAllNoThis(ctx, ks[1..]);
      var r := RewriteAll(ctx, ks).value;
      assert r[1..] == RewriteAll(ctx, ks[1..]).value;
    }
  }

  /** Every descendant of the rewritten body is free of `this` outside the casts. */
  lemma RewriteBodyNoThis(ctx: Context, body: Node)
    requires RewriteLambdaBody(ctx, body).Ok?
    ensures AllNoThis(Kids(RewriteLambdaBody(ctx, body).value))
  {
    RewriteAllNoThis(ctx, Kids(body));
  }

  // ---------------------------------------------------------------------------
  // The struct's fields (lines 375-394).

  /** The field name of a captured variable: `this` is renamed `_this`. */
  function FieldName(v: VarSym): string {
    if v.kind.Parameter? && v.name == "this" then "_this" else v.name
  }

  /** A local or a parameter gets a field; any other symbol none. */
  function FieldFor(v: VarSym): seq<Item> {
    match v.kind
    case LocalVar => [FieldLine(Display(v.ty), v.name)]
    case Parameter(_) => [FieldLine(Display(v.ty), if v.name == "this" then "_this" else v.name)]
    case OtherSymbol => []
  }

  function FieldsOf(vs: seq<VarSym>): seq<Item>
    decreases |vs|
  {
    if vs == [] then [] else FieldsOf(vs[..|vs| - 1]) + FieldFor(vs[|vs| - 1])
  }

  /** The fields are exactly one per captured local or parameter, named after it. */
  lemma {:induction false} FieldsOfMembers(vs: seq<VarSym>, x: Item)
    ensures x in FieldsOf(vs) <==>
      exists k :: 0 <= k < |vs| && !vs[k].kind.OtherSymbol? && x == FieldLine(Display(vs[k].ty), FieldName(vs[k]))
    decreases |vs|
  {
    if vs != [] {
      var init := vs[..|vs| - 1];
      FieldsOfMembers(init, x);
      assert forall k :: 0 <= k < |init| ==> init[k] == vs[k];
      var last := vs[|vs| - 1];
      if !last.kind.OtherSymbol? && x == FieldLine(Display(last.ty), FieldName(last)) {
        assert x in FieldFor(last);
      }
      if x in FieldsOf(vs) && x !in FieldsOf(init) {
        assert x in FieldFor(last);
      }
    }
  }

  /** The captured variables that get a field, in the order they are captured. */
  function Kept(vs: seq<VarSym>): (r: seq<VarSym>)
    ensures |r| <= |vs|
    ensures forall v :: v in r <==> v in vs && !v.kind.OtherSymbol?
  {
    if vs == [] then [] else (if vs[0].kind.OtherSymbol? then [] else [vs[0]]) + Kept(vs[1..])
  }

  lemma {:induction false} KeptSnoc(vs: seq<VarSym>)
    requires vs != []
    ensures var last := vs[|vs| - 1];
      Kept(vs) == Kept(vs[..|vs| - 1]) + (if last.kind.OtherSymbol? then [] else [last])
    decreases |vs|
  {
    var last := vs[|vs| - 1];
    var g: seq<VarSym> := if last.kind.OtherSymbol? then [] else [last];
    var h: seq<VarSym> := if vs[0].kind.OtherSymbol? then [] else [vs[0]];
    var init := vs[..|vs| - 1];
    if |vs| > 1 {
      var a := vs[1..];
      KeptSnoc(a);
      assert a[|a| - 1] == last;
      assert a[..|a| - 1] == init[1..];
      assert init[0] == vs[0];
      assert Kept(init) == h + Kept(init[1..]);
      assert Kept(vs) == h + (Kept(init[1..]) + g);
      VarsAssoc(h, Kept(init[1..]), g);
    } else {
      assert init == [] && vs[1..] == [];
      assert Kept(vs) == h + [];
    }
  }

  lemma VarsAssoc(a: seq<VarSym>, b: seq<VarSym>, c: seq<VarSym>)
    ensures a + (b + c) == a + b + c
  {
  }

  /** The fields follow the captured locals and parameters one for one and in
      the same order: as many fields as such variables, the j-th named after
      and typed as the j-th of them. */
  lemma {:induction false} FieldsOfOrder(vs: seq<VarSym>)
    ensures |FieldsOf(vs)| == |Kept(vs)|
    ensures forall j :: 0 <= j < |Kept(vs)| ==>
      FieldsOf(vs)[j] == FieldLine(Display(Kept(vs)[j].ty), FieldName(Kept(vs)[j]))
    decreases |vs|
  {
    if vs != [] {
      var init := vs[..|vs| - 1];
      var last := vs[|vs| - 1];
      FieldsOfOrder(init);
      KeptSnoc(vs);
      assert FieldsOf(vs) == FieldsOf(init) + FieldFor(last);
      assert FieldFor(last) == if last.kind.OtherSymbol? then [] else [FieldLine(Display(last.ty), FieldName(last))];
      forall j | 0 <= j < |Kept(vs)|
        ensures FieldsOf(vs)[j] == FieldLine(Display(Kept(vs)[j].ty), FieldName(Kept(vs)[j]))
      {
        if j < |Kept(init)| {
          assert Kept(vs)[j] == Kept(init)[j];
        }
      }
    }
  }

  /** Every field is a field line. */
  lemma {:induction false} FieldsAreLines(vs: seq<VarSym>)
    ensures forall x :: x in FieldsOf(vs) ==> x.FieldLine?
    decreases |vs|
  {
    if vs != [] {
      FieldsAreLines(vs[..|vs| - 1]);
    }
  }

  // ---------------------------------------------------------------------------
  // The lines of one struct.

  function Tabbed(t: nat, items: seq<Item>): (r: seq<Line>)
    ensures |r| == |items| && forall k :: 0 <= k < |items| ==> r[k] == Line(t, items[k])
  {
    seq(|items|, k requires 0 <= k < |items| => Line(t, items[k]))
  }

  /** private struct S : I { fields; blank; method head, at indent i. */
  function StructHeadLines(i: nat, typeName: string, iface: Ty, fields: seq<Item>, returnType: Ty, name: string): seq<Line> {
    [Line(i, StructHead(typeName, iface)), Line(i, OpenBrace)]
    + Tabbed(i + 1, fields)
    + [Line(i + 1, Blank), Line(i + 1, MethodHead(returnType, name))]
  }

  /** The head, the body without tabs, and the closing brace. */
  function StructLines(i: nat, typeName: string, iface: Ty, fields: seq<Item>, returnType: Ty, name: string, body: Node): seq<Line> {
    StructHeadLines(i, typeName, iface, fields, returnType, name) + [Line(0, BodyText(body)), Line(i, CloseBrace)]
  }

  lemma AppendTwo(a: seq<Line>, h: seq<Line>, x: Line, y: Line)
    ensures a + h + [x] + [y] == a + (h + [x, y])
  {
  }

  lemma {:induction false} PlainNested(t: nat, items: seq<Item>)
    requires forall x :: x in items ==> x.FieldLine? || x.Blank? || x.MethodHead?
    ensures Nested(t, Tabbed(t, items)) && DepthAfter(t, Tabbed(t, items)) == t
    decreases |items|
  {
    if items != [] {
      PlainNested(t, items[1..]);
      assert Tabbed(t, items)[1..] == Tabbed(t, items[1..]);
      assert items[0] in items;
    }
  }

  lemma TabbedTail(t: nat, fields: seq<Item>, returnType: Ty, name: string)
    ensures Tabbed(t, fields + [Blank, MethodHead(returnType, name)])
         == Tabbed(t, fields) + [Line(t, Blank), Line(t, MethodHead(returnType, name))]
  {
    assert Tabbed(t, fields + [Blank, MethodHead(returnType, name)]) == Tabbed(t, fields) + [Line(t, Blank), Line(t, MethodHead(returnType, name))];
  }

  /** A struct's lines as its head, the braced inner lines and the closing brace. */
  lemma StructLinesShape(i: nat, typeName: string, iface: Ty, fields: seq<Item>, returnType: Ty, name: string, body: Node)
    ensures StructLines(i, typeName, iface, fields, returnType, name, body)
         == [Line(i, StructHead(typeName, iface))] + [Line(i, OpenBrace)]
            + (Tabbed(i + 1, fields + [Blank, MethodHead(returnType, name)]) + [Line(0, BodyText(body))])
            + [Line(i, CloseBrace)]
  {
    TabbedTail(i + 1, fields, returnType, name);
  }

  /** A struct's braces balance and each line is indented by its depth. */
  lemma StructNested(i: nat, typeName: string, iface: Ty, fields: seq<Item>, returnType: Ty, name: string, body: Node)
    requires forall x :: x in fields ==> x.FieldLine?
    ensures var ls := StructLines(i, typeName, iface, fields, returnType, name, body);
      Nested(i, ls) && DepthAfter(i, ls) == i
  {
    var head := [Line(i, StructHead(typeName, iface))];
    var plain := Tabbed(i + 1, fields + [Blank, MethodHead(returnType, name)]);
    var bodyLine := [Line(0, BodyText(body))];
    OneLine(i, head[0]);
    PlainNested(i + 1, fields + [Blank, MethodHead(returnType, name)]);
    OneLine(i + 1, bodyLine[0]);
    NestedAppend(i + 1, plain, bodyLine);
    Braced(i, head, plain + bodyLine);
    StructLinesShape(i, typeName, iface, fields, returnType, name, body);
  }

  // ---------------------------------------------------------------------------
  // GenerateFunctionalInterfaces as a function.

  /** The lines written so far and the last specialised name. */
  datatype Emitted = Emitted(lines: seq<Line>, typeName: string)

  /** The fields a lambda's captured variables give, when it has a data-flow report. */
  function CapturedFields(f: Facts, lambda: Node): seq<Item> {
    if lambda.Lambda? && lambda.id in f.flows then FieldsOf(f.flows[lambda.id].captured) else []
  }

  /** One entry, at indent i. */
  function EmitEntry(f: Facts, site: Site, i: nat, invocation: Node, outer: MethodSym, firstTypeName: string, e: Entry): Result<Emitted>
    requires invocation.Call?
  {
    if e.pos >= |invocation.args| then Err(IndexOutOfRange)
    else if !IsLambda(invocation.args[e.pos]) then Err(InvalidCast)
    else
      var lambda := invocation.args[e.pos];
      var b :- Resolve(e.target, SigOf(f, lambda));
      var typeName := TypeName(site.identifier, site.start, lambda.span);
      var body :- RewriteLambdaBody(Context(f, site, outer, typeName, firstTypeName), lambda.body);
      Ok(Emitted(StructLines(i, typeName, b.containing, CapturedFields(f, lambda), b.returnType, e.target.name, body), typeName))
  }

  /** The entries in dictionary order, after the name prev. */
  function EmitEntries(f: Facts, site: Site, i: nat, invocation: Node, outer: MethodSym, firstTypeName: string, es: Dict, prev: string): Result<Emitted>
    requires invocation.Call?
    decreases |es|
  {
    if es == [] then Ok(Emitted([], prev))
    else
      var one :- EmitEntry(f, site, i, invocation, outer, firstTypeName, es[0]);
      var rest :- EmitEntries(f, site, i, invocation, outer, firstTypeName, es[1..], one.typeName);
      Ok(Emitted(one.lines + rest.lines, rest.typeName))
  }

  /** The structs' lines and the transformed candidate invocation. */
  datatype Specialised = Specialised(lines: seq<Line>, call: Node)

  function GenerateSpec(f: Facts, site: Site, i: nat, invocation: Node, outer: MethodSym, es: Dict, firstTypeName: string): Result<Specialised>
    requires invocation.Call?
  {
    var em :- EmitEntries(f, site, i, invocation, outer, firstTypeName, es, "");
    var call :- TransformCallSpec(Context(f, site, outer, em.typeName, firstTypeName), invocation, invocation, true);
    Ok(Specialised(em.lines, call))
  }

  /** The lines of the structs balance their braces and keep the indentation. */
  lemma {:induction false} EmitEntriesNested(f: Facts, site: Site, i: nat, invocation: Node, outer: MethodSym, firstTypeName: string, es: Dict, prev: string)
    requires invocation.Call?
    requires EmitEntries(f, site, i, invocation, outer, firstTypeName, es, prev).Ok?
    ensures var ls := EmitEntries(f, site, i, invocation, outer, firstTypeName, es, prev).value.lines;
      Nested(i, ls) && DepthAfter(i, ls) == i
    decreases |es|
  {
    if es != [] {
      var one := EmitEntry(f, site, i, invocation, outer, firstTypeName, es[0]).value;
      var lambda := invocation.args[es[0].pos];
      var b := Resolve(es[0].target, SigOf(f, lambda)).value;
      var body := RewriteLambdaBody(Context(f, site, outer, one.typeName, firstTypeName), lambda.body).value;
      if lambda.id in f.flows {
        FieldsAreLines(f.flows[lambda.id].captured);
      }
      StructNested(i, one.typeName, b.containing, CapturedFields(f, lambda), b.returnType, es[0].target.name, body);
      EmitEntriesNested(f, site, i, invocation, outer, firstTypeName, es[1..], one.typeName);
      NestedAppend(i, one.lines, EmitEntries(f, site, i, invocation, outer, firstTypeName, es[1..], one.typeName).value.lines);
    }
  }

  /** The struct of a mapped lambda is named after the method and the lambda's
      position; the last entry's name is the one the candidate call casts to. */
  lemma EmitEntryName(f: Facts, site: Site, i: nat, invocation: Node, outer: MethodSym, firstTypeName: string, e: Entry)
    requires invocation.Call?
    requires EmitEntry(f, site, i, invocation, outer, firstTypeName, e).Ok?
    ensures e.pos < |invocation.args| && IsLambda(invocation.args[e.pos])
    ensures var em := EmitEntry(f, site, i, invocation, outer, firstTypeName, e).value;
      em.typeName == TypeName(site.identifier, site.start, invocation.args[e.pos].span)
      && em.lines[0] == Line(i, StructHead(em.typeName, Resolve(e.target, SigOf(f, invocation.args[e.pos])).value.containing))
  {
  }

  /** The name EmitEntries ends with is the struct name of the last entry's lambda. */
  lemma {:induction false} EmitEntriesLastName(f: Facts, site: Site, i: nat, invocation: Node, outer: MethodSym, firstTypeName: string, es: Dict, prev: string)
    requires invocation.Call? && es != []
    requires EmitEntries(f, site, i, invocation, outer, firstTypeName, es, prev).Ok?
    ensures var e := es[|es| - 1];
      e.pos < |invocation.args| && IsLambda(invocation.args[e.pos])
      && EmitEntries(f, site, i, invocation, outer, firstTypeName, es, prev).value.typeName
         == TypeName(site.identifier, site.start, invocation.args[e.pos].span)
    decreases |es|
  {
    var one := EmitEntry(f, site, i, invocation, outer, firstTypeName, es[0]).value;
    var rest := EmitEntries(f, site, i, invocation, outer, firstTypeName, es[1..], one.typeName);
    assert rest.Ok? && EmitEntries(f, site, i, invocation, outer, firstTypeName, es, prev).value.typeName == rest.value.typeName;
    if |es| == 1 {
      EmitEntryName(f, site, i, invocation, outer, firstTypeName, es[0]);
      assert rest.value.typeName == one.typeName;
    } else {
      EmitEntriesLastName(f, site, i, invocation, outer, firstTypeName, es[1..], one.typeName);
      assert es[1..][|es[1..]| - 1] == es[|es| - 1];
    }
  }

  /** The candidate invocation after its structs, with the overload the matcher
      found for it as the outer candidate: each type argument of the renamed
      callee is the entries' last write into its slot. */
  lemma SpecialisedCallSlots(f: Facts, site: Site, i: nat, invocation: Node, firstTypeName: string)
    requires invocation.Call? && invocation.callee.Member?
    requires Target(f, invocation.id, invocation.args).Ok? && Target(f, invocation.id, invocation.args).value.Some?
    requires var m := Target(f, invocation.id, invocation.args).value.value;
      GenerateSpec(f, site, i, invocation, m.candidate, m.entries, firstTypeName).Ok?
    ensures var m := Target(f, invocation.id, invocation.args).value.value;
      var tps := m.candidate.typeParams;
      var call := GenerateSpec(f, site, i, invocation, m.candidate, m.entries, firstTypeName).value.call;
      call.Call? && call.callee.Member? && call.callee.memberName.Generic?
      && |call.callee.memberName.typeArgs| == |tps|
      && forall s :: 0 <= s < |tps| ==>
           call.callee.memberName.typeArgs[s] == LastWrite(f, site, m.candidate, tps, invocation.args, m.entries, s)
  {
    var m := Target(f, invocation.id, invocation.args).value.value;
    TargetEntries(f, invocation.id, invocation.args);
    var em := EmitEntries(f, site, i, invocation, m.candidate, firstTypeName, m.entries, "").value;
    var ctx := Context(f, site, m.candidate, em.typeName, firstTypeName);
    assert GenerateSpec(f, site, i, invocation, m.candidate, m.entries, firstTypeName).value.call
        == TransformCallSpec(ctx, invocation, invocation, true).value;
    TransformCallee(ctx, invocation, invocation, true);
  }

  /** With the same outer candidate, the slot that the overload's parameter at
      the last lambda's position names holds the name of that lambda's struct,
      the struct the call's cast targets. */
  lemma SpecialisedLastSlot(f: Facts, site: Site, i: nat, invocation: Node, firstTypeName: string)
    requires invocation.Call? && invocation.callee.Member?
    requires Target(f, invocation.id, invocation.args).Ok? && Target(f, invocation.id, invocation.args).value.Some?
    requires var m := Target(f, invocation.id, invocation.args).value.value;
      GenerateSpec(f, site, i, invocation, m.candidate, m.entries, firstTypeName).Ok?
    ensures var m := Target(f, invocation.id, invocation.args).value.value;
      var call := GenerateSpec(f, site, i, invocation, m.candidate, m.entries, firstTypeName).value.call;
      m.entries != []
      && var e := m.entries[|m.entries| - 1];
         var k := OuterTarget(m.candidate, e.pos);
         k != -1 ==>
           call.Call? && call.callee.Member? && call.callee.memberName.Generic?
           && 0 <= k < |call.callee.memberName.typeArgs|
           && call.callee.memberName.typeArgs[k]
              == Some(EmitEntries(f, site, i, invocation, m.candidate, firstTypeName, m.entries, "").value.typeName)
  {
    var m := Target(f, invocation.id, invocation.args).value.value;
    TargetEntries(f, invocation.id, invocation.args);
    var em := EmitEntries(f, site, i, invocation, m.candidate, firstTypeName, m.entries, "").value;
    var ctx := Context(f, site, m.candidate, em.typeName, firstTypeName);
    var call := TransformCallSpec(ctx, invocation, invocation, true).value;
    assert GenerateSpec(f, site, i, invocation, m.candidate, m.entries, firstTypeName).value.call == call;
    var e := m.entries[|m.entries| - 1];
    var k := OuterTarget(m.candidate, e.pos);
    if k != -1 {
      assert e.pos < |m.candidate.params| && m.candidate.params[e.pos].TypeParam?;
      assert k == IndexOf(m.candidate.typeParams, m.candidate.params[e.pos]);
      TransformSlot(ctx, invocation, invocation, true);
      EmitEntriesLastName(f, site, i, invocation, m.candidate, firstTypeName, m.entries, "");
      assert OtherName(site, invocation.args, e.pos) == em.typeName;
    }
  }

  /** A specialisable overload maps at least one lambda. */
  lemma TargetEntries(f: Facts, id: nat, args: seq<Node>)
    requires Target(f, id, args).Ok? && Target(f, id, args).value.Some?
    ensures id in f.targets && Target(f, id, args).value.value.entries != []
  {
    TargetSound(f, id, args);
    assert LambdaPositions(args) != [];
    assert |Keys(Target(f, id, args).value.value.entries)| > 0;
  }

  // ---------------------------------------------------------------------------
  // The imperative GenerateFunctionalInterfaces.

  /** The loop over the captured variables. */
  method WriteFields(w: Writer, captured: seq<VarSym>)
    modifies w
    ensures w.lines == old(w.lines) + Tabbed(old(w.indent), FieldsOf(captured))
    ensures w.indent == old(w.indent)
  {
    ghost var start := w.lines;
    var k := 0;
    while k < |captured|
      invariant 0 <= k <= |captured|
      invariant w.lines == start + Tabbed(old(w.indent), FieldsOf(captured[..k]))
      invariant w.indent == old(w.indent)
    {
      WriteField(w, captured[k]);
      FieldsStep(w.indent, captured, k);
      AppendAssoc(start, Tabbed(w.indent, FieldsOf(captured[..k])), Tabbed(w.indent, FieldFor(captured[k])));
      k := k + 1;
    }
    assert captured[..k] == captured;
  }

  /** The field of one captured variable: a local or a parameter gets one, named
      `_this` for the `this` parameter; any other symbol none. */
  method WriteField(w: Writer, v: VarSym)
    modifies w
    ensures w.lines == old(w.lines) + Tabbed(old(w.indent), FieldFor(v))
    ensures w.indent == old(w.indent)
  {
    match v.kind {
      case LocalVar =>
        w.WriteLine(FieldLine(Display(v.ty), v.name));
      case Parameter(_) =>
        if v.name == "this" {
          w.WriteLine(FieldLine(Display(v.ty), "_this"));
        } else {
          w.WriteLine(FieldLine(Display(v.ty), v.name));
        }
      case OtherSymbol =>
        assert Tabbed(w.indent, FieldFor(v)) == [];
    }
  }

  /** One more captured variable adds its own field lines. */
  lemma FieldsStep(t: nat, vs: seq<VarSym>, k: nat)
    requires k < |vs|
    ensures Tabbed(t, FieldsOf(vs[..k + 1])) == Tabbed(t, FieldsOf(vs[..k])) + Tabbed(t, FieldFor(vs[k]))
  {
    assert vs[..k + 1][..k] == vs[..k];
  }

  /** What EmitEntry is, once its steps are known to succeed. */
  lemma EmitEntryIs(f: Facts, site: Site, i: nat, invocation: Node, outer: MethodSym, firstTypeName: string, e: Entry,
                    b: Binding, typeName: string, body: Node)
    requires invocation.Call? && e.pos < |invocation.args| && IsLambda(invocation.args[e.pos])
    requires Resolve(e.target, SigOf(f, invocation.args[e.pos])) == Ok(b)
    requires typeName == TypeName(site.identifier, site.start, invocation.args[e.pos].span)
    requires RewriteLambdaBody(Context(f, site, outer, typeName, firstTypeName), invocation.args[e.pos].body) == Ok(body)
    ensures EmitEntry(f, site, i, invocation, outer, firstTypeName, e)
         == Ok(Emitted(StructLines(i, typeName, b.containing, CapturedFields(f, invocation.args[e.pos]), b.returnType, e.target.name, body), typeName))
  {
  }

  /** The struct's head, its fields and the interface method's head. */
  method WriteStructHead(w: Writer, f: Facts, lambda: Node, typeName: string, iface: Ty, returnType: Ty, name: string)
    modifies w
    ensures w.lines == old(w.lines) + StructHeadLines(old(w.indent), typeName, iface, CapturedFields(f, lambda), returnType, name)
    ensures w.indent == old(w.indent) + 1
  {
    ghost var before := w.lines;
    ghost var i := w.indent;
    ghost var open := [Line(i, StructHead(typeName, iface)), Line(i, OpenBrace)];
    ghost var fields := Tabbed(i + 1, CapturedFields(f, lambda));
    w.WriteLine(StructHead(typeName, iface));
    w.Open();
    assert w.lines == before + open;
    WriteCapturedFields(w, f, lambda);
    assert w.lines == before + open + fields;
    w.WriteLine(Blank);
    w.WriteLine(MethodHead(returnType, name));
    HeadAssoc(before, open, fields, Line(i + 1, Blank), Line(i + 1, MethodHead(returnType, name)));
  }

  /** The fields, when the lambda has a data-flow report. */
  method WriteCapturedFields(w: Writer, f: Facts, lambda: Node)
    modifies w
    ensures w.lines == old(w.lines) + Tabbed(old(w.indent), CapturedFields(f, lambda))
    ensures w.indent == old(w.indent)
  {
    if lambda.Lambda? && lambda.id in f.flows {
      WriteFields(w, f.flows[lambda.id].captured);
    } else {
      assert w.lines + [] == w.lines;
    }
  }

  lemma HeadAssoc(a: seq<Line>, open: seq<Line>, fields: seq<Line>, x: Line, y: Line)
    ensures a + open + fields + [x] + [y] == a + (open + fields + [x, y])
  {
  }

  /** One entry: its struct is written and its name returned. */
  method WriteStruct(w: Writer, f: Facts, site: Site, invocation: Node, outer: MethodSym, firstTypeName: string, e: Entry)
    returns (r: Result<string>, ghost ls: seq<Line>)
    requires invocation.Call?
    modifies w
    ensures r.Ok? ==> EmitEntry(f, site, old(w.indent), invocation, outer, firstTypeName, e) == Ok(Emitted(ls, r.value))
    ensures r.Err? ==> EmitEntry(f, site, old(w.indent), invocation, outer, firstTypeName, e) == Err(r.fault)
    ensures r.Ok? ==> w.lines == old(w.lines) + ls && w.indent == old(w.indent)
  {
    if e.pos >= |invocation.args| {
      return Err(IndexOutOfRange), [];
    }
    var lambda := invocation.args[e.pos];
    if !IsLambda(lambda) {
      return Err(InvalidCast), [];
    }
    var b := ResolveContainingType(e.target, SigOf(f, lambda));
    if b.Err? {
      return Err(b.fault), [];
    }
    var typeName := TypeName(site.identifier, site.start, lambda.span);
    ghost var i := w.indent;
    ghost var before := w.lines;
    WriteStructHead(w, f, lambda, typeName, b.value.containing, b.value.returnType, e.target.name);
    ghost var head := StructHeadLines(i, typeName, b.value.containing, CapturedFields(f, lambda), b.value.returnType, e.target.name);
    var body := RewriteLambdaBody(Context(f, site, outer, typeName, firstTypeName), lambda.body);
    if body.Err? {
      return Err(body.fault), [];
    }
    w.WriteLineNoTabs(BodyText(body.value));
    w.Close();
    AppendTwo(before, head, Line(0, BodyText(body.value)), Line(i, CloseBrace));
    EmitEntryIs(f, site, i, invocation, outer, firstTypeName, e, b.value, typeName, body.value);
    ls := StructLines(i, typeName, b.value.containing, CapturedFields(f, lambda), b.value.returnType, e.target.name, body.value);
    return Ok(typeName), ls;
  }

  /** The loop over the dictionary. */
  method WriteStructs(w: Writer, f: Facts, site: Site, invocation: Node, outer: MethodSym, es: Dict, firstTypeName: string)
    returns (r: Result<string>, ghost written: seq<Line>)
    requires invocation.Call?
    modifies w
    ensures r.Ok? ==> EmitEntries(f, site, old(w.indent), invocation, outer, firstTypeName, es, "") == Ok(Emitted(written, r.value))
    ensures r.Err? ==> EmitEntries(f, site, old(w.indent), invocation, outer, firstTypeName, es, "") == Err(r.fault)
    ensures r.Ok? ==> w.lines == old(w.lines) + written && w.indent == old(w.indent)
  {
    ghost var i := w.indent;
    ghost var whole := EmitEntries(f, site, i, invocation, outer, firstTypeName, es, "");
    written := [];
    var typeName := "";
    var k := 0;
    assert es[0..] == es;
    PrependNothing(whole);
    while k < |es|
      invariant 0 <= k <= |es| && w.indent == i
      invariant w.lines == old(w.lines) + written
      invariant whole == Prepend(written, EmitEntries(f, site, i, invocation, outer, firstTypeName, es[k..], typeName))
    {
      ghost var before := w.lines;
      var one, ls := WriteStruct(w, f, site, invocation, outer, firstTypeName, es[k]);
      EmitEntriesStep(f, site, i, invocation, outer, firstTypeName, es, k, typeName);
      if one.Err? {
        return Err(one.fault), written;
      }
      PrependTwice(written, ls, EmitEntries(f, site, i, invocation, outer, firstTypeName, es[k + 1..], one.value));
      AppendAssoc(old(w.lines), written, ls);
      written := written + ls;
      typeName := one.value;
      k := k + 1;
    }
    assert es[k..] == [];
    assert written + [] == written;
    return Ok(typeName), written;
  }

  lemma PrependNothing(r: Result<Emitted>)
    ensures Prepend([], r) == r
  {
    if r.Ok? {
      assert [] + r.value.lines == r.value.lines;
    }
  }

  lemma AppendAssoc(a: seq<Line>, b: seq<Line>, c: seq<Line>)
    ensures a + b + c == a + (b + c)
  {
  }

  /** GenerateFunctionalInterfaces: the structs for every entry, then the
      candidate invocation transformed with call set. */
  method GenerateFunctionalInterfaces(w: Writer, f: Facts, site: Site, invocation: Node, outer: MethodSym, es: Dict, firstTypeName: string)
    returns (r: Result<Node>)
    requires invocation.Call?
    modifies w
    ensures var s := GenerateSpec(f, site, old(w.indent), invocation, outer, es, firstTypeName);
      (r.Ok? <==> s.Ok?) && (r.Err? ==> r.fault == s.fault)
      && (r.Ok? ==> r.value == s.value.call && w.lines == old(w.lines) + s.value.lines && w.indent == old(w.indent))
  {
    var typeName, written := WriteStructs(w, f, site, invocation, outer, es, firstTypeName);
    if typeName.Err? {
      return Err(typeName.fault);
    }
    r := TransformCall(Context(f, site, outer, typeName.value, firstTypeName), invocation, invocation, true);
  }

  /** One step of EmitEntries, at position k. */
  lemma EmitEntriesStep(f: Facts, site: Site, i: nat, invocation: Node, outer: MethodSym, firstTypeName: string, es: Dict, k: nat, prev: string)
    requires invocation.Call? && k < |es|
    ensures var one := EmitEntry(f, site, i, invocation, outer, firstTypeName, es[k]);
      EmitEntries(f, site, i, invocation, outer, firstTypeName, es[k..], prev)
      == (if one.Ok? then Prepend(one.value.lines, EmitEntries(f, site, i, invocation, outer, firstTypeName, es[k + 1..], one.value.typeName))
          else Err(one.fault))
  {
    assert es[k..][1..] == es[k + 1..];
  }

  /** The lines ls ahead of what a later run writes. */
  function Prepend(ls: seq<Line>, r: Result<Emitted>): Result<Emitted> {
    if r.Ok? then Ok(Emitted(ls + r.value.lines, r.value.typeName)) else r
  }

  lemma PrependTwice(a: seq<Line>, b: seq<Line>, r: Result<Emitted>)
    ensures Prepend(a, Prepend(b, r)) == Prepend(a + b, r)
  {
    if r.Ok? {
      assert a + (b + r.value.lines) == a + b + r.value.lines;
    }
  }
}
