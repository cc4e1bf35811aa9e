/** TransformCall (lines 423-526): an invocation whose target has a specialisable
    overload is redirected to it. Each lambda argument becomes a reinterpreting
    cast of the generated value, and the callee's name gets the type arguments
    the lambdas' signatures and the specialised names fill in. */
module Transform {
  import opened Wrappers
  import opened Symbols
  import opened Syntax
  import opened Matcher
  import opened Naming
  import opened Binding

  /** The method declaration being specialised, as far as names need it: its
      identifier and the start of its span. */
  datatype Site = Site(identifier: string, start: nat)

  /** The start of an argument's span. Only lambda arguments are asked for it. */
  function SpanStart(n: Node): nat {
    if n.Lambda? then n.span else 0
  }

  /** GetSymbolInfo on a lambda: the signature the compiler inferred, when it
      binds to a method. */
  function SigOf(f: Facts, n: Node): Option<LambdaSig> {
    if n.Lambda? && n.id in f.lambdaSigs then Some(f.lambdaSigs[n.id]) else None
  }

  /** What TransformCall sees of the enclosing GenerateFunctionalInterfaces: the
      facts, the method, the outer candidate (the overload the matcher found
      for the invocation being specialised, GenerateFunctionalInterfaces'
      `candidate` parameter), and the current and first specialised names. */
  datatype Context = Context(facts: Facts, site: Site, outer: MethodSym, typeName: string, firstTypeName: string)

  /** The specialised name of the lambda at position k of args. */
  function OtherName(site: Site, args: seq<Node>, k: nat): string {
    TypeName(site.identifier, site.start, if k < |args| then SpanStart(args[k]) else 0)
  }

  /** `Unsafe.As<A, B>(ref X)`: from the first struct to the current one on the
      outer call, from the current struct to the lambda's own inside a body. */
  function Cast(ctx: Context, call: bool, otherName: string): Node {
    if call then UnsafeAs(ctx.firstTypeName, ctx.typeName, Ident(FunctionalInterface))
    else UnsafeAs(ctx.typeName, otherName, This)
  }

  /** The string array of type arguments, fresh: every slot null. */
  function Unset(n: nat): (r: seq<Option<string>>)
    ensures |r| == n && forall i :: 0 <= i < n ==> r[i] == None
  {
    seq(n, i requires 0 <= i < n => None)
  }

  /** The lambda's return type into the slot of the interface method's return
      type, when that is one of the candidate's type parameters. */
  function ReturnSlot(slots: seq<Option<string>>, tps: seq<Ty>, ct: MethodSym, l: LambdaSig): (r: seq<Option<string>>)
    requires |slots| == |tps|
    ensures |r| == |tps|
  {
    var k := IndexOf(tps, ct.returnType);
    if ct.returnType.TypeParam? && k != -1 then slots[k := Some(Display(l.returnType))] else slots
  }

  /** The first n parameters of the interface method, in order: a parameter
      whose type is one of the candidate's type parameters writes the lambda's
      parameter type at the same position into that slot. */
  function ParamSlots(slots: seq<Option<string>>, tps: seq<Ty>, ct: MethodSym, l: LambdaSig, n: nat): (r: Result<seq<Option<string>>>)
    requires |slots| == |tps| && n <= |ct.params|
    ensures r.Ok? ==> |r.value| == |tps|
    ensures r.Err? ==> r.fault == IndexOutOfRange
  {
    if n == 0 then Ok(slots)
    else
      var s :- ParamSlots(slots, tps, ct, l, n - 1);
      var p := ct.params[n - 1];
      var k := IndexOf(tps, p);
      if p.TypeParam? && k != -1 then
        if n - 1 >= |l.params| then Err(IndexOutOfRange) else Ok(s[k := Some(Display(l.params[n - 1]))])
      else Ok(s)
  }

  /** The lambda's signature written into the slots (lines 446-467). */
  function SigSlots(slots: seq<Option<string>>, tps: seq<Ty>, ct: MethodSym, sig: Option<LambdaSig>): (r: Result<seq<Option<string>>>)
    requires |slots| == |tps|
    ensures r.Ok? ==> |r.value| == |tps|
    ensures r.Err? ==> r.fault == IndexOutOfRange
  {
    match sig
    case None => Ok(slots)
    case Some(l) => ParamSlots(ReturnSlot(slots, tps, ct, l), tps, ct, l, |ct.params|)
  }

  /** The specialised name into the slot that the outer candidate's parameter
      type names, looked up among the outer candidate's type parameters. */
  function OuterSlot(slots: seq<Option<string>>, outer: MethodSym, pos: nat, otherName: string): (r: Result<seq<Option<string>>>)
    ensures r.Ok? ==> |r.value| == |slots|
    ensures r.Err? ==> r.fault == IndexOutOfRange
  {
    if pos >= |outer.params| then Err(IndexOutOfRange)
    else if !outer.params[pos].TypeParam? then Ok(slots)
    else
      var k := IndexOf(outer.typeParams, outer.params[pos]);
      if k < 0 || k >= |slots| then Err(IndexOutOfRange) else Ok(slots[k := Some(otherName)])
  }

  /** The run of the loop so far: the type-argument slots and the invocation. */
  datatype Progress = Progress(slots: seq<Option<string>>, invoke: Node)

  /** One dictionary entry (lines 439-509). */
  function ApplyEntry(ctx: Context, call: bool, tps: seq<Ty>, original: Node, st: Progress, e: Entry): (r: Result<Progress>)
    requires original.Call? && st.invoke.Call? && |st.slots| == |tps|
    ensures r.Ok? ==> r.value.invoke.Call? && |r.value.slots| == |tps|
  {
    if e.pos >= |original.args| then Err(IndexOutOfRange)
    else
      var lambda := original.args[e.pos];
      var s1 :- SigSlots(st.slots, tps, e.target, SigOf(ctx.facts, lambda));
      var otherName := OtherName(ctx.site, original.args, e.pos);
      var s2 :- OuterSlot(s1, ctx.outer, e.pos, otherName);
      if e.pos >= |st.invoke.args| then Err(IndexOutOfRange)
      else Ok(Progress(s2, st.invoke.(args := st.invoke.args[e.pos := Cast(ctx, call, otherName)])))
  }

  /** The entries, in dictionary order; the first that raises ends the loop. */
  function ApplyEntries(ctx: Context, call: bool, tps: seq<Ty>, original: Node, st: Progress, es: Dict): (r: Result<Progress>)
    requires original.Call? && st.invoke.Call? && |st.slots| == |tps|
    ensures r.Ok? ==> r.value.invoke.Call? && |r.value.slots| == |tps|
    decreases |es|
  {
    if es == [] then Ok(st)
    else
      var p :- ApplyEntry(ctx, call, tps, original, st, es[0]);
      ApplyEntries(ctx, call, tps, original, p, es[1..])
  }

  /** The new callee: a member access gets the generic name; any other callee
      stays, since the expression built for it is dropped. */
  function Retarget(invoke: Node, name: string, slots: seq<Option<string>>): Node
    requires invoke.Call?
  {
    if invoke.callee.Member? then invoke.(callee := Member(invoke.callee.target, Generic(name, slots))) else invoke
  }

  /** TransformCall(original, invoke, call): the semantic questions are asked of
      the original invocation, the edits are made to invoke. */
  function TransformCallSpec(ctx: Context, original: Node, invoke: Node, call: bool): (r: Result<Node>)
    requires original.Call? && invoke.Call?
  {
    if original.id !in ctx.facts.targets then Ok(invoke)
    else
      var found :- Target(ctx.facts, original.id, original.args);
      match found
      case None => Ok(invoke)
      case Some(m) =>
        var tps := m.candidate.typeParams;
        var st :- ApplyEntries(ctx, call, tps, original, Progress(Unset(|tps|), invoke), m.entries);
        if !AllSet(st.slots) then Err(NullReference)
        else Ok(Retarget(st.invoke, ctx.facts.targets[original.id].name, st.slots))
  }

  /** Every slot of the string array has been written. The generic name is
      built from all of them before the callee is looked at, and a null string
      there makes IdentifierName raise. */
  predicate AllSet(slots: seq<Option<string>>) {
    forall s :: 0 <= s < |slots| ==> slots[s].Some?
  }

  // ---------------------------------------------------------------------------
  // What TransformCall promises.

  /** A call that binds to no method, or has no specialisable overload, is
      returned as it is. */
  lemma TransformUntargeted(ctx: Context, original: Node, invoke: Node, call: bool)
    requires original.Call? && invoke.Call?
    requires original.id !in ctx.facts.targets || Target(ctx.facts, original.id, original.args) == Ok(None)
    ensures TransformCallSpec(ctx, original, invoke, call) == Ok(invoke)
  {
  }

  /** One entry puts its cast at its position and changes nothing else of the
      invocation. */
  lemma EntryArgs(ctx: Context, call: bool, tps: seq<Ty>, original: Node, p: Progress, e: Entry)
    requires original.Call? && p.invoke.Call? && |p.slots| == |tps|
    requires ApplyEntry(ctx, call, tps, original, p, e).Ok?
    ensures var r := ApplyEntry(ctx, call, tps, original, p, e).value.invoke;
      e.pos < |p.invoke.args|
      && r == p.invoke.(args := p.invoke.args[e.pos := Cast(ctx, call, OtherName(ctx.site, original.args, e.pos))])
  {
    assert e.pos < |original.args|;
    var s1 := SigSlots(p.slots, tps, e.target, SigOf(ctx.facts, original.args[e.pos]));
    assert s1.Ok?;
    var s2 := OuterSlot(s1.value, ctx.outer, e.pos, OtherName(ctx.site, original.args, e.pos));
    assert s2.Ok?;
  }

  /** The arguments after the entries: those at the entries' positions are
      casts, every other one is as it was. */
  lemma {:induction false} EntriesArgs(ctx: Context, call: bool, tps: seq<Ty>, original: Node, st: Progress, es: Dict)
    requires original.Call? && st.invoke.Call? && |st.slots| == |tps|
    requires ApplyEntries(ctx, call, tps, original, st, es).Ok?
    ensures var r := ApplyEntries(ctx, call, tps, original, st, es).value.invoke;
      r.id == st.invoke.id && r.tracked == st.invoke.tracked && r.callee == st.invoke.callee
      && |r.args| == |st.invoke.args|
      && forall k :: 0 <= k < |r.args| ==>
           r.args[k] == (if k in Keys(es) then Cast(ctx, call, OtherName(ctx.site, original.args, k)) else st.invoke.args[k])
    decreases |es|
  {
    if es != [] {
      EntriesStep(ctx, call, tps, original, st, es);
      var p := ApplyEntry(ctx, call, tps, original, st, es[0]).value;
      EntryArgs(ctx, call, tps, original, st, es[0]);
      EntriesArgs(ctx, call, tps, original, p, es[1..]);
      var r := ApplyEntries(ctx, call, tps, original, st, es).value.invoke;
      assert Keys(es) == [es[0].pos] + Keys(es[1..]);
      forall k | 0 <= k < |r.args|
        ensures r.args[k] == (if k in Keys(es) then Cast(ctx, call, OtherName(ctx.site, original.args, k)) else st.invoke.args[k])
      {
        if k !in Keys(es[1..]) && k != es[0].pos {
          assert r.args[k] == p.invoke.args[k];
        }
      }
    }
  }

  /** The first entry, then the rest from where it leaves the run. */
  lemma EntriesStep(ctx: Context, call: bool, tps: seq<Ty>, original: Node, st: Progress, es: Dict)
    requires original.Call? && st.invoke.Call? && |st.slots| == |tps| && es != []
    requires ApplyEntries(ctx, call, tps, original, st, es).Ok?
    ensures ApplyEntry(ctx, call, tps, original, st, es[0]).Ok?
    ensures var p := ApplyEntry(ctx, call, tps, original, st, es[0]).value;
      ApplyEntries(ctx, call, tps, original, st, es) == ApplyEntries(ctx, call, tps, original, p, es[1..])
  {
  }

  /** Only the mapped positions change, each into its cast; the argument count,
      the node's identity and the tracking annotation stay. */
  lemma TransformArgs(ctx: Context, original: Node, invoke: Node, call: bool)
    requires original.Call? && invoke.Call?
    requires TransformCallSpec(ctx, original, invoke, call).Ok?
    ensures var r := TransformCallSpec(ctx, original, invoke, call).value;
      r.Call? && r.id == invoke.id && r.tracked == invoke.tracked && |r.args| == |invoke.args|
      && forall k :: 0 <= k < |r.args| ==>
           r.args[k] == (if Mapped(ctx, original, k) then Cast(ctx, call, OtherName(ctx.site, original.args, k)) else invoke.args[k])
  {
    if original.id in ctx.facts.targets && Target(ctx.facts, original.id, original.args).value.Some? {
      var m := Target(ctx.facts, original.id, original.args).value.value;
      var tps := m.candidate.typeParams;
      var st0 := Progress(Unset(|tps|), invoke);
      EntriesArgs(ctx, call, tps, original, st0, m.entries);
      var st := ApplyEntries(ctx, call, tps, original, st0, m.entries).value;
      var r := Retarget(st.invoke, ctx.facts.targets[original.id].name, st.slots);
      assert TransformCallSpec(ctx, original, invoke, call) == Ok(r);
      assert r.args == st.invoke.args && r.id == st.invoke.id && r.tracked == st.invoke.tracked;
      forall k | 0 <= k < |r.args|
        ensures r.args[k] == (if Mapped(ctx, original, k) then Cast(ctx, call, OtherName(ctx.site, original.args, k)) else invoke.args[k])
      {
        assert Mapped(ctx, original, k) == (k in Keys(m.entries));
      }
    }
  }

  /** The argument position k of the original call is one the dictionary maps. */
  predicate Mapped(ctx: Context, original: Node, k: nat)
    requires original.Call?
  {
    original.id in ctx.facts.targets
    && Target(ctx.facts, original.id, original.args).Ok?
    && Target(ctx.facts, original.id, original.args).value.Some?
    && k in Keys(Target(ctx.facts, original.id, original.args).value.value.entries)
  }

  /** Exactly the lambda arguments of the original call are mapped, when it has
      a specialisable overload. */
  lemma MappedAreLambdas(ctx: Context, original: Node, k: nat)
    requires original.Call? && original.id in ctx.facts.targets
    requires Target(ctx.facts, original.id, original.args).Ok? && Target(ctx.facts, original.id, original.args).value.Some?
    ensures Mapped(ctx, original, k) <==> k < |original.args| && IsLambda(original.args[k])
  {
    TargetSound(ctx.facts, original.id, original.args);
  }

  /** The callee: a member access is renamed to the invoked method's name with
      one type argument per type parameter of the overload; any other callee is
      left as it was. */
  lemma TransformCallee(ctx: Context, original: Node, invoke: Node, call: bool)
    requires original.Call? && invoke.Call?
    requires original.id in ctx.facts.targets
    requires Target(ctx.facts, original.id, original.args).Ok? && Target(ctx.facts, original.id, original.args).value.Some?
    requires TransformCallSpec(ctx, original, invoke, call).Ok?
    ensures var r := TransformCallSpec(ctx, original, invoke, call).value;
      var m := Target(ctx.facts, original.id, original.args).value.value;
      r.Call?
      && (invoke.callee.Member? ==>
            r.callee.Member? && r.callee.target == invoke.callee.target
            && r.callee.memberName.Generic?
            && r.callee.memberName.genericName == ctx.facts.targets[original.id].name
            && |r.callee.memberName.typeArgs| == |m.candidate.typeParams|
            && forall s :: 0 <= s < |m.candidate.typeParams| ==>
                 r.callee.memberName.typeArgs[s]
                 == LastWrite(ctx.facts, ctx.site, ctx.outer, m.candidate.typeParams, original.args, m.entries, s))
      && (!invoke.callee.Member? ==> r.callee == invoke.callee)
      && forall s :: 0 <= s < |m.candidate.typeParams| ==>
           LastWrite(ctx.facts, ctx.site, ctx.outer, m.candidate.typeParams, original.args, m.entries, s).Some?
  {
    var m := Target(ctx.facts, original.id, original.args).value.value;
    var tps := m.candidate.typeParams;
    var st0 := Progress(Unset(|tps|), invoke);
    EntriesArgs(ctx, call, tps, original, st0, m.entries);
    var st := ApplyEntries(ctx, call, tps, original, st0, m.entries).value;
    forall s | 0 <= s < |tps|
      ensures st.slots[s] == LastWrite(ctx.facts, ctx.site, ctx.outer, tps, original.args, m.entries, s)
    {
      EntriesSlotsAt(ctx, call, tps, original, st0, m.entries, s);
    }
  }

  /** A slot no entry writes stays null, and the call raises. */
  lemma TransformUnset(ctx: Context, original: Node, invoke: Node, call: bool, s: nat)
    requires original.Call? && invoke.Call?
    requires original.id in ctx.facts.targets
    requires Target(ctx.facts, original.id, original.args).Ok? && Target(ctx.facts, original.id, original.args).value.Some?
    requires var m := Target(ctx.facts, original.id, original.args).value.value;
      ApplyEntries(ctx, call, m.candidate.typeParams, original, Progress(Unset(|m.candidate.typeParams|), invoke), m.entries).Ok?
      && s < |m.candidate.typeParams|
      && LastWrite(ctx.facts, ctx.site, ctx.outer, m.candidate.typeParams, original.args, m.entries, s).None?
    ensures TransformCallSpec(ctx, original, invoke, call) == Err(NullReference)
  {
    var m := Target(ctx.facts, original.id, original.args).value.value;
    var tps := m.candidate.typeParams;
    EntriesSlotsAt(ctx, call, tps, original, Progress(Unset(|tps|), invoke), m.entries, s);
  }

  // ---------------------------------------------------------------------------
  // What the loop leaves in each type-argument slot.

  /** The slot the outer candidate's parameter at pos names among the outer
      candidate's type parameters; -1 when that parameter's type is not a type
      parameter or there is no such parameter. */
  function OuterTarget(outer: MethodSym, pos: nat): int {
    if pos < |outer.params| && outer.params[pos].TypeParam? then IndexOf(outer.typeParams, outer.params[pos]) else -1
  }

  /** What the lambda's signature writes into slot s: the lambda's type at the
      last parameter of the interface method that names s, else the lambda's
      return type when the method's return type names s, else nothing. */
  function SigWrite(tps: seq<Ty>, ct: MethodSym, l: LambdaSig, s: nat): Option<string>
    requires !MissingParam(ct, tps, l, |ct.params|)
  {
    match LastWriter(ct, tps, s, |ct.params|)
    case Some(j) => Some(Display(l.params[j]))
    case None => if SlotOf(tps, ct.returnType) == s then Some(Display(l.returnType)) else None
  }

  /** What one entry that runs to its end writes into slot s: its lambda's
      specialised name when the outer candidate's parameter names s (that
      write comes last), otherwise what the lambda's signature writes. */
  function EntryWrite(f: Facts, site: Site, outer: MethodSym, tps: seq<Ty>, args: seq<Node>, e: Entry, s: nat): Option<string> {
    if OuterTarget(outer, e.pos) == s then Some(OtherName(site, args, e.pos))
    else if e.pos >= |args| then None
    else match SigOf(f, args[e.pos])
      case None => None
      case Some(l) => if MissingParam(e.target, tps, l, |e.target.params|) then None else SigWrite(tps, e.target, l, s)
  }

  /** What the entries write into slot s, a later entry's write over an
      earlier one's; None when no entry writes there. */
  function LastWrite(f: Facts, site: Site, outer: MethodSym, tps: seq<Ty>, args: seq<Node>, es: Dict, s: nat): Option<string>
    decreases |es|
  {
    if es == [] then None
    else
      var later := LastWrite(f, site, outer, tps, args, es[1..], s);
      if later.Some? then later else EntryWrite(f, site, outer, tps, args, es[0], s)
  }

  lemma ReturnSlotAt(slots: seq<Option<string>>, tps: seq<Ty>, ct: MethodSym, l: LambdaSig, s: nat)
    requires |slots| == |tps| && s < |tps|
    ensures ReturnSlot(slots, tps, ct, l)[s]
      == if SlotOf(tps, ct.returnType) == s then Some(Display(l.returnType)) else slots[s]
  {
  }

  /** The parameter loop raises exactly when a parameter that names a slot has
      no lambda parameter at its position. */
  lemma {:induction false} ParamSlotsErr(slots: seq<Option<string>>, tps: seq<Ty>, ct: MethodSym, l: LambdaSig, n: nat)
    requires |slots| == |tps| && n <= |ct.params|
    ensures ParamSlots(slots, tps, ct, l, n).Err? <==> MissingParam(ct, tps, l, n)
    decreases n
  {
    if n > 0 {
      ParamSlotsErr(slots, tps, ct, l, n - 1);
      MissingStep(ct, tps, l, n - 1);
      ParamSlotsStep(slots, tps, ct, l, n);
    }
  }

  /** The n-th step writes the slot its parameter names, if any. */
  lemma ParamSlotsStep(slots: seq<Option<string>>, tps: seq<Ty>, ct: MethodSym, l: LambdaSig, n: nat)
    requires |slots| == |tps| && 0 < n <= |ct.params|
    ensures var prev := ParamSlots(slots, tps, ct, l, n - 1);
      var k := SlotOf(tps, ct.params[n - 1]);
      ParamSlots(slots, tps, ct, l, n)
      == if prev.Err? then prev
         else if k == -1 then prev
         else if n - 1 >= |l.params| then Err(IndexOutOfRange)
         else Ok(prev.value[k := Some(Display(l.params[n - 1]))])
  {
  }

  /** Otherwise slot s holds the lambda's type for the last parameter naming
      it, or what it held before. */
  lemma {:induction false} ParamSlotsAt(slots: seq<Option<string>>, tps: seq<Ty>, ct: MethodSym, l: LambdaSig, n: nat, s: nat)
    requires |slots| == |tps| && n <= |ct.params| && s < |tps|
    requires ParamSlots(slots, tps, ct, l, n).Ok?
    ensures !MissingParam(ct, tps, l, n)
    ensures ParamSlots(slots, tps, ct, l, n).value[s]
      == match LastWriter(ct, tps, s, n) case Some(j) => Some(Display(l.params[j])) case None => slots[s]
    decreases n
  {
    ParamSlotsErr(slots, tps, ct, l, n);
    if n > 0 {
      ParamSlotsStep(slots, tps, ct, l, n);
      ParamSlotsAt(slots, tps, ct, l, n - 1, s);
    }
  }

  /** Lines 446-467 on slot s: they raise exactly when the lambda lacks a
      parameter the interface method's type parameters need, and otherwise
      leave what SigWrite says, or the slot as it was. */
  lemma SigSlotsAt(slots: seq<Option<string>>, tps: seq<Ty>, ct: MethodSym, l: LambdaSig, s: nat)
    requires |slots| == |tps| && s < |tps|
    ensures SigSlots(slots, tps, ct, Some(l)).Err? <==> MissingParam(ct, tps, l, |ct.params|)
    ensures SigSlots(slots, tps, ct, Some(l)).Ok? ==>
      SigSlots(slots, tps, ct, Some(l)).value[s]
      == if SigWrite(tps, ct, l, s).Some? then SigWrite(tps, ct, l, s) else slots[s]
  {
    ReturnSlotAt(slots, tps, ct, l, s);
    ParamSlotsErr(ReturnSlot(slots, tps, ct, l), tps, ct, l, |ct.params|);
    if SigSlots(slots, tps, ct, Some(l)).Ok? {
      ParamSlotsAt(ReturnSlot(slots, tps, ct, l), tps, ct, l, |ct.params|, s);
    }
  }

  /** One entry on slot s: what EntryWrite says, or the slot as it was. */
  lemma EntrySlotsAt(ctx: Context, call: bool, tps: seq<Ty>, original: Node, st: Progress, e: Entry, s: nat)
    requires original.Call? && st.invoke.Call? && |st.slots| == |tps| && s < |tps|
    requires ApplyEntry(ctx, call, tps, original, st, e).Ok?
    ensures var w := EntryWrite(ctx.facts, ctx.site, ctx.outer, tps, original.args, e, s);
      ApplyEntry(ctx, call, tps, original, st, e).value.slots[s] == if w.Some? then w else st.slots[s]
  {
    var sig := SigOf(ctx.facts, original.args[e.pos]);
    var s1 := SigSlots(st.slots, tps, e.target, sig).value;
    if sig.Some? {
      SigSlotsAt(st.slots, tps, e.target, sig.value, s);
    }
    assert s1[s] == if sig.Some? && SigWrite(tps, e.target, sig.value, s).Some? then SigWrite(tps, e.target, sig.value, s) else st.slots[s];
  }

  /** The entries on slot s: the last write, or the slot as it was. */
  lemma {:induction false} EntriesSlotsAt(ctx: Context, call: bool, tps: seq<Ty>, original: Node, st: Progress, es: Dict, s: nat)
    requires original.Call? && st.invoke.Call? && |st.slots| == |tps| && s < |tps|
    requires ApplyEntries(ctx, call, tps, original, st, es).Ok?
    ensures var w := LastWrite(ctx.facts, ctx.site, ctx.outer, tps, original.args, es, s);
      ApplyEntries(ctx, call, tps, original, st, es).value.slots[s] == if w.Some? then w else st.slots[s]
    decreases |es|
  {
    if es != [] {
      EntriesStep(ctx, call, tps, original, st, es);
      var p := ApplyEntry(ctx, call, tps, original, st, es[0]).value;
      EntrySlotsAt(ctx, call, tps, original, st, es[0], s);
      EntriesSlotsAt(ctx, call, tps, original, p, es[1..], s);
    }
  }

  /** The last entry's write into the outer candidate's slot is the last write
      of the loop: after it, that slot holds the entry's specialised name. */
  lemma {:induction false} LastOuterSlot(ctx: Context, call: bool, tps: seq<Ty>, original: Node, st: Progress, es: Dict)
    requires original.Call? && st.invoke.Call? && |st.slots| == |tps| && es != []
    requires ApplyEntries(ctx, call, tps, original, st, es).Ok?
    requires es[|es| - 1].pos < |ctx.outer.params| && ctx.outer.params[es[|es| - 1].pos].TypeParam?
    ensures var k := IndexOf(ctx.outer.typeParams, ctx.outer.params[es[|es| - 1].pos]);
      0 <= k < |tps|
      && ApplyEntries(ctx, call, tps, original, st, es).value.slots[k] == Some(OtherName(ctx.site, original.args, es[|es| - 1].pos))
    decreases |es|
  {
    var p := ApplyEntry(ctx, call, tps, original, st, es[0]).value;
    if |es| > 1 {
      LastOuterSlot(ctx, call, tps, original, p, es[1..]);
    }
  }

  /** The slot the outer candidate's parameter names gets the specialised name
      of the dictionary's last lambda. */
  lemma TransformSlot(ctx: Context, original: Node, invoke: Node, call: bool)
    requires original.Call? && invoke.Call? && invoke.callee.Member?
    requires original.id in ctx.facts.targets
    requires Target(ctx.facts, original.id, original.args).Ok? && Target(ctx.facts, original.id, original.args).value.Some?
    requires TransformCallSpec(ctx, original, invoke, call).Ok?
    requires var es := Target(ctx.facts, original.id, original.args).value.value.entries;
      es != [] && es[|es| - 1].pos < |ctx.outer.params| && ctx.outer.params[es[|es| - 1].pos].TypeParam?
    ensures var es := Target(ctx.facts, original.id, original.args).value.value.entries;
      var p := ctx.outer.params[es[|es| - 1].pos];
      var r := TransformCallSpec(ctx, original, invoke, call).value;
      var k := IndexOf(ctx.outer.typeParams, p);
      r.Call? && r.callee.Member? && r.callee.memberName.Generic?
      && 0 <= k < |r.callee.memberName.typeArgs|
      && r.callee.memberName.typeArgs[k] == Some(OtherName(ctx.site, original.args, es[|es| - 1].pos))
  {
    var m := Target(ctx.facts, original.id, original.args).value.value;
    var tps := m.candidate.typeParams;
    var st0 := Progress(Unset(|tps|), invoke);
    LastOuterSlot(ctx, call, tps, original, st0, m.entries);
    EntriesArgs(ctx, call, tps, original, st0, m.entries);
  }

  // ---------------------------------------------------------------------------
  // The imperative TransformCall, over the string array.

  /** The loop over the interface method's parameters (lines 456-467). */
  method WriteParamSlots(tps: seq<Ty>, ct: MethodSym, l: LambdaSig, resolved: array<Option<string>>) returns (ok: bool)
    requires resolved.Length == |tps|
    modifies resolved
    ensures var s := ParamSlots(old(resolved[..]), tps, ct, l, |ct.params|);
      ok == s.Ok? && (ok ==> resolved[..] == s.value)
  {
    ghost var s0 := resolved[..];
    var j := 0;
    while j < |ct.params|
      invariant 0 <= j <= |ct.params|
      invariant ParamSlots(s0, tps, ct, l, j) == Ok(resolved[..])
    {
      var p := ct.params[j];
      var k := IndexOf(tps, p);
      if p.TypeParam? && k != -1 {
        if j >= |l.params| {
          ErrPersists(s0, tps, ct, l, j + 1);
          return false;
        }
        resolved[k] := Some(Display(l.params[j]));
      }
      j := j + 1;
    }
    return true;
  }

  /** Once a parameter raises, so does the whole loop. */
  lemma {:induction false} ErrPersists(slots: seq<Option<string>>, tps: seq<Ty>, ct: MethodSym, l: LambdaSig, n: nat)
    requires |slots| == |tps| && n <= |ct.params| && ParamSlots(slots, tps, ct, l, n).Err?
    ensures ParamSlots(slots, tps, ct, l, |ct.params|).Err?
    decreases |ct.params| - n
  {
    if n < |ct.params| {
      ErrPersists(slots, tps, ct, l, n + 1);
    }
  }

  /** One entry, on the array and the invocation. */
  method ApplyEntryTo(ctx: Context, call: bool, tps: seq<Ty>, original: Node, resolved: array<Option<string>>, invoke: Node, e: Entry)
    returns (r: Result<Node>)
    requires original.Call? && invoke.Call? && resolved.Length == |tps|
    modifies resolved
    ensures ApplyEntry(ctx, call, tps, original, Progress(old(resolved[..]), invoke), e) ==
            (if r.Ok? then Ok(Progress(resolved[..], r.value)) else Err(r.fault))
  {
    ghost var s0 := resolved[..];
    if e.pos >= |original.args| {
      return Err(IndexOutOfRange);
    }
    var lambda := original.args[e.pos];
    var sig := SigOf(ctx.facts, lambda);
    if sig.Some? {
      var l := sig.value;
      var ct := e.target;
      var k := IndexOf(tps, ct.returnType);
      if ct.returnType.TypeParam? && k != -1 {
        resolved[k] := Some(Display(l.returnType));
      }
      assert resolved[..] == ReturnSlot(s0, tps, ct, l);
      var ok := WriteParamSlots(tps, ct, l, resolved);
      if !ok {
        return Err(IndexOutOfRange);
      }
    }
    var otherName := OtherName(ctx.site, original.args, e.pos);
    if e.pos >= |ctx.outer.params| {
      return Err(IndexOutOfRange);
    }
    if ctx.outer.params[e.pos].TypeParam? {
      var k := IndexOf(ctx.outer.typeParams, ctx.outer.params[e.pos]);
      if k < 0 || k >= resolved.Length {
        return Err(IndexOutOfRange);
      }
      resolved[k] := Some(otherName);
    }
    if e.pos >= |invoke.args| {
      return Err(IndexOutOfRange);
    }
    return Ok(invoke.(args := invoke.args[e.pos := Cast(ctx, call, otherName)]));
  }

  /** TransformCall, filling the string array and reassigning the invocation. */
  method TransformCall(ctx: Context, original: Node, invoke: Node, call: bool) returns (r: Result<Node>)
    requires original.Call? && invoke.Call?
    ensures r == TransformCallSpec(ctx, original, invoke, call)
  {
    if original.id !in ctx.facts.targets {
      return Ok(invoke);
    }
    var found := FindFunctionalInterfaceTarget(ctx.facts, original.id, original.args);
    if found.Err? {
      return Err(found.fault);
    }
    if found.value.None? {
      return Ok(invoke);
    }
    var m := found.value.value;
    var tps := m.candidate.typeParams;
    var resolved := new Option<string>[|tps|](i => None);
    assert resolved[..] == Unset(|tps|);
    var applied := ApplyAllTo(ctx, call, tps, original, resolved, invoke, m.entries);
    if applied.Err? {
      return Err(applied.fault);
    }
    if !AllSet(resolved[..]) {
      return Err(NullReference);
    }
    return Ok(Retarget(applied.value, ctx.facts.targets[original.id].name, resolved[..]));
  }

  /** The loop over the dictionary. */
  method ApplyAllTo(ctx: Context, call: bool, tps: seq<Ty>, original: Node, resolved: array<Option<string>>, invoke: Node, es: Dict)
    returns (r: Result<Node>)
    requires original.Call? && invoke.Call? && resolved.Length == |tps|
    modifies resolved
    ensures var s := ApplyEntries(ctx, call, tps, original, Progress(old(resolved[..]), invoke), es);
      s == (if r.Ok? then Ok(Progress(resolved[..], r.value)) else Err(r.fault))
  {
    ghost var st0 := Progress(resolved[..], invoke);
    ghost var whole := ApplyEntries(ctx, call, tps, original, st0, es);
    var cur := invoke;
    var k := 0;
    assert es[k..] == es;
    while k < |es|
      invariant 0 <= k <= |es| && cur.Call?
      invariant whole == ApplyEntries(ctx, call, tps, original, Progress(resolved[..], cur), es[k..])
    {
      ghost var before := Progress(resolved[..], cur);
      EntriesUnfold(ctx, call, tps, original, before, es, k);
      var next := ApplyEntryTo(ctx, call, tps, original, resolved, cur, es[k]);
      if next.Err? {
        return Err(next.fault);
      }
      cur := next.value;
      k := k + 1;
    }
    assert es[k..] == [];
    return Ok(cur);
  }

  /** The entries from k on: the k-th, then the rest from where it leaves the run. */
  lemma EntriesUnfold(ctx: Context, call: bool, tps: seq<Ty>, original: Node, st: Progress, es: Dict, k: nat)
    requires original.Call? && st.invoke.Call? && |st.slots| == |tps| && k < |es|
    ensures var a := ApplyEntry(ctx, call, tps, original, st, es[k]);
      ApplyEntries(ctx, call, tps, original, st, es[k..])
      == (if a.Err? then Err(a.fault) else ApplyEntries(ctx, call, tps, original, a.value, es[k + 1..]))
  {
    assert es[k..][0] == es[k];
    assert es[k..][1..] == es[k + 1..];
  }
}
