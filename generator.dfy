/** The output callback (lines 21-223): for one method declaration, find the
    invocations that have a specialisable overload; when there are any, write a
    file with the enclosing namespace and partial classes, the structs and
    rewritten invocation of every candidate, and a forwarding method whose body
    is the method's body rewritten; and name the file after the hierarchy. */
module Generator {
  import opened Wrappers
  import opened Symbols
  import opened Syntax
  import opened Matcher
  import opened Naming
  import opened Tracking
  import opened Rewrite
  import opened Output
  import opened Transform
  import opened Structs

  /** A method declaration as the callback sees it. */
  datatype MethodDecl = MethodDecl(
    identifier: string,
    start: nat,                   // the span start of the declaration
    isStatic: bool,               // the modifiers hold `static`
    body: Option<Node>,           // the block body; None when there is none
    expressionBody: Option<Node>, // the expression of an `=>` body
    chain: seq<Decl>)             // the enclosing declarations, innermost first

  /** An invocation with the overload and the dictionary the matcher found for it. */
  datatype Candidate = Candidate(invocation: Node, found: Match)

  /** The file added to the compilation: its hint name and its lines. */
  datatype SourceFile = SourceFile(hintName: string, lines: seq<Line>)

  /** The invocations among the method's descendants, in document order. */
  function MethodCalls(d: MethodDecl): seq<Node> {
    (if d.body.Some? then Calls(d.body.value) else [])
    + (if d.expressionBody.Some? then Calls(d.expressionBody.value) else [])
  }

  // ---------------------------------------------------------------------------
  // Collecting the candidates (lines 25-45).

  /** What the matcher promises of a candidate it found: its dictionary is not
      empty and maps only positions that hold a lambda. */
  predicate Found(f: Facts, c: Candidate) {
    c.invocation.Call?
    && |c.found.entries| > 0
    && forall k :: 0 <= k < |c.found.entries| ==>
         c.found.entries[k].pos < |c.invocation.args| && IsLambda(c.invocation.args[c.found.entries[k].pos])
  }

  lemma FoundTarget(f: Facts, n: Node)
    requires n.Call? && Target(f, n.id, n.args).Ok? && Target(f, n.id, n.args).value.Some?
    ensures Found(f, Candidate(n, Target(f, n.id, n.args).value.value))
  {
    TargetSound(f, n.id, n.args);
    var m := Target(f, n.id, n.args).value.value;
    assert LambdaPositions(n.args) != [];
    assert |Keys(m.entries)| > 0;
    forall k | 0 <= k < |m.entries|
      ensures m.entries[k].pos < |n.args|
    {
      assert m.entries[k].pos == LambdaPositions(n.args)[k];
    }
  }

  /** The invocations with a candidate, in order; the first fault the matcher
      raises ends the walk. */
  function Candidates(f: Facts, ns: seq<Node>): (r: Result<seq<Candidate>>)
    ensures r.Ok? ==> forall k :: 0 <= k < |r.value| ==> Found(f, r.value[k])
    ensures r.Ok? ==> forall k :: 0 <= k < |r.value| ==>
      r.value[k].invocation in ns && r.value[k].invocation.Call?
      && Target(f, r.value[k].invocation.id, r.value[k].invocation.args) == Ok(Some(r.value[k].found))
    decreases |ns|
  {
    if ns == [] then Ok([])
    else if !ns[0].Call? then Candidates(f, ns[1..])
    else
      var t :- Target(f, ns[0].id, ns[0].args);
      var rest :- Candidates(f, ns[1..]);
      if t.Some? then
        FoundTarget(f, ns[0]);
        Ok([Candidate(ns[0], t.value)] + rest)
      else Ok(rest)
  }

  /** There are no candidates exactly when no invocation has one and the matcher
      raises for none. */
  lemma {:induction false} NoCandidates(f: Facts, ns: seq<Node>)
    ensures Candidates(f, ns) == Ok([]) <==>
      forall k :: 0 <= k < |ns| && ns[k].Call? ==> Target(f, ns[k].id, ns[k].args) == Ok(None)
    decreases |ns|
  {
    if ns != [] {
      NoCandidates(f, ns[1..]);
      assert forall k :: 0 < k < |ns| ==> ns[k] == ns[1..][k - 1];
      if ns[0].Call? && Target(f, ns[0].id, ns[0].args).Ok? && Target(f, ns[0].id, ns[0].args).value.None?
         && Candidates(f, ns[1..]).Ok? {
        assert Candidates(f, ns) == Candidates(f, ns[1..]);
      }
    }
  }

  /** The candidates found so far, ahead of what the rest of the walk finds. */
  function PrependCandidates(cs: seq<Candidate>, r: Result<seq<Candidate>>): Result<seq<Candidate>> {
    if r.Ok? then Ok(cs + r.value) else r
  }

  /** The loop over the method's descendant nodes. */
  method CollectCandidates(f: Facts, ns: seq<Node>) returns (r: Result<seq<Candidate>>)
    ensures r == Candidates(f, ns)
  {
    var cs: seq<Candidate> := [];
    var k := 0;
    assert ns[0..] == ns;
    assert PrependCandidates([], Candidates(f, ns)) == Candidates(f, ns) by {
      if Candidates(f, ns).Ok? {
        assert [] + Candidates(f, ns).value == Candidates(f, ns).value;
      }
    }
    while k < |ns|
      invariant 0 <= k <= |ns|
      invariant Candidates(f, ns) == PrependCandidates(cs, Candidates(f, ns[k..]))
    {
      assert ns[k..][1..] == ns[k + 1..];
      var n := ns[k];
      if n.Call? {
        var t := FindFunctionalInterfaceTarget(f, n.id, n.args);
        if t.Err? {
          return Err(t.fault);
        }
        if t.value.Some? {
          var rest := Candidates(f, ns[k + 1..]);
          if rest.Ok? {
            assert cs + ([Candidate(n, t.value.value)] + rest.value) == cs + [Candidate(n, t.value.value)] + rest.value;
          }
          cs := cs + [Candidate(n, t.value.value)];
        }
      }
      k := k + 1;
    }
    assert ns[k..] == [];
    assert cs + [] == cs;
    return Ok(cs);
  }

  // ---------------------------------------------------------------------------
  // The opening of the file (lines 50-102).

  const Preamble: seq<Line> := [Line(0, AutoGenerated), Line(0, NullableEnable), Line(0, PragmaDisable), Line(0, Blank)]

  /** The usings, when the walk reached the compilation unit. */
  function UsingLines(e: Enclosing): seq<Line> {
    if e.reachedUnit then [Line(0, Usings), Line(0, Blank)] else []
  }

  /** `namespace N {`, when there is a namespace. */
  function NamespaceLines(ns: Option<string>): seq<Line> {
    if ns.Some? then [Line(0, NamespaceHead(ns.value)), Line(0, OpenBrace)] else []
  }

  function NamespaceDepth(ns: Option<string>): nat {
    if ns.Some? then 1 else 0
  }

  predicate AllClasses(classes: seq<Decl>) {
    forall k :: 0 <= k < |classes| ==> classes[k].ClassDecl?
  }

  /** `partial class C<T> {` for each class, outermost (the last) first, from depth d. */
  function ClassLines(classes: seq<Decl>, d: nat): seq<Line>
    requires AllClasses(classes)
    decreases |classes|
  {
    if classes == [] then []
    else
      var c := classes[|classes| - 1];
      [Line(d, ClassHead(c.name, c.typeParamList)), Line(d, OpenBrace)] + ClassLines(classes[..|classes| - 1], d + 1)
  }

  function Opening(classes: seq<Decl>, e: Enclosing): seq<Line>
    requires AllClasses(classes)
  {
    Preamble + UsingLines(e) + NamespaceLines(e.ns) + ClassLines(classes, NamespaceDepth(e.ns))
  }

  // ---------------------------------------------------------------------------
  // The candidates (lines 108-196).

  /** The lines written for the candidates so far and the method body as rewritten. */
  datatype Pass = Pass(lines: seq<Line>, body: Node)

  /** The method body after one candidate: rewritten for the captured variables
      of the first lambda's data flow, then, when it still holds the candidate's
      invocation, with the copies inserted before that invocation's statement
      and the invocation replaced by call. */
  function NextBody(flow: Option<DataFlow>, body: Node, id: nat, call: Node): Result<Node> {
    var qualified := if flow.Some? then QualifyBody(body, CapturedNames(flow.value.captured)) else Ok(body);
    if qualified.Err? then qualified else PlaceCall(flow, qualified.value, id, call)
  }

  /** The second half of NextBody, on the qualified body. */
  function PlaceCall(flow: Option<DataFlow>, body: Node, id: nat, call: Node): Result<Node> {
    if !HasTracked(body, id) then Ok(body)
    else
      var inserted := if flow.Some? && InStatement(body, id) then InsertBefore(body, id, InitsOf(flow.value.flowsIn)) else Ok(body);
      if inserted.Err? then inserted else Ok(ReplaceTracked(inserted.value, id, call))
  }

  /** One candidate: its structs at the given depth and a blank line; the body
      as NextBody leaves it. */
  function ProcessOne(f: Facts, site: Site, depth: nat, typeName: string, flow: Option<DataFlow>, body: Node, c: Candidate): Result<Pass>
    requires c.invocation.Call?
  {
    var s := GenerateSpec(f, site, depth, c.invocation, c.found.candidate, c.found.entries, typeName);
    if s.Err? then Err(s.fault)
    else
      var next := NextBody(flow, body, c.invocation.id, s.value.call);
      if next.Err? then Err(next.fault) else Ok(Pass(s.value.lines + [Line(depth, Blank)], next.value))
  }

  predicate AllCalls(cs: seq<Candidate>) {
    forall k :: 0 <= k < |cs| ==> cs[k].invocation.Call?
  }

  function ProcessAll(f: Facts, site: Site, depth: nat, typeName: string, flow: Option<DataFlow>, body: Node, cs: seq<Candidate>): Result<Pass>
    requires AllCalls(cs)
    decreases |cs|
  {
    if cs == [] then Ok(Pass([], body))
    else
      var one := ProcessOne(f, site, depth, typeName, flow, body, cs[0]);
      if one.Err? then one
      else
        var rest := ProcessAll(f, site, depth, typeName, flow, one.value.body, cs[1..]);
        if rest.Err? then rest else Ok(Pass(one.value.lines + rest.value.lines, rest.value.body))
  }

  // ---------------------------------------------------------------------------
  // The close of the file (lines 198-213).

  /** The forwarding method at depth d: its head, `{`, the local of the struct
      type, the body without tabs, `}`. */
  function Forwarder(d: nat, isStatic: bool, identifier: string, typeName: string, body: Node): seq<Line> {
    [Line(d, ForwarderHead(isStatic, identifier)), Line(d, OpenBrace), Line(d + 1, LocalLine(typeName)),
     Line(0, BodyText(body)), Line(d, CloseBrace)]
  }

  /** n closing braces from depth d. */
  function Closings(d: nat, n: nat): seq<Line>
    requires n <= d
    decreases n
  {
    if n == 0 then [] else [Line(d - 1, CloseBrace)] + Closings(d - 1, n - 1)
  }

  // ---------------------------------------------------------------------------
  // The whole callback.

  /** The invocation ids that TrackNodes annotates. */
  function CandidateIds(cs: seq<Candidate>): set<nat>
    requires AllCalls(cs)
  {
    set k | 0 <= k < |cs| :: cs[k].invocation.id
  }

  /** The lambda that lines 104 and 113 use for every candidate: the first
      candidate's argument at the first key of its dictionary. */
  function FirstLambda(f: Facts, c: Candidate): (r: Node)
    requires Found(f, c)
    ensures IsLambda(r)
  {
    c.invocation.args[c.found.entries[0].pos]
  }

  /** The data-flow report of a lambda, when there is one. */
  function FlowOf(f: Facts, lambda: Node): Option<DataFlow> {
    if lambda.Lambda? && lambda.id in f.flows then Some(f.flows[lambda.id]) else None
  }

  /** The lines of the file around the candidates' lines: the opening, and the
      forwarding method and the closing braces at the depth the opening leaves. */
  function FileLines(classes: seq<Decl>, e: Enclosing, candidateLines: seq<Line>, isStatic: bool, identifier: string, typeName: string, body: Node): seq<Line>
    requires AllClasses(classes)
  {
    var depth := NamespaceDepth(e.ns) + |classes|;
    Opening(classes, e) + candidateLines + Forwarder(depth, isStatic, identifier, typeName, body) + Closings(depth, depth)
  }

  predicate AllFound(f: Facts, cs: seq<Candidate>) {
    forall k :: 0 <= k < |cs| ==> Found(f, cs[k])
  }

  /** What the file needs besides the candidates' passes: the namespace and
      usings, the classes of the hierarchy, the struct name, the first
      lambda's data flow, the tracked body and the depth of the opening. */
  datatype Setup = Setup(e: Enclosing, classes: seq<Decl>, typeName: string, flow: Option<DataFlow>, body: Node, depth: nat)

  /** Lines 48-106: the hierarchy (an empty one fails on its last element), the
      enclosing namespace, the struct name and the tracked body (no block body
      fails at `Body!`). */
  function SetupOf(f: Facts, d: MethodDecl, cs: seq<Candidate>): (r: Result<Setup>)
    requires cs != [] && AllFound(f, cs)
    ensures r.Ok? ==> AllClasses(r.value.classes) && r.value.depth == NamespaceDepth(r.value.e.ns) + |r.value.classes|
  {
    var h := ClassPositions(d.chain);
    if h == [] then Err(IndexOutOfRange)
    else
      var e := EnclosingOf(d.chain, h[|h| - 1]);
      var lambda := FirstLambda(f, cs[0]);
      if d.body.None? then Err(NullReference)
      else Ok(Setup(e, ClassesAt(d.chain, h), TypeName(d.identifier, d.start, lambda.span), FlowOf(f, lambda),
                    Track(d.body.value, CandidateIds(cs)), NamespaceDepth(e.ns) + |h|))
  }

  /** Lines 108-216: the candidates' passes, then the file named after the hierarchy. */
  function Finish(f: Facts, d: MethodDecl, cs: seq<Candidate>, st: Setup): Result<SourceFile>
    requires AllCalls(cs) && AllClasses(st.classes)
  {
    var p := ProcessAll(f, Site(d.identifier, d.start), st.depth, st.typeName, st.flow, st.body, cs);
    if p.Err? then Err(p.fault)
    else Ok(SourceFile(HintName(st.e.ns, st.classes, d.identifier),
                       FileLines(st.classes, st.e, p.value.lines, d.isStatic, d.identifier, st.typeName, p.value.body)))
  }

  /** The file of a method with candidates. */
  function EmitFile(f: Facts, d: MethodDecl, cs: seq<Candidate>): Result<SourceFile>
    requires cs != [] && AllFound(f, cs)
  {
    var st := SetupOf(f, d, cs);
    if st.Err? then Err(st.fault) else Finish(f, d, cs, st.value)
  }

  /** The callback: Ok(None) when no file is added. */
  function Emit(f: Facts, d: MethodDecl): Result<Option<SourceFile>> {
    var cs := Candidates(f, MethodCalls(d));
    if cs.Err? then Err(cs.fault)
    else if cs.value == [] then Ok(None)
    else
      var file := EmitFile(f, d, cs.value);
      if file.Err? then Err(file.fault) else Ok(Some(file.value))
  }

  // ---------------------------------------------------------------------------
  // The imperative callback.

  /** The loop over the hierarchy, from the outermost class inwards. */
  method WriteClassHeads(w: Writer, chain: seq<Decl>, h: seq<nat>)
    requires forall k :: 0 <= k < |h| ==> h[k] < |chain| && chain[h[k]].ClassDecl?
    modifies w
    ensures AllClasses(ClassesAt(chain, h))
    ensures w.lines == old(w.lines) + ClassLines(ClassesAt(chain, h), old(w.indent))
    ensures w.indent == old(w.indent) + |h|
  {
    var classes := ClassesAt(chain, h);
    var j := |h| - 1;
    assert classes[..j + 1] == classes;
    assert old(w.lines) + [] == old(w.lines);
    while j >= 0
      invariant -1 <= j < |h|
      invariant w.indent == old(w.indent) + (|h| - 1 - j)
      invariant w.lines + ClassLines(classes[..j + 1], w.indent) == old(w.lines) + ClassLines(classes, old(w.indent))
    {
      WriteClassHead(w, classes, j);
      j := j - 1;
    }
    assert classes[..0] == [];
    assert w.lines + [] == w.lines;
  }

  /** One class of the hierarchy, the j-th from the innermost. */
  method WriteClassHead(w: Writer, classes: seq<Decl>, j: nat)
    requires AllClasses(classes) && j < |classes|
    modifies w
    ensures w.indent == old(w.indent) + 1
    ensures w.lines + ClassLines(classes[..j], w.indent) == old(w.lines) + ClassLines(classes[..j + 1], old(w.indent))
  {
    var c := classes[j];
    ghost var before := w.lines;
    ghost var d := w.indent;
    assert classes[..j + 1][..j] == classes[..j];
    assert ClassLines(classes[..j + 1], d)
        == [Line(d, ClassHead(c.name, c.typeParamList)), Line(d, OpenBrace)] + ClassLines(classes[..j], d + 1);
    w.WriteLine(ClassHead(c.name, c.typeParamList));
    w.Open();
    assert w.lines + ClassLines(classes[..j], w.indent)
        == before + ([Line(d, ClassHead(c.name, c.typeParamList)), Line(d, OpenBrace)] + ClassLines(classes[..j], d + 1));
  }

  /** The lines before the candidates, written on a new writer. */
  method WriteOpening(w: Writer, chain: seq<Decl>, h: seq<nat>, e: Enclosing)
    requires forall k :: 0 <= k < |h| ==> h[k] < |chain| && chain[h[k]].ClassDecl?
    requires w.lines == Preamble && w.indent == 0
    modifies w
    ensures AllClasses(ClassesAt(chain, h))
    ensures w.lines == Opening(ClassesAt(chain, h), e)
    ensures w.indent == NamespaceDepth(e.ns) + |h|
  {
    if e.reachedUnit {
      w.WriteLine(Usings);
      w.WriteLine(Blank);
    }
    assert w.lines == Preamble + UsingLines(e);
    if e.ns.Some? {
      w.WriteLine(NamespaceHead(e.ns.value));
      w.Open();
    }
    assert w.lines == Preamble + UsingLines(e) + NamespaceLines(e.ns);
    WriteClassHeads(w, chain, h);
  }

  /** The statements of lines 113-193 that reassign the method body. */
  method RewriteBody(flow: Option<DataFlow>, body: Node, id: nat, call: Node) returns (r: Result<Node>)
    ensures r == NextBody(flow, body, id, call)
  {
    var current := body;
    if flow.Some? {
      var q := QualifyBody(current, CapturedNames(flow.value.captured));
      if q.Err? {
        return Err(q.fault);
      }
      current := q.value;
    }
    r := PlaceCallIn(flow, current, id, call);
  }

  /** The tracked invocation, when it is still in the body: the inits inserted
      before its statement and the invocation replaced by call. */
  method PlaceCallIn(flow: Option<DataFlow>, body: Node, id: nat, call: Node) returns (r: Result<Node>)
    ensures r == PlaceCall(flow, body, id, call)
  {
    var current := body;
    if HasTracked(current, id) {
      if flow.Some? && InStatement(current, id) {
        var inits := InitStatements(flow.value.flowsIn);
        var ins := InsertBefore(current, id, inits);
        if ins.Err? {
          return Err(ins.fault);
        }
        current := ins.value;
      }
      current := ReplaceTracked(current, id, call);
    }
    return Ok(current);
  }

  /** One iteration of the loop over the candidates. */
  method ProcessCandidate(w: Writer, f: Facts, site: Site, typeName: string, flow: Option<DataFlow>, body: Node, c: Candidate)
    returns (r: Result<Node>, ghost ls: seq<Line>)
    requires c.invocation.Call?
    modifies w
    ensures r.Ok? ==> ProcessOne(f, site, old(w.indent), typeName, flow, body, c) == Ok(Pass(ls, r.value))
    ensures r.Err? ==> ProcessOne(f, site, old(w.indent), typeName, flow, body, c) == Err(r.fault)
    ensures r.Ok? ==> w.lines == old(w.lines) + ls && w.indent == old(w.indent)
  {
    ghost var i := w.indent;
    ghost var before := w.lines;
    ghost var spec := GenerateSpec(f, site, i, c.invocation, c.found.candidate, c.found.entries, typeName);
    var call := GenerateFunctionalInterfaces(w, f, site, c.invocation, c.found.candidate, c.found.entries, typeName);
    if call.Err? {
      return Err(call.fault), [];
    }
    var current := RewriteBody(flow, body, c.invocation.id, call.value);
    if current.Err? {
      return Err(current.fault), [];
    }
    w.WriteLine(Blank);
    ls := spec.value.lines + [Line(i, Blank)];
    AppendAssoc(before, spec.value.lines, [Line(i, Blank)]);
    return Ok(current.value), ls;
  }

  /** The passes so far, ahead of what the remaining candidates give. */
  function PrependPass(ls: seq<Line>, r: Result<Pass>): Result<Pass> {
    if r.Ok? then Ok(Pass(ls + r.value.lines, r.value.body)) else r
  }

  lemma ProcessStep(f: Facts, site: Site, depth: nat, typeName: string, flow: Option<DataFlow>, body: Node, cs: seq<Candidate>, k: nat)
    requires AllCalls(cs) && k < |cs|
    ensures AllCalls(cs[k..]) && AllCalls(cs[k + 1..])
    ensures var one := ProcessOne(f, site, depth, typeName, flow, body, cs[k]);
      ProcessAll(f, site, depth, typeName, flow, body, cs[k..])
      == (if one.Ok? then PrependPass(one.value.lines, ProcessAll(f, site, depth, typeName, flow, one.value.body, cs[k + 1..]))
          else Err(one.fault))
  {
    assert cs[k..][1..] == cs[k + 1..];
  }

  lemma PrependPassTwice(a: seq<Line>, b: seq<Line>, r: Result<Pass>)
    ensures PrependPass(a, PrependPass(b, r)) == PrependPass(a + b, r)
  {
    if r.Ok? {
      assert a + (b + r.value.lines) == a + b + r.value.lines;
    }
  }

  lemma PrependPassNothing(r: Result<Pass>)
    ensures PrependPass([], r) == r
  {
    if r.Ok? {
      assert [] + r.value.lines == r.value.lines;
    }
  }

  /** The loop over the candidates. */
  method ProcessCandidates(w: Writer, f: Facts, site: Site, typeName: string, flow: Option<DataFlow>, body: Node, cs: seq<Candidate>)
    returns (r: Result<Node>, ghost written: seq<Line>)
    requires AllCalls(cs)
    modifies w
    ensures r.Ok? ==> ProcessAll(f, site, old(w.indent), typeName, flow, body, cs) == Ok(Pass(written, r.value))
    ensures r.Err? ==> ProcessAll(f, site, old(w.indent), typeName, flow, body, cs) == Err(r.fault)
    ensures r.Ok? ==> w.lines == old(w.lines) + written && w.indent == old(w.indent)
  {
    ghost var i := w.indent;
    ghost var whole := ProcessAll(f, site, i, typeName, flow, body, cs);
    written := [];
    var current := body;
    var k := 0;
    assert cs[0..] == cs;
    PrependPassNothing(whole);
    while k < |cs|
      invariant 0 <= k <= |cs| && w.indent == i
      invariant AllCalls(cs[k..])
      invariant w.lines == old(w.lines) + written
      invariant whole == PrependPass(written, ProcessAll(f, site, i, typeName, flow, current, cs[k..]))
    {
      var one;
      one, written := ProcessNext(w, f, site, typeName, flow, current, cs, k, old(w.lines), written);
      if one.Err? {
        return Err(one.fault), written;
      }
      current := one.value;
      k := k + 1;
    }
    assert cs[k..] == [];
    assert written + [] == written;
    return Ok(current), written;
  }

  /** One iteration of the loop over the candidates: the k-th pass, after the
      lines written so far. */
  method ProcessNext(w: Writer, f: Facts, site: Site, typeName: string, flow: Option<DataFlow>, current: Node, cs: seq<Candidate>, k: nat,
                     ghost base: seq<Line>, ghost written: seq<Line>)
    returns (r: Result<Node>, ghost written': seq<Line>)
    requires AllCalls(cs) && k < |cs| && w.lines == base + written
    modifies w
    ensures AllCalls(cs[k + 1..])
    ensures var before := PrependPass(written, ProcessAll(f, site, old(w.indent), typeName, flow, current, cs[k..]));
      (r.Err? ==> before == Err(r.fault))
      && (r.Ok? ==> before == PrependPass(written', ProcessAll(f, site, old(w.indent), typeName, flow, r.value, cs[k + 1..])))
    ensures r.Ok? ==> w.lines == base + written' && w.indent == old(w.indent)
  {
    ghost var i := w.indent;
    var one, ls := ProcessCandidate(w, f, site, typeName, flow, current, cs[k]);
    ProcessStep(f, site, i, typeName, flow, current, cs, k);
    if one.Err? {
      return Err(one.fault), written;
    }
    PrependPassTwice(written, ls, ProcessAll(f, site, i, typeName, flow, one.value, cs[k + 1..]));
    AppendAssoc(base, written, ls);
    return Ok(one.value), written + ls;
  }

  /** The forwarding method (lines 198-207). */
  method WriteForwarder(w: Writer, isStatic: bool, identifier: string, typeName: string, body: Node)
    modifies w
    ensures w.lines == old(w.lines) + Forwarder(old(w.indent), isStatic, identifier, typeName, body)
    ensures w.indent == old(w.indent)
  {
    w.WriteLine(ForwarderHead(isStatic, identifier));
    w.Open();
    w.WriteLine(LocalLine(typeName));
    w.WriteLineNoTabs(BodyText(body));
    w.Close();
  }

  /** The closing loop (lines 209-213): one brace per class and one for the
      namespace, when there is one. */
  method WriteClosings(w: Writer, classCount: nat, hasNamespace: bool)
    requires w.indent >= classCount + (if hasNamespace then 1 else 0)
    modifies w
    ensures var n := classCount + (if hasNamespace then 1 else 0);
      w.lines == old(w.lines) + Closings(old(w.indent), n) && w.indent == old(w.indent) - n
  {
    ghost var n := classCount + (if hasNamespace then 1 else 0);
    var j := if hasNamespace then -1 else 0;
    assert old(w.lines) + Closings(old(w.indent), n) == old(w.lines) + Closings(old(w.indent), n);
    while j < classCount
      invariant (if hasNamespace then -1 else 0) <= j <= classCount
      invariant w.indent == old(w.indent) - (j - (if hasNamespace then -1 else 0))
      invariant w.lines + Closings(w.indent, classCount - j) == old(w.lines) + Closings(old(w.indent), n)
    {
      ghost var before := w.lines;
      ghost var d := w.indent;
      w.Close();
      assert w.lines + Closings(w.indent, classCount - j - 1) == before + ([Line(d - 1, CloseBrace)] + Closings(d - 1, classCount - j - 1));
      j := j + 1;
    }
    assert w.lines + [] == w.lines;
  }

  /** The forwarding method and the closing braces. */
  method WriteClose(w: Writer, classCount: nat, hasNamespace: bool, isStatic: bool, identifier: string, typeName: string, body: Node)
    requires w.indent == classCount + (if hasNamespace then 1 else 0)
    modifies w
    ensures w.lines == old(w.lines) + (Forwarder(old(w.indent), isStatic, identifier, typeName, body) + Closings(old(w.indent), old(w.indent)))
  {
    ghost var before := w.lines;
    WriteForwarder(w, isStatic, identifier, typeName, body);
    WriteClosings(w, classCount, hasNamespace);
    AppendAssoc(before, Forwarder(old(w.indent), isStatic, identifier, typeName, body), Closings(old(w.indent), old(w.indent)));
  }

  /** Lines 50-56: a new writer holding the preamble. */
  method WritePreamble() returns (w: Writer)
    ensures fresh(w) && w.lines == Preamble && w.indent == 0
  {
    w := new Writer();
    w.WriteLine(AutoGenerated);
    w.WriteLine(NullableEnable);
    w.WriteLine(PragmaDisable);
    w.WriteLine(Blank);
  }

  lemma FoundCalls(f: Facts, cs: seq<Candidate>)
    requires AllFound(f, cs)
    ensures AllCalls(cs)
  {
    forall k | 0 <= k < |cs|
      ensures cs[k].invocation.Call?
    {
      assert Found(f, cs[k]);
    }
  }

  /** The file of a method with candidates, written on a new writer. */
  method WriteFile(f: Facts, d: MethodDecl, cs: seq<Candidate>) returns (r: Result<SourceFile>)
    requires cs != [] && AllFound(f, cs)
    ensures r == EmitFile(f, d, cs)
  {
    var w := WritePreamble();
    var h := GetHierarchy(d.chain);
    if |h| == 0 {
      return Err(IndexOutOfRange);
    }
    var e := FindNamespace(d.chain, h[|h| - 1]);
    WriteOpening(w, d.chain, h, e);
    var lambda := FirstLambda(f, cs[0]);
    var typeName := TypeName(d.identifier, d.start, lambda.span);
    if d.body.None? {
      return Err(NullReference);
    }
    var st := Setup(e, ClassesAt(d.chain, h), typeName, FlowOf(f, lambda), Track(d.body.value, CandidateIds(cs)), NamespaceDepth(e.ns) + |h|);
    SetupIs(f, d, cs, h, e);
    EmitFileIs(f, d, cs, st);
    FoundCalls(f, cs);
    assert w.lines == Opening(st.classes, st.e) && w.indent == st.depth;
    r := WriteCandidatesAndClose(w, f, d, cs, st, h);
  }

  /** Lines 108-216 on the writer the opening was written to. */
  method WriteCandidatesAndClose(w: Writer, f: Facts, d: MethodDecl, cs: seq<Candidate>, st: Setup, h: seq<nat>) returns (r: Result<SourceFile>)
    requires AllCalls(cs) && AllClasses(st.classes)
    requires forall k :: 0 <= k < |h| ==> h[k] < |d.chain|
    requires st.classes == ClassesAt(d.chain, h) && st.depth == NamespaceDepth(st.e.ns) + |h|
    requires w.lines == Opening(st.classes, st.e) && w.indent == st.depth
    modifies w
    ensures r == Finish(f, d, cs, st)
  {
    var p, written := ProcessCandidates(w, f, Site(d.identifier, d.start), st.typeName, st.flow, st.body, cs);
    if p.Err? {
      FinishErr(f, d, cs, st, p.fault);
      return Err(p.fault);
    }
    var file := WriteTail(w, d, st, h, written, p.value);
    FinishIs(f, d, cs, st, written, p.value);
    r := Ok(file);
  }

  /** Lines 198-216: the forwarding method, the closing braces and the hint name,
      after the candidates' lines. */
  method WriteTail(w: Writer, d: MethodDecl, st: Setup, h: seq<nat>, ghost written: seq<Line>, body: Node) returns (file: SourceFile)
    requires AllClasses(st.classes)
    requires forall k :: 0 <= k < |h| ==> h[k] < |d.chain|
    requires st.classes == ClassesAt(d.chain, h) && st.depth == NamespaceDepth(st.e.ns) + |h|
    requires w.lines == Opening(st.classes, st.e) + written && w.indent == st.depth
    modifies w
    ensures file == SourceFile(HintName(st.e.ns, st.classes, d.identifier), FileLines(st.classes, st.e, written, d.isStatic, d.identifier, st.typeName, body))
  {
    WriteClose(w, |h|, st.e.ns.Some?, d.isStatic, d.identifier, st.typeName, body);
    var hintName := BuildHintName(st.e.ns, d.chain, h, d.identifier);
    FileLinesAre(st.classes, st.e, Opening(st.classes, st.e), written, d.isStatic, d.identifier, st.typeName, body);
    file := SourceFile(hintName, w.lines);
  }

  lemma EmitFileIs(f: Facts, d: MethodDecl, cs: seq<Candidate>, st: Setup)
    requires cs != [] && AllFound(f, cs)
    requires SetupOf(f, d, cs) == Ok(st)
    ensures EmitFile(f, d, cs) == Finish(f, d, cs, st)
  {
  }

  lemma FinishErr(f: Facts, d: MethodDecl, cs: seq<Candidate>, st: Setup, fault: Fault)
    requires AllCalls(cs) && AllClasses(st.classes)
    requires ProcessAll(f, Site(d.identifier, d.start), st.depth, st.typeName, st.flow, st.body, cs) == Err(fault)
    ensures Finish(f, d, cs, st) == Err(fault)
  {
  }

  lemma SetupIs(f: Facts, d: MethodDecl, cs: seq<Candidate>, h: seq<nat>, e: Enclosing)
    requires cs != [] && AllFound(f, cs)
    requires h == ClassPositions(d.chain) && h != [] && e == EnclosingOf(d.chain, h[|h| - 1])
    requires d.body.Some?
    ensures var lambda := FirstLambda(f, cs[0]);
      SetupOf(f, d, cs)
      == Ok(Setup(e, ClassesAt(d.chain, h), TypeName(d.identifier, d.start, lambda.span), FlowOf(f, lambda),
                  Track(d.body.value, CandidateIds(cs)), NamespaceDepth(e.ns) + |h|))
  {
    var lambda := FirstLambda(f, cs[0]);
    var st := Setup(e, ClassesAt(d.chain, h), TypeName(d.identifier, d.start, lambda.span), FlowOf(f, lambda),
                  Track(d.body.value, CandidateIds(cs)), NamespaceDepth(e.ns) + |h|);
    assert SetupOf(f, d, cs).Ok?;
    assert SetupOf(f, d, cs).value.e == e;
    assert SetupOf(f, d, cs).value.classes == st.classes;
    assert SetupOf(f, d, cs).value.typeName == st.typeName;
    assert SetupOf(f, d, cs).value.flow == st.flow;
    assert SetupOf(f, d, cs).value.body == st.body;
    assert SetupOf(f, d, cs).value.depth == st.depth;
  }

  lemma FinishIs(f: Facts, d: MethodDecl, cs: seq<Candidate>, st: Setup, ls: seq<Line>, b: Node)
    requires AllCalls(cs) && AllClasses(st.classes)
    requires ProcessAll(f, Site(d.identifier, d.start), st.depth, st.typeName, st.flow, st.body, cs) == Ok(Pass(ls, b))
    ensures Finish(f, d, cs, st)
      == Ok(SourceFile(HintName(st.e.ns, st.classes, d.identifier), FileLines(st.classes, st.e, ls, d.isStatic, d.identifier, st.typeName, b)))
  {
  }

  lemma FileLinesAre(classes: seq<Decl>, e: Enclosing, opening: seq<Line>, ls: seq<Line>, isStatic: bool, identifier: string, typeName: string, body: Node)
    requires AllClasses(classes) && opening == Opening(classes, e)
    ensures var depth := NamespaceDepth(e.ns) + |classes|;
      opening + ls + (Forwarder(depth, isStatic, identifier, typeName, body) + Closings(depth, depth))
      == FileLines(classes, e, ls, isStatic, identifier, typeName, body)
  {
    var depth := NamespaceDepth(e.ns) + |classes|;
    AppendAssoc(opening + ls, Forwarder(depth, isStatic, identifier, typeName, body), Closings(depth, depth));
  }

  /** The output callback for one method declaration. */
  method Generate(f: Facts, d: MethodDecl) returns (r: Result<Option<SourceFile>>)
    ensures r == Emit(f, d)
  {
    var found := CollectCandidates(f, MethodCalls(d));
    if found.Err? {
      return Err(found.fault);
    }
    var cs := found.value;
    if cs == [] {
      return Ok(None);
    }
    var file := WriteFile(f, d, cs);
    if file.Err? {
      return Err(file.fault);
    }
    return Ok(Some(file.value));
  }

  // ---------------------------------------------------------------------------
  // Every brace the file opens is closed, at the indentation it was opened at.

  /** Lines that are not braces and sit at depth d leave the depth as it is. */
  lemma {:induction false} FlatNested(d: nat, ls: seq<Line>)
    requires forall k :: 0 <= k < |ls| ==> ls[k].tabs == d && !ls[k].item.OpenBrace? && !ls[k].item.CloseBrace? && !ls[k].item.BodyText?
    ensures Nested(d, ls) && DepthAfter(d, ls) == d
    decreases |ls|
  {
    if ls != [] {
      FlatNested(d, ls[1..]);
    }
  }

  /** A head line and its opening brace take the depth one level deeper. */
  lemma Opened(d: nat, head: Item)
    requires !head.OpenBrace? && !head.CloseBrace? && !head.BodyText?
    ensures Nested(d, [Line(d, head), Line(d, OpenBrace)]) && DepthAfter(d, [Line(d, head), Line(d, OpenBrace)]) == d + 1
  {
    var ls := [Line(d, head), Line(d, OpenBrace)];
    assert ls[1..] == [Line(d, OpenBrace)] && ls[1..][1..] == [];
    assert DepthAfter(d, ls[1..]) == DepthAfter(d + 1, []) == d + 1;
  }

  /** The class heads open one level per class. */
  lemma {:induction false} ClassLinesNested(classes: seq<Decl>, d: nat)
    requires AllClasses(classes)
    ensures Nested(d, ClassLines(classes, d)) && DepthAfter(d, ClassLines(classes, d)) == d + |classes|
    decreases |classes|
  {
    if classes != [] {
      var c := classes[|classes| - 1];
      Opened(d, ClassHead(c.name, c.typeParamList));
      ClassLinesNested(classes[..|classes| - 1], d + 1);
      NestedAppend(d, [Line(d, ClassHead(c.name, c.typeParamList)), Line(d, OpenBrace)], ClassLines(classes[..|classes| - 1], d + 1));
    }
  }

  /** The opening leaves one brace open for the namespace and one per class. */
  lemma OpeningNested(classes: seq<Decl>, e: Enclosing)
    requires AllClasses(classes)
    ensures Nested(0, Opening(classes, e)) && DepthAfter(0, Opening(classes, e)) == NamespaceDepth(e.ns) + |classes|
  {
    var flat := Preamble + UsingLines(e);
    FlatNested(0, flat);
    if e.ns.Some? {
      Opened(0, NamespaceHead(e.ns.value));
    } else {
      assert NamespaceLines(e.ns) == [];
    }
    NestedAppend(0, flat, NamespaceLines(e.ns));
    ClassLinesNested(classes, NamespaceDepth(e.ns));
    NestedAppend(0, flat + NamespaceLines(e.ns), ClassLines(classes, NamespaceDepth(e.ns)));
  }

  /** The structs and blank lines of the candidates keep the depth they start at. */
  lemma {:induction false} ProcessAllNested(f: Facts, site: Site, depth: nat, typeName: string, flow: Option<DataFlow>, body: Node, cs: seq<Candidate>)
    requires AllCalls(cs) && ProcessAll(f, site, depth, typeName, flow, body, cs).Ok?
    ensures var ls := ProcessAll(f, site, depth, typeName, flow, body, cs).value.lines;
      Nested(depth, ls) && DepthAfter(depth, ls) == depth
    decreases |cs|
  {
    if cs != [] {
      var c := cs[0];
      var s := GenerateSpec(f, site, depth, c.invocation, c.found.candidate, c.found.entries, typeName).value;
      var em := EmitEntries(f, site, depth, c.invocation, c.found.candidate, typeName, c.found.entries, "").value;
      EmitEntriesNested(f, site, depth, c.invocation, c.found.candidate, typeName, c.found.entries, "");
      assert s.lines == em.lines;
      OneLine(depth, Line(depth, Blank));
      NestedAppend(depth, s.lines, [Line(depth, Blank)]);
      var one := ProcessOne(f, site, depth, typeName, flow, body, c).value;
      ProcessAllNested(f, site, depth, typeName, flow, one.body, cs[1..]);
      NestedAppend(depth, one.lines, ProcessAll(f, site, depth, typeName, flow, one.body, cs[1..]).value.lines);
    }
  }

  /** The forwarding method's braces balance. */
  lemma ForwarderNested(d: nat, isStatic: bool, identifier: string, typeName: string, body: Node)
    ensures Nested(d, Forwarder(d, isStatic, identifier, typeName, body))
    ensures DepthAfter(d, Forwarder(d, isStatic, identifier, typeName, body)) == d
  {
    var head := [Line(d, ForwarderHead(isStatic, identifier))];
    var inner := [Line(d + 1, LocalLine(typeName)), Line(0, BodyText(body))];
    OneLine(d, head[0]);
    OneLine(d + 1, inner[0]);
    OneLine(d + 1, inner[1]);
    NestedAppend(d + 1, [inner[0]], [inner[1]]);
    assert [inner[0]] + [inner[1]] == inner;
    Braced(d, head, inner);
    assert Forwarder(d, isStatic, identifier, typeName, body) == head + [Line(d, OpenBrace)] + inner + [Line(d, CloseBrace)];
  }

  /** n closing braces from depth d close n levels. */
  lemma {:induction false} ClosingsNested(d: nat, n: nat)
    requires n <= d
    ensures Nested(d, Closings(d, n)) && DepthAfter(d, Closings(d, n)) == d - n
    decreases n
  {
    if n > 0 {
      ClosingsNested(d - 1, n - 1);
      assert Closings(d, n)[1..] == Closings(d - 1, n - 1);
    }
  }

  /** The file's lines balance when the candidates' lines keep the depth the
      opening leaves. */
  lemma FileLinesBalanced(classes: seq<Decl>, e: Enclosing, ls: seq<Line>, isStatic: bool, identifier: string, typeName: string, body: Node)
    requires AllClasses(classes)
    requires var depth := NamespaceDepth(e.ns) + |classes|; Nested(depth, ls) && DepthAfter(depth, ls) == depth
    ensures Balanced(FileLines(classes, e, ls, isStatic, identifier, typeName, body))
  {
    var depth := NamespaceDepth(e.ns) + |classes|;
    var opening := Opening(classes, e);
    var fwd := Forwarder(depth, isStatic, identifier, typeName, body);
    OpeningNested(classes, e);
    ForwarderNested(depth, isStatic, identifier, typeName, body);
    ClosingsNested(depth, depth);
    NestedAppend(0, opening, ls);
    NestedAppend(0, opening + ls, fwd);
    NestedAppend(0, opening + ls + fwd, Closings(depth, depth));
  }

  lemma FinishBalanced(f: Facts, d: MethodDecl, cs: seq<Candidate>, st: Setup)
    requires AllCalls(cs) && AllClasses(st.classes) && st.depth == NamespaceDepth(st.e.ns) + |st.classes|
    requires Finish(f, d, cs, st).Ok?
    ensures Balanced(Finish(f, d, cs, st).value.lines)
  {
    var site := Site(d.identifier, d.start);
    var pr := ProcessAll(f, site, st.depth, st.typeName, st.flow, st.body, cs);
    assert pr.Ok?;
    var p := pr.value;
    FinishIs(f, d, cs, st, p.lines, p.body);
    ProcessAllNested(f, site, st.depth, st.typeName, st.flow, st.body, cs);
    FileLinesBalanced(st.classes, st.e, p.lines, d.isStatic, d.identifier, st.typeName, p.body);
  }

  /** The generated file's braces balance: every namespace, class, struct and
      method it opens is closed again, at the indentation it was opened at. */
  lemma EmitBalanced(f: Facts, d: MethodDecl)
    requires Emit(f, d).Ok? && Emit(f, d).value.Some?
    ensures Balanced(Emit(f, d).value.value.lines)
  {
    var cs := Candidates(f, MethodCalls(d)).value;
    var st := SetupOf(f, d, cs).value;
    FinishBalanced(f, d, cs, st);
  }
}
