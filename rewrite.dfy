/** Rewriting the method body for a lambda's captured variables: every reference
    to a captured variable goes through the generated value, a local declaration
    of one becomes an assignment to its field, and before the call each variable
    that flows into the lambda is copied into that value. */
module Rewrite {
  import opened Wrappers
  import opened Symbols
  import opened Syntax

  /** The names of the captured variables (the `Any(i => i.Name == ...)` test). */
  function CapturedNames(vs: seq<VarSym>): (r: set<string>)
    ensures forall x :: x in r <==> exists k :: 0 <= k < |vs| && vs[k].name == x
  {
    set k | 0 <= k < |vs| :: vs[k].name
  }

  /** The children of n are the two sides of `__functionalInterface.x`. */
  predicate UnderField(n: Node) {
    n.Member? && n.target == Ident(FunctionalInterface)
  }

  /** A local declaration statement with exactly one declared variable, captured. */
  predicate CapturedDeclaration(m: Node, capt: set<string>) {
    m.LocalDecl? && |m.vars| == 1 && m.vars[0].Declarator? && m.vars[0].varName in capt
  }

  /** The replacement callback of lines 117-146, bottom-up: `modified` is n with its
      children already rewritten, and the parent test looks at the original
      parent, passed down as underField. A qualified name in the simple-name slot
      of a member access, or in the type slot of a declaration, makes the cast
      that rebuilds the parent fail. */
  function Qualify(n: Node, capt: set<string>, underField: bool): (r: Result<Node>)
    decreases Size(n), 0
  {
    var ks :- QualifyAll(Kids(n), capt, UnderField(n));
    var m := WithKids(n, ks);
    if m.Member? && n.memberName.Ident? && m.memberName.Member? then Err(InvalidCast)
    else if m.LocalDecl? && n.declType.Ident? && m.declType.Member? then Err(InvalidCast)
    else if CapturedDeclaration(m, capt) then
      match m.vars[0].init
      case None => Err(NullReference)
      case Some(v) => Ok(ExprStmt(Assign(FieldAccess(m.vars[0].varName), v)))
    else if n.Ident? && !underField && n.name in capt then Ok(FieldAccess(n.name))
    else Ok(m)
  }

  function QualifyAll(ks: seq<Node>, capt: set<string>, underField: bool): (r: Result<seq<Node>>)
    ensures r.Ok? ==> |r.value| == |ks|
    decreases SizeAll(ks), 1
  {
    if ks == [] then Ok([])
    else
      var h :- Qualify(ks[0], capt, underField);
      var t :- QualifyAll(ks[1..], capt, underField);
      Ok([h] + t)
  }

  /** ReplaceNodes over the body's descendants: the root itself is not rewritten. */
  function QualifyBody(body: Node, capt: set<string>): Result<Node> {
    var ks :- QualifyAll(Kids(body), capt, UnderField(body));
    Ok(WithKids(body, ks))
  }

  /** Nothing left to rewrite: no reference to a captured variable outside
      `__functionalInterface.`, and no declaration of a sole captured local. */
  predicate Settled(n: Node, capt: set<string>, underField: bool)
    decreases Size(n), 0
  {
    AllSettled(Kids(n), capt, UnderField(n))
    && !(n.Ident? && !underField && n.name in capt)
    && !CapturedDeclaration(n, capt)
  }

  predicate AllSettled(ks: seq<Node>, capt: set<string>, underField: bool)
    decreases SizeAll(ks), 1
  {
    ks != [] ==> Settled(ks[0], capt, underField) && AllSettled(ks[1..], capt, underField)
  }

  lemma AllSettledAt(ks: seq<Node>, capt: set<string>, u: bool, k: nat)
    requires AllSettled(ks, capt, u) && k < |ks|
    ensures Settled(ks[k], capt, u)
    decreases k
  {
    if k > 0 {
      AllSettledAt(ks[1..], capt, u, k - 1);
    }
  }

  /** A settled tree is left as it is. */
  lemma {:induction false} SettledFixed(n: Node, capt: set<string>, u: bool)
    requires Settled(n, capt, u)
    ensures Qualify(n, capt, u) == Ok(n)
    decreases Size(n), 0
  {
    AllSettledFixed(Kids(n), capt, UnderField(n));
  }

  lemma {:induction false} AllSettledFixed(ks: seq<Node>, capt: set<string>, u: bool)
    requires AllSettled(ks, capt, u)
    ensures QualifyAll(ks, capt, u) == Ok(ks)
    decreases SizeAll(ks), 1
  {
    if ks != [] {
      SettledFixed(ks[0], capt, u);
      AllSettledFixed(ks[1..], capt, u);
      assert [ks[0]] + ks[1..] == ks;
    }
  }

  /** Only an identifier rewrites to an identifier, and to itself. */
  lemma QualifyIdent(n: Node, capt: set<string>, u: bool)
    requires Qualify(n, capt, u).Ok? && Qualify(n, capt, u).value.Ident?
    ensures Qualify(n, capt, u).value == n
  {
    var ks := QualifyAll(Kids(n), capt, UnderField(n)).value;
    var m := WithKids(n, ks);
    assert SameShape(n, m);
  }

  /** What Qualify leaves is settled. */
  lemma {:induction false} QualifySettles(n: Node, capt: set<string>, u: bool)
    requires Qualify(n, capt, u).Ok?
    ensures Settled(Qualify(n, capt, u).value, capt, u)
    decreases Size(n), 0
  {
    var ks := QualifyAll(Kids(n), capt, UnderField(n)).value;
    QualifyAllSettles(Kids(n), capt, UnderField(n));
    var m := WithKids(n, ks);
    if CapturedDeclaration(m, capt) {
      DeclarationSettled(m, capt, u);
    } else if n.Ident? && !u && n.name in capt {
      FieldAccessSettled(n.name, capt, u);
    } else {
      KeptSettled(n, capt, u);
    }
  }

  /** The assignment that replaces a captured declaration is settled. */
  lemma DeclarationSettled(m: Node, capt: set<string>, u: bool)
    requires CapturedDeclaration(m, capt) && m.vars[0].init.Some?
    requires AllSettled(Kids(m), capt, false)
    ensures Settled(ExprStmt(Assign(FieldAccess(m.vars[0].varName), m.vars[0].init.value)), capt, u)
  {
    // the initializer sits below the declarator, which is settled
    AllSettledAt(Kids(m), capt, false, 1);
    assert Kids(m)[1] == m.vars[0];
    var v := m.vars[0].init.value;
    assert Kids(m.vars[0]) == [v];
    assert Settled(v, capt, false);
    var fa := FieldAccess(m.vars[0].varName);
    FieldAccessSettled(m.vars[0].varName, capt, false);
    assert [fa, v][1..] == [v] && [v][1..] == [];
    assert !CapturedDeclaration(Assign(fa, v), capt) && Kids(Assign(fa, v)) == [fa, v];
    assert Settled(Assign(fa, v), capt, false);
    assert !CapturedDeclaration(ExprStmt(Assign(fa, v)), capt);
  }

  /** A node Qualify rebuilds from its rewritten children is settled. */
  lemma KeptSettled(n: Node, capt: set<string>, u: bool)
    requires Qualify(n, capt, u).Ok?
    requires QualifyAll(Kids(n), capt, UnderField(n)).Ok?
    requires AllSettled(QualifyAll(Kids(n), capt, UnderField(n)).value, capt, UnderField(n))
    requires !CapturedDeclaration(WithKids(n, QualifyAll(Kids(n), capt, UnderField(n)).value), capt)
    requires !(n.Ident? && !u && n.name in capt)
    ensures Settled(Qualify(n, capt, u).value, capt, u)
  {
    var ks := QualifyAll(Kids(n), capt, UnderField(n)).value;
    var m := WithKids(n, ks);
    assert Qualify(n, capt, u).value == m;
    if n.Member? {
      // the left side is `__functionalInterface` after the rewrite exactly when it was before
      assert ks[0] == m.target;
      QualifyAllHead(Kids(n), capt, UnderField(n));
      if m.target.Ident? {
        QualifyIdent(n.target, capt, UnderField(n));
      }
      assert UnderField(m) == UnderField(n);
    }
  }

  lemma FieldAccessSettled(x: string, capt: set<string>, u: bool)
    ensures Settled(FieldAccess(x), capt, u)
  {
    var fa := FieldAccess(x);
    assert Kids(fa) == [Ident(FunctionalInterface), Ident(x)];
    assert Kids(fa)[1..] == [Ident(x)] && Kids(fa)[1..][1..] == [];
    assert !CapturedDeclaration(Ident(x), capt) && Kids(Ident(x)) == [];
    assert Settled(Ident(x), capt, true);
    assert !CapturedDeclaration(Ident(FunctionalInterface), capt) && Kids(Ident(FunctionalInterface)) == [];
    assert Settled(Ident(FunctionalInterface), capt, true);
    assert AllSettled(Kids(fa)[1..], capt, true);
    assert !CapturedDeclaration(fa, capt);
  }

  lemma QualifyAllHead(ks: seq<Node>, capt: set<string>, u: bool)
    requires ks != [] && QualifyAll(ks, capt, u).Ok?
    ensures Qualify(ks[0], capt, u).Ok? && QualifyAll(ks, capt, u).value[0] == Qualify(ks[0], capt, u).value
  {
  }

  lemma {:induction false} QualifyAllSettles(ks: seq<Node>, capt: set<string>, u: bool)
    requires QualifyAll(ks, capt, u).Ok?
    ensures AllSettled(QualifyAll(ks, capt, u).value, capt, u)
    decreases SizeAll(ks), 1
  {
    if ks != [] {
      QualifySettles(ks[0], capt, u);
      QualifyAllSettles(ks[1..], capt, u);
      var r := QualifyAll(ks, capt, u).value;
      assert r[0] == Qualify(ks[0], capt, u).value;
      assert r[1..] == QualifyAll(ks[1..], capt, u).value;
    }
  }

  /** Qualifying twice is qualifying once: the rewrite repeated for each later
      candidate changes nothing it already rewrote. */
  lemma QualifyIdempotent(n: Node, capt: set<string>, u: bool)
    requires Qualify(n, capt, u).Ok?
    ensures Qualify(Qualify(n, capt, u).value, capt, u) == Qualify(n, capt, u)
  {
    QualifySettles(n, capt, u);
    SettledFixed(Qualify(n, capt, u).value, capt, u);
  }

  lemma QualifyBodyIdempotent(body: Node, capt: set<string>)
    requires QualifyBody(body, capt).Ok?
    ensures QualifyBody(QualifyBody(body, capt).value, capt) == QualifyBody(body, capt)
  {
    var ks := QualifyAll(Kids(body), capt, UnderField(body)).value;
    QualifyAllSettles(Kids(body), capt, UnderField(body));
    var b := WithKids(body, ks);
    if body.Member? {
      QualifyAllHead(Kids(body), capt, UnderField(body));
      if b.target.Ident? {
        QualifyIdent(body.target, capt, UnderField(body));
      }
      assert UnderField(b) == UnderField(body);
    }
    AllSettledFixed(ks, capt, UnderField(b));
  }

  // ---------------------------------------------------------------------------
  // The copies inserted before the call (lines 151-189).

  /** `__functionalInterface._this = this;` */
  function ThisInit(): Node {
    ExprStmt(Assign(FieldAccess("_this"), This))
  }

  /** `__functionalInterface.x = x;` */
  function CopyInit(name: string): Node {
    ExprStmt(Assign(FieldAccess(name), Ident(name)))
  }

  /** `__functionalInterface.x = __functionalInterface.x;` */
  function SelfCopy(name: string): Node {
    ExprStmt(Assign(FieldAccess(name), FieldAccess(name)))
  }

  /** A later candidate's pass qualifies the body again, the copies an earlier
      pass inserted included: the right side of a copy of a captured variable
      is a reference to it like any other, so the copy becomes a
      self-assignment of the field. */
  lemma QualifyCopyInit(name: string, capt: set<string>, u: bool)
    requires name in capt
    ensures Qualify(CopyInit(name), capt, u) == Ok(SelfCopy(name))
  {
    var fa := FieldAccess(name);
    FieldAccessSettled(name, capt, false);
    SettledFixed(fa, capt, false);
    assert Qualify(Ident(name), capt, false) == Ok(fa);
    QualifyTwo(fa, Ident(name), capt, false);
    var a := Assign(fa, Ident(name));
    assert Kids(a) == [fa, Ident(name)] && !UnderField(a);
    assert Qualify(a, capt, false) == Ok(Assign(fa, fa));
    QualifyOne(a, capt, false);
    assert Kids(CopyInit(name)) == [a] && !UnderField(CopyInit(name));
  }

  lemma QualifyOne(a: Node, capt: set<string>, u: bool)
    requires Qualify(a, capt, u).Ok?
    ensures QualifyAll([a], capt, u) == Ok([Qualify(a, capt, u).value])
  {
    assert [a][1..] == [];
    assert [Qualify(a, capt, u).value] + [] == [Qualify(a, capt, u).value];
  }

  lemma QualifyTwo(a: Node, b: Node, capt: set<string>, u: bool)
    requires Qualify(a, capt, u).Ok? && Qualify(b, capt, u).Ok?
    ensures QualifyAll([a, b], capt, u) == Ok([Qualify(a, capt, u).value, Qualify(b, capt, u).value])
  {
    assert [a, b][1..] == [b];
    QualifyOne(b, capt, u);
    assert [Qualify(a, capt, u).value] + [Qualify(b, capt, u).value] == [Qualify(a, capt, u).value, Qualify(b, capt, u).value];
  }

  lemma {:induction false} QualifyAllAt(ks: seq<Node>, capt: set<string>, u: bool, k: nat)
    requires QualifyAll(ks, capt, u).Ok? && k < |ks|
    ensures Qualify(ks[k], capt, u).Ok? && QualifyAll(ks, capt, u).value[k] == Qualify(ks[k], capt, u).value
    decreases k
  {
    var h := Qualify(ks[0], capt, u);
    var rest := QualifyAll(ks[1..], capt, u);
    assert h.Ok? && rest.Ok? && QualifyAll(ks, capt, u).value == [h.value] + rest.value;
    if k > 0 {
      QualifyAllAt(ks[1..], capt, u, k - 1);
      assert ks[1..][k - 1] == ks[k];
    }
  }

  /** In the method body's own statement list: a copy of a captured variable
      that an earlier pass put there is a self-assignment after the next pass. */
  lemma LaterPassSelfCopy(stmts: seq<Node>, capt: set<string>, k: nat, name: string)
    requires k < |stmts| && stmts[k] == CopyInit(name) && name in capt
    requires QualifyBody(Block(stmts), capt).Ok?
    ensures QualifyBody(Block(stmts), capt).value == Block(QualifyAll(stmts, capt, false).value)
    ensures QualifyAll(stmts, capt, false).value[k] == SelfCopy(name)
  {
    assert Kids(Block(stmts)) == stmts && !UnderField(Block(stmts));
    QualifyAllAt(stmts, capt, false, k);
    QualifyCopyInit(name, capt, false);
  }

  predicate IsThisParameter(v: VarSym) {
    v.kind == Parameter(true)
  }

  /** One copy per declaring reference that is not a variable declarator. */
  function CopiesFor(name: string, decls: seq<DeclKind>): (r: seq<Node>)
    ensures forall s :: s in r ==> s == CopyInit(name)
    ensures |r| > 0 <==> OtherDeclaration in decls
  {
    if decls == [] then []
    else (if decls[0] == VariableDeclarator then [] else [CopyInit(name)]) + CopiesFor(name, decls[1..])
  }

  function InitsFor(v: VarSym): seq<Node> {
    if IsThisParameter(v) then [ThisInit()] else CopiesFor(v.name, v.decls)
  }

  /** The statements, in order, for the variables that flow into the lambda. */
  function InitsOf(vs: seq<VarSym>): seq<Node> {
    if vs == [] then [] else InitsFor(vs[0]) + InitsOf(vs[1..])
  }

  /** Each statement copies one flowing variable, or `this`, and every such
      variable that has a declaration other than a variable declarator is copied. */
  lemma {:induction false} InitsOfMembers(vs: seq<VarSym>, s: Node)
    ensures s in InitsOf(vs) <==>
      exists k :: 0 <= k < |vs| &&
        ((IsThisParameter(vs[k]) && s == ThisInit()) ||
         (!IsThisParameter(vs[k]) && OtherDeclaration in vs[k].decls && s == CopyInit(vs[k].name)))
  {
    if vs != [] {
      InitsOfMembers(vs[1..], s);
      if s in InitsOf(vs) && s !in InitsFor(vs[0]) {
        var k :| 0 <= k < |vs[1..]| &&
          ((IsThisParameter(vs[1..][k]) && s == ThisInit()) ||
           (!IsThisParameter(vs[1..][k]) && OtherDeclaration in vs[1..][k].decls && s == CopyInit(vs[1..][k].name)));
        assert vs[k + 1] == vs[1..][k];
      }
      if !IsThisParameter(vs[0]) && OtherDeclaration in vs[0].decls && s == CopyInit(vs[0].name) {
        var c := CopiesFor(vs[0].name, vs[0].decls);
        assert c[0] in c;
      }
      if exists k :: (0 <= k < |vs| && k > 0 &&
        ((IsThisParameter(vs[k]) && s == ThisInit()) ||
         (!IsThisParameter(vs[k]) && OtherDeclaration in vs[k].decls && s == CopyInit(vs[k].name)))) {
        var k :| 0 <= k < |vs| && k > 0 &&
          ((IsThisParameter(vs[k]) && s == ThisInit()) ||
           (!IsThisParameter(vs[k]) && OtherDeclaration in vs[k].decls && s == CopyInit(vs[k].name)));
        assert vs[1..][k - 1] == vs[k];
      }
    }
  }

  /** The copies from the q-th declaring reference on. */
  lemma CopiesStep(name: string, decls: seq<DeclKind>, q: nat)
    requires q < |decls|
    ensures CopiesFor(name, decls[q..])
      == (if decls[q] == VariableDeclarator then [] else [CopyInit(name)]) + CopiesFor(name, decls[q + 1..])
  {
    assert decls[q..][0] == decls[q];
    assert decls[q..][1..] == decls[q + 1..];
  }

  /** The inits from the k-th variable on. */
  lemma InitsStep(vs: seq<VarSym>, k: nat)
    requires k < |vs|
    ensures InitsOf(vs[k..]) == InitsFor(vs[k]) + InitsOf(vs[k + 1..])
  {
    assert vs[k..][0] == vs[k];
    assert vs[k..][1..] == vs[k + 1..];
  }

  lemma NodesAssoc(a: seq<Node>, b: seq<Node>, c: seq<Node>)
    ensures a + b + c == a + (b + c)
  {
  }

  /** The inner loop over one variable's declaring references. */
  method CopyStatements(name: string, decls: seq<DeclKind>) returns (copies: seq<Node>)
    ensures copies == CopiesFor(name, decls)
  {
    copies := [];
    var q := 0;
    assert decls[q..] == decls;
    while q < |decls|
      invariant 0 <= q <= |decls|
      invariant copies + CopiesFor(name, decls[q..]) == CopiesFor(name, decls)
    {
      CopiesStep(name, decls, q);
      var more: seq<Node> := [];
      if decls[q] != VariableDeclarator {
        more := [CopyInit(name)];
      }
      NodesAssoc(copies, more, CopiesFor(name, decls[q + 1..]));
      copies := copies + more;
      q := q + 1;
    }
    assert decls[q..] == [];
    assert copies + [] == copies;
  }

  /** The source's loop over the variables that flow into the lambda. */
  method InitStatements(flowsIn: seq<VarSym>) returns (inits: seq<Node>)
    ensures inits == InitsOf(flowsIn)
  {
    inits := [];
    var k := 0;
    assert flowsIn[k..] == flowsIn;
    while k < |flowsIn|
      invariant 0 <= k <= |flowsIn|
      invariant inits + InitsOf(flowsIn[k..]) == InitsOf(flowsIn)
    {
      var v := flowsIn[k];
      InitsStep(flowsIn, k);
      var more: seq<Node>;
      if IsThisParameter(v) {
        more := [ThisInit()];
      } else {
        more := CopyStatements(v.name, v.decls);
      }
      NodesAssoc(inits, more, InitsOf(flowsIn[k + 1..]));
      inits := inits + more;
      k := k + 1;
    }
    assert flowsIn[k..] == [];
    assert inits + [] == inits;
  }
}
