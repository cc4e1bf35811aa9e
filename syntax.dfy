/** An abstract C# syntax tree: just the node kinds the generator tests for or
    builds. Each node's children, in source order, are `Kids(n)`; every walk
    over the tree goes through Kids and WithKids and terminates by `Size`. */
module Syntax {
  import opened Wrappers

  datatype LambdaKind = SimpleLambda | ParenthesizedLambda | AnonymousMethod

  datatype Node =
    | Ident(name: string)                                        // an identifier name
    | This                                                       // `this`
    | Member(target: Node, memberName: Node)                     // target.memberName; the name slot holds a simple name
    | Generic(genericName: string, typeArgs: seq<Option<string>>) // Name<A, ...>; a slot never written is None (null)
    | Call(id: nat, tracked: bool, callee: Node, args: seq<Node>)  // an invocation; `tracked` is the tracking annotation
    | Lambda(id: nat, kind: LambdaKind, span: nat, body: Node)   // an anonymous function and its span start
    | UnsafeAs(fromType: string, toType: string, byRef: Node)    // System.Runtime.CompilerServices.Unsafe.As<from, to>(ref byRef)
    | Assign(lhs: Node, rhs: Node)                               // lhs = rhs
    | Block(stmts: seq<Node>)                                    // { stmts }; its statements form a list
    | ExprStmt(expr: Node)                                       // expr;
    | LocalDecl(declType: Node, vars: seq<Node>)                 // a local declaration statement; the type slot holds a type
    | Declarator(varName: string, init: Option<Node>)            // one declared variable and its initializer
    | Other(kids: seq<Node>)                                     // any other expression or statement (not list elements)

  /** The identifier of the generated local that holds the specialised value. */
  const FunctionalInterface: string := "__functionalInterface"

  /** `__functionalInterface.name` */
  function FieldAccess(name: string): Node {
    Member(Ident(FunctionalInterface), Ident(name))
  }

  /** A parenthesized or simple lambda (an anonymous method is neither). */
  predicate IsLambda(n: Node) {
    n.Lambda? && n.kind != AnonymousMethod
  }

  function Size(n: Node): (r: nat)
    ensures r >= 1
  {
    match n
    case Ident(_) => 1
    case This => 1
    case Member(t, m) => 1 + Size(t) + Size(m)
    case Generic(_, _) => 1
    case Call(_, _, c, a) => 1 + Size(c) + SizeAll(a)
    case Lambda(_, _, _, b) => 1 + Size(b)
    case UnsafeAs(_, _, r) => 1 + Size(r)
    case Assign(l, r) => 1 + Size(l) + Size(r)
    case Block(s) => 1 + SizeAll(s)
    case ExprStmt(e) => 1 + Size(e)
    case LocalDecl(t, vs) => 1 + Size(t) + SizeAll(vs)
    case Declarator(_, i) => 1 + (if i.Some? then Size(i.value) else 0)
    case Other(k) => 1 + SizeAll(k)
  }

  function SizeAll(s: seq<Node>): nat {
    if s == [] then 0 else Size(s[0]) + SizeAll(s[1..])
  }

  /** The child nodes of n, in source order. */
  function Kids(n: Node): (r: seq<Node>)
    ensures SizeAll(r) < Size(n)
  {
    match n
    case Member(t, m) =>
      assert [t, m][1..] == [m] && [m][1..] == [];
      assert SizeAll([m]) == Size(m);
      [t, m]
    case Call(_, _, c, a) =>
      assert ([c] + a)[1..] == a;
      [c] + a
    case Lambda(_, _, _, b) => [b]
    case UnsafeAs(_, _, r) => [r]
    case Assign(l, r) =>
      assert [l, r][1..] == [r] && [r][1..] == [];
      assert SizeAll([r]) == Size(r);
      [l, r]
    case Block(s) => s
    case ExprStmt(e) => [e]
    case LocalDecl(t, vs) =>
      assert ([t] + vs)[1..] == vs;
      [t] + vs
    case Declarator(_, i) => if i.Some? then [i.value] else []
    case Other(k) => k
    case _ => []
  }

  /** The same kind of node with the same non-node fields. */
  predicate SameShape(a: Node, b: Node) {
    match a
    case Ident(_) => b == a
    case This => b == a
    case Generic(_, _) => b == a
    case Member(_, _) => b.Member?
    case Call(i, t, _, args) => b.Call? && b.id == i && b.tracked == t && |b.args| == |args|
    case Lambda(i, k, s, _) => b.Lambda? && b.id == i && b.kind == k && b.span == s
    case UnsafeAs(x, y, _) => b.UnsafeAs? && b.fromType == x && b.toType == y
    case Assign(_, _) => b.Assign?
    case Block(ss) => b.Block? && |b.stmts| == |ss|
    case ExprStmt(_) => b.ExprStmt?
    case LocalDecl(_, vs) => b.LocalDecl? && |b.vars| == |vs|
    case Declarator(x, i) => b.Declarator? && b.varName == x && b.init.Some? == i.Some?
    case Other(ks) => b.Other? && |b.kids| == |ks|
  }

  /** n with its children replaced, in order, by ks. */
  function WithKids(n: Node, ks: seq<Node>): (r: Node)
    requires |ks| == |Kids(n)|
    ensures Kids(r) == ks && SameShape(n, r)
    ensures ks == Kids(n) ==> r == n
  {
    match n
    case Member(_, _) => Member(ks[0], ks[1])
    case Call(i, t, _, _) =>
      assert [ks[0]] + ks[1..] == ks;
      Call(i, t, ks[0], ks[1..])
    case Lambda(i, k, s, _) => Lambda(i, k, s, ks[0])
    case UnsafeAs(a, b, _) => UnsafeAs(a, b, ks[0])
    case Assign(_, _) => Assign(ks[0], ks[1])
    case Block(_) => Block(ks)
    case ExprStmt(_) => ExprStmt(ks[0])
    case LocalDecl(_, _) =>
      assert [ks[0]] + ks[1..] == ks;
      LocalDecl(ks[0], ks[1..])
    case Declarator(x, i) => if i.Some? then Declarator(x, Some(ks[0])) else n
    case Other(_) => Other(ks)
    case _ => n
  }

  /** Every invocation in n, n included, in pre-order (DescendantNodes order). */
  function Calls(n: Node): (r: seq<Node>)
    ensures forall c :: c in r ==> c.Call?
    decreases Size(n), 0
  {
    (if n.Call? then [n] else []) + CallsAll(Kids(n))
  }

  function CallsAll(ks: seq<Node>): (r: seq<Node>)
    ensures forall c :: c in r ==> c.Call?
    decreases SizeAll(ks), 1
  {
    if ks == [] then [] else Calls(ks[0]) + CallsAll(ks[1..])
  }
}
