/** The symbol facts the generator asks of the C# compiler's semantic model,
    given here as plain data: what an invocation or a lambda binds to, the
    constraint types of a type parameter, the members of a type, and the
    data-flow report for a lambda. Nothing here is computed; it is input. */
module Symbols {
  import opened Wrappers

  datatype TypeKind = ClassKind | StructKind | InterfaceKind | DelegateKind | EnumKind | OtherKind

  /** A type symbol. A type parameter is identified by its name and by the key
      of the declaration that owns it; a named type carries its type arguments.
      The name fields hold the text the compiler prints for the type. */
  datatype Ty =
    | TypeParam(tpName: string, owner: nat)
    | Named(tyName: string, kind: TypeKind, typeArgs: seq<Ty>)

  /** A method symbol. The key tells two symbols of the same shape apart;
      `containing` is the type that declares the method (for a member of a
      constructed interface, that constructed interface). */
  datatype MethodSym = MethodSym(
    key: nat,
    name: string,
    typeParams: seq<Ty>,
    params: seq<Ty>,
    returnType: Ty,
    containing: Ty)

  datatype Member = MethodMember(sym: MethodSym) | OtherMember(memberName: string)

  /** The signature the compiler inferred for a lambda. */
  datatype LambdaSig = LambdaSig(returnType: Ty, params: seq<Ty>)

  datatype VarKind = LocalVar | Parameter(isThis: bool) | OtherSymbol

  /** The kind of syntax a variable's declaring reference points at. */
  datatype DeclKind = VariableDeclarator | OtherDeclaration

  datatype VarSym = VarSym(name: string, kind: VarKind, ty: Ty, decls: seq<DeclKind>)

  /** The two parts of a data-flow report the generator reads. */
  datatype DataFlow = DataFlow(captured: seq<VarSym>, flowsIn: seq<VarSym>)

  /** Answers of the semantic model. `targets` maps an invocation's node id to the
      method it binds to (an id that is absent binds to no method); `lambdaSigs`
      and `flows` are keyed by a lambda's node id. */
  datatype Facts = Facts(
    targets: map<nat, MethodSym>,
    constraints: map<Ty, seq<Ty>>,
    members: map<Ty, seq<Member>>,
    lambdaSigs: map<nat, LambdaSig>,
    flows: map<nat, DataFlow>)

  function ConstraintTypes(f: Facts, t: Ty): seq<Ty> {
    if t in f.constraints then f.constraints[t] else []
  }

  function MembersOf(f: Facts, t: Ty): seq<Member> {
    if t in f.members then f.members[t] else []
  }

  function MemberName(m: Member): string {
    match m
    case MethodMember(s) => s.name
    case OtherMember(n) => n
  }

  /** GetMembers(name): the members of a type that carry a name, in member order. */
  function MembersNamed(ms: seq<Member>, name: string): (r: seq<Member>)
    ensures forall m :: m in r <==> m in ms && MemberName(m) == name
  {
    if ms == [] then []
    else (if MemberName(ms[0]) == name then [ms[0]] else []) + MembersNamed(ms[1..], name)
  }

  /** The method of a constraint type that is an interface whose only member is
      a method; None for every other type. */
  function SoleInterfaceMethod(f: Facts, t: Ty): (r: Option<MethodSym>)
    ensures r.Some? <==> t.Named? && t.kind == InterfaceKind && |MembersOf(f, t)| == 1 && MembersOf(f, t)[0].MethodMember?
    ensures r.Some? ==> MembersOf(f, t) == [MethodMember(r.value)]
  {
    if t.Named? && t.kind == InterfaceKind && |MembersOf(f, t)| == 1 && MembersOf(f, t)[0].MethodMember?
    then Some(MembersOf(f, t)[0].sym)
    else None
  }

  /** ImmutableArray.IndexOf: the first index holding x, or -1. */
  function IndexOf(s: seq<Ty>, x: Ty): (r: int)
    ensures -1 <= r < |s|
    ensures r >= 0 ==> s[r] == x && forall j :: 0 <= j < r ==> s[j] != x
    ensures r == -1 <==> x !in s
  {
    if s == [] then -1
    else if s[0] == x then 0
    else
      var k := IndexOf(s[1..], x);
      if k == -1 then -1 else k + 1
  }

  /** The text a type prints as (its ToString). */
  function Display(t: Ty): string {
    match t
    case TypeParam(n, _) => n
    case Named(n, _, _) => n
  }

  /** IsGenericType of a containing type. */
  predicate IsGenericType(t: Ty) {
    t.Named? && |t.typeArgs| > 0
  }
}
