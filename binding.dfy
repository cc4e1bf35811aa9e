/** The interface a specialised struct implements: when the interface method's
    containing type is generic, its type arguments that the method's return type
    or parameter types name are rebound to the types the compiler inferred for
    the lambda, and the interface is constructed again from them. */
module Binding {
  import opened Wrappers
  import opened Symbols

  /** The constructed interface and the return type the struct's method gets. */
  datatype Binding = Binding(containing: Ty, returnType: Ty)

  /** The type-argument slot a type names: the first index of a type parameter
      among the arguments, or -1 (also for any type that is not a parameter). */
  function SlotOf(args: seq<Ty>, t: Ty): (r: int)
    ensures -1 <= r < |args|
    ensures r >= 0 ==> t.TypeParam? && args[r] == t
  {
    if t.TypeParam? then IndexOf(args, t) else -1
  }

  /** The last parameter among the first n whose type names slot s. */
  function LastWriter(m: MethodSym, args: seq<Ty>, s: nat, n: nat): (r: Option<nat>)
    requires n <= |m.params|
    ensures r.Some? ==> r.value < n && SlotOf(args, m.params[r.value]) == s
                        && forall j :: r.value < j < n ==> SlotOf(args, m.params[j]) != s
    ensures r.None? ==> forall j :: 0 <= j < n ==> SlotOf(args, m.params[j]) != s
  {
    if n == 0 then None
    else if SlotOf(args, m.params[n - 1]) == s then Some(n - 1)
    else LastWriter(m, args, s, n - 1)
  }

  /** Some parameter among the first n writes a slot but the lambda has no
      parameter at its position. */
  predicate MissingParam(m: MethodSym, args: seq<Ty>, sig: LambdaSig, n: nat)
    requires n <= |m.params|
  {
    exists j :: 0 <= j < n && SlotOf(args, m.params[j]) != -1 && j >= |sig.params|
  }

  /** Slot s once the return type and the first n parameters have written. */
  function SlotAfter(m: MethodSym, args: seq<Ty>, sig: LambdaSig, s: nat, n: nat): Ty
    requires s < |args| && n <= |m.params| && !MissingParam(m, args, sig, n)
  {
    match LastWriter(m, args, s, n)
    case Some(j) => sig.params[j]
    case None => if SlotOf(args, m.returnType) == s then sig.returnType else args[s]
  }

  function SlotsAfter(m: MethodSym, args: seq<Ty>, sig: LambdaSig, n: nat): (r: seq<Ty>)
    requires n <= |m.params| && !MissingParam(m, args, sig, n)
    ensures |r| == |args| && forall s :: 0 <= s < |args| ==> r[s] == SlotAfter(m, args, sig, s, n)
  {
    seq(|args|, s requires 0 <= s < |args| => SlotAfter(m, args, sig, s, n))
  }

  /** The whole of lines 331-364: the interface and return type for one entry. */
  function Resolve(m: MethodSym, sig: Option<LambdaSig>): (r: Result<Binding>)
    ensures !IsGenericType(m.containing) ==> r == Ok(Binding(m.containing, m.returnType))
    ensures r.Err? <==> IsGenericType(m.containing) && sig.Some?
                        && MissingParam(m, m.containing.typeArgs, sig.value, |m.params|)
    ensures r.Ok? && IsGenericType(m.containing) ==>
              (r.value.containing.Named? &&
               r.value.containing.tyName == m.containing.tyName &&
               r.value.containing.kind == m.containing.kind &&
               |r.value.containing.typeArgs| == |m.containing.typeArgs|)
    ensures r.Ok? && sig.Some? && IsGenericType(m.containing) && SlotOf(m.containing.typeArgs, m.returnType) != -1
            ==> r.value.returnType == sig.value.returnType
    ensures r.Ok? && (!IsGenericType(m.containing) || sig.None? || SlotOf(m.containing.typeArgs, m.returnType) == -1)
            ==> r.value.returnType == m.returnType
  {
    if !IsGenericType(m.containing) then Ok(Binding(m.containing, m.returnType))
    else
      var args := m.containing.typeArgs;
      match sig
      case None => Ok(Binding(m.containing, m.returnType))
      case Some(l) =>
        if MissingParam(m, args, l, |m.params|) then Err(IndexOutOfRange)
        else
          var rt := if SlotOf(args, m.returnType) != -1 then l.returnType else m.returnType;
          Ok(Binding(Named(m.containing.tyName, m.containing.kind, SlotsAfter(m, args, l, |m.params|)), rt))
  }

  /** A slot that no type of the interface method names keeps its argument; a
      slot some parameter names holds the lambda's type for the last such
      parameter; otherwise a slot the return type names holds the lambda's
      return type. */
  lemma ResolveSlots(m: MethodSym, l: LambdaSig, s: nat)
    requires IsGenericType(m.containing) && Resolve(m, Some(l)).Ok?
    requires s < |m.containing.typeArgs|
    ensures var args := m.containing.typeArgs;
      var out := Resolve(m, Some(l)).value.containing.typeArgs[s];
      (LastWriter(m, args, s, |m.params|).Some? ==> out == l.params[LastWriter(m, args, s, |m.params|).value])
      && (LastWriter(m, args, s, |m.params|).None? && SlotOf(args, m.returnType) == s ==> out == l.returnType)
      && (LastWriter(m, args, s, |m.params|).None? && SlotOf(args, m.returnType) != s ==> out == args[s])
  {
  }

  /** Binding is a fixed point on the lambda's own types: when the lambda's types
      are what the interface already had, nothing changes. */
  lemma ResolveIdentity(m: MethodSym, l: LambdaSig)
    requires IsGenericType(m.containing) && |l.params| == |m.params|
    requires forall j :: 0 <= j < |m.params| && SlotOf(m.containing.typeArgs, m.params[j]) != -1 ==> l.params[j] == m.params[j]
    requires SlotOf(m.containing.typeArgs, m.returnType) != -1 ==> l.returnType == m.returnType
    ensures Resolve(m, Some(l)) == Ok(Binding(m.containing, m.returnType))
  {
    var args := m.containing.typeArgs;
    var out := SlotsAfter(m, args, l, |m.params|);
    forall s | 0 <= s < |args| ensures out[s] == args[s] {
      match LastWriter(m, args, s, |m.params|)
      case Some(j) =>
      case None =>
    }
    assert out == args;
  }

  lemma MissingStep(m: MethodSym, args: seq<Ty>, l: LambdaSig, j: nat)
    requires j < |m.params|
    ensures MissingParam(m, args, l, j + 1) <==>
            MissingParam(m, args, l, j) || (SlotOf(args, m.params[j]) != -1 && j >= |l.params|)
  {
    if MissingParam(m, args, l, j + 1) && !MissingParam(m, args, l, j) {
      var q :| 0 <= q < j + 1 && SlotOf(args, m.params[q]) != -1 && q >= |l.params|;
      assert q == j;
    }
  }

  lemma SlotAfterStep(m: MethodSym, args: seq<Ty>, l: LambdaSig, s: nat, j: nat)
    requires s < |args| && j < |m.params| && !MissingParam(m, args, l, j + 1)
    ensures !MissingParam(m, args, l, j)
    ensures SlotAfter(m, args, l, s, j + 1) ==
            if SlotOf(args, m.params[j]) == s then l.params[j] else SlotAfter(m, args, l, s, j)
  {
    MissingStep(m, args, l, j);
  }

  /** The loop over the interface method's parameters, writing into the copy. */
  method WriteParameterSlots(m: MethodSym, args: seq<Ty>, l: LambdaSig, resolved: array<Ty>) returns (ok: bool)
    requires resolved.Length == |args|
    requires forall s :: 0 <= s < |args| ==> resolved[s] == SlotAfter(m, args, l, s, 0)
    modifies resolved
    ensures ok == !MissingParam(m, args, l, |m.params|)
    ensures ok ==> resolved[..] == SlotsAfter(m, args, l, |m.params|)
  {
    var j := 0;
    while j < |m.params|
      invariant 0 <= j <= |m.params|
      invariant !MissingParam(m, args, l, j)
      invariant forall s :: 0 <= s < |args| ==> resolved[s] == SlotAfter(m, args, l, s, j)
    {
      MissingStep(m, args, l, j);
      var p := m.params[j];
      if p.TypeParam? {
        var idx := IndexOf(args, p);
        if idx != -1 {
          if j >= |l.params| {
            MissingMonotone(m, args, l, j + 1);
            return false;
          }
          resolved[idx] := l.params[j];
        }
      }
      forall s | 0 <= s < |args| ensures resolved[s] == SlotAfter(m, args, l, s, j + 1) {
        SlotAfterStep(m, args, l, s, j);
      }
      j := j + 1;
    }
    return true;
  }

  lemma MissingMonotone(m: MethodSym, args: seq<Ty>, l: LambdaSig, n: nat)
    requires n <= |m.params| && MissingParam(m, args, l, n)
    ensures MissingParam(m, args, l, |m.params|)
  {
    var q :| 0 <= q < n && SlotOf(args, m.params[q]) != -1 && q >= |l.params|;
    assert 0 <= q < |m.params|;
  }

  /** The source's code over a copy of the type arguments. */
  method ResolveContainingType(m: MethodSym, sig: Option<LambdaSig>) returns (r: Result<Binding>)
    ensures r == Resolve(m, sig)
  {
    var returnType := m.returnType;
    var containing := m.containing;
    if !IsGenericType(containing) {
      return Ok(Binding(containing, returnType));
    }
    var args := containing.typeArgs;
    var resolved := new Ty[|args|](i requires 0 <= i < |args| => args[i]);
    if sig.Some? {
      var l := sig.value;
      if returnType.TypeParam? {
        var idx := IndexOf(args, returnType);
        if idx != -1 {
          returnType := l.returnType;
          resolved[idx] := returnType;
        }
      }
      assert !MissingParam(m, args, l, 0);
      forall s | 0 <= s < |args| ensures resolved[s] == SlotAfter(m, args, l, s, 0) {
      }
      var ok := WriteParameterSlots(m, args, l, resolved);
      if !ok {
        return Err(IndexOutOfRange);
      }
    } else {
      assert resolved[..] == args;
    }
    containing := Named(containing.tyName, containing.kind, resolved[..]);
    return Ok(Binding(containing, returnType));
  }
}
