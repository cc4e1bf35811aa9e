/** FindFunctionalInterfaceTarget: for an invocation with lambda arguments, find a
    generic overload of the invoked method whose lambda parameters are type
    parameters constrained to an interface with a single method, together with
    a dictionary from argument position to that interface method. */
module Matcher {
  import opened Wrappers
  import opened Symbols
  import opened Syntax

  /** One dictionary entry: an argument position and the interface method the
      lambda at that position is specialised into. */
  datatype Entry = Entry(pos: nat, target: MethodSym)

  /** The dictionary, in insertion order (which is its enumeration order: the
      generator never removes an entry). */
  type Dict = seq<Entry>

  /** A found overload and its dictionary. */
  datatype Match = Match(candidate: MethodSym, entries: Dict)

  function Keys(d: Dict): (r: seq<nat>)
    ensures |r| == |d| && forall k :: 0 <= k < |d| ==> r[k] == d[k].pos
  {
    seq(|d|, k requires 0 <= k < |d| => d[k].pos)
  }

  predicate Increasing(s: seq<nat>) {
    forall a, b :: 0 <= a < b < |s| ==> s[a] < s[b]
  }

  /** The positions of the arguments that are simple or parenthesized lambdas,
      in ascending order (the order the position set is filled and enumerated). */
  function LambdaPositions(args: seq<Node>): (r: seq<nat>)
    ensures forall p :: p in r <==> 0 <= p < |args| && IsLambda(args[p])
    ensures Increasing(r)
    ensures forall k :: 0 <= k < |r| ==> r[k] < |args|
  {
    if args == [] then []
    else
      var init := args[..|args| - 1];
      var r := LambdaPositions(init) + (if IsLambda(args[|args| - 1]) then [|args| - 1] else []);
      assert forall p :: 0 <= p < |init| ==> init[p] == args[p];
      r
  }

  /** The filter applied to GetMembers(name): another method symbol, generic,
      with as many parameters as the invoked method. */
  predicate Eligible(target: MethodSym, m: Member) {
    m.MethodMember? && m.sym != target && |m.sym.typeParams| > 0 && |m.sym.params| == |target.params|
  }

  function EligibleOf(ms: seq<Member>, target: MethodSym): (r: seq<MethodSym>)
    ensures forall c :: c in r <==> MethodMember(c) in ms && Eligible(target, MethodMember(c))
  {
    if ms == [] then []
    else (if Eligible(target, ms[0]) then [ms[0].sym] else []) + EligibleOf(ms[1..], target)
  }

  /** The overloads considered, in member order. */
  function Siblings(f: Facts, target: MethodSym): seq<MethodSym> {
    EligibleOf(MembersNamed(MembersOf(f, target.containing), target.name), target)
  }

  /** The first check on parameter i: at a non-lambda position any type
      parameter or exactly the invoked method's parameter type; at a lambda
      position a type parameter with exactly one constraint type. */
  predicate ParamOk(f: Facts, c: MethodSym, target: MethodSym, ps: seq<nat>, i: nat)
    requires i < |c.params|
  {
    if i !in ps then c.params[i].TypeParam? || (i < |target.params| && c.params[i] == target.params[i])
    else c.params[i].TypeParam? && |ConstraintTypes(f, c.params[i])| == 1
  }

  predicate ShapeOk(f: Facts, c: MethodSym, target: MethodSym, ps: seq<nat>) {
    forall i :: 0 <= i < |c.params| ==> ParamOk(f, c, target, ps, i)
  }

  /** The outcome of the second check on one overload. */
  datatype Step = Accepted(d: Dict) | Rejected(d: Dict) | Failed(fault: Fault)

  /** The second check: for each lambda position in order, the sole method of
      the first constraint type goes into the shared dictionary d. A constraint
      that is not such an interface rejects the overload, keeping what was added. */
  function Fill(f: Facts, c: MethodSym, ps: seq<nat>, d: Dict): Step {
    if ps == [] then Accepted(d)
    else
      var i := ps[0];
      if i >= |c.params| then Failed(IndexOutOfRange)
      else if !c.params[i].TypeParam? then Failed(InvalidCast)
      else if ConstraintTypes(f, c.params[i]) == [] then Failed(IndexOutOfRange)
      else match SoleInterfaceMethod(f, ConstraintTypes(f, c.params[i])[0])
        case None => Rejected(d)
        case Some(m) => if i in Keys(d) then Failed(DuplicateKey) else Fill(f, c, ps[1..], d + [Entry(i, m)])
  }

  function Search(f: Facts, target: MethodSym, cands: seq<MethodSym>, ps: seq<nat>, d: Dict): Result<Option<Match>> {
    if cands == [] then Ok(None)
    else
      var c := cands[0];
      if !ShapeOk(f, c, target, ps) then Search(f, target, cands[1..], ps, d)
      else match Fill(f, c, ps, d)
        case Accepted(d') => Ok(Some(Match(c, d')))
        case Rejected(d') => Search(f, target, cands[1..], ps, d')
        case Failed(e) => Err(e)
  }

  /** The whole search for the invocation with node id `id` and arguments `args`:
      Ok(None) stands for the null candidate and the empty dictionary. */
  function Target(f: Facts, id: nat, args: seq<Node>): Result<Option<Match>> {
    var ps := LambdaPositions(args);
    if ps == [] || id !in f.targets then Ok(None)
    else Search(f, f.targets[id], Siblings(f, f.targets[id]), ps, [])
  }

  // ---------------------------------------------------------------------------
  // An independent reference: the first overload that qualifies, each with a
  // dictionary of its own.

  /** The interface method the lambda at position p would be specialised into. */
  function InterfaceAt(f: Facts, c: MethodSym, p: nat): Option<MethodSym> {
    if p < |c.params| && c.params[p].TypeParam? && |ConstraintTypes(f, c.params[p])| > 0
    then SoleInterfaceMethod(f, ConstraintTypes(f, c.params[p])[0])
    else None
  }

  predicate Qualifies(f: Facts, c: MethodSym, target: MethodSym, ps: seq<nat>) {
    ShapeOk(f, c, target, ps) && forall p :: p in ps ==> InterfaceAt(f, c, p).Some?
  }

  function Canon(f: Facts, c: MethodSym, ps: seq<nat>): (r: Dict)
    ensures (forall p :: p in ps ==> InterfaceAt(f, c, p).Some?) ==>
      Keys(r) == ps && forall k :: 0 <= k < |r| ==> Some(r[k].target) == InterfaceAt(f, c, ps[k])
  {
    if ps == [] then []
    else match InterfaceAt(f, c, ps[0])
      case Some(m) => [Entry(ps[0], m)] + Canon(f, c, ps[1..])
      case None => Canon(f, c, ps[1..])
  }

  function FirstQualifying(f: Facts, target: MethodSym, cands: seq<MethodSym>, ps: seq<nat>): (r: Option<Match>)
    ensures r.Some? ==> r.value.candidate in cands && Qualifies(f, r.value.candidate, target, ps)
                        && r.value.entries == Canon(f, r.value.candidate, ps)
    ensures r.None? <==> forall c :: c in cands ==> !Qualifies(f, c, target, ps)
  {
    if cands == [] then None
    else if Qualifies(f, cands[0], target, ps) then Some(Match(cands[0], Canon(f, cands[0], ps)))
    else FirstQualifying(f, target, cands[1..], ps)
  }

  /** The reference picks the earliest qualifying overload in member order. */
  lemma {:induction false} FirstQualifyingIsFirst(f: Facts, target: MethodSym, cands: seq<MethodSym>, ps: seq<nat>)
    requires FirstQualifying(f, target, cands, ps).Some?
    ensures exists k :: 0 <= k < |cands| && cands[k] == FirstQualifying(f, target, cands, ps).value.candidate
                        && forall j :: 0 <= j < k ==> !Qualifies(f, cands[j], target, ps)
  {
    if !Qualifies(f, cands[0], target, ps) {
      var r := FirstQualifying(f, target, cands[1..], ps);
      FirstQualifyingIsFirst(f, target, cands[1..], ps);
      var k :| 0 <= k < |cands[1..]| && cands[1..][k] == r.value.candidate
               && forall j :: 0 <= j < k ==> !Qualifies(f, cands[1..][j], target, ps);
      assert cands[k + 1] == r.value.candidate;
      forall j | 0 < j < k + 1 ensures !Qualifies(f, cands[j], target, ps) {
        assert cands[j] == cands[1..][j - 1];
      }
    } else {
      assert cands[0] == FirstQualifying(f, target, cands, ps).value.candidate;
    }
  }

  function Reference(f: Facts, id: nat, args: seq<Node>): Option<Match> {
    var ps := LambdaPositions(args);
    if ps == [] || id !in f.targets then None
    else FirstQualifying(f, f.targets[id], Siblings(f, f.targets[id]), ps)
  }

  // ---------------------------------------------------------------------------
  // Lemmas about Fill and Search.

  /** One step of Fill at a lambda position that has an interface method and is
      not yet in the dictionary. */
  lemma FillStep(f: Facts, c: MethodSym, ps: seq<nat>, d: Dict)
    requires ps != [] && InterfaceAt(f, c, ps[0]).Some? && ps[0] !in Keys(d)
    ensures Fill(f, c, ps, d) == Fill(f, c, ps[1..], d + [Entry(ps[0], InterfaceAt(f, c, ps[0]).value)])
  {
  }

  lemma KeysAppend(d: Dict, e: Entry)
    ensures Keys(d + [e]) == Keys(d) + [e.pos]
  {
  }

  lemma IncreasingTail(ps: seq<nat>)
    requires ps != [] && Increasing(ps)
    ensures Increasing(ps[1..]) && forall p :: p in ps[1..] ==> p in ps && p != ps[0]
  {
    forall p | p in ps[1..] ensures p in ps && p != ps[0] {
      var k :| 0 <= k < |ps[1..]| && ps[1..][k] == p;
      assert ps[k + 1] == p;
    }
    forall a, b | 0 <= a < b < |ps[1..]| ensures ps[1..][a] < ps[1..][b] {
      assert ps[1..][a] == ps[a + 1] && ps[1..][b] == ps[b + 1];
    }
  }

  /** A qualifying overload fills a dictionary that does not yet hold its
      positions with exactly its canonical entries. */
  lemma {:induction false} FillQualified(f: Facts, c: MethodSym, ps: seq<nat>, d: Dict)
    requires (forall p :: p in ps ==> InterfaceAt(f, c, p).Some?) && Increasing(ps)
    requires forall p :: p in ps ==> p !in Keys(d)
    ensures Fill(f, c, ps, d) == Accepted(d + Canon(f, c, ps))
  {
    if ps != [] {
      assert ps[0] in ps;
      var e := Entry(ps[0], InterfaceAt(f, c, ps[0]).value);
      FillStep(f, c, ps, d);
      QualifiedTail(f, c, ps, d, e);
      FillQualified(f, c, ps[1..], d + [e]);
      assert d + [e] + Canon(f, c, ps[1..]) == d + Canon(f, c, ps) by {
        CanonStep(f, c, ps);
      }
    }
  }

  lemma CanonStep(f: Facts, c: MethodSym, ps: seq<nat>)
    requires ps != [] && InterfaceAt(f, c, ps[0]).Some?
    ensures forall d: Dict :: d + [Entry(ps[0], InterfaceAt(f, c, ps[0]).value)] + Canon(f, c, ps[1..]) == d + Canon(f, c, ps)
  {
    assert Canon(f, c, ps) == [Entry(ps[0], InterfaceAt(f, c, ps[0]).value)] + Canon(f, c, ps[1..]);
  }

  /** After the first entry, the rest of the positions still qualify and are
      still absent from the dictionary. */
  lemma QualifiedTail(f: Facts, c: MethodSym, ps: seq<nat>, d: Dict, e: Entry)
    requires ps != [] && e.pos == ps[0]
    requires (forall p :: p in ps ==> InterfaceAt(f, c, p).Some?) && Increasing(ps)
    requires forall p :: p in ps ==> p !in Keys(d)
    ensures (forall p :: p in ps[1..] ==> InterfaceAt(f, c, p).Some?) && Increasing(ps[1..])
    ensures forall p :: p in ps[1..] ==> p !in Keys(d + [e])
  {
    IncreasingTail(ps);
    KeysAppend(d, e);
    forall p | p in ps[1..] ensures p !in Keys(d + [e]) {
      assert p in ps && p != ps[0];
      assert p !in Keys(d);
    }
  }

  /** Fill accepts only when every lambda position has an interface method. */
  lemma {:induction false} FillAccepted(f: Facts, c: MethodSym, ps: seq<nat>, d: Dict)
    requires Fill(f, c, ps, d).Accepted?
    ensures forall p :: p in ps ==> InterfaceAt(f, c, p).Some?
  {
    if ps != [] {
      var m := SoleInterfaceMethod(f, ConstraintTypes(f, c.params[ps[0]])[0]).value;
      FillAccepted(f, c, ps[1..], d + [Entry(ps[0], m)]);
      assert ps == [ps[0]] + ps[1..];
    }
  }

  /** Fill rejects only when some lambda position has no interface method, and
      what it leaves behind is either d itself or holds the first position. */
  lemma {:induction false} FillRejected(f: Facts, c: MethodSym, ps: seq<nat>, d: Dict)
    requires Fill(f, c, ps, d).Rejected?
    ensures exists p :: p in ps && InterfaceAt(f, c, p).None?
    ensures Fill(f, c, ps, d).d == d || (ps != [] && ps[0] in Keys(Fill(f, c, ps, d).d))
  {
    var i := ps[0];
    var cs := ConstraintTypes(f, c.params[i]);
    if SoleInterfaceMethod(f, cs[0]).None? {
      assert InterfaceAt(f, c, i).None?;
    } else {
      var m := SoleInterfaceMethod(f, cs[0]).value;
      var d1 := d + [Entry(i, m)];
      FillRejected(f, c, ps[1..], d1);
      var p :| p in ps[1..] && InterfaceAt(f, c, p).None?;
      assert p in ps;
      assert i in Keys(d1) by { assert Keys(d1)[|d|] == i; }
      FillKeepsKeys(f, c, ps[1..], d1, i);
    }
  }

  lemma {:induction false} FillKeepsKeys(f: Facts, c: MethodSym, ps: seq<nat>, d: Dict, p: nat)
    requires Fill(f, c, ps, d).Rejected? && p in Keys(d)
    ensures p in Keys(Fill(f, c, ps, d).d)
  {
    var i := ps[0];
    var cs := ConstraintTypes(f, c.params[i]);
    if SoleInterfaceMethod(f, cs[0]).Some? {
      var m := SoleInterfaceMethod(f, cs[0]).value;
      var d1 := d + [Entry(i, m)];
      var k :| 0 <= k < |Keys(d)| && Keys(d)[k] == p;
      assert Keys(d1)[k] == p;
      FillKeepsKeys(f, c, ps[1..], d1, p);
    }
  }

  /** Once the first lambda position is in the shared dictionary, no overload
      can be accepted: a qualifying one raises DuplicateKey, any other is
      rejected with the dictionary unchanged or fails. */
  lemma FillAfterPartial(f: Facts, c: MethodSym, target: MethodSym, ps: seq<nat>, d: Dict)
    requires ps != [] && ps[0] in Keys(d)
    ensures Fill(f, c, ps, d).Failed? || Fill(f, c, ps, d) == Rejected(d)
    ensures Qualifies(f, c, target, ps) ==> Fill(f, c, ps, d).Failed?
  {
    if Qualifies(f, c, target, ps) {
      assert ps[0] in ps;
    }
  }

  /** Where Search answers Ok, its answer is the reference: the first overload
      that qualifies on its own. */
  lemma {:induction false} SearchMatchesReference(f: Facts, target: MethodSym, cands: seq<MethodSym>, ps: seq<nat>, d: Dict)
    requires ps != [] && Increasing(ps)
    requires d == [] || ps[0] in Keys(d)
    requires Search(f, target, cands, ps, d).Ok?
    ensures d == [] ==> Search(f, target, cands, ps, d) == Ok(FirstQualifying(f, target, cands, ps))
    ensures d != [] ==> Search(f, target, cands, ps, d) == Ok(None) && FirstQualifying(f, target, cands, ps) == None
  {
    if cands != [] {
      var c := cands[0];
      if !ShapeOk(f, c, target, ps) {
        SearchMatchesReference(f, target, cands[1..], ps, d);
      } else if d == [] {
        match Fill(f, c, ps, d)
        case Accepted(d') =>
          FillAccepted(f, c, ps, d);
          assert Qualifies(f, c, target, ps);
          FillQualified(f, c, ps, d);
          assert d' == Canon(f, c, ps);
        case Rejected(d') =>
          FillRejected(f, c, ps, d);
          SearchMatchesReference(f, target, cands[1..], ps, d');
        case Failed(_) =>
      } else {
        FillAfterPartial(f, c, target, ps, d);
        SearchMatchesReference(f, target, cands[1..], ps, d);
      }
    }
  }

  /** Every result that is not an exception agrees with the reference. */
  lemma TargetMatchesReference(f: Facts, id: nat, args: seq<Node>)
    requires Target(f, id, args).Ok?
    ensures Target(f, id, args) == Ok(Reference(f, id, args))
  {
    var ps := LambdaPositions(args);
    if ps != [] && id in f.targets {
      SearchMatchesReference(f, f.targets[id], Siblings(f, f.targets[id]), ps, []);
    }
  }

  /** An overload that passes the first check but fails the second only at its
      first lambda position, and has every lambda position among its parameters,
      cannot leave a partial dictionary behind. */
  predicate Clean(f: Facts, c: MethodSym, target: MethodSym, ps: seq<nat>) {
    ShapeOk(f, c, target, ps) ==>
      (forall p :: p in ps ==> p < |c.params|) &&
      (Qualifies(f, c, target, ps) || (ps != [] && InterfaceAt(f, c, ps[0]).None?))
  }

  /** When every overload is clean, the search raises nothing and finds the
      reference's answer. */
  lemma {:induction false} SearchClean(f: Facts, target: MethodSym, cands: seq<MethodSym>, ps: seq<nat>)
    requires ps != [] && Increasing(ps)
    requires forall c :: c in cands ==> Clean(f, c, target, ps)
    ensures Search(f, target, cands, ps, []) == Ok(FirstQualifying(f, target, cands, ps))
  {
    if cands != [] {
      var c := cands[0];
      assert Clean(f, c, target, ps);
      if ShapeOk(f, c, target, ps) {
        if Qualifies(f, c, target, ps) {
          FillQualified(f, c, ps, []);
          assert [] + Canon(f, c, ps) == Canon(f, c, ps);
        } else {
          assert ps[0] in ps;
          assert ParamOk(f, c, target, ps, ps[0]);
          assert Fill(f, c, ps, []) == Rejected([]);
          SearchClean(f, target, cands[1..], ps);
        }
      } else {
        SearchClean(f, target, cands[1..], ps);
      }
    }
  }

  /** What a found target promises: an eligible overload in member order before
      which none qualifies, whose dictionary maps exactly the lambda positions,
      in ascending order, to the sole method of each one's constraint type. */
  lemma TargetSound(f: Facts, id: nat, args: seq<Node>)
    requires Target(f, id, args).Ok? && Target(f, id, args).value.Some?
    ensures id in f.targets
    ensures var m := Target(f, id, args).value.value;
      var t := f.targets[id];
      m.candidate in Siblings(f, t) && m.candidate != t && |m.candidate.typeParams| > 0
      && |m.candidate.params| == |t.params|
      && ShapeOk(f, m.candidate, t, LambdaPositions(args))
      && Keys(m.entries) == LambdaPositions(args)
      && (forall k :: 0 <= k < |m.entries| ==>
            (IsLambda(args[m.entries[k].pos])
             && Some(m.entries[k].target) == InterfaceAt(f, m.candidate, m.entries[k].pos)))
  {
    TargetMatchesReference(f, id, args);
    var m := Target(f, id, args).value.value;
    var t := f.targets[id];
    var ps := LambdaPositions(args);
    assert Keys(m.entries) == ps;
    forall k | 0 <= k < |m.entries|
      ensures IsLambda(args[m.entries[k].pos])
    {
      assert m.entries[k].pos == ps[k];
      assert ps[k] in ps;
    }
  }

  /** No lambda argument, or an invocation that binds to no method: no target. */
  lemma TargetNone(f: Facts, id: nat, args: seq<Node>)
    requires (forall i :: 0 <= i < |args| ==> !IsLambda(args[i])) || id !in f.targets
    ensures Target(f, id, args) == Ok(None)
  {
    if LambdaPositions(args) != [] {
      var p := LambdaPositions(args)[0];
      assert p in LambdaPositions(args);
    }
  }

  // ---------------------------------------------------------------------------
  // The dictionary is shared between overloads. Below, M(object, object) is
  // invoked with two lambdas; M<T, U>(T, U) passes the first check, adds
  // position 0 and is rejected at position 1 (U is constrained to a class);
  // M<T, U, V>(T, U) then qualifies but its Add of position 0 raises.

  const ObjectType: Ty := Named("object", ClassKind, [])
  const Host: Ty := Named("C", ClassKind, [])
  const Callback: Ty := Named("ICallback", InterfaceKind, [])
  const Invoked: MethodSym := MethodSym(1, "M", [], [ObjectType, ObjectType], ObjectType, Host)
  const First: MethodSym := MethodSym(2, "M", [TypeParam("T", 2), TypeParam("U", 2)],
                                     [TypeParam("T", 2), TypeParam("U", 2)], ObjectType, Host)
  const Second: MethodSym := MethodSym(3, "M", [TypeParam("T", 3), TypeParam("U", 3), TypeParam("V", 3)],
                                      [TypeParam("T", 3), TypeParam("U", 3)], ObjectType, Host)
  const CallbackInvoke: MethodSym := MethodSym(4, "Invoke", [], [], ObjectType, Callback)

  function SharedFacts(): Facts {
    Facts(
      map[7 := Invoked],
      map[TypeParam("T", 2) := [Callback], TypeParam("U", 2) := [ObjectType],
          TypeParam("T", 3) := [Callback], TypeParam("U", 3) := [Callback]],
      map[Host := [MethodMember(Invoked), MethodMember(First), MethodMember(Second)],
          Callback := [MethodMember(CallbackInvoke)]],
      map[], map[])
  }

  function TwoLambdas(): seq<Node> {
    [Lambda(8, SimpleLambda, 40, Ident("a")), Lambda(9, SimpleLambda, 50, Ident("b"))]
  }

  lemma ExamplePositions()
    ensures LambdaPositions(TwoLambdas()) == [0, 1]
  {
    var args := TwoLambdas();
    assert args[..1][..0] == [];
    assert LambdaPositions(args[..0]) == [];
    assert LambdaPositions(args[..1]) == [0];
    assert args[..2] == args;
  }

  lemma ExampleSiblings()
    ensures Siblings(SharedFacts(), Invoked) == [First, Second]
  {
    var all := [MethodMember(Invoked), MethodMember(First), MethodMember(Second)];
    assert MembersOf(SharedFacts(), Host) == all;
    assert all[2..][1..] == [];
    assert all[1..][1..] == all[2..];
    assert MembersNamed(all[2..], "M") == all[2..];
    assert MembersNamed(all, "M") == all;
    assert EligibleOf(all[2..], Invoked) == [Second];
    assert EligibleOf(all[1..], Invoked) == [First, Second];
  }

  lemma ExampleFirstRejected()
    ensures ShapeOk(SharedFacts(), First, Invoked, [0, 1])
    ensures Fill(SharedFacts(), First, [0, 1], []) == Rejected([Entry(0, CallbackInvoke)])
  {
    var f := SharedFacts();
    assert ParamOk(f, First, Invoked, [0, 1], 0) && ParamOk(f, First, Invoked, [0, 1], 1);
    assert SoleInterfaceMethod(f, Callback) == Some(CallbackInvoke);
    assert SoleInterfaceMethod(f, ObjectType) == None;
    assert [0, 1][1..] == [1];
  }

  lemma ExampleSecondRaises()
    ensures ShapeOk(SharedFacts(), Second, Invoked, [0, 1])
    ensures Qualifies(SharedFacts(), Second, Invoked, [0, 1])
    ensures Fill(SharedFacts(), Second, [0, 1], [Entry(0, CallbackInvoke)]) == Failed(DuplicateKey)
  {
    var f := SharedFacts();
    assert ParamOk(f, Second, Invoked, [0, 1], 0) && ParamOk(f, Second, Invoked, [0, 1], 1);
    assert SoleInterfaceMethod(f, Callback) == Some(CallbackInvoke);
    assert InterfaceAt(f, Second, 0).Some? && InterfaceAt(f, Second, 1).Some?;
    assert Keys([Entry(0, CallbackInvoke)]) == [0];
  }

  lemma ExampleSearch()
    ensures Search(SharedFacts(), Invoked, [First, Second], [0, 1], []) == Err(DuplicateKey)
  {
    ExampleFirstRejected();
    ExampleSecondRaises();
    assert [First, Second][1..] == [Second];
    var d := [Entry(0, CallbackInvoke)];
    assert Search(SharedFacts(), Invoked, [Second], [0, 1], d) == Err(DuplicateKey);
  }

  lemma ExampleReference()
    ensures FirstQualifying(SharedFacts(), Invoked, [First, Second], [0, 1]) == Some(Match(Second, Canon(SharedFacts(), Second, [0, 1])))
  {
    ExampleSecondRaises();
    var f := SharedFacts();
    assert !Qualifies(f, First, Invoked, [0, 1]) by {
      assert InterfaceAt(f, First, 1).None?;
      assert 1 in [0, 1];
    }
    assert [First, Second][1..] == [Second];
  }

  /** With the shared dictionary the search raises, where a dictionary per
      overload would have found M<T, U, V>. */
  lemma SharedDictionaryRaises()
    ensures Target(SharedFacts(), 7, TwoLambdas()) == Err(DuplicateKey)
    ensures Reference(SharedFacts(), 7, TwoLambdas()) == Some(Match(Second, Canon(SharedFacts(), Second, [0, 1])))
  {
    ExamplePositions();
    ExampleSiblings();
    ExampleSearch();
    ExampleReference();
    assert SharedFacts().targets[7] == Invoked;
  }

  // ---------------------------------------------------------------------------
  // The imperative search, with the source's loops.

  /** The loop that fills the position set. */
  method CollectLambdaPositions(args: seq<Node>) returns (ps: seq<nat>)
    ensures ps == LambdaPositions(args)
  {
    ps := [];
    var i := 0;
    while i < |args|
      invariant 0 <= i <= |args|
      invariant ps == LambdaPositions(args[..i])
    {
      assert args[..i + 1][..i] == args[..i];
      if IsLambda(args[i]) {
        ps := ps + [i];
      }
      i := i + 1;
    }
    assert args[..|args|] == args;
  }

  /** The loop over the overload's parameters (the first check). */
  method CheckShape(f: Facts, c: MethodSym, target: MethodSym, ps: seq<nat>) returns (ok: bool)
    ensures ok == ShapeOk(f, c, target, ps)
  {
    var j := 0;
    while j < |c.params|
      invariant 0 <= j <= |c.params|
      invariant forall q :: 0 <= q < j ==> ParamOk(f, c, target, ps, q)
    {
      if !ParamOk(f, c, target, ps, j) {
        return false;
      }
      j := j + 1;
    }
    return true;
  }

  /** The loop over the lambda positions (the second check), adding to the
      shared dictionary d. */
  method FillDictionary(f: Facts, c: MethodSym, ps: seq<nat>, d0: Dict) returns (s: Step)
    ensures s == Fill(f, c, ps, d0)
  {
    var d := d0;
    var q := 0;
    while q < |ps|
      invariant 0 <= q <= |ps|
      invariant Fill(f, c, ps, d0) == Fill(f, c, ps[q..], d)
    {
      var p := ps[q];
      assert ps[q..][1..] == ps[q + 1..];
      if p >= |c.params| {
        return Failed(IndexOutOfRange);
      }
      var t := c.params[p];
      if !t.TypeParam? {
        return Failed(InvalidCast);
      }
      if ConstraintTypes(f, t) == [] {
        return Failed(IndexOutOfRange);
      }
      var sole := SoleInterfaceMethod(f, ConstraintTypes(f, t)[0]);
      if sole.None? {
        return Rejected(d);
      }
      if p in Keys(d) {
        return Failed(DuplicateKey);
      }
      d := d + [Entry(p, sole.value)];
      q := q + 1;
    }
    return Accepted(d);
  }

  method FindFunctionalInterfaceTarget(f: Facts, id: nat, args: seq<Node>) returns (r: Result<Option<Match>>)
    ensures r == Target(f, id, args)
  {
    var ps := CollectLambdaPositions(args);
    if ps == [] || id !in f.targets {
      return Ok(None);
    }
    var target := f.targets[id];
    var ms := MembersNamed(MembersOf(f, target.containing), target.name);
    var d: Dict := [];
    var k := 0;
    while k < |ms|
      invariant 0 <= k <= |ms|
      invariant Target(f, id, args) == Search(f, target, EligibleOf(ms[k..], target), ps, d)
    {
      assert ms[k..][1..] == ms[k + 1..];
      if Eligible(target, ms[k]) {
        var c := ms[k].sym;
        var rest := EligibleOf(ms[k + 1..], target);
        assert EligibleOf(ms[k..], target) == [c] + rest;
        assert ([c] + rest)[1..] == rest;
        var ok := CheckShape(f, c, target, ps);
        if ok {
          var s := FillDictionary(f, c, ps, d);
          match s {
            case Accepted(d') => return Ok(Some(Match(c, d')));
            case Failed(e) => return Err(e);
            case Rejected(d') =>
              assert Search(f, target, [c] + rest, ps, d) == Search(f, target, rest, ps, d');
              d := d';
          }
        } else {
          assert Search(f, target, [c] + rest, ps, d) == Search(f, target, rest, ps, d);
        }
      } else {
        assert EligibleOf(ms[k..], target) == EligibleOf(ms[k + 1..], target);
      }
      k := k + 1;
    }
    assert ms[|ms|..] == [];
    return Ok(None);
  }
}
