/** Node identity across rewrites: TrackNodes, GetCurrentNode, InsertNodesBefore
    and ReplaceNode, modelled over node ids. A node carries the tracking
    annotation when its `tracked` flag is set; a node built from the original,
    untracked tree carries none. */
module Tracking {
  import opened Wrappers
  import opened Syntax

  /** TrackNodes: annotate every invocation whose id is in ids. */
  function Track(n: Node, ids: set<nat>): (r: Node)
    decreases Size(n), 0
  {
    var m := WithKids(n, TrackAll(Kids(n), ids));
    if m.Call? && m.id in ids then m.(tracked := true) else m
  }

  function TrackAll(ks: seq<Node>, ids: set<nat>): (r: seq<Node>)
    ensures |r| == |ks|
    decreases SizeAll(ks), 1
  {
    if ks == [] then [] else [Track(ks[0], ids)] + TrackAll(ks[1..], ids)
  }

  predicate IsTrackedCall(n: Node, id: nat) {
    n.Call? && n.tracked && n.id == id
  }

  /** The statement `call;` whose call is the tracked node. */
  predicate IsTargetStmt(n: Node, id: nat) {
    n.ExprStmt? && IsTrackedCall(n.expr, id)
  }

  /** GetCurrentNode finds a node: the tracked invocation occurs in n. */
  predicate HasTracked(n: Node, id: nat)
    decreases Size(n), 0
  {
    IsTrackedCall(n, id) || AnyTracked(Kids(n), id)
  }

  predicate AnyTracked(ks: seq<Node>, id: nat)
    decreases SizeAll(ks), 1
  {
    ks != [] && (HasTracked(ks[0], id) || AnyTracked(ks[1..], id))
  }

  /** The tracked invocation's parent is an expression statement. */
  predicate InStatement(n: Node, id: nat)
    decreases Size(n), 0
  {
    IsTargetStmt(n, id) || AnyInStatement(Kids(n), id)
  }

  predicate AnyInStatement(ks: seq<Node>, id: nat)
    decreases SizeAll(ks), 1
  {
    ks != [] && (InStatement(ks[0], id) || AnyInStatement(ks[1..], id))
  }

  /** ReplaceNode: the tracked invocation becomes repl. */
  function ReplaceTracked(n: Node, id: nat, repl: Node): Node
    decreases Size(n), 0
  {
    if IsTrackedCall(n, id) then repl else WithKids(n, ReplaceAll(Kids(n), id, repl))
  }

  function ReplaceAll(ks: seq<Node>, id: nat, repl: Node): (r: seq<Node>)
    ensures |r| == |ks|
    decreases SizeAll(ks), 1
  {
    if ks == [] then [] else [ReplaceTracked(ks[0], id, repl)] + ReplaceAll(ks[1..], id, repl)
  }

  /** InsertNodesBefore(statement, inits): inits go into the statement list that
      holds the tracked invocation's statement, immediately before it. Met
      anywhere but in a statement list, that statement makes it throw. */
  function InsertBefore(n: Node, id: nat, inits: seq<Node>): (r: Result<Node>)
    decreases Size(n), 0
  {
    if IsTargetStmt(n, id) then Err(NotListElement)
    else if n.Block? then
      var ss :- InsertInList(n.stmts, id, inits);
      Ok(Block(ss))
    else
      var ks :- InsertAll(Kids(n), id, inits);
      Ok(WithKids(n, ks))
  }

  function InsertAll(ks: seq<Node>, id: nat, inits: seq<Node>): (r: Result<seq<Node>>)
    ensures r.Ok? ==> |r.value| == |ks|
    decreases SizeAll(ks), 1
  {
    if ks == [] then Ok([])
    else
      var h :- InsertBefore(ks[0], id, inits);
      var t :- InsertAll(ks[1..], id, inits);
      Ok([h] + t)
  }

  function InsertInList(ss: seq<Node>, id: nat, inits: seq<Node>): (r: Result<seq<Node>>)
    decreases SizeAll(ss), 1
  {
    if ss == [] then Ok([])
    else if IsTargetStmt(ss[0], id) then
      var t :- InsertInList(ss[1..], id, inits);
      Ok(inits + [ss[0]] + t)
    else
      var h :- InsertBefore(ss[0], id, inits);
      var t :- InsertInList(ss[1..], id, inits);
      Ok([h] + t)
  }

  /** A tree without the tracked invocation is left alone by InsertBefore. */
  lemma {:induction false} InsertWithoutTarget(n: Node, id: nat, inits: seq<Node>)
    requires !HasTracked(n, id)
    ensures InsertBefore(n, id, inits) == Ok(n)
    decreases Size(n), 0
  {
    if n.Block? {
      assert Kids(n) == n.stmts;
      InsertListWithoutTarget(n.stmts, id, inits);
    } else {
      InsertAllWithoutTarget(Kids(n), id, inits);
    }
  }

  lemma {:induction false} InsertAllWithoutTarget(ks: seq<Node>, id: nat, inits: seq<Node>)
    requires !AnyTracked(ks, id)
    ensures InsertAll(ks, id, inits) == Ok(ks)
    decreases SizeAll(ks), 1
  {
    if ks != [] {
      InsertWithoutTarget(ks[0], id, inits);
      InsertAllWithoutTarget(ks[1..], id, inits);
      assert [ks[0]] + ks[1..] == ks;
    }
  }

  lemma {:induction false} InsertListWithoutTarget(ss: seq<Node>, id: nat, inits: seq<Node>)
    requires !AnyTracked(ss, id)
    ensures InsertInList(ss, id, inits) == Ok(ss)
    decreases SizeAll(ss), 1
  {
    if ss != [] {
      assert !IsTargetStmt(ss[0], id) by {
        if IsTargetStmt(ss[0], id) {
          assert Kids(ss[0]) == [ss[0].expr];
          assert HasTracked(ss[0], id);
        }
      }
      InsertWithoutTarget(ss[0], id, inits);
      InsertListWithoutTarget(ss[1..], id, inits);
      assert [ss[0]] + ss[1..] == ss;
    }
  }

  /** No statement of ss holds the tracked invocation. */
  predicate NoneTracked(ss: seq<Node>, id: nat) {
    forall j :: 0 <= j < |ss| ==> !HasTracked(ss[j], id)
  }

  lemma NoneTrackedNotAny(ss: seq<Node>, id: nat)
    requires NoneTracked(ss, id)
    ensures !AnyTracked(ss, id)
  {
    if AnyTracked(ss, id) {
      var j := TrackedWitness(ss, id);
    }
  }

  lemma TargetIsTracked(s: Node, id: nat)
    requires IsTargetStmt(s, id)
    ensures HasTracked(s, id)
  {
    assert Kids(s) == [s.expr];
  }

  lemma {:induction false} InsertInListHead(ss: seq<Node>, id: nat, inits: seq<Node>)
    requires ss != [] && IsTargetStmt(ss[0], id) && NoneTracked(ss[1..], id)
    ensures InsertInList(ss, id, inits) == Ok(inits + ss)
  {
    NoneTrackedNotAny(ss[1..], id);
    InsertListWithoutTarget(ss[1..], id, inits);
    assert inits + [ss[0]] + ss[1..] == inits + ss;
  }

  /** A first statement without the tracked invocation is kept ahead of the rest. */
  lemma InsertInListCons(ss: seq<Node>, id: nat, inits: seq<Node>, t: seq<Node>)
    requires ss != [] && !HasTracked(ss[0], id) && InsertInList(ss[1..], id, inits) == Ok(t)
    ensures InsertInList(ss, id, inits) == Ok([ss[0]] + t)
  {
    assert !IsTargetStmt(ss[0], id) by {
      if IsTargetStmt(ss[0], id) {
        TargetIsTracked(ss[0], id);
      }
    }
    InsertWithoutTarget(ss[0], id, inits);
  }

  lemma NoneTrackedTail(ss: seq<Node>, k: nat, id: nat)
    requires 0 < k < |ss| && NoneTracked(ss[..k], id)
    ensures NoneTracked(ss[1..][..k - 1], id)
  {
    var tail := ss[1..][..k - 1];
    forall j | 0 <= j < |tail| ensures !HasTracked(tail[j], id) {
      assert tail[j] == ss[..k][j + 1];
    }
  }

  /** The step of InsertInListAt past a first statement that is not the target. */
  lemma InsertInListStep(ss: seq<Node>, k: nat, id: nat, inits: seq<Node>)
    requires 0 < k < |ss| && NoneTracked(ss[..k], id)
    requires InsertInList(ss[1..], id, inits) == Ok(ss[1..][..k - 1] + inits + ss[1..][k - 1..])
    ensures InsertInList(ss, id, inits) == Ok(ss[..k] + inits + ss[k..])
  {
    var rest := ss[1..];
    assert !HasTracked(ss[..k][0], id);
    assert ss[0] == ss[..k][0];
    InsertInListCons(ss, id, inits, rest[..k - 1] + inits + rest[k - 1..]);
    assert ss[..k] == [ss[0]] + rest[..k - 1];
    assert ss[k..] == rest[k - 1..];
    assert ss[..k] + inits + ss[k..] == [ss[0]] + (rest[..k - 1] + inits + rest[k - 1..]);
  }

  lemma {:induction false} InsertInListAt(ss: seq<Node>, k: nat, id: nat, inits: seq<Node>)
    requires k < |ss| && IsTargetStmt(ss[k], id)
    requires NoneTracked(ss[..k], id) && NoneTracked(ss[k + 1..], id)
    ensures InsertInList(ss, id, inits) == Ok(ss[..k] + inits + ss[k..])
    decreases k
  {
    if k == 0 {
      assert ss[1..] == ss[k + 1..];
      InsertInListHead(ss, id, inits);
      assert ss[..k] + inits + ss[k..] == inits + ss;
    } else {
      NoneTrackedTail(ss, k, id);
      assert ss[1..][k..] == ss[k + 1..];
      InsertInListAt(ss[1..], k - 1, id, inits);
      InsertInListStep(ss, k, id, inits);
    }
  }

  lemma TrackedWitness(ks: seq<Node>, id: nat) returns (j: nat)
    requires AnyTracked(ks, id)
    ensures j < |ks| && HasTracked(ks[j], id)
    decreases |ks|
  {
    if HasTracked(ks[0], id) {
      j := 0;
    } else {
      var j' := TrackedWitness(ks[1..], id);
      j := j' + 1;
    }
  }

  /** When the tracked statement sits directly in a block whose other statements
      do not hold the tracked invocation, the inits go immediately before it and
      nothing else changes. */
  lemma InsertBeforeAt(ss: seq<Node>, k: nat, id: nat, inits: seq<Node>)
    requires k < |ss| && IsTargetStmt(ss[k], id)
    requires NoneTracked(ss[..k], id) && NoneTracked(ss[k + 1..], id)
    ensures InsertBefore(Block(ss), id, inits) == Ok(Block(ss[..k] + inits + ss[k..]))
  {
    InsertInListAt(ss, k, id, inits);
  }

  /** After ReplaceNode with an untracked node the tracked invocation is gone. */
  lemma {:induction false} ReplaceTrackedRemoves(n: Node, id: nat, repl: Node)
    requires !HasTracked(repl, id)
    ensures !HasTracked(ReplaceTracked(n, id, repl), id)
    decreases Size(n), 0
  {
    if !IsTrackedCall(n, id) {
      ReplaceAllRemoves(Kids(n), id, repl);
      var m := WithKids(n, ReplaceAll(Kids(n), id, repl));
      assert !IsTrackedCall(m, id);
    }
  }

  lemma {:induction false} ReplaceAllRemoves(ks: seq<Node>, id: nat, repl: Node)
    requires !HasTracked(repl, id)
    ensures !AnyTracked(ReplaceAll(ks, id, repl), id)
    decreases SizeAll(ks), 1
  {
    if ks != [] {
      ReplaceTrackedRemoves(ks[0], id, repl);
      ReplaceAllRemoves(ks[1..], id, repl);
      var r := ReplaceAll(ks, id, repl);
      assert r[0] == ReplaceTracked(ks[0], id, repl);
      assert r[1..] == ReplaceAll(ks[1..], id, repl);
    }
  }

  /** ReplaceNode leaves a tree without the tracked invocation as it is. */
  lemma {:induction false} ReplaceWithoutTarget(n: Node, id: nat, repl: Node)
    requires !HasTracked(n, id)
    ensures ReplaceTracked(n, id, repl) == n
    decreases Size(n), 0
  {
    ReplaceAllWithoutTarget(Kids(n), id, repl);
  }

  lemma {:induction false} ReplaceAllWithoutTarget(ks: seq<Node>, id: nat, repl: Node)
    requires !AnyTracked(ks, id)
    ensures ReplaceAll(ks, id, repl) == ks
    decreases SizeAll(ks), 1
  {
    if ks != [] {
      ReplaceWithoutTarget(ks[0], id, repl);
      ReplaceAllWithoutTarget(ks[1..], id, repl);
      assert [ks[0]] + ks[1..] == ks;
    }
  }
}
