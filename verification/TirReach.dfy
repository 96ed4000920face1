/** Reachability probes over a function body's instructions, and the path walked to a jump. */
module TirGraph {

  type Ref = nat

  datatype Elif = Elif(cond: Ref, body: seq<Ref>)

  datatype MatchArm = ExprArm(expr: Ref) | StmtArm(stmts: seq<Ref>)

  datatype ElseArm = NoElse | Else(stmts: seq<Ref>)

  /** Instruction shapes, as far as their operand and body-statement edges go. */
  datatype Inst =
    | Plain(operands: seq<Ref>)
    | IfStmt(cond: Ref, thenStmts: seq<Ref>, elifs: seq<Elif>, els: ElseArm)
    | WhileLoop(cond: Ref, body: seq<Ref>)
    | ForRange(start: Ref, end: Ref, body: seq<Ref>)
    | Match(scrutinee: Ref, arms: seq<MatchArm>)

  function ElifChildren(elifs: seq<Elif>): seq<Ref> {
    if elifs == [] then [] else [elifs[0].cond] + elifs[0].body + ElifChildren(elifs[1..])
  }

  function ArmChildren(arms: seq<MatchArm>): seq<Ref> {
    if arms == [] then []
    else (match arms[0] case ExprArm(e) => [e] case StmtArm(stmts) => stmts) + ArmChildren(arms[1..])
  }

  function ElseChildren(els: ElseArm): seq<Ref> {
    match els case NoElse => [] case Else(stmts) => stmts
  }

  /** `walk_operands`: every operand and body-statement edge, in source order. */
  function Children(inst: Inst): seq<Ref> {
    match inst
    case Plain(operands) => operands
    case IfStmt(cond, thenStmts, elifs, els) => [cond] + thenStmts + ElifChildren(elifs) + ElseChildren(els)
    case WhileLoop(cond, body) => [cond] + body
    case ForRange(start, end, body) => [start, end] + body
    case Match(scrutinee, arms) => [scrutinee] + ArmChildren(arms)
  }

  // ---------- The children of each instruction, from its own parts ----------

  /** One elif contributes its condition and then its statements, and a list what its parts do, in order. */
  lemma {:induction false} ElifsJoin(a: seq<Elif>, b: seq<Elif>, e: Elif)
    ensures ElifChildren([]) == [] && ElifChildren([e]) == [e.cond] + e.body
    ensures ElifChildren(a + b) == ElifChildren(a) + ElifChildren(b)
  {
    assert [e][1..] == [] && ElifChildren([]) == [];
    if a == [] {
      assert a + b == b;
    } else {
      ElifsJoin(a[1..], b, e);
      assert (a + b)[1..] == a[1..] + b;
    }
  }

  /** A match arm contributes its expression, or all its statements, and a list what its arms do, in order. */
  lemma {:induction false} ArmsJoin(a: seq<MatchArm>, b: seq<MatchArm>, e: Ref, stmts: seq<Ref>)
    ensures ArmChildren([]) == [] && ArmChildren([ExprArm(e)]) == [e] && ArmChildren([StmtArm(stmts)]) == stmts
    ensures ArmChildren(a + b) == ArmChildren(a) + ArmChildren(b)
  {
    assert [ExprArm(e)][1..] == [] && [StmtArm(stmts)][1..] == [] && ArmChildren([]) == [];
    if a == [] {
      assert a + b == b;
    } else {
      ArmsJoin(a[1..], b, e, stmts);
      assert (a + b)[1..] == a[1..] + b;
    }
  }

  /** What an instruction refers to, shape by shape. */
  lemma ChildrenExact(inst: Inst, r: Ref)
    ensures inst.Plain? ==> Children(inst) == inst.operands
    ensures inst.WhileLoop? ==> Children(inst) == [inst.cond] + inst.body
    ensures inst.ForRange? ==> Children(inst) == [inst.start, inst.end] + inst.body
    ensures inst.IfStmt? ==>
              (r in Children(inst) <==>
                || r == inst.cond || r in inst.thenStmts || (inst.els.Else? && r in inst.els.stmts)
                || exists k :: 0 <= k < |inst.elifs| && (r == inst.elifs[k].cond || r in inst.elifs[k].body))
    ensures inst.Match? ==>
              (r in Children(inst) <==>
                || r == inst.scrutinee
                || exists k :: 0 <= k < |inst.arms|
                               && (inst.arms[k] == ExprArm(r) || (inst.arms[k].StmtArm? && r in inst.arms[k].stmts)))
  {
    match inst
    case IfStmt(_, _, elifs, _) => InElifs(elifs, r);
    case Match(_, arms) => InArms(arms, r);
    case _ =>
  }

  lemma {:induction false} InElifs(elifs: seq<Elif>, r: Ref)
    ensures r in ElifChildren(elifs) <==>
            exists k :: 0 <= k < |elifs| && (r == elifs[k].cond || r in elifs[k].body)
  {
    if elifs != [] {
      InElifs(elifs[1..], r);
      if k :| 0 <= k < |elifs| && (r == elifs[k].cond || r in elifs[k].body) {
        assert k > 0 ==> elifs[1..][k-1] == elifs[k];
      }
      if k :| 0 <= k < |elifs[1..]| && (r == elifs[1..][k].cond || r in elifs[1..][k].body) {
        assert elifs[k+1] == elifs[1..][k];
      }
    }
  }

  lemma {:induction false} InArms(arms: seq<MatchArm>, r: Ref)
    ensures r in ArmChildren(arms) <==>
            exists k :: 0 <= k < |arms| && (arms[k] == ExprArm(r) || (arms[k].StmtArm? && r in arms[k].stmts))
  {
    if arms != [] {
      InArms(arms[1..], r);
      if k :| 0 <= k < |arms| && (arms[k] == ExprArm(r) || (arms[k].StmtArm? && r in arms[k].stmts)) {
        assert k > 0 ==> arms[1..][k-1] == arms[k];
      }
      var rest := arms[1..];
      if k :| 0 <= k < |rest| && (rest[k] == ExprArm(r) || (rest[k].StmtArm? && r in rest[k].stmts)) {
        assert arms[k+1] == rest[k];
      }
    }
  }

  /** The order and the number of children of an if statement and of a match. */
  lemma ChildrenInOrder(inst: Inst)
    ensures inst.IfStmt? ==>
              var n, m := |inst.thenStmts|, |ElifChildren(inst.elifs)|;
              && Children(inst)[0] == inst.cond && Children(inst)[1..1+n] == inst.thenStmts
              && Children(inst)[1+n..1+n+m] == ElifChildren(inst.elifs)
              && Children(inst)[1+n+m..] == if inst.els.Else? then inst.els.stmts else []
    ensures inst.Match? ==> Children(inst)[0] == inst.scrutinee && Children(inst)[1..] == ArmChildren(inst.arms)
  {
  }

  /** A body under construction only refers to instructions already pushed. */
  ghost predicate Backward(insts: seq<Inst>) {
    forall r, c :: 0 <= r < |insts| && c in Children(insts[r]) ==> c < r
  }

  type Tir = t: seq<Inst> | Backward(t) ghost witness []

  // ---------- Reachability ----------

  ghost predicate Walk(t: Tir, p: seq<Ref>) {
    && |p| > 0 && (forall i :: 0 <= i < |p| ==> p[i] < |t|)
    && forall i, j :: 0 <= i < j < |p| && j == i + 1 ==> p[j] in Children(t[p[i]])
  }

  /** Plain reachability: some chain of edges leads from `a` to `b`. */
  ghost predicate Reaches(t: Tir, a: Ref, b: Ref) {
    exists p :: Walk(t, p) && p[0] == a && p[|p|-1] == b
  }

  ghost function ReachSet(t: Tir, r: Ref): set<Ref>
    requires r < |t|
    decreases r
  {
    {r} + ReachAll(t, Children(t[r]), r)
  }

  /** What a list of refs, all below `bound`, reaches. */
  ghost function ReachAll(t: Tir, refs: seq<Ref>, bound: nat): set<Ref>
    requires bound <= |t|
    decreases bound, |refs|
  {
    if refs == [] then {}
    else (if refs[0] < bound then ReachSet(t, refs[0]) else {}) + ReachAll(t, refs[1..], bound)
  }

  ghost predicate Below(refs: seq<Ref>, bound: nat) { forall i :: 0 <= i < |refs| ==> refs[i] < bound }

  lemma {:induction false} InReachAll(t: Tir, refs: seq<Ref>, bound: nat, x: Ref)
    requires bound <= |t|
    ensures x in ReachAll(t, refs, bound) <==> exists c :: c in refs && c < bound && x in ReachSet(t, c)
    decreases |refs|
  {
    if refs != [] {
      InReachAll(t, refs[1..], bound, x);
      assert forall c :: c in refs <==> c == refs[0] || c in refs[1..];
      if x in ReachAll(t, refs[1..], bound) {
        var c :| c in refs[1..] && c < bound && x in ReachSet(t, c);
        assert c in refs;
      } else if refs[0] < bound && x in ReachSet(t, refs[0]) {
        assert refs[0] in refs;
      }
    }
  }

  lemma ChildReach(t: Tir, r: Ref, x: Ref)
    requires r < |t|
    ensures x in ReachSet(t, r) <==> x == r || exists c :: c in Children(t[r]) && c < r && x in ReachSet(t, c)
  {
    InReachAll(t, Children(t[r]), r, x);
  }

  lemma {:induction false} ReachBelow(t: Tir, r: Ref)
    requires r < |t|
    ensures forall x :: x in ReachSet(t, r) ==> x <= r
    decreases r
  {
    forall x | x in ReachSet(t, r) ensures x <= r {
      ChildReach(t, r, x);
      if x != r {
        var c :| c in Children(t[r]) && c < r && x in ReachSet(t, c);
        ReachBelow(t, c);
      }
    }
  }

  /** The recursive set is plain reachability. */
  lemma ReachSetExact(t: Tir, a: Ref, b: Ref)
    requires a < |t|
    ensures b in ReachSet(t, a) <==> Reaches(t, a, b)
  {
    hide ReachSet, Reaches;
    if b in ReachSet(t, a) { ReachedByWalk(t, a, b); }
    if Reaches(t, a, b) { WalkReached(t, a, b); }
  }

  lemma WalkLonger(t: Tir, a: Ref, c: Ref, b: Ref)
    requires a < |t| && c in Children(t[a]) && Reaches(t, c, b)
    ensures Reaches(t, a, b)
  {
    hide Children;
    var p :| Walk(t, p) && p[0] == c && p[|p|-1] == b;
    var q := [a] + p;
    assert forall k, j :: 0 <= k < j < |q| && j == k + 1 ==> k == 0 || (q[k] == p[k-1] && q[j] == p[j-1]);
    assert Walk(t, q) && q[0] == a && q[|q|-1] == b;
  }

  lemma {:induction false} ReachedByWalk(t: Tir, a: Ref, b: Ref)
    requires a < |t| && b in ReachSet(t, a)
    ensures Reaches(t, a, b)
    decreases a
  {
    hide ReachSet, Children;
    ChildReach(t, a, b);
    if b == a {
      assert Walk(t, [a]);
    } else {
      var c :| c in Children(t[a]) && c < a && b in ReachSet(t, c);
      ReachedByWalk(t, c, b);
      WalkLonger(t, a, c, b);
    }
  }

  lemma {:induction false} WalkReached(t: Tir, a: Ref, b: Ref)
    requires a < |t| && Reaches(t, a, b)
    ensures b in ReachSet(t, a)
    decreases a
  {
    hide ReachSet, Children;
    ChildReach(t, a, b);
    var p :| Walk(t, p) && p[0] == a && p[|p|-1] == b;
    if |p| > 1 {
      assert p[1] in Children(t[a]) && p[1] < a;
      assert Walk(t, p[1..]);
      WalkReached(t, p[1], b);
    }
  }

  lemma {:induction false} ReachTransitive(t: Tir, a: Ref, b: Ref)
    requires a < |t| && b in ReachSet(t, a)
    ensures b < |t| && ReachSet(t, b) <= ReachSet(t, a)
    decreases a
  {
    ReachBelow(t, a);
    if b != a {
      ChildReach(t, a, b);
      var cs := Children(t[a]);
      var c :| c in cs && c < a && b in ReachSet(t, c);
      ReachTransitive(t, c, b);
      forall x | x in ReachSet(t, b) ensures x in ReachSet(t, a) {
        ChildReach(t, a, x);
      }
    }
  }

  /** Number of edges walked from `r` when shared subtrees are walked once per parent. */
  ghost function Weight(t: Tir, r: Ref): nat
    requires r < |t|
    decreases r
  {
    1 + WeightAll(t, Children(t[r]), r)
  }

  ghost function WeightAll(t: Tir, refs: seq<Ref>, bound: nat): nat
    requires bound <= |t|
    decreases bound, |refs|
  {
    if refs == [] then 0
    else (if refs[0] < bound then Weight(t, refs[0]) else 0) + WeightAll(t, refs[1..], bound)
  }

  lemma {:induction false} WeightAppend(t: Tir, a: seq<Ref>, b: seq<Ref>, bound: nat)
    requires bound <= |t|
    ensures WeightAll(t, a + b, bound) == WeightAll(t, a, bound) + WeightAll(t, b, bound)
    decreases |a|
  {
    if a == [] {
      assert a + b == b;
    } else {
      assert (a + b)[1..] == a[1..] + b;
      WeightAppend(t, a[1..], b, bound);
    }
  }

  lemma {:induction false} WeightBound(t: Tir, refs: seq<Ref>, low: nat, high: nat)
    requires low <= high <= |t| && Below(refs, low)
    ensures WeightAll(t, refs, low) == WeightAll(t, refs, high)
    decreases |refs|
  {
    if refs != [] { WeightBound(t, refs[1..], low, high); }
  }
}

module TirReach {
  import opened TirGraph
  import opened TreeShape
  import opened Common
  import opened Spine

  const INLINE: nat := 32

  ghost predicate StackHits(t: Tir, stack: seq<Ref>, target: Ref)
  {
    exists c :: c in stack && c < |t| && target in ReachSet(t, c)
  }

  /** One probe step: the popped instruction's children replace it. */
  lemma ProbeStep(t: Tir, base: seq<Ref>, x: Ref, target: Ref)
    requires Below(base + [x], |t|) && x != target
    ensures x < |t| && Below(base + Children(t[x]), |t|)
    ensures StackHits(t, base + [x], target) <==> StackHits(t, base + Children(t[x]), target)
    ensures WeightAll(t, base + Children(t[x]), |t|) < WeightAll(t, base + [x], |t|)
  {
    hide ReachSet, Children;
    assert (base + [x])[|base|] == x;
    var cs := Children(t[x]);
    assert Below(cs, x) by { ChildrenBelow(t, x); }
    assert forall i :: 0 <= i < |base| ==> base[i] == (base + [x])[i];
    ChildReach(t, x, target);
    assert StackHits(t, base + [x], target) <==> StackHits(t, base, target) || target in ReachSet(t, x);
    assert StackHits(t, base + cs, target) <==> StackHits(t, base, target) || StackHits(t, cs, target);
    ProbeWeight(t, base, x);
  }

  lemma ChildrenBelow(t: Tir, x: Ref)
    requires x < |t|
    ensures Below(Children(t[x]), x)
  {
    assert forall i :: 0 <= i < |Children(t[x])| ==> Children(t[x])[i] in Children(t[x]);
  }

  lemma ProbeWeight(t: Tir, base: seq<Ref>, x: Ref)
    requires x < |t|
    ensures WeightAll(t, base + Children(t[x]), |t|) < WeightAll(t, base + [x], |t|)
  {
    var cs := Children(t[x]);
    ChildrenBelow(t, x);
    WeightAppend(t, base, cs, |t|);
    WeightAppend(t, base, [x], |t|);
    assert WeightAll(t, [x], |t|) == Weight(t, x) + WeightAll(t, [x][1..], |t|);
    WeightBound(t, cs, x, |t|);
  }

  lemma FoundHits(t: Tir, base: seq<Ref>, x: Ref, target: Ref)
    requires x < |t| && target in Children(t[x])
    ensures StackHits(t, base + [x], target)
  {
    ChildReach(t, x, target);
    ChildReach(t, target, target);
    assert x in base + [x];
  }

  lemma OneHits(t: Tir, root: Ref, target: Ref)
    requires root < |t|
    ensures StackHits(t, [root], target) <==> target in ReachSet(t, root)
    ensures !StackHits(t, [], target)
  {
  }

  /** `contains_reachable`: a fixed 32-slot stack, restarted on the heap when it overflows. A walk that finds
      nothing has popped all that is reachable, and over a tree each walk pops an instruction at most once. */
  method ContainsReachable(t: Tir, root: Ref, target: Ref)
    returns (found: bool, ghost popped: seq<Ref>, ghost again: seq<Ref>)
    requires root < |t|
    ensures found <==> Reaches(t, root, target)
    ensures TreeAt(t, root) ==> NoRepeats(popped) && NoRepeats(again)
    ensures !found ==> Refs(popped) == ReachSet(t, root) || Refs(again) == ReachSet(t, root)
  {
    hide ReachSet, Children, WeightAll, StackHits, Reaches, TreeAt, Fresh, Explored, Refs;
    popped, again := [], [];
    ReachSetExact(t, root, target);
    ChildReach(t, root, target);
    if root == target { return true, [], []; }
    var stack := new Ref[INLINE](_ => root);
    var len: nat := 1;
    assert stack[..1] == [root];
    ExploreStart(t, root);
    if TreeAt(t, root) { FreshStart(t, root); }
    OneHits(t, root, target);
    while len > 0
      invariant len <= INLINE && Below(stack[..len], |t|) && target !in stack[..len]
      invariant Reaches(t, root, target) <==> StackHits(t, stack[..len], target)
      invariant Explored(t, root, stack[..len], popped) && (TreeAt(t, root) ==> Fresh(t, stack[..len], popped))
      decreases WeightAll(t, stack[..len], |t|)
    {
      ghost var before := stack[..len];
      len := len - 1;
      var x := stack[len];
      ghost var base := stack[..len];
      assert before == base + [x];
      ProbeStep(t, base, x, target);
      ExploreStep(t, root, base, x, popped);
      if TreeAt(t, root) { PopOnce(t, base, x, popped); }
      popped := popped + [x];
      if TreeAt(t, root) { FreshPopped(t, base + Children(t[x]), popped); }
      var overflow := false;
      found, overflow, len := PushChildren(stack, len, Children(t[x]), target);
      if found {
        FoundHits(t, base, x, target);
        return true, popped, [];
      }
      if overflow {
        found, again := ContainsReachableDeep(t, root, target);
        return;
      }
    }
    assert stack[..len] == [];
    ExploreEnd(t, root, popped);
    if TreeAt(t, root) { FreshPopped(t, [], popped); }
    return false, popped, [];
  }

  /** The visitor of one step: remembers a hit, stacks the rest, flags a full stack. */
  method PushChildren(stack: array<Ref>, len0: nat, cs: seq<Ref>, target: Ref)
    returns (found: bool, overflow: bool, len: nat)
    requires stack.Length == INLINE && len0 <= INLINE && target !in stack[..len0]
    modifies stack
    ensures len0 <= len <= INLINE && (found <==> target in cs)
    ensures !found && !overflow ==> stack[..len] == old(stack[..len0]) + cs
    ensures overflow ==> len0 + |cs| > INLINE
    ensures target !in stack[..len]
  {
    found, overflow, len := false, false, len0;
    for k := 0 to |cs|
      invariant len0 <= len <= INLINE && (found <==> target in cs[..k])
      invariant !found && !overflow ==> stack[..len] == old(stack[..len0]) + cs[..k]
      invariant len <= len0 + k && (overflow ==> len0 + k > INLINE)
      invariant target !in stack[..len]
    {
      var child := cs[k];
      assert cs[..k+1] == cs[..k] + [child];
      if child == target {
        found := true;
      } else if len < INLINE {
        ghost var prev := stack[..len];
        stack[len] := child;
        len := len + 1;
        assert stack[..len] == prev + [child];
      } else {
        overflow := true;
      }
    }
    assert cs[..|cs|] == cs;
  }

  /** `contains_reachable_deep`: the same probe on a growing stack. */
  method ContainsReachableDeep(t: Tir, root: Ref, target: Ref) returns (found: bool, ghost popped: seq<Ref>)
    requires root < |t| && root != target
    ensures found <==> Reaches(t, root, target)
    ensures TreeAt(t, root) ==> NoRepeats(popped)
    ensures !found ==> Refs(popped) == ReachSet(t, root)
  {
    hide ReachSet, Children, WeightAll, StackHits, Reaches, TreeAt, Fresh, Explored, Refs;
    popped := [];
    ExploreStart(t, root);
    if TreeAt(t, root) { FreshStart(t, root); }
    ReachSetExact(t, root, target);
    OneHits(t, root, target);
    var stack := [root];
    while stack != []
      invariant Below(stack, |t|) && target !in stack
      invariant Reaches(t, root, target) <==> StackHits(t, stack, target)
      invariant Explored(t, root, stack, popped) && (TreeAt(t, root) ==> Fresh(t, stack, popped))
      decreases WeightAll(t, stack, |t|)
    {
      var x := stack[|stack|-1];
      ghost var base := stack[..|stack|-1];
      assert stack == base + [x];
      ProbeStep(t, base, x, target);
      ExploreStep(t, root, base, x, popped);
      if TreeAt(t, root) { PopOnce(t, base, x, popped); }
      popped := popped + [x];
      if TreeAt(t, root) { FreshPopped(t, base + Children(t[x]), popped); }
      stack := stack[..|stack|-1];
      found := false;
      var cs := Children(t[x]);
      for k := 0 to |cs|
        invariant found <==> target in cs[..k]
        invariant !found ==> stack == base + cs[..k]
      {
        assert cs[..k+1] == cs[..k] + [cs[k]];
        if cs[k] == target { found := true; } else { stack := stack + [cs[k]]; }
      }
      assert cs[..|cs|] == cs;
      if found {
        FoundHits(t, base, x, target);
        return;
      }
    }
    ExploreEnd(t, root, popped);
    if TreeAt(t, root) { FreshPopped(t, [], popped); }
    found := false;
  }

  // ---------- Collecting the reachable set ----------

  class RefSet {
    var refs: set<Ref>

    constructor ()
      ensures refs == {}
    {
      refs := {};
    }

    /** `HashSet::insert`: true when the element is new. */
    method Insert(r: Ref) returns (isNew: bool)
      modifies this
      ensures refs == old(refs) + {r} && (isNew <==> r !in old(refs))
    {
      isNew := r !in refs;
      refs := refs + {r};
    }
  }

  /** Every member up to `limit` has its children in the set too. */
  ghost predicate ClosedUpTo(t: Tir, s: set<Ref>, limit: nat) {
    forall x, c :: x in s && x <= limit && x < |t| && c in Children(t[x]) ==> c in s
  }

  ghost predicate ChildClosed(t: Tir, s: set<Ref>) {
    forall x, c :: x in s && x < |t| && c in Children(t[x]) ==> c in s
  }

  lemma {:induction false} ClosedContains(t: Tir, s: set<Ref>, r: Ref)
    requires r < |t| && r in s && ClosedUpTo(t, s, r)
    ensures ReachSet(t, r) <= s
    decreases r
  {
    forall x | x in ReachSet(t, r) ensures x in s {
      ChildReach(t, r, x);
      if x != r {
        var cs := Children(t[r]);
        var c :| c in cs && c < r && x in ReachSet(t, c);
        ClosedContains(t, s, c);
      }
    }
  }

  lemma ReachSetClosed(t: Tir, r: Ref)
    requires r < |t|
    ensures ChildClosed(t, ReachSet(t, r))
  {
    forall x, c | x in ReachSet(t, r) && x < |t| && c in Children(t[x]) ensures c in ReachSet(t, r) {
      ReachTransitive(t, r, x);
      ChildReach(t, x, c);
      ChildReach(t, c, c);
    }
  }

  const DEPTH_LIMIT: nat := 64

  /** `collect_reachable_d`: recursion down to the depth limit, an explicit stack beyond it.
      Members above `r` need not be closed, so a caller may have open ancestors in the set. */
  method CollectReachableD(t: Tir, r: Ref, s: RefSet, depth: nat)
    requires r < |t| && depth <= DEPTH_LIMIT && ClosedUpTo(t, s.refs, r)
    modifies s
    ensures s.refs == old(s.refs) + ReachSet(t, r)
    decreases r
  {
    hide ReachAll, ReachSet, Children;
    ghost var before := s.refs;
    ReachAllNone(t, r);
    ChildReach(t, r, r);
    var isNew := s.Insert(r);
    if !isNew {
      ClosedContains(t, s.refs, r);
      return;
    }
    if depth == DEPTH_LIMIT {
      CollectReachableStack(t, r, s);
      return;
    }
    var cs := Children(t[r]);
    for k := 0 to |cs|
      invariant s.refs == before + {r} + ReachAll(t, cs[..k], r)
    {
      assert cs[k] in cs;
      SiblingClosed(t, before, cs, k, r);
      CollectReachableD(t, cs[k], s, depth + 1);
      ReachAllNext(t, cs, k, r);
    }
    assert cs[..|cs|] == cs;
  }

  lemma ReachAllNone(t: Tir, r: Ref)
    requires r < |t|
    ensures ReachAll(t, [], r) == {} && ReachSet(t, r) == {r} + ReachAll(t, Children(t[r]), r)
  {
  }

  lemma ReachAllNext(t: Tir, cs: seq<Ref>, k: nat, r: Ref)
    requires k < |cs| && cs[k] < r <= |t|
    ensures ReachAll(t, cs[..k+1], r) == ReachAll(t, cs[..k], r) + ReachSet(t, cs[k])
  {
    assert cs[..k+1] == cs[..k] + [cs[k]];
    ReachAllAppend(t, cs[..k], [cs[k]], r);
    assert ReachAll(t, [cs[k]], r) == ReachSet(t, cs[k]) + ReachAll(t, [cs[k]][1..], r);
  }

  lemma SiblingClosed(t: Tir, before: set<Ref>, cs: seq<Ref>, k: nat, r: Ref)
    requires r < |t| && k < |cs| && cs == Children(t[r]) && ClosedUpTo(t, before, r)
    ensures cs[k] < r && ClosedUpTo(t, before + {r} + ReachAll(t, cs[..k], r), cs[k])
  {
    assert cs[k] in cs;
    var s := before + {r} + ReachAll(t, cs[..k], r);
    forall x, c | x in s && x <= cs[k] && x < |t| && c in Children(t[x]) ensures c in s {
      if x !in before {
        InReachAll(t, cs[..k], r, x);
        var y :| y in cs[..k] && y < r && x in ReachSet(t, y);
        ReachSetClosed(t, y);
        InReachAll(t, cs[..k], r, c);
      }
    }
  }

  /** All of `x`'s children are in the set; the new ones were stacked. */
  method Expand(t: Tir, x: Ref, s: RefSet, spine: ChainSpine<Ref>)
    requires x < |t| && spine.Valid()
    modifies s, spine, spine.slots
    ensures spine.Valid() && s.refs == old(s.refs) + (set c | c in Children(t[x]))
    ensures old(spine.Contents()) <= spine.Contents()
    ensures forall c :: c in spine.Contents() ==>
        c in old(spine.Contents()) || (c in Children(t[x]) && c !in old(s.refs))
    ensures forall c :: c in Children(t[x]) && c !in old(s.refs) ==> c in spine.Contents()
    ensures |spine.Contents()| > |old(spine.Contents())| ==> exists c :: c in Children(t[x]) && c !in old(s.refs)
  {
    var cs := Children(t[x]);
    for k := 0 to |cs|
      invariant spine.Valid() && s.refs == old(s.refs) + (set c | c in cs[..k])
      invariant old(spine.Contents()) <= spine.Contents()
      invariant forall c :: c in spine.Contents() ==> c in old(spine.Contents()) || (c in cs && c !in old(s.refs))
      invariant forall c :: c in cs[..k] && c !in old(s.refs) ==> c in spine.Contents()
      invariant |spine.Contents()| > |old(spine.Contents())| ==> exists c :: c in cs && c !in old(s.refs)
    {
      assert cs[..k+1] == cs[..k] + [cs[k]];
      var isNew := s.Insert(cs[k]);
      if isNew {
        assert cs[k] in cs && cs[k] !in old(s.refs);
        spine.Push(cs[k]);
      }
    }
    assert cs[..|cs|] == cs;
  }

  /** Members other than those still stacked have all their children in the set. */
  ghost predicate ClosedBut(t: Tir, s: set<Ref>, stacked: seq<Ref>, r: Ref) {
    forall x, c :: x in s && x <= r && x < |t| && x !in stacked && c in Children(t[x]) ==> c in s
  }

  lemma ExpandStep(t: Tir, r: Ref, x: Ref, before: set<Ref>, rest: seq<Ref>, after: set<Ref>, stacked: seq<Ref>)
    requires r < |t| && x in ReachSet(t, r) && x < |t|
    requires ClosedBut(t, before, rest + [x], r)
    requires after == before + (set c | c in Children(t[x])) && rest <= stacked
    requires forall c :: c in stacked ==> c in rest || (c in Children(t[x]) && c !in before)
    requires forall c :: c in Children(t[x]) && c !in before ==> c in stacked
    ensures ClosedBut(t, after, stacked, r)
    ensures forall c :: c in Children(t[x]) ==> c in ReachSet(t, r)
  {
    forall y, c | y in after && y <= r && y < |t| && y !in stacked && c in Children(t[y]) ensures c in after {
      if y != x {
        assert y in before && (y in rest + [x] ==> y in rest);
      }
    }
    forall c | c in Children(t[x]) ensures c in ReachSet(t, r) {
      ReachTransitive(t, r, x);
      ChildReach(t, x, c);
      ChildReach(t, c, c);
    }
  }

  /** The walk from `r` began with `before`; only what is stacked has still to be expanded. */
  ghost predicate Draining(t: Tir, r: Ref, before: set<Ref>, refs: set<Ref>, stacked: seq<Ref>)
    requires r < |t|
  {
    && before <= refs <= before + ReachSet(t, r) && ClosedBut(t, refs, stacked, r)
    && forall y :: y in stacked ==> y in ReachSet(t, r)
  }

  lemma DrainStart(t: Tir, r: Ref, before: set<Ref>)
    requires r < |t| && ClosedBut(t, before, [r], r)
    ensures Draining(t, r, before, before, [r])
  {
    hide ClosedBut;
    ChildReach(t, r, r);
  }

  lemma DrainStep(t: Tir, r: Ref, before: set<Ref>, refs: set<Ref>, rest: seq<Ref>, x: Ref, after: set<Ref>,
      stacked: seq<Ref>)
    requires r < |t| && Draining(t, r, before, refs, rest + [x]) && x < |t|
    requires after == refs + (set c | c in Children(t[x])) && rest <= stacked
    requires forall c :: c in stacked ==> c in rest || (c in Children(t[x]) && c !in refs)
    requires forall c :: c in Children(t[x]) && c !in refs ==> c in stacked
    requires |stacked| > |rest| ==> exists c :: c in Children(t[x]) && c !in refs
    ensures Draining(t, r, before, after, stacked)
    ensures ReachSet(t, r) - after <= ReachSet(t, r) - refs
    ensures |stacked| > |rest| ==> ReachSet(t, r) - after < ReachSet(t, r) - refs
  {
    hide ReachSet, Children, ClosedBut;
    assert x in rest + [x];
    assert forall y :: y in rest ==> y in rest + [x];
    ExpandStep(t, r, x, refs, rest, after, stacked);
    if |stacked| > |rest| {
      var c :| c in Children(t[x]) && c !in refs;
      assert c in (ReachSet(t, r) - refs) - (ReachSet(t, r) - after);
    }
  }

  lemma StackedBelow(t: Tir, r: Ref, before: set<Ref>, refs: set<Ref>, rest: seq<Ref>, x: Ref)
    requires r < |t| && Draining(t, r, before, refs, rest + [x])
    ensures x < |t|
  {
    hide ReachSet, ClosedBut;
    ReachBelow(t, r);
    assert x in rest + [x];
  }

  lemma DrainEnd(t: Tir, r: Ref, before: set<Ref>, refs: set<Ref>)
    requires r < |t| && r in before && Draining(t, r, before, refs, [])
    ensures refs == before + ReachSet(t, r)
  {
    hide ReachSet, Children;
    ClosedContains(t, refs, r);
  }

  /** The continuation past the depth limit; `r` is already in the set. */
  method CollectReachableStack(t: Tir, r: Ref, s: RefSet)
    requires r < |t| && r in s.refs && ClosedBut(t, s.refs, [r], r)
    modifies s
    ensures s.refs == old(s.refs) + ReachSet(t, r)
  {
    ghost var before := s.refs;
    DrainStart(t, r, before);
    hide ReachSet, Children, ClosedBut, Draining;
    var spine := new ChainSpine<Ref>();
    assert [] + [r] == [r];
    Expand(t, r, s, spine);
    DrainStep(t, r, before, before, [], r, s.refs, spine.Contents());
    var x := spine.Pop();
    while x.Some?
      invariant spine.Valid() && fresh(spine) && fresh(spine.slots)
      invariant Draining(t, r, before, s.refs, if x.Some? then spine.Contents() + [x.value] else [])
      decreases ReachSet(t, r) - s.refs, |spine.Contents()|, x.Some?
    {
      ghost var refs, rest := s.refs, spine.Contents();
      StackedBelow(t, r, before, refs, rest, x.value);
      Expand(t, x.value, s, spine);
      DrainStep(t, r, before, refs, rest, x.value, s.refs, spine.Contents());
      x := spine.Pop();
    }
    DrainEnd(t, r, before, s.refs);
  }

  /** `collect_reachable`: from an empty or child-closed set, exactly the reachable refs are
      added and the set stays child-closed. */
  method CollectReachable(t: Tir, r: Ref, s: RefSet)
    requires r < |t| && ClosedUpTo(t, s.refs, r)
    modifies s
    ensures s.refs == old(s.refs) + ReachSet(t, r)
    ensures ChildClosed(t, old(s.refs)) ==> ChildClosed(t, s.refs)
    ensures forall x :: x in s.refs <==> x in old(s.refs) || Reaches(t, r, x)
  {
    CollectReachableD(t, r, s, 0);
    ReachSetClosed(t, r);
    forall x ensures x in ReachSet(t, r) <==> Reaches(t, r, x) {
      ReachSetExact(t, r, x);
    }
  }
}
