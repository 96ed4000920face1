/** The refs evaluated on the way to a jump target: the walk down through if arms and loop bodies. */
module JumpPath {
  import opened TirGraph
  import opened TirReach
  import opened TreeShape

  // ---------- The debug walk ----------

  /** `validate_tree_shape`: the walk meets an instruction twice exactly when the body is no forest. */
  method ValidateTreeShape(t: Tir, body: seq<Ref>) returns (ok: bool)
    requires Below(body, |t|)
    ensures ok <==> TreeShaped(t, body)
  {
    hide Reached, ReachSet, Forest;
    var seen: set<Ref>, stack := {}, body;
    NoTrees(t);
    while stack != []
      invariant Below(stack, |t|) && forall r :: r in seen ==> r < |t|
      invariant TreeShaped(t, body) <==> TreeShaped(t, stack) && Reached(t, stack) !! seen
      decreases |t| - |seen|
    {
      var r, rest := stack[|stack|-1], stack[..|stack|-1];
      assert stack == rest + [r];
      if r in seen {
        ReachedAppend(t, rest, [r]);
        ReachedOne(t, r);
        ChildrenReached(t, r);
        return false;
      }
      PopIsFair(t, rest, r, seen);
      SeenFits(|t|, seen + {r});
      ChildrenBelowAll(t, rest, r);
      stack := rest + Children(t[r]);
      seen := seen + {r};
    }
    return true;
  }

  lemma {:induction false} SeenFits(n: nat, seen: set<Ref>)
    requires forall r :: r in seen ==> r < n
    ensures |seen| <= n
  {
    if n > 0 {
      SeenFits(n - 1, seen - {n - 1});
      if n - 1 in seen { assert seen == (seen - {n - 1}) + {n - 1}; } else { assert seen - {n - 1} == seen; }
    }
  }

  // ---------- Routes ----------

  /** An arm of an if statement, or a loop body. */
  datatype Arm = ThenArm | ElifArm(k: nat) | ElseArm | LoopArm

  /** How a target sits in a body: as a statement, inside an arm of one, or inside one but in none of its arms. */
  datatype Route = Here(i: nat) | Into(i: nat, arm: Arm, rest: Route) | Inside(i: nat)

  predicate HasArm(inst: Inst, arm: Arm) {
    match arm
    case ThenArm => inst.IfStmt?
    case ElifArm(k) => inst.IfStmt? && k < |inst.elifs|
    case ElseArm => inst.IfStmt? && inst.els.Else?
    case LoopArm => inst.WhileLoop? || inst.ForRange?
  }

  function ArmStmts(inst: Inst, arm: Arm): seq<Ref>
    requires HasArm(inst, arm)
  {
    match arm
    case ThenArm => inst.thenStmts
    case ElifArm(k) => inst.elifs[k].body
    case ElseArm => inst.els.stmts
    case LoopArm => inst.body
  }

  function Conds(elifs: seq<Elif>): seq<Ref> {
    if elifs == [] then [] else [elifs[0].cond] + Conds(elifs[1..])
  }

  function Bodies(elifs: seq<Elif>): seq<Ref> {
    if elifs == [] then [] else elifs[0].body + Bodies(elifs[1..])
  }

  /** Conditions and bounds evaluated before the arm is entered. */
  function RunBefore(inst: Inst, arm: Arm): seq<Ref>
    requires HasArm(inst, arm)
  {
    match arm
    case ThenArm => [inst.cond]
    case ElifArm(k) => [inst.cond] + Conds(inst.elifs[..k+1])
    case ElseArm => [inst.cond] + Conds(inst.elifs)
    case LoopArm => if inst.WhileLoop? then [inst.cond] else [inst.start, inst.end]
  }

  /** The arms not taken, and the conditions not reached. */
  function Untaken(inst: Inst, arm: Arm): seq<Ref>
    requires HasArm(inst, arm)
  {
    match arm
    case ThenArm => ElifChildren(inst.elifs) + ElseChildren(inst.els)
    case ElifArm(k) =>
      inst.thenStmts + Bodies(inst.elifs[..k]) + ElifChildren(inst.elifs[k+1..]) + ElseChildren(inst.els)
    case ElseArm => inst.thenStmts + Bodies(inst.elifs)
    case LoopArm => []
  }

  ghost predicate Leads(t: Tir, body: seq<Ref>, route: Route, target: Ref)
    decreases route
  {
    match route
    case Here(i) => i < |body| && body[i] == target && target < |t|
    case Into(i, arm, rest) =>
      i < |body| && body[i] < |t| && HasArm(t[body[i]], arm) && Leads(t, ArmStmts(t[body[i]], arm), rest, target)
    case Inside(i) => i < |body| && body[i] < |t| && OutsideArms(t, body[i], target)
  }

  /** The target lies in a statement, but in no arm of it: in a condition, a bound, or a statement without arms. */
  ghost predicate OutsideArms(t: Tir, stmt: Ref, target: Ref)
    requires stmt < |t|
  {
    && target != stmt && target in ReachSet(t, stmt)
    && forall arm :: HasArm(t[stmt], arm) ==> target !in Reached(t, ArmStmts(t[stmt], arm))
  }

  /** What the walk takes for the path to a target outside the arms: everything evaluated with the statement, but of
      an if only the conditions and the else branch. */
  ghost function Around(t: Tir, stmt: Ref): set<Ref>
    requires stmt < |t|
  {
    match t[stmt]
    case IfStmt(cond, _, elifs, els) => {stmt} + Reached(t, [cond] + Conds(elifs)) + Reached(t, ElseChildren(els))
    case _ => ReachSet(t, stmt)
  }

  /** Whether the walk says that it found the target. */
  ghost predicate Located(t: Tir, body: seq<Ref>, route: Route, target: Ref)
    requires Leads(t, body, route, target)
    decreases route
  {
    match route
    case Here(_) => true
    case Into(i, arm, rest) => Located(t, ArmStmts(t[body[i]], arm), rest, target)
    case Inside(i) => SaysFound(t[body[i]])
  }

  /** A target outside the arms counts as found unless an else branch or a loop body is searched for it at the end. */
  predicate SaysFound(inst: Inst) {
    match inst
    case IfStmt(_, _, _, els) => els.NoElse?
    case WhileLoop(_, _) => false
    case ForRange(_, _, _) => false
    case _ => true
  }

  /** The refs on the path: everything under the statements that precede it at each level, the
      enclosing statements, what they evaluate before the arm, and the target. */
  ghost function OnPath(t: Tir, body: seq<Ref>, route: Route, target: Ref): set<Ref>
    requires Leads(t, body, route, target)
    decreases route
  {
    match route
    case Here(i) => Reached(t, body[..i]) + {target}
    case Into(i, arm, rest) =>
      var inst := t[body[i]];
      Reached(t, body[..i]) + {body[i]} + Reached(t, RunBefore(inst, arm))
          + OnPath(t, ArmStmts(inst, arm), rest, target)
    case Inside(i) => Reached(t, body[..i]) + Around(t, body[i])
  }

  /** The refs of every arm not taken on the way. */
  ghost function OffPath(t: Tir, body: seq<Ref>, route: Route, target: Ref): set<Ref>
    requires Leads(t, body, route, target)
    decreases route
  {
    match route
    case Here(_) => {}
    case Into(i, arm, rest) =>
      Reached(t, Untaken(t[body[i]], arm)) + OffPath(t, ArmStmts(t[body[i]], arm), rest, target)
    case Inside(i) => Skipped(t, body[i])
  }

  /** The arms that the walk leaves out for a target outside the arms. */
  ghost function Skipped(t: Tir, stmt: Ref): set<Ref>
    requires stmt < |t|
  {
    match t[stmt]
    case IfStmt(_, thenStmts, elifs, _) => Reached(t, thenStmts + Bodies(elifs))
    case _ => {}
  }

  // ---------- The parts of a statement ----------

  lemma {:induction false} ElifConcat(a: seq<Elif>, b: seq<Elif>)
    ensures ElifChildren(a + b) == ElifChildren(a) + ElifChildren(b)
  {
    if a == [] {
      assert a + b == b;
    } else {
      assert (a + b)[1..] == a[1..] + b;
      ElifConcat(a[1..], b);
    }
  }

  lemma ElifSplit(elifs: seq<Elif>, k: nat)
    requires k < |elifs|
    ensures ElifChildren(elifs) ==
        ElifChildren(elifs[..k]) + ([elifs[k].cond] + elifs[k].body + ElifChildren(elifs[k+1..]))
  {
    assert elifs == elifs[..k] + elifs[k..] && elifs[k..][1..] == elifs[k+1..];
    ElifConcat(elifs[..k], elifs[k..]);
  }

  lemma {:induction false} CondsAppend(a: seq<Elif>, e: Elif)
    ensures Conds(a + [e]) == Conds(a) + [e.cond]
  {
    if a == [] {
      assert Conds([e]) == [e.cond] + Conds([e][1..]);
    } else {
      assert (a + [e])[1..] == a[1..] + [e];
      CondsAppend(a[1..], e);
    }
  }

  /** Conditions and bodies of elif branches are disjoint parts of the branches. */
  lemma {:induction false} ElifParts(t: Tir, elifs: seq<Elif>)
    requires TreeShaped(t, ElifChildren(elifs))
    ensures Reached(t, ElifChildren(elifs)) == Reached(t, Conds(elifs)) + Reached(t, Bodies(elifs))
    ensures Reached(t, Conds(elifs)) !! Reached(t, Bodies(elifs))
  {
    if elifs != [] {
      var e, rest := elifs[0], elifs[1..];
      ForestSplit(t, [e.cond] + e.body, ElifChildren(rest));
      ForestSplit(t, [e.cond], e.body);
      ElifParts(t, rest);
      ReachedAppend(t, [e.cond] + e.body, ElifChildren(rest));
      ReachedAppend(t, [e.cond], e.body);
      ReachedAppend(t, [e.cond], Conds(rest));
      ReachedAppend(t, e.body, Bodies(rest));
    }
  }

  /** What runs before an arm, the arm, and what is not taken are disjoint parts of a statement. */
  lemma ArmParts(t: Tir, r: Ref, arm: Arm)
    requires r < |t| && TreeAt(t, r) && HasArm(t[r], arm)
    ensures TreeShaped(t, ArmStmts(t[r], arm))
    ensures Reached(t, RunBefore(t[r], arm)) !! Reached(t, ArmStmts(t[r], arm))
    ensures Reached(t, Untaken(t[r], arm)) !! Reached(t, RunBefore(t[r], arm)) + Reached(t, ArmStmts(t[r], arm))
    ensures Reached(t, Children(t[r])) ==
        Reached(t, RunBefore(t[r], arm)) + Reached(t, ArmStmts(t[r], arm)) + Reached(t, Untaken(t[r], arm))
  {
    TreeShapedTree(t, r);
    var inst := t[r];
    if inst.IfStmt? {
      IfArmParts(t, inst, arm);
    } else {
      var before := RunBefore(inst, arm);
      assert Children(inst) == before + inst.body;
      ForestSplit(t, before, inst.body);
      ReachedAppend(t, before, inst.body);
    }
  }

  lemma IfArmParts(t: Tir, inst: Inst, arm: Arm)
    requires inst.IfStmt? && HasArm(inst, arm) && TreeShaped(t, Children(inst))
    ensures TreeShaped(t, ArmStmts(inst, arm))
    ensures Reached(t, RunBefore(inst, arm)) !! Reached(t, ArmStmts(inst, arm))
    ensures Reached(t, Untaken(inst, arm)) !! Reached(t, RunBefore(inst, arm)) + Reached(t, ArmStmts(inst, arm))
    ensures Reached(t, Children(inst)) ==
        Reached(t, RunBefore(inst, arm)) + Reached(t, ArmStmts(inst, arm)) + Reached(t, Untaken(inst, arm))
  {
    hide Reached, Forest, ReachSet;
    var c, th, es, el := [inst.cond], inst.thenStmts, ElifChildren(inst.elifs), ElseChildren(inst.els);
    ForestSplit(t, c + th + es, el);
    ForestSplit(t, c + th, es);
    ForestSplit(t, c, th);
    ReachedAppend(t, c + th + es, el);
    ReachedAppend(t, c + th, es);
    ReachedAppend(t, c, th);
    ElifParts(t, inst.elifs);
    match arm
    case ThenArm => ReachedAppend(t, es, el);
    case ElseArm =>
      ReachedAppend(t, c, Conds(inst.elifs));
      ReachedAppend(t, th, Bodies(inst.elifs));
    case ElifArm(k) => ElifArmParts(t, inst, k);
    case LoopArm =>
  }

  lemma ElifArmParts(t: Tir, inst: Inst, k: nat)
    requires inst.IfStmt? && k < |inst.elifs| && TreeShaped(t, ElifChildren(inst.elifs))
    requires Reached(t, [inst.cond]) !! Reached(t, inst.thenStmts)
    requires Reached(t, [inst.cond]) + Reached(t, inst.thenStmts) !! Reached(t, ElifChildren(inst.elifs))
    requires Reached(t, [inst.cond]) + Reached(t, inst.thenStmts)
        + Reached(t, ElifChildren(inst.elifs)) !! Reached(t, ElseChildren(inst.els))
    requires Reached(t, Children(inst)) == Reached(t, [inst.cond]) + Reached(t, inst.thenStmts)
                                           + Reached(t, ElifChildren(inst.elifs)) + Reached(t, ElseChildren(inst.els))
    ensures TreeShaped(t, inst.elifs[k].body)
    ensures var arm := ElifArm(k);
            && Reached(t, RunBefore(inst, arm)) !! Reached(t, ArmStmts(inst, arm))
            && Reached(t, Untaken(inst, arm)) !! Reached(t, RunBefore(inst, arm)) + Reached(t, ArmStmts(inst, arm))
            && Reached(t, Children(inst)) ==
                 Reached(t, RunBefore(inst, arm)) + Reached(t, ArmStmts(inst, arm)) + Reached(t, Untaken(inst, arm))
  {
    hide Reached, Forest, ReachSet, RunBefore, Untaken, ArmStmts, Children, ElifChildren, ElseChildren, Conds, Bodies;
    ElifPieces(t, inst.elifs, k);
    ElifArmSets(t, inst, k);
    var pre, e, qs, arm := inst.elifs[..k], inst.elifs[k], ElifChildren(inst.elifs[k+1..]), ElifArm(k);
    Regroup(Reached(t, [inst.cond]), Reached(t, inst.thenStmts), Reached(t, Conds(pre)), Reached(t, Bodies(pre)),
            Reached(t, [e.cond]), Reached(t, e.body), Reached(t, qs), Reached(t, ElifChildren(inst.elifs)),
                Reached(t, ElseChildren(inst.els)),
            Reached(t, RunBefore(inst, arm)), Reached(t, Untaken(inst, arm)));
  }

  /** Disjoint parts `c`, `th`, `es` (itself `cs`, `bs`, `e`, `body`, `qs`) and `el`, regrouped around `body`. */
  lemma Regroup(c: set<Ref>, th: set<Ref>, cs: set<Ref>, bs: set<Ref>, e: set<Ref>, body: set<Ref>, qs: set<Ref>,
      es: set<Ref>,
                el: set<Ref>, run: set<Ref>, untaken: set<Ref>)
    requires c !! th && c + th !! es && c + th + es !! el && es == cs + bs + e + body + qs
    requires cs !! bs && cs + bs !! e + body + qs && e + body !! qs && e !! body
    requires run == c + cs + e && untaken == th + bs + qs + el
    ensures run !! body && untaken !! run + body
    ensures c + th + es + el == run + body + untaken
  {
  }

  /** The branches before the taken one, its condition, its body and the branches after are disjoint. */
  lemma ElifPieces(t: Tir, elifs: seq<Elif>, k: nat)
    requires k < |elifs| && TreeShaped(t, ElifChildren(elifs))
    ensures TreeShaped(t, elifs[k].body)
    ensures var pre, e, qs := elifs[..k], elifs[k], ElifChildren(elifs[k+1..]);
      && Reached(t, ElifChildren(elifs))
         == Reached(t, Conds(pre)) + Reached(t, Bodies(pre)) + Reached(t, [e.cond]) + Reached(t, e.body)
             + Reached(t, qs)
      && Reached(t, Conds(pre)) !! Reached(t, Bodies(pre))
      && Reached(t, Conds(pre)) + Reached(t, Bodies(pre)) !! Reached(t, [e.cond]) + Reached(t, e.body) + Reached(t, qs)
      && Reached(t, [e.cond]) + Reached(t, e.body) !! Reached(t, qs)
      && Reached(t, [e.cond]) !! Reached(t, e.body)
  {
    hide Reached, Forest, ReachSet, Conds, Bodies;
    var pre, e, post := elifs[..k], elifs[k], elifs[k+1..];
    var ps, qs := ElifChildren(pre), ElifChildren(post);
    ElifSplit(elifs, k);
    ForestSplit(t, ps, [e.cond] + e.body + qs);
    ForestSplit(t, [e.cond] + e.body, qs);
    ForestSplit(t, [e.cond], e.body);
    ReachedAppend(t, ps, [e.cond] + e.body + qs);
    ReachedAppend(t, [e.cond] + e.body, qs);
    ReachedAppend(t, [e.cond], e.body);
    ElifParts(t, pre);
  }

  /** What runs before an elif arm, and what is not taken, as sets. */
  lemma ElifArmSets(t: Tir, inst: Inst, k: nat)
    requires inst.IfStmt? && k < |inst.elifs|
    ensures var pre, e, arm := inst.elifs[..k], inst.elifs[k], ElifArm(k);
      && HasArm(inst, arm) && ArmStmts(inst, arm) == e.body
      && Reached(t, RunBefore(inst, arm)) == Reached(t, [inst.cond]) + Reached(t, Conds(pre)) + Reached(t, [e.cond])
      && Reached(t, Untaken(inst, arm))
         == Reached(t, inst.thenStmts) + Reached(t, Bodies(pre)) + Reached(t, ElifChildren(inst.elifs[k+1..]))
             + Reached(t, ElseChildren(inst.els))
  {
    hide Reached, ElifChildren, ElseChildren, Bodies, Conds;
    var elifs := inst.elifs;
    var pre, e, qs := elifs[..k], elifs[k], ElifChildren(elifs[k+1..]);
    assert elifs[..k+1] == pre + [e];
    CondsAppend(pre, e);
    ReachedAppend(t, [inst.cond], Conds(elifs[..k+1]));
    ReachedAppend(t, Conds(pre), [e.cond]);
    ReachedAppend(t, inst.thenStmts, Bodies(pre));
    ReachedAppend(t, inst.thenStmts + Bodies(pre), qs);
    ReachedAppend(t, inst.thenStmts + Bodies(pre) + qs, ElseChildren(inst.els));
  }

  // ---------- What a route determines ----------

  /** The path stays inside the body and ends at the target. */
  lemma {:induction false} PathInside(t: Tir, body: seq<Ref>, route: Route, target: Ref)
    requires TreeShaped(t, body) && Leads(t, body, route, target)
    ensures target in OnPath(t, body, route, target)
    ensures OnPath(t, body, route, target) <= Reached(t, body)
    ensures OffPath(t, body, route, target) <= Reached(t, body)
    decreases route
  {
    var i := route.i;
    assert body == body[..i] + body[i..];
    ReachedAppend(t, body[..i], body[i..]);
    StmtReached(t, body, i);
    ChildReach(t, body[i], body[i]);
    TreeOf(t, body, i);
    if route.Into? {
      ArmParts(t, body[i], route.arm);
      PathInside(t, ArmStmts(t[body[i]], route.arm), route.rest, target);
      ChildrenReached(t, body[i]);
    }
    if route.Inside? { AroundParts(t, body[i], target); }
  }

  /** The conditions and the else branch of an if, and its other arms, are disjoint parts of it. */
  lemma AroundParts(t: Tir, stmt: Ref, target: Ref)
    requires stmt < |t| && TreeAt(t, stmt) && OutsideArms(t, stmt, target)
    ensures target in Around(t, stmt) && Around(t, stmt) <= ReachSet(t, stmt) && Skipped(t, stmt) <= ReachSet(t, stmt)
    ensures Around(t, stmt) !! Skipped(t, stmt)
  {
    hide ReachSet, Reached, Forest, Conds, Bodies;
    var inst := t[stmt];
    ChildrenReached(t, stmt);
    if inst.IfStmt? {
      TreeShapedTree(t, stmt);
      IfSplit(t, inst);
      assert HasArm(inst, ThenArm);
      forall k | 0 <= k < |inst.elifs| ensures target !in Reached(t, inst.elifs[k].body) {
        assert HasArm(inst, ElifArm(k)) && ArmStmts(inst, ElifArm(k)) == inst.elifs[k].body;
      }
      NotInBodies(t, inst.elifs, target);
      ReachedAppend(t, [inst.cond], Conds(inst.elifs));
      ReachedAppend(t, inst.thenStmts, Bodies(inst.elifs));
    }
  }

  lemma IfSplit(t: Tir, inst: Inst)
    requires inst.IfStmt? && TreeShaped(t, Children(inst))
    ensures var conds, arms := Reached(t, [inst.cond]) + Reached(t, Conds(inst.elifs)),
                               Reached(t, inst.thenStmts) + Reached(t, Bodies(inst.elifs));
      && Reached(t, Children(inst)) == conds + Reached(t, ElseChildren(inst.els)) + arms
      && conds + Reached(t, ElseChildren(inst.els)) !! arms
  {
    hide Reached, Forest, ReachSet, Conds, Bodies;
    var c, th, es, el := [inst.cond], inst.thenStmts, ElifChildren(inst.elifs), ElseChildren(inst.els);
    ForestSplit(t, c + th + es, el);
    ForestSplit(t, c + th, es);
    ForestSplit(t, c, th);
    ReachedAppend(t, c + th + es, el);
    ReachedAppend(t, c + th, es);
    ReachedAppend(t, c, th);
    ElifParts(t, inst.elifs);
  }

  lemma {:induction false} NotInBodies(t: Tir, elifs: seq<Elif>, target: Ref)
    requires forall k :: 0 <= k < |elifs| ==> target !in Reached(t, elifs[k].body)
    ensures target !in Reached(t, Bodies(elifs))
  {
    hide Reached;
    if elifs == [] {
      ReachedNone(t);
    } else {
      NotInBodies(t, elifs[1..], target);
      ReachedAppend(t, elifs[0].body, Bodies(elifs[1..]));
    }
  }

  /** Every target that a body reaches sits in it along some route. */
  lemma {:induction false} RouteExists(t: Tir, body: seq<Ref>, target: Ref, bound: nat) returns (route: Route)
    requires bound <= |t| && Below(body, bound) && target in Reached(t, body)
    ensures Leads(t, body, route, target)
    decreases bound
  {
    hide Reached, ReachSet;
    InReached(t, body, target);
    var i: nat :| i < |body| && target in ReachSet(t, body[i]);
    var stmt := body[i];
    if stmt == target {
      route := Here(i);
    } else if arm :| HasArm(t[stmt], arm) && target in Reached(t, ArmStmts(t[stmt], arm)) {
      ArmBelow(t, stmt, arm);
      var rest := RouteExists(t, ArmStmts(t[stmt], arm), target, stmt);
      route := Into(i, arm, rest);
    } else {
      route := Inside(i);
    }
  }

  lemma ArmBelow(t: Tir, stmt: Ref, arm: Arm)
    requires stmt < |t| && HasArm(t[stmt], arm)
    ensures Below(ArmStmts(t[stmt], arm), stmt)
  {
    ChildrenBelow(t, stmt);
    match t[stmt]
    case IfStmt(_, _, elifs, _) =>
      IfPartsBelow(t[stmt], stmt);
      if arm.ElifArm? { ElifPartBelow(elifs, arm.k, stmt); }
    case WhileLoop(cond, body) => BelowParts([cond], body, stmt);
    case ForRange(start, end, body) => BelowParts([start, end], body, stmt);
  }

  lemma TreeOf(t: Tir, body: seq<Ref>, i: nat)
    requires TreeShaped(t, body) && i < |body|
    ensures body[i] < |t| && TreeAt(t, body[i])
  {
    assert body[i] in body;
  }

  /** The path never touches an arm that an enclosing if does not take. */
  lemma {:induction false} PathAvoidsUntaken(t: Tir, body: seq<Ref>, route: Route, target: Ref)
    requires TreeShaped(t, body) && Leads(t, body, route, target)
    ensures OnPath(t, body, route, target) !! OffPath(t, body, route, target)
    decreases route
  {
    hide Reached, Forest, ReachSet, ArmStmts, RunBefore, Untaken, TreeAt;
    if route.Into? {
      var r, arm := body[route.i], route.arm;
      var stmts := ArmStmts(t[r], arm);
      TreeOf(t, body, route.i);
      ArmParts(t, r, arm);
      PathInside(t, stmts, route.rest, target);
      PathAvoidsUntaken(t, stmts, route.rest, target);
      ChildrenReached(t, r);
      assert body == body[..route.i] + body[route.i..];
      ForestSplit(t, body[..route.i], body[route.i..]);
      assert body[route.i..] == [r] + body[route.i+1..];
      ReachedAppend(t, [r], body[route.i+1..]);
      ReachedOne(t, r);
    }
    if route.Inside? {
      var r := body[route.i];
      TreeOf(t, body, route.i);
      AroundParts(t, r, target);
      assert body == body[..route.i] + body[route.i..];
      ForestSplit(t, body[..route.i], body[route.i..]);
      assert body[route.i..] == [r] + body[route.i+1..];
      ReachedAppend(t, [r], body[route.i+1..]);
      ReachedOne(t, r);
    }
  }

  // ---------- The walk ----------

  datatype MaybeRoute = NoRoute | Known(route: Route)

  /** The set is closed under children except above every one of these refs. */
  ghost predicate ReadyFor(t: Tir, s: set<Ref>, refs: seq<Ref>) {
    forall r :: r in refs ==> ClosedUpTo(t, s, r)
  }

  lemma ReadyAfter(t: Tir, s: set<Ref>, r: Ref, refs: seq<Ref>)
    requires r < |t| && ReadyFor(t, s, refs)
    ensures ReadyFor(t, s + ReachSet(t, r), refs)
  {
    ReachSetClosed(t, r);
  }

  /** Opening a statement leaves the set ready for anything below it. */
  lemma ReadyInside(t: Tir, s: set<Ref>, stmt: Ref, refs: seq<Ref>)
    requires stmt < |t| && ClosedUpTo(t, s, stmt) && Below(refs, stmt)
    ensures ReadyFor(t, s + {stmt}, refs)
  {
    forall r | r in refs ensures ClosedUpTo(t, s + {stmt}, r) {
      var i :| 0 <= i < |refs| && refs[i] == r;
    }
  }

  method AnyContains(t: Tir, stmts: seq<Ref>, target: Ref) returns (found: bool)
    requires Below(stmts, |t|)
    ensures found <==> target in Reached(t, stmts)
  {
    hide ReachSet, Reached, Reaches;
    InReached(t, stmts, target);
    for i := 0 to |stmts|
      invariant forall j :: 0 <= j < i ==> target !in ReachSet(t, stmts[j])
    {
      var hit, _, _ := ContainsReachable(t, stmts[i], target);
      ReachSetExact(t, stmts[i], target);
      if hit { return true; }
    }
    return false;
  }

  lemma ReachedNone(t: Tir)
    ensures Reached(t, []) == {}
  {
  }

  method CollectAll(t: Tir, refs: seq<Ref>, s: RefSet)
    requires Below(refs, |t|) && ReadyFor(t, s.refs, refs)
    modifies s
    ensures s.refs == old(s.refs) + Reached(t, refs)
  {
    hide Reached, ReachSet;
    ReachedNone(t);
    for i := 0 to |refs|
      invariant s.refs == old(s.refs) + Reached(t, refs[..i])
      invariant ReadyFor(t, s.refs, refs)
    {
      assert refs[i] in refs;
      ghost var before := s.refs;
      CollectReachable(t, refs[i], s);
      ReadyAfter(t, before, refs[i], refs);
      assert refs[..i+1] == refs[..i] + [refs[i]];
      ReachedAppend(t, refs[..i], [refs[i]]);
      ReachedOne(t, refs[i]);
    }
    assert refs[..|refs|] == refs;
  }

  lemma LeadsReaches(t: Tir, body: seq<Ref>, route: Route, target: Ref)
    requires TreeShaped(t, body) && Leads(t, body, route, target)
    ensures route.i < |body| && target in ReachSet(t, body[route.i])
    ensures route.Into? ==> target in Reached(t, ArmStmts(t[body[route.i]], route.arm)) && target != body[route.i]
    ensures forall j :: 0 <= j < |body| && j != route.i ==> target !in ReachSet(t, body[j])
  {
    TreeOf(t, body, route.i);
    ChildReach(t, body[route.i], body[route.i]);
    if route.Into? {
      ArmParts(t, body[route.i], route.arm);
      PathInside(t, ArmStmts(t[body[route.i]], route.arm), route.rest, target);
      ChildrenReached(t, body[route.i]);
    }
    if route.Inside? { AroundParts(t, body[route.i], target); }
    forall j | 0 <= j < |body| && j != route.i ensures target !in ReachSet(t, body[j]) {
      assert forall k, l :: 0 <= k < l < |body| ==> ReachSet(t, body[k]) !! ReachSet(t, body[l]);
    }
  }

  /** `collect_jump_path_iter`. When the target sits in the body along a known route, exactly the refs on that route
      are added, and the answer says whether the route locates it; when the body does not reach it, everything is. */
  method CollectJumpPath(t: Tir, body: seq<Ref>, target: Ref, s: RefSet, ghost known: MaybeRoute, ghost bound: nat)
    returns (found: bool)
    requires bound <= |t| && Below(body, bound) && ReadyFor(t, s.refs, body)
    requires known.Known? ==> TreeShaped(t, body) && Leads(t, body, known.route, target)
    modifies s
    ensures known.Known? ==> s.refs == old(s.refs) + OnPath(t, body, known.route, target)
    ensures known.Known? ==> (found <==> Located(t, body, known.route, target))
    ensures target !in Reached(t, body) ==> !found && s.refs == old(s.refs) + Reached(t, body)
    decreases bound, 0
  {
    hide ReachSet, Reached, Reaches, OnPath, Leads, TreeShaped, ReadyFor, Children, Located;
    InReached(t, body, target);
    if known.Known? { LeadsReaches(t, body, known.route, target); }
    NothingReached(t);
    assert body[..0] == [];
    for i := 0 to |body|
      invariant s.refs == old(s.refs) + Reached(t, body[..i])
      invariant ReadyFor(t, s.refs, body)
      invariant forall j :: 0 <= j < i ==> target !in ReachSet(t, body[j])
      invariant known.Known? ==> i <= known.route.i
    {
      var stmt := body[i];
      ChildReach(t, stmt, stmt);
      if stmt == target {
        if known.Known? { OnPathHere(t, body, known.route, target, i); }
        var isNew := s.Insert(target);
        return true;
      }
      var contains, _, _ := ContainsReachable(t, stmt, target);
      ReachSetExact(t, stmt, target);
      assert ClosedUpTo(t, s.refs, stmt) by { ReadyAt(t, s.refs, body, i); }
      if contains {
        ghost var into := NoRoute;
        if known.Known? {
          OnPathInto(t, body, known.route, target, i);
          into := known;
        }
        found := Descend(t, stmt, target, s, into);
        return;
      }
      ghost var before := s.refs;
      CollectReachable(t, stmt, s);
      ReadyAfter(t, before, stmt, body);
      assert body[..i+1] == body[..i] + [stmt];
      ReachedAppend(t, body[..i], [stmt]);
      ReachedOne(t, stmt);
    }
    assert body[..|body|] == body;
    found := false;
  }

  lemma NothingReached(t: Tir)
    ensures Reached(t, []) == {}
  {
  }

  lemma ReadyAt(t: Tir, s: set<Ref>, refs: seq<Ref>, i: nat)
    requires ReadyFor(t, s, refs) && i < |refs|
    ensures ClosedUpTo(t, s, refs[i])
  {
    assert refs[i] in refs;
  }

  lemma OnPathHere(t: Tir, body: seq<Ref>, route: Route, target: Ref, i: nat)
    requires TreeShaped(t, body) && Leads(t, body, route, target) && i < |body| && body[i] == target
    ensures OnPath(t, body, route, target) == Reached(t, body[..i]) + {target} && Located(t, body, route, target)
  {
    LeadsReaches(t, body, route, target);
    TreeOf(t, body, i);
    ChildReach(t, target, target);
  }

  lemma OnPathInto(t: Tir, body: seq<Ref>, route: Route, target: Ref, i: nat)
    requires TreeShaped(t, body) && Leads(t, body, route, target)
    requires i < |body| && body[i] != target && body[i] < |t| && target in ReachSet(t, body[i])
    ensures TakesArm(t, body[i], Known(route), target) && !route.Here?
    ensures OnPath(t, body, route, target) == Reached(t, body[..i]) + StmtPath(t, body[i], route, target)
    ensures Located(t, body, route, target) <==> StmtLocated(t, body[i], route, target)
  {
    LeadsReaches(t, body, route, target);
    TreeOf(t, body, i);
  }

  /** The part of a known route inside the arm it takes. */
  ghost function Inner(known: MaybeRoute): MaybeRoute {
    match known case Known(Into(_, _, rest)) => Known(rest) case _ => NoRoute
  }

  /** A known route that goes into `stmt`, through an arm or not. */
  ghost predicate TakesArm(t: Tir, stmt: Ref, known: MaybeRoute, target: Ref)
    requires stmt < |t|
  {
    known.Known? ==> TreeAt(t, stmt) && GoesIn(t, stmt, known.route, target)
  }

  ghost predicate GoesIn(t: Tir, stmt: Ref, route: Route, target: Ref)
    requires stmt < |t|
  {
    match route
    case Here(_) => false
    case Into(_, arm, rest) => HasArm(t[stmt], arm) && Leads(t, ArmStmts(t[stmt], arm), rest, target)
    case Inside(_) => OutsideArms(t, stmt, target)
  }

  ghost function StmtPath(t: Tir, stmt: Ref, route: Route, target: Ref): set<Ref>
    requires stmt < |t| && GoesIn(t, stmt, route, target)
  {
    if route.Into? then ArmPath(t, stmt, route, target) else Around(t, stmt)
  }

  ghost predicate StmtLocated(t: Tir, stmt: Ref, route: Route, target: Ref)
    requires stmt < |t| && GoesIn(t, stmt, route, target)
  {
    match route
    case Into(_, arm, rest) => Located(t, ArmStmts(t[stmt], arm), rest, target)
    case _ => SaysFound(t[stmt])
  }

  ghost function ArmPath(t: Tir, stmt: Ref, route: Route, target: Ref): set<Ref>
    requires stmt < |t| && route.Into? && HasArm(t[stmt], route.arm)
    requires Leads(t, ArmStmts(t[stmt], route.arm), route.rest, target)
  {
    {stmt} + Reached(t, RunBefore(t[stmt], route.arm)) + OnPath(t, ArmStmts(t[stmt], route.arm), route.rest, target)
  }

  /** Down the right arm of the statement that contains the target. */
  method Descend(t: Tir, stmt: Ref, target: Ref, s: RefSet, ghost known: MaybeRoute) returns (found: bool)
    requires stmt < |t| && ClosedUpTo(t, s.refs, stmt) && TakesArm(t, stmt, known, target)
    modifies s
    ensures known.Known? ==> s.refs == old(s.refs) + StmtPath(t, stmt, known.route, target)
    ensures known.Known? ==> (found <==> StmtLocated(t, stmt, known.route, target))
    decreases stmt, 3
  {
    hide Reached, TreeAt, Forest, ReachSet, OnPath, Leads, Located;
    var inst := t[stmt];
    ChildrenBelow(t, stmt);
    match inst
    case IfStmt(_, _, _, _) => found := DescendIf(t, stmt, target, s, known);
    case WhileLoop(cond, body) => found := DescendLoop(t, stmt, [cond], body, target, s, known);
    case ForRange(start, end, body) => found := DescendLoop(t, stmt, [start, end], body, target, s, known);
    case _ =>
      CollectReachable(t, stmt, s);
      found := true;
  }

  method DescendLoop(t: Tir, stmt: Ref, first: seq<Ref>, body: seq<Ref>, target: Ref, s: RefSet,
      ghost known: MaybeRoute)
    returns (found: bool)
    requires stmt < |t| && ClosedUpTo(t, s.refs, stmt) && TakesArm(t, stmt, known, target)
    requires Children(t[stmt]) == first + body && HasArm(t[stmt], LoopArm)
    requires ArmStmts(t[stmt], LoopArm) == body && RunBefore(t[stmt], LoopArm) == first
    modifies s
    ensures known.Known? ==> s.refs == old(s.refs) + StmtPath(t, stmt, known.route, target)
    ensures known.Known? ==> (found <==> StmtLocated(t, stmt, known.route, target))
    decreases stmt, 2
  {
    hide Reached, Forest, ReachSet, OnPath, Leads, Located, TreeAt, ReadyFor, Children;
    ChildrenBelow(t, stmt);
    BelowParts(first, body, stmt);
    ReadyInside(t, s.refs, stmt, first + body);
    var isNew := s.Insert(stmt);
    ReadyPart(t, s.refs, first + body, first);
    ReadyPart(t, s.refs, first + body, body);
    ghost var before := s.refs;
    CollectAll(t, first, s);
    ReadyAll(t, before, first, body);
    if known.Known? && known.route.Into? { InnerLeads(t, stmt, known, target); }
    found := CollectJumpPath(t, body, target, s, Inner(known), stmt);
    if known.Known? && known.route.Inside? { AroundLoop(t, stmt, first, body); }
  }

  lemma AroundLoop(t: Tir, stmt: Ref, first: seq<Ref>, body: seq<Ref>)
    requires stmt < |t| && Children(t[stmt]) == first + body && HasArm(t[stmt], LoopArm)
    ensures Around(t, stmt) == {stmt} + Reached(t, first) + Reached(t, body) && !SaysFound(t[stmt])
  {
    ChildrenReached(t, stmt);
    ReachedAppend(t, first, body);
  }

  lemma BelowParts(a: seq<Ref>, b: seq<Ref>, bound: nat)
    requires Below(a + b, bound)
    ensures Below(a, bound) && Below(b, bound)
  {
    assert forall i :: 0 <= i < |a| ==> a[i] == (a + b)[i];
    assert forall i :: 0 <= i < |b| ==> b[i] == (a + b)[|a| + i];
  }

  lemma ReadyAll(t: Tir, s: set<Ref>, done: seq<Ref>, refs: seq<Ref>)
    requires Below(done, |t|) && ReadyFor(t, s, refs)
    ensures ReadyFor(t, s + Reached(t, done), refs)
  {
    forall x, c | x in Reached(t, done) && x < |t| && c in Children(t[x]) ensures c in Reached(t, done) {
      InReached(t, done, x);
      var i :| 0 <= i < |done| && x in ReachSet(t, done[i]);
      ReachSetClosed(t, done[i]);
      InReached(t, done, c);
    }
  }

  lemma {:induction false} BodyIn(t: Tir, elifs: seq<Elif>, j: nat)
    requires j < |elifs|
    ensures Reached(t, elifs[j].body) <= Reached(t, Bodies(elifs))
    ensures Reached(t, elifs[j].body) <= Reached(t, ElifChildren(elifs))
  {
    var e, rest := elifs[0], elifs[1..];
    ReachedAppend(t, e.body, Bodies(rest));
    ReachedAppend(t, [e.cond] + e.body, ElifChildren(rest));
    ReachedAppend(t, [e.cond], e.body);
    if j > 0 { BodyIn(t, rest, j - 1); }
  }

  /** Every arm other than `a` is among those untaken on `a`'s route. */
  lemma OtherArm(t: Tir, inst: Inst, a: Arm, b: Arm)
    requires inst.IfStmt? && HasArm(inst, a) && HasArm(inst, b) && a != b
    ensures Reached(t, ArmStmts(inst, b)) <= Reached(t, Untaken(inst, a))
  {
    hide Reached;
    var th, el := inst.thenStmts, ElseChildren(inst.els);
    match a
    case ThenArm =>
      ReachedAppend(t, ElifChildren(inst.elifs), el);
      if b.ElifArm? { BodyIn(t, inst.elifs, b.k); }
    case ElseArm =>
      ReachedAppend(t, th, Bodies(inst.elifs));
      if b.ElifArm? { BodyIn(t, inst.elifs, b.k); }
    case ElifArm(k) =>
      var pre, post := inst.elifs[..k], inst.elifs[k+1..];
      ReachedAppend(t, th, Bodies(pre));
      ReachedAppend(t, th + Bodies(pre), ElifChildren(post));
      ReachedAppend(t, th + Bodies(pre) + ElifChildren(post), el);
      if b.ElifArm? {
        if b.k < k { BodyIn(t, pre, b.k); } else { BodyIn(t, post, b.k - k - 1); }
      }
    case LoopArm =>
  }

  /** At every statement that a route enters, all arms but the one taken are off its path, and so are the conditions
      of later elifs; around a target in no arm, all arms but the else branch are. */
  lemma OffPathHolds(t: Tir, body: seq<Ref>, route: Route, target: Ref, b: Arm)
    requires Leads(t, body, route, target) && !route.Here? && HasArm(t[body[route.i]], b)
    ensures var inst, off := t[body[route.i]], OffPath(t, body, route, target);
      && (route.Into? && b != route.arm ==> Reached(t, ArmStmts(inst, b)) <= off)
      && (route.Into? && inst.IfStmt? && b.ElifArm? && (route.arm.ThenArm? || (route.arm.ElifArm? && b.k > route.arm.k))
          ==> Reached(t, [inst.elifs[b.k].cond]) <= off)
      && (route.Inside? && (b.ThenArm? || b.ElifArm?) ==> Reached(t, ArmStmts(inst, b)) <= off)
  {
    hide Reached, ReachSet;
    var inst := t[body[route.i]];
    if inst.IfStmt? {
      if route.Into? {
        if b != route.arm { OtherArm(t, inst, route.arm, b); }
        if b.ElifArm? && (route.arm.ThenArm? || (route.arm.ElifArm? && b.k > route.arm.k)) {
          LaterCond(t, inst, route.arm, b.k);
        }
      } else {
        ReachedAppend(t, inst.thenStmts, Bodies(inst.elifs));
        if b.ElifArm? { BodyIn(t, inst.elifs, b.k); }
      }
    }
  }

  lemma LaterCond(t: Tir, inst: Inst, arm: Arm, j: nat)
    requires inst.IfStmt? && HasArm(inst, arm) && j < |inst.elifs|
    requires arm.ThenArm? || (arm.ElifArm? && j > arm.k)
    ensures Reached(t, [inst.elifs[j].cond]) <= Reached(t, Untaken(inst, arm))
  {
    hide Reached;
    var th, el := inst.thenStmts, ElseChildren(inst.els);
    if arm.ThenArm? {
      ReachedAppend(t, ElifChildren(inst.elifs), el);
      CondIn(t, inst.elifs, j);
    } else {
      var pre, post := inst.elifs[..arm.k], inst.elifs[arm.k+1..];
      ReachedAppend(t, th + Bodies(pre), ElifChildren(post));
      ReachedAppend(t, th + Bodies(pre) + ElifChildren(post), el);
      CondIn(t, post, j - arm.k - 1);
    }
  }

  lemma CondIn(t: Tir, elifs: seq<Elif>, j: nat)
    requires j < |elifs|
    ensures Reached(t, [elifs[j].cond]) <= Reached(t, ElifChildren(elifs))
  {
    hide Reached;
    var e, rest := elifs[j], ElifChildren(elifs[j+1..]);
    ElifSplit(elifs, j);
    ReachedAppend(t, ElifChildren(elifs[..j]), [e.cond] + e.body + rest);
    ReachedAppend(t, [e.cond] + e.body, rest);
    ReachedAppend(t, [e.cond], e.body);
  }

  /** An arm that contains the target is the one the known route takes. */
  lemma ArmIsTaken(t: Tir, stmt: Ref, known: MaybeRoute, target: Ref, b: Arm)
    requires stmt < |t| && t[stmt].IfStmt? && TakesArm(t, stmt, known, target) && HasArm(t[stmt], b)
    ensures known.Known? ==>
              (target in Reached(t, ArmStmts(t[stmt], b)) <==> known.route.Into? && known.route.arm == b)
  {
    hide Reached, ReachSet;
    if known.Known? && known.route.Into? {
      var a := known.route.arm;
      ArmParts(t, stmt, a);
      PathInside(t, ArmStmts(t[stmt], a), known.route.rest, target);
      if a != b { OtherArm(t, t[stmt], a, b); }
    }
  }

  method DescendIf(t: Tir, stmt: Ref, target: Ref, s: RefSet, ghost known: MaybeRoute) returns (found: bool)
    requires stmt < |t| && t[stmt].IfStmt? && ClosedUpTo(t, s.refs, stmt) && TakesArm(t, stmt, known, target)
    modifies s
    ensures known.Known? ==> s.refs == old(s.refs) + StmtPath(t, stmt, known.route, target)
    ensures known.Known? ==> (found <==> StmtLocated(t, stmt, known.route, target))
    decreases stmt, 2
  {
    hide Reached, Forest, ReachSet, OnPath, Leads, TreeAt, ReadyFor, Children, ClosedUpTo, TakesArm, ArmPath;
    hide GoesIn, StmtPath, StmtLocated, Located, Around;
    var inst := t[stmt];
    ChildrenBelow(t, stmt);
    IfPartsBelow(inst, stmt);
    ReadyInside(t, s.refs, stmt, Children(inst));
    var isNew := s.Insert(stmt);
    ghost var base := s.refs;
    ReadyPart(t, s.refs, Children(inst), [inst.cond]);
    CollectAll(t, [inst.cond], s);
    ReadyAll(t, base, [inst.cond], Children(inst));
    ReadyPart(t, s.refs, Children(inst), inst.thenStmts);
    var hit := AnyContains(t, inst.thenStmts, target);
    ArmIsTaken(t, stmt, known, target, ThenArm);
    if hit {
      if known.Known? { InnerLeads(t, stmt, known, target); }
      found := CollectJumpPath(t, inst.thenStmts, target, s, Inner(known), stmt);
      if known.Known? { StmtPathIs(t, stmt, known, target); }
      return;
    }
    found := DescendElifs(t, stmt, target, s, known, base);
    if known.Known? { StmtPathIs(t, stmt, known, target); }
  }

  lemma ReadyPart(t: Tir, s: set<Ref>, refs: seq<Ref>, part: seq<Ref>)
    requires ReadyFor(t, s, refs) && forall r :: r in part ==> r in refs
    ensures ReadyFor(t, s, part)
  {
  }

  lemma InnerLeads(t: Tir, stmt: Ref, known: MaybeRoute, target: Ref)
    requires stmt < |t| && known.Known? && known.route.Into? && TakesArm(t, stmt, known, target)
    ensures HasArm(t[stmt], known.route.arm) && Inner(known) == Known(known.route.rest)
    ensures TreeShaped(t, ArmStmts(t[stmt], known.route.arm))
    ensures Leads(t, ArmStmts(t[stmt], known.route.arm), known.route.rest, target)
  {
    ArmParts(t, stmt, known.route.arm);
  }

  /** The path and the answer for a statement with arms, case by case. */
  lemma StmtPathIs(t: Tir, stmt: Ref, known: MaybeRoute, target: Ref)
    requires stmt < |t| && t[stmt].IfStmt? && known.Known? && TakesArm(t, stmt, known, target)
    ensures GoesIn(t, stmt, known.route, target) && !known.route.Here?
    ensures known.route.Into? ==>
              && ArmTaken(t, stmt, known.route, target)
              && StmtPath(t, stmt, known.route, target) ==
                 {stmt} + Reached(t, RunBefore(t[stmt], known.route.arm))
                 + OnPath(t, ArmStmts(t[stmt], known.route.arm), known.route.rest, target)
              && (StmtLocated(t, stmt, known.route, target)
                  <==> Located(t, ArmStmts(t[stmt], known.route.arm), known.route.rest, target))
    ensures known.route.Inside? ==>
              && StmtPath(t, stmt, known.route, target) ==
                 {stmt} + Reached(t, [t[stmt].cond] + Conds(t[stmt].elifs)) + Reached(t, ElseChildren(t[stmt].els))
              && (StmtLocated(t, stmt, known.route, target) <==> t[stmt].els.NoElse?)
  {
  }

  ghost predicate ArmTaken(t: Tir, stmt: Ref, route: Route, target: Ref)
    requires stmt < |t| && route.Into?
  {
    HasArm(t[stmt], route.arm) && Leads(t, ArmStmts(t[stmt], route.arm), route.rest, target)
  }

  lemma IfPartsBelow(inst: Inst, bound: nat)
    requires inst.IfStmt? && Below(Children(inst), bound)
    ensures inst.cond < bound && Below(inst.thenStmts, bound) && Below(ElifChildren(inst.elifs), bound)
        && Below(ElseChildren(inst.els), bound)
    ensures inst.cond in Children(inst)
    ensures forall r :: r in inst.thenStmts || r in ElifChildren(inst.elifs) || r in ElseChildren(inst.els) ==>
        r in Children(inst)
  {
    var c, th, es, el := [inst.cond], inst.thenStmts, ElifChildren(inst.elifs), ElseChildren(inst.els);
    BelowParts(c + th + es, el, bound);
    BelowParts(c + th, es, bound);
    BelowParts(c, th, bound);
    assert c[0] == inst.cond && inst.cond in c;
  }

  lemma ElifPartBelow(elifs: seq<Elif>, k: nat, bound: nat)
    requires k < |elifs| && Below(ElifChildren(elifs), bound)
    ensures elifs[k].cond < bound && Below(elifs[k].body, bound)
    ensures elifs[k].cond in ElifChildren(elifs) && forall r :: r in elifs[k].body ==> r in ElifChildren(elifs)
  {
    var e := elifs[k];
    ElifSplit(elifs, k);
    BelowParts(ElifChildren(elifs[..k]), [e.cond] + e.body + ElifChildren(elifs[k+1..]), bound);
    BelowParts([e.cond] + e.body, ElifChildren(elifs[k+1..]), bound);
    BelowParts([e.cond], e.body, bound);
    assert [e.cond][0] == e.cond;
  }

  /** The elif branches in order, each condition collected before its body is tried; then the
      else branch. */
  method DescendElifs(t: Tir, stmt: Ref, target: Ref, s: RefSet, ghost known: MaybeRoute, ghost base: set<Ref>)
    returns (found: bool)
    requires stmt < |t| && t[stmt].IfStmt? && TakesArm(t, stmt, known, target)
    requires known.Known? && known.route.Into? ==> !known.route.arm.ThenArm?
    requires s.refs == base + Reached(t, [t[stmt].cond]) && ReadyFor(t, s.refs, Children(t[stmt]))
    modifies s
    ensures known.Known? ==> known.route.Inside? || (known.route.Into? && ArmTaken(t, stmt, known.route, target))
    ensures known.Known? && known.route.Into? ==>
      && s.refs == base + Reached(t, RunBefore(t[stmt], known.route.arm))
                   + OnPath(t, ArmStmts(t[stmt], known.route.arm), known.route.rest, target)
      && (found <==> Located(t, ArmStmts(t[stmt], known.route.arm), known.route.rest, target))
    ensures known.Known? && known.route.Inside? ==>
      && s.refs == base + Reached(t, [t[stmt].cond] + Conds(t[stmt].elifs)) + Reached(t, ElseChildren(t[stmt].els))
      && (found <==> t[stmt].els.NoElse?)
    decreases stmt, 1
  {
    hide Reached, Forest, ReachSet, OnPath, Leads, TreeAt, ReadyFor, Children, ClosedUpTo, TakesArm, ElifChildren;
    hide Located, GoesIn;
    var inst := t[stmt];
    ChildrenBelow(t, stmt);
    IfPartsBelow(inst, stmt);
    ghost var conds := [inst.cond];
    if known.Known? {
      StmtPathIs(t, stmt, known, target);
      if known.route.Into? { InnerLeads(t, stmt, known, target); }
    }
    assert conds + Conds(inst.elifs[..0]) == conds;
    for j := 0 to |inst.elifs|
      invariant s.refs == base + Reached(t, conds + Conds(inst.elifs[..j]))
      invariant ReadyFor(t, s.refs, Children(inst))
      invariant known.Known? && known.route.Into? && known.route.arm.ElifArm? ==> j <= known.route.arm.k
    {
      var e := inst.elifs[j];
      ElifPartBelow(inst.elifs, j, stmt);
      ghost var before := s.refs;
      ReadyPart(t, s.refs, Children(inst), [e.cond]);
      CollectAll(t, [e.cond], s);
      ReadyAll(t, before, [e.cond], Children(inst));
      NextCond(t, conds, inst.elifs, j);
      ReadyPart(t, s.refs, Children(inst), e.body);
      var hit := AnyContains(t, e.body, target);
      ArmIsTaken(t, stmt, known, target, ElifArm(j));
      if hit {
        found := CollectJumpPath(t, e.body, target, s, Inner(known), stmt);
        return;
      }
    }
    assert inst.elifs[..|inst.elifs|] == inst.elifs;
    match inst.els
    case Else(stmts) =>
      ReadyPart(t, s.refs, Children(inst), stmts);
      ArmIsTaken(t, stmt, known, target, ElseArm);
      found := CollectJumpPath(t, stmts, target, s, Inner(known), stmt);
    case NoElse =>
      NothingReached(t);
      found := true;
  }

  lemma NextCond(t: Tir, conds: seq<Ref>, elifs: seq<Elif>, j: nat)
    requires j < |elifs|
    ensures Reached(t, conds + Conds(elifs[..j+1])) ==
        Reached(t, conds + Conds(elifs[..j])) + Reached(t, [elifs[j].cond])
  {
    assert elifs[..j+1] == elifs[..j] + [elifs[j]];
    CondsAppend(elifs[..j], elifs[j]);
    ReachedAppend(t, conds + Conds(elifs[..j]), [elifs[j].cond]);
    assert conds + Conds(elifs[..j]) + [elifs[j].cond] == conds + Conds(elifs[..j+1]);
  }

  /** The statement at the end of a route: the target itself, or the one that it lies inside. */
  ghost function LastStmt(t: Tir, body: seq<Ref>, route: Route, target: Ref): (r: Ref)
    requires Leads(t, body, route, target)
    ensures r < |t|
    decreases route
  {
    if route.Into? then LastStmt(t, ArmStmts(t[body[route.i]], route.arm), route.rest, target) else body[route.i]
  }

  /** The target counts as found exactly when it is a statement, or lies in a statement that is no loop and has no
      else branch. */
  lemma {:induction false} LocatedExactly(t: Tir, body: seq<Ref>, route: Route, target: Ref)
    requires Leads(t, body, route, target)
    ensures Located(t, body, route, target) <==>
            var last := LastStmt(t, body, route, target);
            last == target || !(t[last].WhileLoop? || t[last].ForRange? || (t[last].IfStmt? && t[last].els.Else?))
    decreases route
  {
    hide ReachSet, Reached;
    if route.Into? { LocatedExactly(t, ArmStmts(t[body[route.i]], route.arm), route.rest, target); }
  }

  /** The condition of an if with an else branch is reached and collected, but not found, and the else branch is
      collected with it. */
  lemma ConditionWitness()
    ensures var t: Tir := [Plain([]), Plain([]), IfStmt(0, [], [], Else([1]))];
      && TreeShaped(t, [2]) && Leads(t, [2], Inside(0), 0) && !Located(t, [2], Inside(0), 0)
      && OnPath(t, [2], Inside(0), 0) == {0, 1, 2}
  {
    var inst := IfStmt(0, [], [], Else([1]));
    assert Children(inst) == [0, 1];
    var t: Tir := [Plain([]), Plain([]), inst];
    assert Children(t[0]) == [] && Children(t[1]) == [];
    NothingReached(t);
    ChildrenReached(t, 0);
    ChildrenReached(t, 1);
    ChildrenReached(t, 2);
    ReachedOne(t, 0);
    ReachedOne(t, 1);
    ReachedAppend(t, [0], [1]);
    assert [0] + [1] == [0, 1];
    assert Conds([]) == [] && [0] + Conds([]) == [0];
    assert [2][..0] == [];
    NoTrees(t);
    OneTree(t, 0);
    OneTree(t, 1);
    OneTree(t, 2);
    ForestJoin(t, [0], [1]);
  }

  /** From an empty set, for every target: the collected refs are exactly those on its route, and none of them lies
      in an arm left out; a target that the body does not reach is not found, and everything is collected. */
  method JumpPathRefs(t: Tir, body: seq<Ref>, target: Ref) returns (found: bool, refs: set<Ref>, ghost way: MaybeRoute)
    requires TreeShaped(t, body)
    ensures way.Known? <==> target in Reached(t, body)
    ensures way.NoRoute? ==> !found && refs == Reached(t, body)
    ensures way.Known? ==>
              && Leads(t, body, way.route, target)
              && refs == OnPath(t, body, way.route, target) && (found <==> Located(t, body, way.route, target))
              && target in refs && refs !! OffPath(t, body, way.route, target)
  {
    hide ReachSet, Reached, OnPath, OffPath, Leads, Located;
    var s := new RefSet();
    way := NoRoute;
    if target in Reached(t, body) {
      var route := RouteExists(t, body, target, |t|);
      way := Known(route);
      PathInside(t, body, route, target);
      PathAvoidsUntaken(t, body, route, target);
    }
    found := CollectJumpPath(t, body, target, s, way, |t|);
    refs := s.refs;
  }
}
