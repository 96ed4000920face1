/** Bodies whose roots and edges form a forest, and what a walk over one pops. */
module TreeShape {
  import opened TirGraph

  lemma {:induction false} ReachAllAppend(t: Tir, a: seq<Ref>, b: seq<Ref>, bound: nat)
    requires bound <= |t|
    ensures ReachAll(t, a + b, bound) == ReachAll(t, a, bound) + ReachAll(t, b, bound)
    decreases |a|
  {
    if a == [] {
      assert a + b == b;
    } else {
      assert (a + b)[1..] == a[1..] + b;
      ReachAllAppend(t, a[1..], b, bound);
    }
  }

  /** Everything a list of refs reaches. */
  ghost function Reached(t: Tir, refs: seq<Ref>): set<Ref> {
    ReachAll(t, refs, |t|)
  }

  /** No instruction is reached twice below `r`. */
  ghost predicate TreeAt(t: Tir, r: Ref)
    requires r < |t|
    decreases r
  {
    Forest(t, Children(t[r]), r)
  }

  ghost predicate Forest(t: Tir, refs: seq<Ref>, bound: nat)
    requires bound <= |t|
    decreases bound, 0
  {
    && Below(refs, bound)
    && (forall r :: r in refs && r < bound ==> TreeAt(t, r))
    && (forall i, j :: 0 <= i < j < |refs| && refs[i] < |t| && refs[j] < |t| ==>
         ReachSet(t, refs[i]) !! ReachSet(t, refs[j]))
  }

  /** The body roots and their edges form a forest. */
  ghost predicate TreeShaped(t: Tir, body: seq<Ref>) { Forest(t, body, |t|) }

  lemma InReached(t: Tir, refs: seq<Ref>, x: Ref)
    requires Below(refs, |t|)
    ensures x in Reached(t, refs) <==> exists i :: 0 <= i < |refs| && x in ReachSet(t, refs[i])
  {
    InReachAll(t, refs, |t|, x);
    if c :| c in refs && c < |t| && x in ReachSet(t, c) {
      var i :| 0 <= i < |refs| && refs[i] == c;
      assert x in ReachSet(t, refs[i]);
    }
    if i :| 0 <= i < |refs| && x in ReachSet(t, refs[i]) {
      assert refs[i] in refs;
    }
  }

  lemma ReachedAppend(t: Tir, a: seq<Ref>, b: seq<Ref>)
    ensures Reached(t, a + b) == Reached(t, a) + Reached(t, b)
  {
    ReachAllAppend(t, a, b, |t|);
  }

  lemma ReachedOne(t: Tir, r: Ref)
    requires r < |t|
    ensures Reached(t, [r]) == ReachSet(t, r)
  {
    assert ReachAll(t, [r], |t|) == ReachSet(t, r) + ReachAll(t, [r][1..], |t|);
  }

  lemma TreeShapedTree(t: Tir, r: Ref)
    requires r < |t| && TreeAt(t, r)
    ensures TreeShaped(t, Children(t[r]))
  {
  }

  /** Both halves of a forest are forests with nothing in common. */
  lemma ForestSplit(t: Tir, a: seq<Ref>, b: seq<Ref>)
    requires TreeShaped(t, a + b)
    ensures TreeShaped(t, a) && TreeShaped(t, b) && Reached(t, a) !! Reached(t, b)
  {
    var all := a + b;
    assert forall i :: 0 <= i < |a| ==> all[i] == a[i];
    assert forall i :: 0 <= i < |b| ==> all[|a| + i] == b[i];
    assert forall r :: r in a || r in b ==> r in all;
    assert TreeShaped(t, a);
    assert TreeShaped(t, b) by {
      forall i, j | 0 <= i < j < |b| ensures ReachSet(t, b[i]) !! ReachSet(t, b[j]) {
        assert all[|a| + i] == b[i] && all[|a| + j] == b[j];
      }
    }
    forall x | x in Reached(t, a) ensures x !in Reached(t, b) {
      InReached(t, a, x);
      InReached(t, b, x);
      var i :| 0 <= i < |a| && x in ReachSet(t, a[i]);
      forall j | 0 <= j < |b| ensures x !in ReachSet(t, b[j]) {
        assert all[i] == a[i] && all[|a| + j] == b[j];
      }
    }
  }

  /** Two forests with nothing in common are one. */
  lemma ForestJoin(t: Tir, a: seq<Ref>, b: seq<Ref>)
    requires TreeShaped(t, a) && TreeShaped(t, b) && Reached(t, a) !! Reached(t, b)
    ensures TreeShaped(t, a + b)
  {
    var all := a + b;
    forall i, j | 0 <= i < j < |all| && all[i] < |t| && all[j] < |t|
        ensures ReachSet(t, all[i]) !! ReachSet(t, all[j]) {
      if i < |a| <= j {
        StmtReached(t, a, i);
        StmtReached(t, b, j - |a|);
      }
    }
  }

  /** Taking a statement off a stack of refs and pushing its children keeps the question the same. */
  lemma PopIsFair(t: Tir, rest: seq<Ref>, r: Ref, seen: set<Ref>)
    requires r < |t| && r !in seen && Below(rest, |t|)
    ensures (TreeShaped(t, rest + [r]) && Reached(t, rest + [r]) !! seen) <==>
            (TreeShaped(t, rest + Children(t[r])) && Reached(t, rest + Children(t[r])) !! seen + {r})
  {
    hide Reached, ReachSet, Forest;
    var cs := Children(t[r]);
    ReachedAppend(t, rest, [r]);
    ReachedAppend(t, rest, cs);
    ReachedOne(t, r);
    ChildrenReached(t, r);
    OneTree(t, r);
    if TreeShaped(t, rest + [r]) {
      ForestSplit(t, rest, [r]);
      if Reached(t, rest + [r]) !! seen { ForestJoin(t, rest, cs); }
    }
    if TreeShaped(t, rest + cs) && Reached(t, rest + cs) !! seen + {r} {
      ForestSplit(t, rest, cs);
      ForestJoin(t, rest, [r]);
    }
  }

  lemma OneTree(t: Tir, r: Ref)
    requires r < |t|
    ensures TreeShaped(t, [r]) <==> TreeShaped(t, Children(t[r]))
  {
    var cs := Children(t[r]);
    assert [r][0] == r;
    assert Below(cs, r) by {
      forall i | 0 <= i < |cs| ensures cs[i] < r { assert cs[i] in cs; }
    }
    assert TreeShaped(t, [r]) <==> TreeAt(t, r);
    assert TreeAt(t, r) <==> Forest(t, cs, |t|);
  }

  lemma NoTrees(t: Tir)
    ensures TreeShaped(t, []) && Reached(t, []) == {}
  {
  }

  lemma StmtReached(t: Tir, body: seq<Ref>, i: nat)
    requires Below(body, |t|) && i < |body|
    ensures ReachSet(t, body[i]) <= Reached(t, body)
  {
    forall x | x in ReachSet(t, body[i]) ensures x in Reached(t, body) {
      InReached(t, body, x);
    }
  }

  lemma ChildrenReached(t: Tir, r: Ref)
    requires r < |t|
    ensures ReachSet(t, r) == {r} + Reached(t, Children(t[r]))
    ensures r !in Reached(t, Children(t[r]))
  {
    forall x ensures x in ReachSet(t, r) <==> x == r || x in Reached(t, Children(t[r])) {
      ChildReach(t, r, x);
      InReachAll(t, Children(t[r]), |t|, x);
    }
    if r in Reached(t, Children(t[r])) {
      InReachAll(t, Children(t[r]), |t|, r);
      var c :| c in Children(t[r]) && c < |t| && r in ReachSet(t, c);
      ReachBelow(t, c);
      assert false;
    }
  }

  lemma ChildrenBelowAll(t: Tir, rest: seq<Ref>, r: Ref)
    requires r < |t| && Below(rest, |t|)
    ensures Below(rest + Children(t[r]), |t|)
  {
    var cs := Children(t[r]);
    forall i | 0 <= i < |cs| ensures cs[i] < |t| { assert cs[i] in cs; }
  }

  // ---------- One pop each ----------

  ghost predicate NoRepeats(popped: seq<Ref>) { forall i, j :: 0 <= i < j < |popped| ==> popped[i] != popped[j] }

  ghost function Refs(popped: seq<Ref>): set<Ref> { set r | r in popped }

  /** The stack is a forest of instructions not popped so far, each of which was popped once. */
  ghost predicate Fresh(t: Tir, stack: seq<Ref>, popped: seq<Ref>) {
    TreeShaped(t, stack) && Reached(t, stack) !! Refs(popped) && NoRepeats(popped)
  }

  lemma FreshStart(t: Tir, root: Ref)
    requires root < |t| && TreeAt(t, root)
    ensures Fresh(t, [root], [])
  {
    hide ReachSet, Reached;
    OneTree(t, root);
    TreeShapedTree(t, root);
  }

  lemma FreshPopped(t: Tir, stack: seq<Ref>, popped: seq<Ref>)
    requires Fresh(t, stack, popped)
    ensures NoRepeats(popped)
  {
  }

  /** Taking an instruction off the stack and pushing its children never brings it back. */
  lemma PopOnce(t: Tir, base: seq<Ref>, x: Ref, popped: seq<Ref>)
    requires Below(base + [x], |t|) && Fresh(t, base + [x], popped)
    ensures x < |t| && x !in popped && Fresh(t, base + Children(t[x]), popped + [x])
  {
    hide Reached, ReachSet, Forest, Children;
    assert (base + [x])[|base|] == x;
    assert forall i :: 0 <= i < |base| ==> base[i] == (base + [x])[i];
    ReachedAppend(t, base, [x]);
    ReachedOne(t, x);
    ChildrenReached(t, x);
    assert x !in Refs(popped);
    PopIsFair(t, base, x, Refs(popped));
    assert Refs(popped + [x]) == Refs(popped) + {x};
  }

  /** What `root` reaches was popped or is below the stack. */
  ghost predicate Explored(t: Tir, root: Ref, stack: seq<Ref>, popped: seq<Ref>)
    requires root < |t|
  {
    ReachSet(t, root) == Refs(popped) + Reached(t, stack)
  }

  lemma ExploreStart(t: Tir, root: Ref)
    requires root < |t|
    ensures Explored(t, root, [root], [])
  {
    hide ReachSet, Reached;
    ReachedOne(t, root);
  }

  lemma ExploreStep(t: Tir, root: Ref, base: seq<Ref>, x: Ref, popped: seq<Ref>)
    requires root < |t| && x < |t| && Explored(t, root, base + [x], popped)
    ensures Explored(t, root, base + Children(t[x]), popped + [x])
  {
    hide ReachSet, Reached, Children;
    ReachedAppend(t, base, [x]);
    ReachedAppend(t, base, Children(t[x]));
    ReachedOne(t, x);
    ChildrenReached(t, x);
    assert Refs(popped + [x]) == Refs(popped) + {x};
  }

  lemma ExploreEnd(t: Tir, root: Ref, popped: seq<Ref>)
    requires root < |t| && Explored(t, root, [], popped)
    ensures Refs(popped) == ReachSet(t, root)
  {
    hide ReachSet;
  }
}
