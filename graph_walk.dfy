/** `Operator.named_operators` / `operators` (remove_duplicate=True) and
    `Operator.is_dag` (nbox/jobs/operator.py).

    The walk is depth-first pre-order: the node itself, then each child
    subtree in registration order. A memo of identities is threaded through
    the whole walk, so a node reached twice is yielded once and a node that
    is its own descendant does not make the walk run forever. */
module GraphWalk {
  import opened Wrappers
  import opened OrderedDict
  import opened OperatorNode

  type Named = seq<(string, NodeId)>

  /** What a walk yields and the memo it leaves behind. */
  datatype Walked = Walked(named: Named, memo: set<NodeId>)

  /** The dotted path of a child: `prefix + ('.' if prefix else '') + name`. */
  function ChildPath(prefix: string, name: string): string
  {
    prefix + (if prefix == "" then "" else ".") + name
  }

  function Walk(h: Heap, id: NodeId, prefix: string, memo: set<NodeId>): (w: Walked)
    requires Closed(h) && id in h
    ensures memo <= w.memo
    decreases h.Keys - memo, 0
  {
    if id in memo then Walked([], memo)
    else
      var rest := WalkChildren(h, h[id].children, prefix, memo + {id});
      Walked([(prefix, id)] + rest.named, rest.memo)
  }

  function WalkChildren(h: Heap, cs: Entries<NodeId>, prefix: string, memo: set<NodeId>): (w: Walked)
    requires Closed(h) && Values(cs) <= h.Keys
    ensures memo <= w.memo
    decreases h.Keys - memo, 1, |cs|
  {
    if cs == [] then Walked([], memo)
    else
      var first := Walk(h, cs[0].1, ChildPath(prefix, cs[0].0), memo);
      var rest := WalkChildren(h, cs[1..], prefix, first.memo);
      Walked(first.named + rest.named, rest.memo)
  }

  /** `named_operators(memo, prefix)`: the generator, with the memo set that
      it shares with its recursive calls made explicit as in- and out-state. */
  method NamedOperators(h: Heap, id: NodeId, prefix: string, memo: set<NodeId>)
      returns (named: Named, memoOut: set<NodeId>)
    requires Closed(h) && id in h
    ensures Walked(named, memoOut) == Walk(h, id, prefix, memo)
    decreases h.Keys - memo
  {
    if id in memo {
      return [], memo;
    }
    memoOut := memo + {id};
    named := [(prefix, id)];
    var cs := h[id].children;
    var i := 0;
    while i < |cs|
      invariant 0 <= i <= |cs|
      invariant memo + {id} <= memoOut
      invariant Values(cs[i..]) <= h.Keys
      invariant var rest := WalkChildren(h, cs[i..], prefix, memoOut);
                Walk(h, id, prefix, memo) == Walked(named + rest.named, rest.memo)
    {
      assert cs[i..][1..] == cs[i + 1..];
      var sub, m := NamedOperators(h, cs[i].1, ChildPath(prefix, cs[i].0), memoOut);
      named, memoOut := named + sub, m;
      i := i + 1;
    }
  }

  /** `operators()`: the identities of the walk from a root. */
  function Operators(h: Heap, root: NodeId): seq<NodeId>
    requires Closed(h) && root in h
  {
    var named := Walk(h, root, "", {}).named;
    seq(|named|, i requires 0 <= i < |named| => named[i].1)
  }

  // ---------------------------------------------------------------------
  // Each identity at most once

  function IdSet(named: Named): set<NodeId>
  {
    set i | 0 <= i < |named| :: named[i].1
  }

  predicate DistinctIds(named: Named)
  {
    forall i, j :: 0 <= i < j < |named| ==> named[i].1 != named[j].1
  }

  lemma IdSetAppend(a: Named, b: Named)
    ensures IdSet(a + b) == IdSet(a) + IdSet(b)
  {
    forall x | x in IdSet(a + b) ensures x in IdSet(a) + IdSet(b) {
      var i :| 0 <= i < |a + b| && (a + b)[i].1 == x;
      if i >= |a| { assert b[i - |a|].1 == x; }
    }
    forall x | x in IdSet(a) ensures x in IdSet(a + b) {
      var i :| 0 <= i < |a| && a[i].1 == x;
      assert (a + b)[i].1 == x;
    }
    forall x | x in IdSet(b) ensures x in IdSet(a + b) {
      var i :| 0 <= i < |b| && b[i].1 == x;
      assert (a + b)[i + |a|].1 == x;
    }
  }

  lemma DistinctAppend(a: Named, b: Named)
    requires DistinctIds(a) && DistinctIds(b) && IdSet(a) !! IdSet(b)
    ensures DistinctIds(a + b)
  {
    forall i, j | 0 <= i < j < |a + b| ensures (a + b)[i].1 != (a + b)[j].1 {
      if i < |a| && j >= |a| {
        assert (a + b)[i].1 in IdSet(a);
        assert (a + b)[j].1 == b[j - |a|].1;
        assert (a + b)[j].1 in IdSet(b);
      } else if i >= |a| {
        assert (a + b)[i].1 == b[i - |a|].1;
      }
    }
  }

  /** The memo grows by exactly the identities yielded; none of them was in
      the memo before and none is yielded twice. */
  lemma {:induction false} WalkVisitsOnce(h: Heap, id: NodeId, prefix: string, memo: set<NodeId>)
    requires Closed(h) && id in h
    ensures var w := Walk(h, id, prefix, memo);
            && w.memo == memo + IdSet(w.named)
            && IdSet(w.named) !! memo
            && IdSet(w.named) <= h.Keys
            && DistinctIds(w.named)
    decreases h.Keys - memo, 0
  {
    if id !in memo {
      var rest := WalkChildren(h, h[id].children, prefix, memo + {id});
      WalkChildrenVisitOnce(h, h[id].children, prefix, memo + {id});
      IdSetAppend([(prefix, id)], rest.named);
      assert [(prefix, id)][0].1 == id;
      assert IdSet([(prefix, id)]) == {id};
      DistinctAppend([(prefix, id)], rest.named);
    }
  }

  lemma {:induction false} WalkChildrenVisitOnce(h: Heap, cs: Entries<NodeId>, prefix: string, memo: set<NodeId>)
    requires Closed(h) && Values(cs) <= h.Keys
    ensures var w := WalkChildren(h, cs, prefix, memo);
            && w.memo == memo + IdSet(w.named)
            && IdSet(w.named) !! memo
            && IdSet(w.named) <= h.Keys
            && DistinctIds(w.named)
    decreases h.Keys - memo, 1, |cs|
  {
    if cs != [] {
      var first := Walk(h, cs[0].1, ChildPath(prefix, cs[0].0), memo);
      WalkVisitsOnce(h, cs[0].1, ChildPath(prefix, cs[0].0), memo);
      WalkChildrenVisitOnce(h, cs[1..], prefix, first.memo);
      var rest := WalkChildren(h, cs[1..], prefix, first.memo);
      IdSetAppend(first.named, rest.named);
      DistinctAppend(first.named, rest.named);
    }
  }

  // ---------------------------------------------------------------------
  // Every reachable operator is yielded, and only those

  /** `p` is a chain of parent-to-child registrations in `h`. */
  ghost predicate IsPath(h: Heap, p: seq<NodeId>)
  {
    forall i :: 0 <= i < |p| - 1 ==> p[i] in h && p[i + 1] in Values(h[p[i]].children)
  }

  ghost predicate Reachable(h: Heap, from: NodeId, to: NodeId)
  {
    exists p :: IsPath(h, p) && |p| >= 1 && p[0] == from && p[|p| - 1] == to
  }

  /** Every child of a node newly put in the memo is in the memo too. */
  ghost predicate ClosedSince(h: Heap, m: set<NodeId>, base: set<NodeId>)
  {
    forall y :: y in m - base ==> y in h && Values(h[y].children) <= m
  }

  lemma {:induction false} WalkClosed(h: Heap, id: NodeId, prefix: string, memo: set<NodeId>)
    requires Closed(h) && id in h
    ensures var w := Walk(h, id, prefix, memo);
            id in w.memo && ClosedSince(h, w.memo, memo)
    decreases h.Keys - memo, 0
  {
    if id !in memo {
      WalkChildrenClosed(h, h[id].children, prefix, memo + {id});
    }
  }

  lemma {:induction false} WalkChildrenClosed(h: Heap, cs: Entries<NodeId>, prefix: string, memo: set<NodeId>)
    requires Closed(h) && Values(cs) <= h.Keys
    ensures var w := WalkChildren(h, cs, prefix, memo);
            Values(cs) <= w.memo && ClosedSince(h, w.memo, memo)
    decreases h.Keys - memo, 1, |cs|
  {
    if cs != [] {
      var first := Walk(h, cs[0].1, ChildPath(prefix, cs[0].0), memo);
      WalkClosed(h, cs[0].1, ChildPath(prefix, cs[0].0), memo);
      WalkChildrenClosed(h, cs[1..], prefix, first.memo);
    }
  }

  lemma ReachPrepend(h: Heap, parent: NodeId, c: NodeId, y: NodeId)
    requires parent in h && c in Values(h[parent].children) && Reachable(h, c, y)
    ensures Reachable(h, parent, y)
  {
    var p :| IsPath(h, p) && |p| >= 1 && p[0] == c && p[|p| - 1] == y;
    var q := [parent] + p;
    assert IsPath(h, q) by {
      forall i | 0 <= i < |q| - 1 ensures q[i] in h && q[i + 1] in Values(h[q[i]].children) {
        if i > 0 { assert q[i] == p[i - 1] && q[i + 1] == p[i]; }
      }
    }
    assert q[|q| - 1] == y;
  }

  lemma ReachSelf(h: Heap, x: NodeId)
    ensures Reachable(h, x, x)
  {
    assert IsPath(h, [x]);
  }

  /** Some entry of `cs` reaches `y`. */
  ghost predicate ReachedFrom(h: Heap, cs: Entries<NodeId>, y: NodeId)
  {
    exists c :: c in Values(cs) && Reachable(h, c, y)
  }

  lemma {:induction false} WalkSound(h: Heap, id: NodeId, prefix: string, memo: set<NodeId>)
    requires Closed(h) && id in h
    ensures forall y :: y in Walk(h, id, prefix, memo).memo && y !in memo ==> Reachable(h, id, y)
    decreases h.Keys - memo, 0
  {
    if id !in memo {
      var cs := h[id].children;
      var rest := WalkChildren(h, cs, prefix, memo + {id});
      WalkChildrenSound(h, cs, prefix, memo + {id});
      forall y | y in rest.memo && y !in memo ensures Reachable(h, id, y) {
        if y == id {
          ReachSelf(h, id);
        } else {
          assert ReachedFrom(h, cs, y);
          var c :| c in Values(cs) && Reachable(h, c, y);
          ReachPrepend(h, id, c, y);
        }
      }
    }
  }

  lemma {:induction false} WalkChildrenSound(h: Heap, cs: Entries<NodeId>, prefix: string, memo: set<NodeId>)
    requires Closed(h) && Values(cs) <= h.Keys
    ensures forall y :: y in WalkChildren(h, cs, prefix, memo).memo && y !in memo ==> ReachedFrom(h, cs, y)
    decreases h.Keys - memo, 1, |cs|
  {
    if cs != [] {
      var first := Walk(h, cs[0].1, ChildPath(prefix, cs[0].0), memo);
      WalkSound(h, cs[0].1, ChildPath(prefix, cs[0].0), memo);
      WalkChildrenSound(h, cs[1..], prefix, first.memo);
      var rest := WalkChildren(h, cs[1..], prefix, first.memo);
      forall y | y in rest.memo && y !in memo ensures ReachedFrom(h, cs, y) {
        if y in first.memo {
          assert cs[0].1 in Values(cs) && Reachable(h, cs[0].1, y);
        } else {
          assert ReachedFrom(h, cs[1..], y);
          var c :| c in Values(cs[1..]) && Reachable(h, c, y);
          assert c in Values(cs);
        }
      }
    }
  }

  /** A set holding the root and closed under registration holds everything
      reachable from the root. */
  lemma ClosedHoldsReachable(h: Heap, m: set<NodeId>, root: NodeId, y: NodeId)
    requires ClosedSince(h, m, {}) && root in m && Reachable(h, root, y)
    ensures y in m
  {
    var p :| IsPath(h, p) && |p| >= 1 && p[0] == root && p[|p| - 1] == y;
    var i := 0;
    while i < |p| - 1
      invariant 0 <= i <= |p| - 1
      invariant p[i] in m
    {
      assert p[i + 1] in Values(h[p[i]].children);
      i := i + 1;
    }
  }

  /** The walk from a root yields every operator reachable from it exactly
      once, starting with the root itself under the empty path. This holds
      whatever the shape of the graph, cycles and shared children included. */
  lemma NamedOperatorsExactlyOnce(h: Heap, root: NodeId)
    requires Closed(h) && root in h
    ensures var named := Walk(h, root, "", {}).named;
            && |named| >= 1 && named[0] == ("", root)
            && DistinctIds(named)
            && forall y :: y in IdSet(named) <==> Reachable(h, root, y)
  {
    var w := Walk(h, root, "", {});
    WalkVisitsOnce(h, root, "", {});
    WalkClosed(h, root, "", {});
    WalkSound(h, root, "", {});
    forall y ensures y in IdSet(w.named) <==> Reachable(h, root, y) {
      if Reachable(h, root, y) {
        ClosedHoldsReachable(h, w.memo, root, y);
      }
    }
  }

  /** `operators()` yields the root first, then every other operator
      reachable from it, each once. */
  lemma OperatorsOnce(h: Heap, root: NodeId)
    requires Closed(h) && root in h
    ensures var ops := Operators(h, root);
            && |ops| >= 1 && ops[0] == root
            && (forall i, j :: 0 <= i < j < |ops| ==> ops[i] != ops[j])
            && forall y :: y in ops <==> Reachable(h, root, y)
  {
    NamedOperatorsExactlyOnce(h, root);
    var named := Walk(h, root, "", {}).named;
    var ops := Operators(h, root);
    forall y ensures y in ops <==> y in IdSet(named) {
      if y in ops {
        var i :| 0 <= i < |ops| && ops[i] == y;
        assert named[i].1 == y;
      }
      if y in IdSet(named) {
        var i :| 0 <= i < |named| && named[i].1 == y;
        assert ops[i] == y;
      }
    }
  }

  // ---------------------------------------------------------------------
  // Pre-order with dotted paths

  /** Entry `i` is registered, under some key `k`, on an entry yielded before
      it, and its path is that entry's path extended by `k`. */
  ghost predicate HasParentBefore(h: Heap, named: Named, i: int)
    requires 0 <= i < |named|
  {
    exists j, k :: 0 <= j < i && named[j].1 in h && (k, named[i].1) in h[named[j].1].children
                   && named[i].0 == ChildPath(named[j].0, k)
  }

  /** `e` is an entry `(k, c)` of `cs`, yielded under the path `prefix.k`. */
  ghost predicate IsChildEntry(cs: Entries<NodeId>, prefix: string, e: (string, NodeId))
  {
    exists k :: (k, e.1) in cs && e.0 == ChildPath(prefix, k)
  }

  lemma ParentBeforeShift(h: Heap, a: Named, b: Named, i: int)
    requires 0 <= i < |b| && HasParentBefore(h, b, i)
    ensures HasParentBefore(h, a + b, i + |a|)
  {
    var j, k :| 0 <= j < i && b[j].1 in h && (k, b[i].1) in h[b[j].1].children
                && b[i].0 == ChildPath(b[j].0, k);
    assert (a + b)[j + |a|] == b[j] && (a + b)[i + |a|] == b[i];
  }

  lemma ParentBeforeExtend(h: Heap, a: Named, b: Named, i: int)
    requires 0 <= i < |a| && HasParentBefore(h, a, i)
    ensures HasParentBefore(h, a + b, i)
  {
    var j, k :| 0 <= j < i && a[j].1 in h && (k, a[i].1) in h[a[j].1].children
                && a[i].0 == ChildPath(a[j].0, k);
    assert (a + b)[j] == a[j] && (a + b)[i] == a[i];
  }

  /** A node yielded before its children's walks: every entry after it
      has a parent before it. */
  lemma PrependNaming(h: Heap, id: NodeId, prefix: string, rest: Named)
    requires id in h
    requires forall i :: 0 <= i < |rest| ==>
               IsChildEntry(h[id].children, prefix, rest[i]) || HasParentBefore(h, rest, i)
    ensures forall i :: 0 < i < |[(prefix, id)] + rest| ==> HasParentBefore(h, [(prefix, id)] + rest, i)
  {
    var named := [(prefix, id)] + rest;
    forall i | 0 < i < |named| ensures HasParentBefore(h, named, i) {
      assert named[i] == rest[i - 1];
      if IsChildEntry(h[id].children, prefix, rest[i - 1]) {
        var k :| (k, named[i].1) in h[id].children && named[i].0 == ChildPath(prefix, k);
        assert named[0].1 in h && (k, named[i].1) in h[named[0].1].children;
      } else {
        ParentBeforeShift(h, [(prefix, id)], rest, i - 1);
      }
    }
  }

  /** The walk of the first child followed by the walks of the others. */
  lemma ConcatNaming(h: Heap, cs: Entries<NodeId>, prefix: string, first: Named, rest: Named)
    requires cs != []
    requires |first| > 0 ==> first[0] == (ChildPath(prefix, cs[0].0), cs[0].1)
    requires forall i :: 0 < i < |first| ==> HasParentBefore(h, first, i)
    requires forall i :: 0 <= i < |rest| ==> IsChildEntry(cs[1..], prefix, rest[i]) || HasParentBefore(h, rest, i)
    ensures forall i :: 0 <= i < |first + rest| ==>
              IsChildEntry(cs, prefix, (first + rest)[i]) || HasParentBefore(h, first + rest, i)
  {
    var named := first + rest;
    forall i | 0 <= i < |named| ensures IsChildEntry(cs, prefix, named[i]) || HasParentBefore(h, named, i) {
      if i == 0 && |first| > 0 {
        assert named[0] == (ChildPath(prefix, cs[0].0), cs[0].1);
        assert (cs[0].0, named[0].1) in cs;
      } else if i < |first| {
        ParentBeforeExtend(h, first, rest, i);
      } else {
        var r := i - |first|;
        assert named[i] == rest[r];
        if IsChildEntry(cs[1..], prefix, rest[r]) {
          var k :| (k, named[i].1) in cs[1..] && named[i].0 == ChildPath(prefix, k);
          assert (k, named[i].1) in cs;
        } else {
          ParentBeforeShift(h, first, rest, r);
        }
      }
    }
  }

  lemma {:induction false} WalkNaming(h: Heap, id: NodeId, prefix: string, memo: set<NodeId>)
    requires Closed(h) && id in h
    ensures id !in memo ==> |Walk(h, id, prefix, memo).named| >= 1
                            && Walk(h, id, prefix, memo).named[0] == (prefix, id)
    ensures id in memo ==> Walk(h, id, prefix, memo).named == []
    ensures forall i :: 0 < i < |Walk(h, id, prefix, memo).named| ==>
              HasParentBefore(h, Walk(h, id, prefix, memo).named, i)
    decreases h.Keys - memo, 0
  {
    if id !in memo {
      var cs := h[id].children;
      var rest := WalkChildren(h, cs, prefix, memo + {id});
      WalkChildrenNaming(h, cs, prefix, memo + {id});
      PrependNaming(h, id, prefix, rest.named);
    }
  }

  lemma {:induction false} WalkChildrenNaming(h: Heap, cs: Entries<NodeId>, prefix: string, memo: set<NodeId>)
    requires Closed(h) && Values(cs) <= h.Keys
    ensures forall i :: 0 <= i < |WalkChildren(h, cs, prefix, memo).named| ==>
              || IsChildEntry(cs, prefix, WalkChildren(h, cs, prefix, memo).named[i])
              || HasParentBefore(h, WalkChildren(h, cs, prefix, memo).named, i)
    decreases h.Keys - memo, 1, |cs|
  {
    if cs != [] {
      var first := Walk(h, cs[0].1, ChildPath(prefix, cs[0].0), memo);
      WalkNaming(h, cs[0].1, ChildPath(prefix, cs[0].0), memo);
      WalkChildrenNaming(h, cs[1..], prefix, first.memo);
      var rest := WalkChildren(h, cs[1..], prefix, first.memo);
      ConcatNaming(h, cs, prefix, first.named, rest.named);
    }
  }

  /** Every operator after the first is yielded after the operator it is
      registered on, under that operator's path extended by its key: the
      walk is a pre-order one with dotted names. */
  lemma NamedOperatorsPreOrder(h: Heap, root: NodeId)
    requires Closed(h) && root in h
    ensures var named := Walk(h, root, "", {}).named;
            forall i :: 0 < i < |named| ==> HasParentBefore(h, named, i)
  {
    WalkNaming(h, root, "", {});
  }

  // ---------------------------------------------------------------------
  // is_dag

  /** The label `is_dag` records: the empty path is renamed `root`. */
  function Label(name: string): string
  {
    if name == "" then "root" else name
  }

  predicate LabelsUnique(named: Named)
  {
    forall i, j :: 0 <= i < j < |named| ==> Label(named[i].0) != Label(named[j].0)
  }

  /** `Operator.is_dag`: fills `graph` with labels and returns False at the
      first label already seen. */
  method IsDag(h: Heap, root: NodeId) returns (b: bool)
    requires Closed(h) && root in h
    ensures b <==> LabelsUnique(Walk(h, root, "", {}).named)
  {
    var named, _ := NamedOperators(h, root, "", {});
    var graph: set<string> := {};
    var i := 0;
    while i < |named|
      invariant 0 <= i <= |named|
      invariant graph == set j | 0 <= j < i :: Label(named[j].0)
      invariant LabelsUnique(named[..i])
    {
      var name := Label(named[i].0);
      if name in graph {
        var j :| 0 <= j < i && Label(named[j].0) == name;
        return false;
      }
      graph := graph + {name};
      i := i + 1;
    }
    assert named[..i] == named;
    return true;
  }

  /** `is_dag` does not look for cycles: an operator registered as its own
      child walks as the root alone, and passes. */
  lemma SelfRegisteredRootPassesIsDag(h: Heap, root: NodeId)
    requires Closed(h) && root in h && Values(h[root].children) == {root}
    ensures Reachable(h, root, root) && exists p :: IsPath(h, p) && |p| == 2 && p[0] == p[1] == root
    ensures Walk(h, root, "", {}).named == [("", root)]
    ensures LabelsUnique(Walk(h, root, "", {}).named)
  {
    ReachSelf(h, root);
    assert IsPath(h, [root, root]);
    SelfLoopsYieldNothing(h, h[root].children, root);
    var none: set<NodeId> := {};
    assert none + {root} == {root};
  }

  lemma {:induction false} SelfLoopsYieldNothing(h: Heap, cs: Entries<NodeId>, root: NodeId)
    requires Closed(h) && root in h && Values(cs) <= {root}
    ensures WalkChildren(h, cs, "", {root}).named == []
    ensures WalkChildren(h, cs, "", {root}).memo == {root}
    decreases |cs|
  {
    if cs != [] {
      assert cs[0].1 in Values(cs);
      SelfLoopsYieldNothing(h, cs[1..], root);
    }
  }

  /** `is_dag` rejects an acyclic graph whose root has a child registered
      under the key `root`: that child's path collides with the renamed
      label of the root. */
  lemma ChildNamedRootFailsIsDag(h: Heap, root: NodeId, c: NodeId)
    requires Closed(h) && root in h && c != root
    requires |h[root].children| >= 1 && h[root].children[0] == ("root", c)
    ensures !LabelsUnique(Walk(h, root, "", {}).named)
  {
    var cs := h[root].children;
    assert cs[0].1 in Values(cs);
    assert ChildPath("", "root") == "root";
    var none: set<NodeId> := {};
    assert none + {root} == {root};
    WalkNaming(h, c, "root", {root});
    var first := Walk(h, c, "root", {root});
    var rest := WalkChildren(h, cs, "", {root});
    assert rest.named == first.named + WalkChildren(h, cs[1..], "", first.memo).named;
    var named := Walk(h, root, "", {}).named;
    assert named == [("", root)] + rest.named;
    assert named[1] == ("root", c);
    assert Label(named[0].0) == Label(named[1].0);
  }
}
