/** The import half of the Airflow bridge (nbox/framework/__airflow.py):
    `from_airflow_dag` turns the flat task list of an Airflow DAG into a
    nest of operators, one per task id, each upstream task holding its
    downstream tasks as children, under a synthetic root whose forward runs
    the operators in sequence; `from_airflow_operator` wraps one task. */
module AirflowImport {
  import opened Wrappers
  import opened OrderedDict
  import opened OperatorNode
  import GraphWalk

  const PythonOperatorKind := "PythonOperator"

  /** One task of `dag.task_group`: its id, the name of its class, and the
      ids of `get_direct_relatives(upstream = True)` in the order that call
      yields them. */
  datatype AirTask = AirTask(taskId: string, kind: string, upstream: seq<string>)

  /** The parts of an Airflow DAG the import reads: the tasks of
      `dag.task_group` in iteration order, and `dag.task_dict`, which maps a
      task id to the task's `python_callable` (`None` when the task has no
      such attribute). */
  datatype AirDag = AirDag(taskGroup: seq<AirTask>, taskDict: map<string, Option<Callable>>)

  /** `topo_tree`: task id to upstream ids, in first-insertion order. */
  type Topo = Entries<seq<string>>

  datatype ImportError = UnsupportedTask(taskId: string) | MissingCallable(taskId: string)

  // ---------------------------------------------------------------------
  // the table of upstream ids

  /** The `topo_tree` loop: every task must be a `PythonOperator`; a later
      task with an id already seen replaces its upstream list in place. */
  function TopoTree(tasks: seq<AirTask>, acc: Topo): Result<Topo, ImportError>
  {
    if tasks == [] then Ok(acc)
    else if tasks[0].kind != PythonOperatorKind then Err(UnsupportedTask(tasks[0].taskId))
    else TopoTree(tasks[1..], Put(acc, tasks[0].taskId, tasks[0].upstream))
  }

  method BuildTopoTree(tasks: seq<AirTask>) returns (r: Result<Topo, ImportError>)
    ensures r == TopoTree(tasks, [])
  {
    var topo: Topo := [];
    for i := 0 to |tasks|
      invariant TopoTree(tasks, []) == TopoTree(tasks[i..], topo)
    {
      assert tasks[i..][1..] == tasks[i + 1..];
      var x := tasks[i];
      if x.kind != PythonOperatorKind {
        return Err(UnsupportedTask(x.taskId));
      }
      topo := Put(topo, x.taskId, x.upstream);
    }
    assert tasks[|tasks|..] == [];
    return Ok(topo);
  }

  predicate AllPython(tasks: seq<AirTask>)
  {
    forall i :: 0 <= i < |tasks| ==> tasks[i].kind == PythonOperatorKind
  }

  /** The table is refused exactly when some task is not a `PythonOperator`. */
  lemma {:induction false} TopoTreeRefusal(tasks: seq<AirTask>, acc: Topo)
    ensures TopoTree(tasks, acc).Ok? <==> AllPython(tasks)
  {
    if tasks != [] && tasks[0].kind == PythonOperatorKind {
      TopoTreeRefusal(tasks[1..], Put(acc, tasks[0].taskId, tasks[0].upstream));
      assert forall i :: 1 <= i < |tasks| ==> tasks[i] == tasks[1..][i - 1];
    }
  }

  /** A refused table names the first task that is not a `PythonOperator`:
      the task at index `i`. */
  lemma {:induction false} TopoTreeNamesFirstRefused(tasks: seq<AirTask>, acc: Topo) returns (i: nat)
    requires TopoTree(tasks, acc).Err?
    ensures i < |tasks| && tasks[i].kind != PythonOperatorKind
    ensures TopoTree(tasks, acc).error == UnsupportedTask(tasks[i].taskId)
    ensures AllPython(tasks[..i])
  {
    if tasks[0].kind == PythonOperatorKind {
      var j := TopoTreeNamesFirstRefused(tasks[1..], Put(acc, tasks[0].taskId, tasks[0].upstream));
      i := j + 1;
      assert tasks[i] == tasks[1..][j];
      forall m | 0 <= m < i ensures tasks[..i][m].kind == PythonOperatorKind {
        if m > 0 {
          assert tasks[..i][m] == tasks[1..][..j][m - 1];
        }
      }
    } else {
      i := 0;
    }
  }

  /** The keys of the table are the keys it started with and the task ids. */
  lemma {:induction false} TopoTreeKeys(tasks: seq<AirTask>, acc: Topo)
    requires TopoTree(tasks, acc).Ok?
    ensures forall k :: k in Keys(TopoTree(tasks, acc).value) <==>
                          k in Keys(acc) || exists i :: 0 <= i < |tasks| && tasks[i].taskId == k
  {
    if tasks != [] {
      var next := Put(acc, tasks[0].taskId, tasks[0].upstream);
      TopoTreeKeys(tasks[1..], next);
      var topo := TopoTree(tasks, acc).value;
      forall k ensures k in Keys(topo) <==> k in Keys(acc) || exists i :: 0 <= i < |tasks| && tasks[i].taskId == k {
        if exists i :: 0 <= i < |tasks[1..]| && tasks[1..][i].taskId == k {
          var i :| 0 <= i < |tasks[1..]| && tasks[1..][i].taskId == k;
          assert tasks[i + 1].taskId == k;
        }
        if exists i :: 0 <= i < |tasks| && tasks[i].taskId == k {
          var i :| 0 <= i < |tasks| && tasks[i].taskId == k;
          if i > 0 {
            assert tasks[1..][i - 1].taskId == k;
          }
        }
      }
    }
  }

  /** Each id maps to the upstream list of the last task with that id. */
  lemma {:induction false} TopoTreeLastWins(tasks: seq<AirTask>, acc: Topo, i: nat)
    requires TopoTree(tasks, acc).Ok? && i < |tasks|
    requires forall j :: i < j < |tasks| ==> tasks[j].taskId != tasks[i].taskId
    ensures Lookup(TopoTree(tasks, acc).value, tasks[i].taskId) == Some(tasks[i].upstream)
  {
    var next := Put(acc, tasks[0].taskId, tasks[0].upstream);
    if i == 0 {
      forall j | 0 <= j < |tasks[1..]| ensures tasks[1..][j].taskId != tasks[0].taskId {
        assert tasks[1..][j] == tasks[j + 1];
      }
      LookupKeptAbsent(tasks[1..], next, tasks[0].taskId);
    } else {
      forall j | i - 1 < j < |tasks[1..]| ensures tasks[1..][j].taskId != tasks[1..][i - 1].taskId {
        assert tasks[1..][j] == tasks[j + 1];
      }
      TopoTreeLastWins(tasks[1..], next, i - 1);
    }
  }

  /** An id that no task of the rest names keeps the entry it has. */
  lemma {:induction false} LookupKeptAbsent(tasks: seq<AirTask>, acc: Topo, k: string)
    requires TopoTree(tasks, acc).Ok?
    requires forall j :: 0 <= j < |tasks| ==> tasks[j].taskId != k
    ensures Lookup(TopoTree(tasks, acc).value, k) == Lookup(acc, k)
  {
    if tasks != [] {
      LookupKeptAbsent(tasks[1..], Put(acc, tasks[0].taskId, tasks[0].upstream), k);
    }
  }

  // ---------------------------------------------------------------------
  // building the operators

  function EdgeKey(p: string, c: string): string
  {
    "op__" + p + "__" + c
  }

  function RootKey(c: string): string
  {
    "op__root__" + c
  }

  lemma EdgeKeyDeterminesChild(p: string, c1: string, c2: string)
    requires EdgeKey(p, c1) == EdgeKey(p, c2)
    ensures c1 == c2
  {
    var prefix := "op__" + p + "__";
    assert EdgeKey(p, c1) == prefix + c1 && EdgeKey(p, c2) == prefix + c2;
    assert c1 == EdgeKey(p, c1)[|prefix|..];
    assert c2 == EdgeKey(p, c2)[|prefix|..];
  }

  lemma RootKeyDeterminesChild(c1: string, c2: string)
    requires RootKey(c1) == RootKey(c2)
    ensures c1 == c2
  {
    assert c1 == RootKey(c1)[10..];
    assert c2 == RootKey(c2)[10..];
  }

  /** The child name an edge key `op__<p>__<c>` carries for parent `p`. */
  function EdgeChild(p: string, k: string): string
  {
    var prefix := "op__" + p + "__";
    if |prefix| <= |k| && k[..|prefix|] == prefix then k[|prefix|..] else k
  }

  lemma EdgeChildOfKey(p: string, c: string)
    ensures EdgeChild(p, EdgeKey(p, c)) == c
  {
    var prefix := "op__" + p + "__";
    assert EdgeKey(p, c) == prefix + c;
    assert EdgeKey(p, c)[..|prefix|] == prefix && EdgeKey(p, c)[|prefix|..] == c;
  }

  lemma EdgeKeyIsNotRegistry(p: string, c: string)
    ensures EdgeKey(p, c) != RegistryAttr && RootKey(c) != RegistryAttr
  {
    assert EdgeKey(p, c)[0] == 'o' && RootKey(c)[0] == 'o' && RegistryAttr[0] == '_';
  }

  /** The forward `from_airflow_dag` leaves on the operator of task `x`:
      the task's callable when `dag.task_dict` has one, none otherwise. */
  function ForwardFor(dag: AirDag, x: string): Forward
  {
    if x in dag.taskDict && dag.taskDict[x].Some? then Bound(dag.taskDict[x].value) else Unbound
  }

  /** Every attribute of the node is its registry or a registered child:
      `setattr` with an operator value can never hit the `KeyError`. */
  predicate OnlyChildAttrs(n: Node)
  {
    HasRegistry(n) && forall k :: k in n.attrs ==> k == RegistryAttr || k in Keys(n.children)
  }

  function Elems(s: seq<string>): set<string>
  {
    set x | x in s
  }

  /** The task ids the table names, as keys or as upstream ids. */
  function TopoNames(topo: Topo): set<string>
  {
    if topo == [] then {} else TopoNames(topo[..|topo| - 1]) + {topo[|topo| - 1].0} + Elems(topo[|topo| - 1].1)
  }

  /** The (upstream, downstream) pairs of the table. */
  function TopoEdges(topo: Topo): set<(string, string)>
  {
    if topo == [] then {}
    else
      var last := topo[|topo| - 1];
      TopoEdges(topo[..|topo| - 1]) + (set p | p in last.1 :: (p, last.0))
  }

  /** The ids with an empty upstream list, in table order. */
  function ParentLess(topo: Topo): seq<string>
  {
    if topo == [] then []
    else ParentLess(topo[..|topo| - 1]) + (if topo[|topo| - 1].1 == [] then [topo[|topo| - 1].0] else [])
  }

  ghost predicate HasEdge(h: Heap, allOps: map<string, NodeId>, p: string, c: string)
  {
    p in allOps && c in allOps && allOps[p] in h && Lookup(h[allOps[p]].children, EdgeKey(p, c)) == Some(allOps[c])
  }

  ghost predicate Injective(allOps: map<string, NodeId>)
  {
    forall x, y :: x in allOps && y in allOps && allOps[x] == allOps[y] ==> x == y
  }

  /** The root and every operator of `all_ops` were made here (ids from
      `start` on), one per task id; each operator is initialised and holds
      only its registry and its children. */
  ghost predicate Shaped(h: Heap, start: NodeId, next: NodeId, className: string, root: NodeId,
                         allOps: map<string, NodeId>)
  {
    && root in h && start <= root < next
    && (forall x :: x in allOps ==> allOps[x] in h && start <= allOps[x] < next && allOps[x] != root)
    && Injective(allOps)
    && (forall x :: x in allOps ==> OnlyChildAttrs(h[allOps[x]]))
    && (forall x :: x in allOps ==> h[allOps[x]].className == className)
  }

  /** Each operator outside `pending` has the forward of its task. */
  ghost predicate ForwardsSet(h: Heap, dag: AirDag, allOps: map<string, NodeId>, pending: set<string>)
  {
    forall x :: x in allOps && x !in pending && allOps[x] in h ==> h[allOps[x]].forward == ForwardFor(dag, x)
  }

  /** Every child an operator of `all_ops` holds is registered under the
      key of one of `edges` from it. */
  ghost predicate OnlyEdges(h: Heap, allOps: map<string, NodeId>, edges: set<(string, string)>)
  {
    forall x, k :: x in allOps && allOps[x] in h && k in Keys(h[allOps[x]].children) ==>
      k == EdgeKey(x, EdgeChild(x, k)) && (x, EdgeChild(x, k)) in edges
  }

  /** The operators of `all_ops` hold exactly the children `edges` name. */
  ghost predicate EdgesIn(h: Heap, allOps: map<string, NodeId>, edges: set<(string, string)>)
  {
    && (forall e :: e in edges ==> HasEdge(h, allOps, e.0, e.1))
    && OnlyEdges(h, allOps, edges)
  }

  /** What holds between the steps of `from_airflow_dag`: the operators are
      shaped, one per name seen so far, each has the forward of its task, and
      the edges seen so far are registered and are their only children. */
  ghost predicate Built(h: Heap, start: NodeId, next: NodeId, className: string, dag: AirDag, root: NodeId,
                        allOps: map<string, NodeId>, names: set<string>, edges: set<(string, string)>)
  {
    && Shaped(h, start, next, className, root, allOps)
    && allOps.Keys == names
    && ForwardsSet(h, dag, allOps, {})
    && EdgesIn(h, allOps, edges)
  }

  /** A new operator for a new name keeps everything, except that its
      forward is not yet bound. */
  lemma CreateStep(h: Heap, start: NodeId, next: NodeId, className: string, dag: AirDag, root: NodeId,
                   allOps: map<string, NodeId>, edges: set<(string, string)>, p: string)
    requires Shaped(h, start, next, className, root, allOps) && ForwardsSet(h, dag, allOps, {})
    requires EdgesIn(h, allOps, edges) && p !in allOps && next !in h
    ensures var h' := h[next := Init(Blank(className))];
            var ops := allOps[p := next];
            && Shaped(h', start, next + 1, className, root, ops)
            && ForwardsSet(h', dag, ops, {p})
            && EdgesIn(h', ops, edges)
  {
    var h' := h[next := Init(Blank(className))];
    var ops := allOps[p := next];
    forall e | e in edges ensures HasEdge(h', ops, e.0, e.1) {
      assert HasEdge(h, allOps, e.0, e.1);
    }
    forall x, k | x in ops && ops[x] in h' && k in Keys(h'[ops[x]].children)
      ensures k == EdgeKey(x, EdgeChild(x, k)) && (x, EdgeChild(x, k)) in edges
    {
      assert x != p && h'[ops[x]] == h[allOps[x]];
    }
  }

  /** Registering the child's operator on the operator of `p` under
      `op__<p>__<child>` adds that edge and keeps all others. */
  lemma LinkStep(h: Heap, start: NodeId, next: NodeId, className: string, dag: AirDag, root: NodeId,
                 allOps: map<string, NodeId>, edges: set<(string, string)>, p: string, child: string,
                 pending: set<string>)
    requires Shaped(h, start, next, className, root, allOps) && ForwardsSet(h, dag, allOps, pending)
    requires EdgesIn(h, allOps, edges) && p in allOps && child in allOps
    ensures Assign(h[allOps[p]], EdgeKey(p, child), Op(allOps[child])).Ok?
    ensures var h' := h[allOps[p] := Assign(h[allOps[p]], EdgeKey(p, child), Op(allOps[child])).value];
            && Shaped(h', start, next, className, root, allOps)
            && ForwardsSet(h', dag, allOps, pending)
            && EdgesIn(h', allOps, edges + {(p, child)})
  {
    var target := allOps[p];
    var key := EdgeKey(p, child);
    EdgeKeyIsNotRegistry(p, child);
    LinkNode(h[target], key, allOps[child]);
    var n := Assign(h[target], key, Op(allOps[child])).value;
    LinkHasEdges(h, allOps, edges, p, child, n);
    LinkOnlyEdges(h, allOps, edges, p, child, n);
  }

  /** Registering the edge `p -> child` on the operator of `p` keeps every
      other registered edge. */
  lemma LinkHasEdges(h: Heap, allOps: map<string, NodeId>, edges: set<(string, string)>,
                     p: string, child: string, n: Node)
    requires forall e :: e in edges ==> HasEdge(h, allOps, e.0, e.1)
    requires Injective(allOps) && p in allOps && child in allOps && allOps[p] in h
    requires Lookup(n.children, EdgeKey(p, child)) == Some(allOps[child])
    requires forall k :: k != EdgeKey(p, child) ==> Lookup(n.children, k) == Lookup(h[allOps[p]].children, k)
    ensures forall e :: e in edges + {(p, child)} ==> HasEdge(h[allOps[p] := n], allOps, e.0, e.1)
  {
    var h' := h[allOps[p] := n];
    forall e | e in edges + {(p, child)} ensures HasEdge(h', allOps, e.0, e.1) {
      if e != (p, child) {
        assert HasEdge(h, allOps, e.0, e.1);
        if allOps[e.0] == allOps[p] {
          assert e.0 == p;
          if EdgeKey(p, e.1) == EdgeKey(p, child) {
            EdgeKeyDeterminesChild(p, e.1, child);
          }
        }
      }
    }
  }

  /** Registering one new edge key on the operator of `p` keeps every
      registry made of edge keys. */
  lemma LinkOnlyEdges(h: Heap, allOps: map<string, NodeId>, edges: set<(string, string)>,
                      p: string, child: string, n: Node)
    requires OnlyEdges(h, allOps, edges) && Injective(allOps) && p in allOps && allOps[p] in h
    requires forall k :: k in Keys(n.children) ==> k in Keys(h[allOps[p]].children) || k == EdgeKey(p, child)
    ensures OnlyEdges(h[allOps[p] := n], allOps, edges + {(p, child)})
  {
    var h' := h[allOps[p] := n];
    EdgeChildOfKey(p, child);
    forall x, k | x in allOps && allOps[x] in h' && k in Keys(h'[allOps[x]].children)
      ensures k == EdgeKey(x, EdgeChild(x, k)) && (x, EdgeChild(x, k)) in edges + {(p, child)}
    {
      if allOps[x] != allOps[p] {
        assert h'[allOps[x]] == h[allOps[x]];
      } else {
        assert x == p;
        if k != EdgeKey(p, child) {
          assert k in Keys(h[allOps[x]].children);
        }
      }
    }
  }

  /** Operators whose registries did not change keep exactly their edges. */
  lemma SameChildrenEdges(h: Heap, h': Heap, allOps: map<string, NodeId>, edges: set<(string, string)>)
    requires EdgesIn(h, allOps, edges) && h'.Keys == h.Keys
    requires forall x :: x in allOps && allOps[x] in h ==> h'[allOps[x]].children == h[allOps[x]].children
    ensures EdgesIn(h', allOps, edges)
  {
    forall e | e in edges ensures HasEdge(h', allOps, e.0, e.1) {
      assert HasEdge(h, allOps, e.0, e.1);
    }
    forall x, k | x in allOps && allOps[x] in h' && k in Keys(h'[allOps[x]].children)
      ensures k == EdgeKey(x, EdgeChild(x, k)) && (x, EdgeChild(x, k)) in edges
    {
      assert k in Keys(h[allOps[x]].children);
    }
  }

  /** One node gets a child under a key other than its registry. */
  lemma LinkNode(n: Node, key: string, c: NodeId)
    requires OnlyChildAttrs(n) && key != RegistryAttr
    ensures Assign(n, key, Op(c)).Ok?
    ensures var n' := Assign(n, key, Op(c)).value;
            && OnlyChildAttrs(n') && n'.className == n.className && n'.forward == n.forward
            && Lookup(n'.children, key) == Some(c)
            && forall k :: k != key ==> Lookup(n'.children, k) == Lookup(n.children, k)
  {
    var n' := Assign(n, key, Op(c)).value;
    forall k | k in n'.attrs ensures k == RegistryAttr || k in Keys(n'.children) {
      if k != key {
        assert k in n.attrs;
      }
    }
  }

  /** Binding the forward of one operator changes nothing else. */
  lemma BindStep(h: Heap, start: NodeId, next: NodeId, className: string, dag: AirDag, root: NodeId,
                 allOps: map<string, NodeId>, edges: set<(string, string)>, p: string, pending: set<string>)
    requires Shaped(h, start, next, className, root, allOps) && ForwardsSet(h, dag, allOps, pending)
    requires EdgesIn(h, allOps, edges) && p in allOps && pending <= {p}
    ensures var h' := h[allOps[p] := h[allOps[p]].(forward := ForwardFor(dag, p))];
            && Shaped(h', start, next, className, root, allOps)
            && ForwardsSet(h', dag, allOps, {})
            && EdgesIn(h', allOps, edges)
  {
    var h' := h[allOps[p] := h[allOps[p]].(forward := ForwardFor(dag, p))];
    SameChildrenEdges(h, h', allOps, edges);
  }

  /** The part of the heap made before `start`. */
  ghost function Below(h: Heap, start: NodeId): Heap
  {
    map i | i in h && i < start :: h[i]
  }

  /** Nodes older than `start` are as they were, and none was added. */
  ghost predicate Untouched(before: Heap, after: Heap, start: NodeId)
  {
    Below(after, start) == Below(before, start)
  }

  /** Changing or adding a node from `start` on leaves the older ones. */
  lemma UpdateAbove(h: Heap, k: NodeId, n: Node, start: NodeId)
    requires start <= k
    ensures Untouched(h, h[k := n], start)
  {
    assert Below(h[k := n], start) == Below(h, start);
  }

  /** `operator_cls()`: a new operator whose initialiser runs
      `Operator.__init__`. */
  method NewOperator(g: OperatorGraph, className: string) returns (id: NodeId)
    requires g.Valid()
    modifies g
    ensures g.Valid() && id == old(g.next) && g.next == old(g.next) + 1 && id !in old(g.nodes)
    ensures g.nodes == old(g.nodes)[id := Init(Blank(className))]
  {
    id := g.Allocate(className);
    g.Construct(id);
  }

  /** `if p not in all_ops: all_ops[p] = operator_cls()`. */
  method EnsureOperator(g: OperatorGraph, className: string, dag: AirDag, root: NodeId,
                        allOps: map<string, NodeId>, p: string,
                        ghost start: NodeId, ghost edges: set<(string, string)>)
    returns (ops: map<string, NodeId>, ghost pending: set<string>)
    requires g.Valid() && Shaped(g.nodes, start, g.next, className, root, allOps)
    requires ForwardsSet(g.nodes, dag, allOps, {}) && EdgesIn(g.nodes, allOps, edges)
    modifies g
    ensures g.Valid() && old(g.next) <= g.next
    ensures Shaped(g.nodes, start, g.next, className, root, ops)
    ensures ForwardsSet(g.nodes, dag, ops, pending) && EdgesIn(g.nodes, ops, edges)
    ensures ops.Keys == allOps.Keys + {p} && forall x :: x in allOps ==> ops[x] == allOps[x]
    ensures pending <= {p} && (p in pending ==> g.nodes[ops[p]].forward == Unbound)
    ensures Untouched(old(g.nodes), g.nodes, start) && g.nodes[root] == old(g.nodes)[root]
  {
    ops := allOps;
    pending := {};
    if p !in ops {
      CreateStep(g.nodes, start, g.next, className, dag, root, ops, edges, p);
      UpdateAbove(g.nodes, g.next, Init(Blank(className)), start);
      var id := NewOperator(g, className);
      ops := ops[p := id];
      pending := {p};
    }
  }

  /** `setattr(all_ops[p], f"op__{p}__{child}", all_ops[child])`. */
  method Link(g: OperatorGraph, className: string, dag: AirDag, root: NodeId,
              ops: map<string, NodeId>, p: string, child: string,
              ghost start: NodeId, ghost edges: set<(string, string)>, ghost pending: set<string>)
    requires g.Valid() && Shaped(g.nodes, start, g.next, className, root, ops)
    requires ForwardsSet(g.nodes, dag, ops, pending) && EdgesIn(g.nodes, ops, edges)
    requires p in ops && child in ops
    modifies g
    ensures g.Valid() && g.next == old(g.next)
    ensures Shaped(g.nodes, start, g.next, className, root, ops)
    ensures ForwardsSet(g.nodes, dag, ops, pending) && EdgesIn(g.nodes, ops, edges + {(p, child)})
    ensures Untouched(old(g.nodes), g.nodes, start) && g.nodes[root] == old(g.nodes)[root]
    ensures g.nodes[ops[p]].forward == old(g.nodes)[ops[p]].forward
  {
    LinkStep(g.nodes, start, g.next, className, dag, root, ops, edges, p, child, pending);
    UpdateAbove(g.nodes, ops[p], Assign(g.nodes[ops[p]], EdgeKey(p, child), Op(ops[child])).value, start);
    var _ := g.SetAttr(ops[p], EdgeKey(p, child), Op(ops[child]));
  }

  /** The guarded `all_ops[p]._register_forward(...)`: the callable of `p`
      when its task has one; otherwise the bare `except` leaves the forward
      as it was. */
  method Bind(g: OperatorGraph, className: string, dag: AirDag, root: NodeId,
              ops: map<string, NodeId>, p: string,
              ghost start: NodeId, ghost edges: set<(string, string)>, ghost pending: set<string>)
    requires g.Valid() && Shaped(g.nodes, start, g.next, className, root, ops)
    requires ForwardsSet(g.nodes, dag, ops, pending) && EdgesIn(g.nodes, ops, edges)
    requires p in ops && pending <= {p} && (p in pending ==> g.nodes[ops[p]].forward == Unbound)
    modifies g
    ensures g.Valid() && g.next == old(g.next)
    ensures Shaped(g.nodes, start, g.next, className, root, ops)
    ensures ForwardsSet(g.nodes, dag, ops, {}) && EdgesIn(g.nodes, ops, edges)
    ensures Untouched(old(g.nodes), g.nodes, start) && g.nodes[root] == old(g.nodes)[root]
  {
    var target := ops[p];
    BindStep(g.nodes, start, g.next, className, dag, root, ops, edges, p, pending);
    UpdateAbove(g.nodes, target, g.nodes[target].(forward := ForwardFor(dag, p)), start);
    if p in dag.taskDict && dag.taskDict[p].Some? {
      g.RegisterForward(target, Bound(dag.taskDict[p].value));
    } else {
      assert g.nodes == g.nodes[target := g.nodes[target].(forward := ForwardFor(dag, p))];
    }
  }

  /** The body of the inner loop of `from_airflow_dag` for one upstream id
      `p` of `child`: make the operator of `p` if it is new, register the
      child's operator on it under `op__<p>__<child>`, and bind the callable
      of `p`; a task without one is skipped silently (the bare `except`). */
  method AttachParent(g: OperatorGraph, className: string, dag: AirDag, root: NodeId,
                      allOps: map<string, NodeId>, child: string, p: string,
                      ghost start: NodeId, ghost names: set<string>, ghost edges: set<(string, string)>)
    returns (ops: map<string, NodeId>)
    requires g.Valid() && Built(g.nodes, start, g.next, className, dag, root, allOps, names, edges)
    requires child in allOps
    modifies g
    ensures g.Valid() && old(g.next) <= g.next
    ensures Built(g.nodes, start, g.next, className, dag, root, ops, names + {p}, edges + {(p, child)})
    ensures Untouched(old(g.nodes), g.nodes, start) && g.nodes[root] == old(g.nodes)[root]
    ensures forall x :: x in allOps ==> x in ops && ops[x] == allOps[x]
  {
    ghost var pending;
    ops, pending := EnsureOperator(g, className, dag, root, allOps, p, start, edges);
    Link(g, className, dag, root, ops, p, child, start, edges, pending);
    Bind(g, className, dag, root, ops, p, start, edges + {(p, child)}, pending);
  }

  function EdgesTo(parents: seq<string>, child: string): set<(string, string)>
  {
    set p | p in parents :: (p, child)
  }

  /** A new operator for `child`, bound to its task's callable; a task
      without one raises. */
  method CreateChild(g: OperatorGraph, className: string, dag: AirDag, root: NodeId,
                     allOps: map<string, NodeId>, child: string,
                     ghost start: NodeId, ghost names: set<string>, ghost edges: set<(string, string)>)
    returns (r: Result<(), ImportError>, ops: map<string, NodeId>)
    requires g.Valid() && Built(g.nodes, start, g.next, className, dag, root, allOps, names, edges)
    requires child !in allOps
    modifies g
    ensures g.Valid() && old(g.next) <= g.next
    ensures Untouched(old(g.nodes), g.nodes, start) && root in g.nodes && g.nodes[root] == old(g.nodes)[root]
    ensures r.Ok? <==> ForwardFor(dag, child).Bound?
    ensures r.Err? ==> r.error == MissingCallable(child)
    ensures r.Ok? ==> Built(g.nodes, start, g.next, className, dag, root, ops, names + {child}, edges)
  {
    CreateStep(g.nodes, start, g.next, className, dag, root, allOps, edges, child);
    UpdateAbove(g.nodes, g.next, Init(Blank(className)), start);
    var id := NewOperator(g, className);
    ops := allOps[child := id];
    if !(child in dag.taskDict && dag.taskDict[child].Some?) {
      return Err(MissingCallable(child)), ops;
    }
    BindStep(g.nodes, start, g.next, className, dag, root, ops, edges, child, {child});
    UpdateAbove(g.nodes, id, g.nodes[id].(forward := ForwardFor(dag, child)), start);
    g.RegisterForward(id, Bound(dag.taskDict[child].value));
    return Ok(()), ops;
  }

  /** `if child not in all_ops`: make the child's operator and bind its
      task's callable; a new child whose task has no callable raises. */
  method MakeChild(g: OperatorGraph, className: string, dag: AirDag, root: NodeId,
                   allOps: map<string, NodeId>, child: string,
                   ghost start: NodeId, ghost names: set<string>, ghost edges: set<(string, string)>)
    returns (r: Result<(), ImportError>, ops: map<string, NodeId>)
    requires g.Valid() && Built(g.nodes, start, g.next, className, dag, root, allOps, names, edges)
    modifies g
    ensures g.Valid() && old(g.next) <= g.next
    ensures Untouched(old(g.nodes), g.nodes, start) && root in g.nodes && g.nodes[root] == old(g.nodes)[root]
    ensures r.Ok? <==> child in allOps || ForwardFor(dag, child).Bound?
    ensures r.Err? ==> r.error == MissingCallable(child)
    ensures r.Ok? ==> Built(g.nodes, start, g.next, className, dag, root, ops, names + {child}, edges)
  {
    if child !in allOps {
      r, ops := CreateChild(g, className, dag, root, allOps, child, start, names, edges);
    } else {
      SameBuilt(g.nodes, start, g.next, className, dag, root, allOps, names, names + {child}, edges, edges);
      r, ops := Ok(()), allOps;
    }
  }

  /** The inner loop: attach the child to every upstream id in turn. */
  method AttachParents(g: OperatorGraph, className: string, dag: AirDag, root: NodeId,
                       allOps: map<string, NodeId>, child: string, parents: seq<string>,
                       ghost start: NodeId, ghost names: set<string>, ghost edges: set<(string, string)>)
    returns (ops: map<string, NodeId>)
    requires g.Valid() && Built(g.nodes, start, g.next, className, dag, root, allOps, names, edges)
    requires child in allOps
    modifies g
    ensures g.Valid() && old(g.next) <= g.next
    ensures Untouched(old(g.nodes), g.nodes, start) && root in g.nodes && g.nodes[root] == old(g.nodes)[root]
    ensures Built(g.nodes, start, g.next, className, dag, root, ops,
                  names + Elems(parents), edges + EdgesTo(parents, child))
  {
    ops := allOps;
    ghost var ns, es := names, edges;
    PrefixStep(parents, 0, child, names, edges, ns, es);
    for j := 0 to |parents|
      invariant g.Valid() && old(g.next) <= g.next
      invariant Untouched(old(g.nodes), g.nodes, start) && root in g.nodes && g.nodes[root] == old(g.nodes)[root]
      invariant ns == names + Elems(parents[..j]) && es == edges + EdgesTo(parents[..j], child)
      invariant Built(g.nodes, start, g.next, className, dag, root, ops, ns, es)
    {
      ops := AttachParent(g, className, dag, root, ops, child, parents[j], start, ns, es);
      PrefixStep(parents, j + 1, child, names, edges, ns, es);
      ns, es := ns + {parents[j]}, es + {(parents[j], child)};
    }
    assert parents[..|parents|] == parents;
    SameBuilt(g.nodes, start, g.next, className, dag, root, ops, ns, names + Elems(parents),
              es, edges + EdgesTo(parents, child));
  }

  /** The names and edges of the first `j` upstream ids, one id further. */
  lemma PrefixStep(parents: seq<string>, j: nat, child: string, names: set<string>,
                   edges: set<(string, string)>, ns: set<string>, es: set<(string, string)>)
    requires j <= |parents|
    requires j > 0 ==> ns == names + Elems(parents[..j - 1]) && es == edges + EdgesTo(parents[..j - 1], child)
    requires j == 0 ==> ns == names && es == edges
    ensures j > 0 ==> ns + {parents[j - 1]} == names + Elems(parents[..j])
    ensures j > 0 ==> es + {(parents[j - 1], child)} == edges + EdgesTo(parents[..j], child)
    ensures j == 0 ==> ns == names + Elems(parents[..j]) && es == edges + EdgesTo(parents[..j], child)
  {
    if j > 0 {
      assert parents[..j] == parents[..j - 1] + [parents[j - 1]];
    } else {
      assert parents[..0] == [];
    }
  }

  /** One entry `(child, parents)` of the table: the body of the outer loop
      of `from_airflow_dag` up to the parentless check. */
  method ImportEntry(g: OperatorGraph, className: string, dag: AirDag, root: NodeId,
                     allOps: map<string, NodeId>, child: string, parents: seq<string>,
                     ghost start: NodeId, ghost names: set<string>, ghost edges: set<(string, string)>)
    returns (r: Result<(), ImportError>, ops: map<string, NodeId>)
    requires g.Valid() && Built(g.nodes, start, g.next, className, dag, root, allOps, names, edges)
    modifies g
    ensures g.Valid() && old(g.next) <= g.next
    ensures Untouched(old(g.nodes), g.nodes, start) && root in g.nodes && g.nodes[root] == old(g.nodes)[root]
    ensures r.Ok? <==> child in allOps || ForwardFor(dag, child).Bound?
    ensures r.Err? ==> r.error == MissingCallable(child)
    ensures r.Ok? ==> Built(g.nodes, start, g.next, className, dag, root, ops,
                            names + {child} + Elems(parents), edges + EdgesTo(parents, child))
  {
    r, ops := MakeChild(g, className, dag, root, allOps, child, start, names, edges);
    if r.Ok? {
      ops := AttachParents(g, className, dag, root, ops, child, parents, start, names + {child}, edges);
    }
  }

  // ---------------------------------------------------------------------
  // the root

  predicate NoDuplicates(s: seq<string>)
  {
    forall i, j :: 0 <= i < j < |s| ==> s[i] != s[j]
  }

  /** The root's registry after the parentless loop: `op__root__<id>` to the
      operator of `id`, in the order of `ids`. */
  function RootEntries(ids: seq<string>, allOps: map<string, NodeId>): Entries<NodeId>
    requires forall x :: x in ids ==> x in allOps
  {
    if ids == [] then []
    else RootEntries(ids[..|ids| - 1], allOps) + [(RootKey(ids[|ids| - 1]), allOps[ids[|ids| - 1]])]
  }

  lemma {:induction false} RootEntriesKeys(ids: seq<string>, allOps: map<string, NodeId>, c: string)
    requires forall x :: x in ids ==> x in allOps
    requires RootKey(c) in Keys(RootEntries(ids, allOps))
    ensures c in ids
  {
    var n := |ids|;
    if n > 0 {
      var front := RootEntries(ids[..n - 1], allOps);
      KeysAppend(front, [(RootKey(ids[n - 1]), allOps[ids[n - 1]])]);
      if RootKey(c) in Keys(front) {
        RootEntriesKeys(ids[..n - 1], allOps, c);
      } else {
        RootKeyDeterminesChild(c, ids[n - 1]);
      }
    }
  }

  lemma {:induction false} RootEntriesValues(ids: seq<string>, allOps: map<string, NodeId>)
    requires forall x :: x in ids ==> x in allOps
    ensures Values(RootEntries(ids, allOps)) <= allOps.Values
  {
    var n := |ids|;
    if n > 0 {
      RootEntriesValues(ids[..n - 1], allOps);
      ValuesAppend(RootEntries(ids[..n - 1], allOps), [(RootKey(ids[n - 1]), allOps[ids[n - 1]])]);
    }
  }

  /** One pass of the parentless loop on the root's node: the key
      `op__root__<id>` is new, so the entry goes at the end of the registry. */
  lemma RootStep(n: Node, allOps: map<string, NodeId>, ids: seq<string>, k: nat)
    requires k < |ids| && NoDuplicates(ids) && forall x :: x in ids ==> x in allOps
    requires OnlyChildAttrs(n) && n.children == RootEntries(ids[..k], allOps)
    ensures Assign(n, RootKey(ids[k]), Op(allOps[ids[k]])).Ok?
    ensures var n' := Assign(n, RootKey(ids[k]), Op(allOps[ids[k]])).value;
            && OnlyChildAttrs(n') && n'.children == RootEntries(ids[..k + 1], allOps)
            && n'.className == n.className && n'.forward == n.forward
  {
    var p := ids[k];
    assert ids[..k + 1][..k] == ids[..k] && ids[..k + 1][k] == p;
    EdgeKeyIsNotRegistry("", p);
    if RootKey(p) in Keys(n.children) {
      RootEntriesKeys(ids[..k], allOps, p);
      assert false;
    }
    var n' := Assign(n, RootKey(p), Op(allOps[p])).value;
    forall a | a in n'.attrs ensures a == RegistryAttr || a in Keys(n'.children) {
      if a != RootKey(p) {
        assert a in n.attrs;
      }
    }
  }

  lemma OnlyRootStep(before: Heap, h: Heap, root: NodeId, n: Node)
    requires OnlyRoot(before, h, root)
    ensures OnlyRoot(before, h[root := n], root)
  {
  }

  /** The loop `for p in parent_less_ops: setattr(root, f"op__root__{p}",
      all_ops[p])`: the ids are distinct, so each adds one entry at the end
      of the root's registry. */
  method AttachRoots(g: OperatorGraph, root: NodeId, allOps: map<string, NodeId>, ids: seq<string>)
    requires g.Valid() && root in g.nodes && OnlyChildAttrs(g.nodes[root]) && g.nodes[root].children == []
    requires forall x :: x in ids ==> x in allOps && allOps[x] in g.nodes
    requires NoDuplicates(ids)
    modifies g
    ensures g.Valid() && g.next == old(g.next)
    ensures OnlyRoot(old(g.nodes), g.nodes, root)
    ensures g.nodes[root].children == RootEntries(ids, allOps)
    ensures g.nodes[root].className == old(g.nodes)[root].className
    ensures g.nodes[root].forward == old(g.nodes)[root].forward
  {
    for k := 0 to |ids|
      invariant g.Valid() && g.next == old(g.next) && OnlyRoot(old(g.nodes), g.nodes, root)
      invariant OnlyChildAttrs(g.nodes[root])
      invariant g.nodes[root].children == RootEntries(ids[..k], allOps)
      invariant g.nodes[root].className == old(g.nodes)[root].className
      invariant g.nodes[root].forward == old(g.nodes)[root].forward
    {
      var p := ids[k];
      RootStep(g.nodes[root], allOps, ids, k);
      OnlyRootStep(old(g.nodes), g.nodes, root, Assign(g.nodes[root], RootKey(p), Op(allOps[p])).value);
      var _ := g.SetAttr(root, RootKey(p), Op(allOps[p]));
    }
    assert ids[..|ids|] == ids;
  }

  // ---------------------------------------------------------------------
  // from_airflow_dag

  lemma TopoStep(topo: Topo, i: nat)
    requires i < |topo|
    ensures topo[..i + 1][..i] == topo[..i] && topo[..i + 1][i] == topo[i]
    ensures TopoNames(topo[..i + 1]) == TopoNames(topo[..i]) + {topo[i].0} + Elems(topo[i].1)
    ensures TopoEdges(topo[..i + 1]) == TopoEdges(topo[..i]) + EdgesTo(topo[i].1, topo[i].0)
    ensures ParentLess(topo[..i + 1]) == ParentLess(topo[..i]) + (if topo[i].1 == [] then [topo[i].0] else [])
    ensures Keys(topo[..i + 1]) == Keys(topo[..i]) + [topo[i].0]
  {
    assert topo[..i + 1] == topo[..i] + [topo[i]];
    KeysAppend(topo[..i], [topo[i]]);
  }

  /** In a table with distinct keys, entry `i`'s key is not among the keys
      before it. */
  lemma {:induction false} UniqueKeysPrefix(topo: Topo, i: nat)
    requires UniqueKeys(topo) && i < |topo|
    ensures topo[i].0 !in Keys(topo[..i])
  {
    if i > 0 {
      assert topo[1..][i - 1] == topo[i];
      UniqueKeysPrefix(topo[1..], i - 1);
      assert topo[..i] == [topo[0]] + topo[1..][..i - 1];
      KeysAppend([topo[0]], topo[1..][..i - 1]);
      KeysIndex(topo[1..]);
      assert topo[i].0 == Keys(topo[1..])[i - 1];
    }
  }

  /** What holds after the first `i` entries of the table. */
  ghost predicate RowsDone(h: Heap, start: NodeId, next: NodeId, className: string, dag: AirDag, topo: Topo,
                           root: NodeId, i: nat, allOps: map<string, NodeId>, parentLess: seq<string>)
    requires i <= |topo|
  {
    && Built(h, start, next, className, dag, root, allOps, TopoNames(topo[..i]), TopoEdges(topo[..i]))
    && h[root] == Init(Blank(className))
    && parentLess == ParentLess(topo[..i]) && NoDuplicates(parentLess)
    && (forall x :: x in parentLess ==> x in allOps && x in Keys(topo[..i]))
  }

  lemma RowsDoneAll(h: Heap, start: NodeId, next: NodeId, className: string, dag: AirDag, topo: Topo,
                    root: NodeId, allOps: map<string, NodeId>, parentLess: seq<string>)
    requires RowsDone(h, start, next, className, dag, topo, root, |topo|, allOps, parentLess)
    ensures Built(h, start, next, className, dag, root, allOps, TopoNames(topo), TopoEdges(topo))
    ensures h[root] == Init(Blank(className))
    ensures parentLess == ParentLess(topo) && NoDuplicates(parentLess)
    ensures forall x :: x in parentLess ==> x in allOps
  {
    assert topo[..|topo|] == topo;
  }

  /** One pass of the outer loop: entry `i`, then the parentless check. */
  method ImportRow(g: OperatorGraph, className: string, dag: AirDag, topo: Topo, root: NodeId, i: nat,
                   allOps: map<string, NodeId>, parentLess: seq<string>, ghost start: NodeId)
    returns (r: Result<(), ImportError>, ops: map<string, NodeId>, parentLess': seq<string>)
    requires g.Valid() && UniqueKeys(topo) && i < |topo|
    requires RowsDone(g.nodes, start, g.next, className, dag, topo, root, i, allOps, parentLess)
    modifies g
    ensures g.Valid() && Untouched(old(g.nodes), g.nodes, start)
    ensures r.Err? ==> r.error == MissingCallable(topo[i].0) && ForwardFor(dag, topo[i].0) == Unbound
    ensures r.Ok? ==> RowsDone(g.nodes, start, g.next, className, dag, topo, root, i + 1, ops, parentLess')
  {
    var child := topo[i].0;
    var parents := topo[i].1;
    r, ops := ImportEntry(g, className, dag, root, allOps, child, parents, start,
                          TopoNames(topo[..i]), TopoEdges(topo[..i]));
    parentLess' := parentLess;
    if r.Ok? && parents == [] {
      parentLess' := parentLess + [child];
    }
    if r.Ok? {
      RowAdvance(g.nodes, start, g.next, className, dag, topo, root, i, parentLess, ops, parentLess');
    }
  }

  lemma RowAdvance(h: Heap, start: NodeId, next: NodeId, className: string, dag: AirDag, topo: Topo,
                   root: NodeId, i: nat, parentLess: seq<string>, ops: map<string, NodeId>,
                   parentLess': seq<string>)
    requires UniqueKeys(topo) && i < |topo|
    requires Built(h, start, next, className, dag, root, ops,
                   TopoNames(topo[..i]) + {topo[i].0} + Elems(topo[i].1),
                   TopoEdges(topo[..i]) + EdgesTo(topo[i].1, topo[i].0))
    requires h[root] == Init(Blank(className))
    requires parentLess == ParentLess(topo[..i]) && NoDuplicates(parentLess)
    requires forall x :: x in parentLess ==> x in TopoNames(topo[..i]) && x in Keys(topo[..i])
    requires parentLess' == parentLess + (if topo[i].1 == [] then [topo[i].0] else [])
    ensures RowsDone(h, start, next, className, dag, topo, root, i + 1, ops, parentLess')
  {
    TopoStep(topo, i);
    SameBuilt(h, start, next, className, dag, root, ops,
              TopoNames(topo[..i]) + {topo[i].0} + Elems(topo[i].1), TopoNames(topo[..i + 1]),
              TopoEdges(topo[..i]) + EdgesTo(topo[i].1, topo[i].0), TopoEdges(topo[..i + 1]));
    RowParentLess(topo, i, parentLess, ops.Keys, parentLess');
  }

  lemma RowParentLess(topo: Topo, i: nat, parentLess: seq<string>, names: set<string>, parentLess': seq<string>)
    requires UniqueKeys(topo) && i < |topo|
    requires names == TopoNames(topo[..i]) + {topo[i].0} + Elems(topo[i].1)
    requires parentLess == ParentLess(topo[..i]) && NoDuplicates(parentLess)
    requires forall x :: x in parentLess ==> x in TopoNames(topo[..i]) && x in Keys(topo[..i])
    requires parentLess' == parentLess + (if topo[i].1 == [] then [topo[i].0] else [])
    ensures parentLess' == ParentLess(topo[..i + 1]) && NoDuplicates(parentLess')
    ensures forall x :: x in parentLess' ==> x in names && x in Keys(topo[..i + 1])
  {
    TopoStep(topo, i);
    UniqueKeysPrefix(topo, i);
    var child := topo[i].0;
    forall x | x in parentLess ensures x != child {
      assert x in Keys(topo[..i]);
    }
  }

  lemma SameBuilt(h: Heap, start: NodeId, next: NodeId, className: string, dag: AirDag, root: NodeId,
                  allOps: map<string, NodeId>, names: set<string>, names': set<string>,
                  edges: set<(string, string)>, edges': set<(string, string)>)
    requires Built(h, start, next, className, dag, root, allOps, names, edges)
    requires names == names' && edges == edges'
    ensures Built(h, start, next, className, dag, root, allOps, names', edges')
  {
  }

  /** The outer loop of `from_airflow_dag` over the table, collecting the
      parentless ids. */
  method BuildOperators(g: OperatorGraph, className: string, dag: AirDag, topo: Topo, root: NodeId,
                        ghost start: NodeId)
    returns (r: Result<(), ImportError>, allOps: map<string, NodeId>, parentLess: seq<string>)
    requires g.Valid() && UniqueKeys(topo)
    requires Built(g.nodes, start, g.next, className, dag, root, map[], {}, {})
    requires g.nodes[root] == Init(Blank(className))
    modifies g
    ensures g.Valid() && Untouched(old(g.nodes), g.nodes, start)
    ensures r.Err? ==> r.error.MissingCallable? && r.error.taskId in Keys(topo)
                       && ForwardFor(dag, r.error.taskId) == Unbound
    ensures r.Ok? ==> RowsDone(g.nodes, start, g.next, className, dag, topo, root, |topo|, allOps, parentLess)
  {
    allOps := map[];
    parentLess := [];
    assert topo[..0] == [];
    for i := 0 to |topo|
      invariant g.Valid() && Untouched(old(g.nodes), g.nodes, start)
      invariant RowsDone(g.nodes, start, g.next, className, dag, topo, root, i, allOps, parentLess)
    {
      var row;
      row, allOps, parentLess := ImportRow(g, className, dag, topo, root, i, allOps, parentLess, start);
      if row.Err? {
        KeysIndex(topo);
        return row, allOps, parentLess;
      }
    }
    return Ok(()), allOps, parentLess;
  }

  /** Changing only the root keeps what was built below it. */
  lemma RootChangeKeepsBuilt(h: Heap, h': Heap, start: NodeId, next: NodeId, className: string, dag: AirDag,
                             root: NodeId, allOps: map<string, NodeId>, names: set<string>,
                             edges: set<(string, string)>)
    requires Built(h, start, next, className, dag, root, allOps, names, edges)
    requires OnlyRoot(h, h', root)
    ensures Built(h', start, next, className, dag, root, allOps, names, edges)
  {
    SameChildrenEdges(h, h', allOps, edges);
  }

  /** Distinct keys stay distinct while the table is built. */
  lemma {:induction false} TopoTreeUnique(tasks: seq<AirTask>, acc: Topo)
    requires UniqueKeys(acc) && TopoTree(tasks, acc).Ok?
    ensures UniqueKeys(TopoTree(tasks, acc).value)
  {
    if tasks != [] {
      TopoTreeUnique(tasks[1..], Put(acc, tasks[0].taskId, tasks[0].upstream));
    }
  }

  /** Before the first entry nothing is built yet but the root. */
  lemma StartBuilt(h: Heap, start: NodeId, next: NodeId, className: string, dag: AirDag, root: NodeId)
    requires root in h && start <= root < next
    ensures Built(h, start, next, className, dag, root, map[], {}, {})
  {
  }

  /** The result of a successful import: the operators of `all_ops` are
      built as `Built` says, for all names and edges of the table (so each
      holds exactly the downstream operators of its task), and the
      root is new, holds the parentless operators in table order and has the
      sequential forward. */
  ghost predicate Imported(h: Heap, start: NodeId, next: NodeId, className: string, dag: AirDag, topo: Topo,
                           root: NodeId, allOps: map<string, NodeId>)
  {
    && Built(h, start, next, className, dag, root, allOps, TopoNames(topo), TopoEdges(topo))
    && (forall x :: x in ParentLess(topo) ==> x in allOps)
    && h[root].children == RootEntries(ParentLess(topo), allOps)
    && h[root].className == className
    && h[root].forward == Sequential
  }

  /** Each imported operator holds exactly one child per downstream task of
      its own task, under `op__<x>__<c>`, and that child is the operator of
      `c`: no other key and no other child. */
  lemma ImportedChildren(h: Heap, start: NodeId, next: NodeId, className: string, dag: AirDag, topo: Topo,
                         root: NodeId, allOps: map<string, NodeId>, x: string)
    requires Imported(h, start, next, className, dag, topo, root, allOps) && x in allOps
    ensures var n := h[allOps[x]];
            && (forall k :: k in Keys(n.children) <==> exists c :: (x, c) in TopoEdges(topo) && k == EdgeKey(x, c))
            && (forall c :: (x, c) in TopoEdges(topo) ==> Lookup(n.children, EdgeKey(x, c)) == Some(allOps[c]))
  {
    var n := h[allOps[x]];
    forall c | (x, c) in TopoEdges(topo) ensures Lookup(n.children, EdgeKey(x, c)) == Some(allOps[c]) {
      assert HasEdge(h, allOps, x, c);
    }
    forall k ensures k in Keys(n.children) <==> exists c :: (x, c) in TopoEdges(topo) && k == EdgeKey(x, c) {
      if k in Keys(n.children) {
        assert (x, EdgeChild(x, k)) in TopoEdges(topo);
      }
    }
  }

  /** The nest an import builds has no operator but the root and those of
      `all_ops`: `root.operators()`, and so the installed forward, runs over
      nothing else. */
  lemma ImportedOperators(h: Heap, start: NodeId, next: NodeId, className: string, dag: AirDag, topo: Topo,
                          root: NodeId, allOps: map<string, NodeId>)
    requires Imported(h, start, next, className, dag, topo, root, allOps)
    requires Closed(h) && forall id :: id in h ==> NodeOk(h[id])
    ensures forall y :: y in GraphWalk.Operators(h, root) ==> y == root || y in allOps.Values
  {
    var m := {root} + allOps.Values;
    forall y | y in m ensures y in h && Values(h[y].children) <= m {
      if y == root {
        RootEntriesValues(ParentLess(topo), allOps);
      } else {
        var x :| x in allOps && allOps[x] == y;
        forall v | v in Values(h[y].children) ensures v in m {
          var k := ValueKey(h[y].children, v);
          var c := EdgeChild(x, k);
          assert HasEdge(h, allOps, x, c);
        }
      }
    }
    GraphWalk.OperatorsOnce(h, root);
    forall y | y in GraphWalk.Operators(h, root) ensures y in m {
      GraphWalk.ClosedHoldsReachable(h, m, root, y);
    }
  }

  /** Only the root may have changed. */
  ghost predicate OnlyRoot(before: Heap, h: Heap, root: NodeId)
  {
    root in h && h.Keys == before.Keys && forall i :: i in before && i != root ==> h[i] == before[i]
  }

  lemma OnlyRootUntouched(before: Heap, h: Heap, root: NodeId, start: NodeId)
    requires OnlyRoot(before, h, root) && start <= root
    ensures Untouched(before, h, start)
  {
    assert Below(h, start) == Below(before, start);
  }

  /** The root after the parentless loop and `_register_forward`: only the
      root changed, and it holds `entries` and the sequential forward. */
  ghost predicate RootDone(before: Heap, h: Heap, root: NodeId, className: string, entries: Entries<NodeId>)
  {
    && OnlyRoot(before, h, root)
    && h[root].children == entries && h[root].className == className && h[root].forward == Sequential
  }

  /** Once every entry is built, the root can take the parentless
      operators, and doing so completes the import. */
  lemma ReadyForRoots(h: Heap, start: NodeId, next: NodeId, className: string, dag: AirDag,
                      topo: Topo, root: NodeId, allOps: map<string, NodeId>, parentLess: seq<string>)
    requires RowsDone(h, start, next, className, dag, topo, root, |topo|, allOps, parentLess)
    ensures root in h && OnlyChildAttrs(h[root]) && h[root].children == []
    ensures forall x :: x in parentLess ==> x in allOps && allOps[x] in h
    ensures NoDuplicates(parentLess)
    ensures forall h' :: RootDone(h, h', root, className, RootEntries(parentLess, allOps)) ==>
                         Imported(h', start, next, className, dag, topo, root, allOps)
  {
    RowsDoneAll(h, start, next, className, dag, topo, root, allOps, parentLess);
    forall h' | RootDone(h, h', root, className, RootEntries(parentLess, allOps))
      ensures Imported(h', start, next, className, dag, topo, root, allOps)
    {
      RootChangeKeepsBuilt(h, h', start, next, className, dag, root, allOps, TopoNames(topo), TopoEdges(topo));
    }
  }

  /** The parentless loop, then `root._register_forward(sequential_forward)`. */
  method FinishRoot(g: OperatorGraph, className: string, root: NodeId, allOps: map<string, NodeId>,
                    parentLess: seq<string>)
    requires g.Valid() && root in g.nodes && OnlyChildAttrs(g.nodes[root]) && g.nodes[root].children == []
    requires g.nodes[root].className == className
    requires forall x :: x in parentLess ==> x in allOps && allOps[x] in g.nodes
    requires NoDuplicates(parentLess)
    modifies g
    ensures g.Valid() && g.next == old(g.next)
    ensures RootDone(old(g.nodes), g.nodes, root, className, RootEntries(parentLess, allOps))
  {
    AttachRoots(g, root, allOps, parentLess);
    OnlyRootStep(old(g.nodes), g.nodes, root, g.nodes[root].(forward := Sequential));
    g.RegisterForward(root, Sequential);
  }

  /** The root's part of `from_airflow_dag`, once every entry of the table
      is built. */
  method CompleteRoot(g: OperatorGraph, className: string, dag: AirDag, topo: Topo, root: NodeId,
                      allOps: map<string, NodeId>, parentLess: seq<string>, ghost start: NodeId)
    requires g.Valid()
    requires RowsDone(g.nodes, start, g.next, className, dag, topo, root, |topo|, allOps, parentLess)
    modifies g
    ensures g.Valid() && g.next == old(g.next) && Untouched(old(g.nodes), g.nodes, start)
    ensures Imported(g.nodes, start, g.next, className, dag, topo, root, allOps)
  {
    ReadyForRoots(g.nodes, start, g.next, className, dag, topo, root, allOps, parentLess);
    FinishRoot(g, className, root, allOps, parentLess);
    OnlyRootUntouched(old(g.nodes), g.nodes, root, start);
  }

  /** Everything `from_airflow_dag` does after the table is built: the root,
      the operators of every entry, and the root's registry and forward. */
  method ImportTable(g: OperatorGraph, className: string, dag: AirDag, topo: Topo)
    returns (r: Result<NodeId, ImportError>, allOps: map<string, NodeId>)
    requires g.Valid() && UniqueKeys(topo)
    modifies g
    ensures g.Valid() && Untouched(old(g.nodes), g.nodes, old(g.next))
    ensures r.Err? ==> r.error.MissingCallable? && r.error.taskId in Keys(topo)
                       && ForwardFor(dag, r.error.taskId) == Unbound
    ensures r.Ok? ==> r.value !in old(g.nodes)
                      && Imported(g.nodes, old(g.next), g.next, className, dag, topo, r.value, allOps)
  {
    ghost var start := g.next;
    UpdateAbove(g.nodes, g.next, Init(Blank(className)), start);
    var root := NewOperator(g, className);
    StartBuilt(g.nodes, start, g.next, className, dag, root);
    var built, parentLess;
    built, allOps, parentLess := BuildOperators(g, className, dag, topo, root, start);
    if built.Err? {
      return Err(built.error), allOps;
    }
    CompleteRoot(g, className, dag, topo, root, allOps, parentLess, start);
    return Ok(root), allOps;
  }

  /** `from_airflow_dag(operator_cls, dag)`. The table of upstream ids is
      built first: a task that is not a `PythonOperator` raises before any
      operator exists. Then one operator per task id (`all_ops`, returned
      here so the contract can speak of it), each upstream operator holding
      its downstream operators under `op__<p>__<c>`, each operator bound to
      its task's callable, and a root holding the parentless operators under
      `op__root__<id>`, in table order, whose forward is the sequential
      fold. The only other failure is a task first met as a downstream task
      with no callable; the operators made before it stay unreachable
      garbage, and no existing operator is touched. */
  method FromAirflowDag(g: OperatorGraph, className: string, dag: AirDag)
    returns (r: Result<NodeId, ImportError>, allOps: map<string, NodeId>)
    requires g.Valid()
    modifies g
    ensures g.Valid()
    ensures TopoTree(dag.taskGroup, []).Err? ==> r == Err(TopoTree(dag.taskGroup, []).error) && g.nodes == old(g.nodes)
    ensures Untouched(old(g.nodes), g.nodes, old(g.next))
    ensures TopoTree(dag.taskGroup, []).Ok? && r.Err? ==>
              r.error.MissingCallable? && r.error.taskId in Keys(TopoTree(dag.taskGroup, []).value)
              && ForwardFor(dag, r.error.taskId) == Unbound
    ensures r.Ok? ==> r.value !in old(g.nodes) && TopoTree(dag.taskGroup, []).Ok?
                      && Imported(g.nodes, old(g.next), g.next, className, dag, TopoTree(dag.taskGroup, []).value,
                                  r.value, allOps)
  {
    var table := BuildTopoTree(dag.taskGroup);
    if table.Err? {
      return Err(table.error), map[];
    }
    TopoTreeUnique(dag.taskGroup, []);
    r, allOps := ImportTable(g, className, dag, table.value);
  }

  // ---------------------------------------------------------------------
  // from_airflow_operator

  datatype WrapError = AssertionFailed | NoCallable

  /** `from_airflow_operator(operator_cls, air_operator)` as written: the
      assertion passes for every class name except `PythonOperator`, the
      one kind its message says is supported. A task that passes it and has
      no `python_callable` raises after the operator was made. */
  method FromAirflowOperatorAsWritten(g: OperatorGraph, className: string, kind: string, callable: Option<Callable>)
    returns (r: Result<NodeId, WrapError>)
    requires g.Valid()
    modifies g
    ensures g.Valid() && Untouched(old(g.nodes), g.nodes, old(g.next))
    ensures kind == PythonOperatorKind ==> r == Err(AssertionFailed) && g.nodes == old(g.nodes)
    ensures kind != PythonOperatorKind && callable.None? ==> r == Err(NoCallable)
    ensures r.Ok? ==> kind != PythonOperatorKind && callable.Some?
                      && r.value !in old(g.nodes)
                      && g.nodes == old(g.nodes)[r.value := Init(Blank(className)).(forward := Bound(callable.value))]
  {
    if kind == PythonOperatorKind {
      return Err(AssertionFailed);
    }
    UpdateAbove(g.nodes, g.next, Init(Blank(className)), g.next);
    var op := NewOperator(g, className);
    if callable.None? {
      return Err(NoCallable);
    }
    UpdateAbove(old(g.nodes), op, Init(Blank(className)).(forward := Bound(callable.value)), op);
    g.RegisterForward(op, Bound(callable.value));
    return Ok(op);
  }

  /** The assertion as its message means it, the check `from_airflow_dag`
      makes for every task: only a `PythonOperator` is wrapped, and then the
      new operator's forward is the task's callable. */
  method FromAirflowOperator(g: OperatorGraph, className: string, kind: string, callable: Option<Callable>)
    returns (r: Result<NodeId, WrapError>)
    requires g.Valid()
    modifies g
    ensures g.Valid() && Untouched(old(g.nodes), g.nodes, old(g.next))
    ensures kind != PythonOperatorKind ==> r == Err(AssertionFailed) && g.nodes == old(g.nodes)
    ensures kind == PythonOperatorKind && callable.None? ==> r == Err(NoCallable)
    ensures r.Ok? <==> kind == PythonOperatorKind && callable.Some?
    ensures r.Ok? ==> r.value !in old(g.nodes)
                      && g.nodes == old(g.nodes)[r.value := Init(Blank(className)).(forward := Bound(callable.value))]
  {
    if kind != PythonOperatorKind {
      return Err(AssertionFailed);
    }
    UpdateAbove(g.nodes, g.next, Init(Blank(className)), g.next);
    var op := NewOperator(g, className);
    if callable.None? {
      return Err(NoCallable);
    }
    UpdateAbove(old(g.nodes), op, Init(Blank(className)).(forward := Bound(callable.value)), op);
    g.RegisterForward(op, Bound(callable.value));
    return Ok(op);
  }
}
