/** The state of `Operator` objects (nbox/jobs/operator.py) and the
    attribute-assignment state machine that registers children.

    A Python object is a `Node` value stored in an `OperatorGraph` heap under
    its identity, a `NodeId`. `attrs` is the instance `__dict__`; `children`
    is the `_operators` OrderedDict; `forward` is what `_register_forward`
    last installed. */
module OperatorNode {
  import opened Wrappers
  import opened OrderedDict

  type NodeId = nat

  /** An opaque Python value: only its identity token and its truthiness are
      observable by the code modelled here. */
  datatype Arg = Arg(token: nat, truthy: bool)

  /** Opaque handle for a Python callable (a task's `python_callable`). */
  datatype Callable = Callable(handle: string)

  /** A value held in an instance `__dict__`: a reference to an Operator, an
      `OrderedDict` serving as the `_operators` registry (a fresh, empty one
      when it is assigned), or any other Python value, which is taken to be
      no container (`in` and item assignment on it raise TypeError). */
  datatype Value = Op(id: NodeId) | Registry | Plain(arg: Arg)

  /** The forward an operator runs: the class default (which raises
      NotImplementedError), a bound callable, or the sequential reducer that
      `from_airflow_dag` installs on its synthetic root. */
  datatype Forward = Unbound | Bound(fn: Callable) | Sequential

  datatype Node = Node(
    className: string,
    attrs: map<string, Value>,
    children: Entries<NodeId>,
    forward: Forward)

  type Heap = map<NodeId, Node>

  const RegistryAttr := "_operators"

  /** `"_operators" in self.__dict__`: `Operator.__init__` has run. */
  predicate Initialised(n: Node)
  {
    RegistryAttr in n.attrs
  }

  /** `self._operators` is a registry that children can be put in: what
      `__init__` leaves there, and what an assignment of another value to
      `_operators` takes away. */
  predicate HasRegistry(n: Node)
  {
    RegistryAttr in n.attrs && n.attrs[RegistryAttr] == Registry
  }

  /** What a node always satisfies: `_operators` has dict-shaped keys, it is
      only non-empty while there is a registry, and it never registers
      `_operators`. */
  predicate NodeOk(n: Node)
  {
    && UniqueKeys(n.children)
    && (n.children != [] ==> HasRegistry(n))
    && RegistryAttr !in Keys(n.children)
  }

  /** A freshly allocated instance before any `__init__` has run. */
  function Blank(className: string): Node
  {
    Node(className, map[], [], Unbound)
  }

  /** `Operator.__init__`: `self._operators = OrderedDict()`, which goes
      through `__setattr__` with a non-Operator value, so it lands in
      `__dict__` and replaces any previous registry with an empty one. */
  function Init(n: Node): (r: Node)
    ensures Initialised(r) && HasRegistry(r) && NodeOk(r)
    ensures r.children == [] && r.className == n.className && r.forward == n.forward
    ensures forall k :: k != RegistryAttr ==> (k in r.attrs <==> k in n.attrs)
  {
    n.(attrs := n.attrs[RegistryAttr := Registry], children := [])
  }

  datatype SetAttrError = AttributeError | TypeError | KeyError(key: string)

  /** `Operator.__setattr__(key, value)` on one node's state. */
  function Assign(n: Node, key: string, v: Value): (r: Result<Node, SetAttrError>)
    // an Operator before __init__ is refused and nothing changes
    ensures v.Op? && !Initialised(n) ==> r == Err(AttributeError)
    // an Operator after `_operators` was replaced by a non-container is refused
    ensures v.Op? && Initialised(n) && !HasRegistry(n) ==> r == Err(TypeError)
    // an Operator under a key that already names a non-child attribute is refused
    ensures (v.Op? && HasRegistry(n) && key in n.attrs && key !in Keys(n.children))
            ==> r == Err(KeyError(key))
    // every other assignment succeeds and writes __dict__[key]
    ensures r.Ok? <==> !v.Op? || (HasRegistry(n) && (key in n.attrs ==> key in Keys(n.children)))
    ensures r.Ok? ==> r.value.attrs == n.attrs[key := v]
    ensures r.Ok? ==> r.value.className == n.className && r.value.forward == n.forward
    // a plain value under any other key leaves the registry alone, even under a child's key
    ensures r.Ok? && !v.Op? && key != RegistryAttr ==> r.value.children == n.children
    ensures r.Ok? && key != RegistryAttr ==> (HasRegistry(r.value) <==> HasRegistry(n))
    // a plain value under `_operators` replaces the registry: a fresh one is
    // empty, and any other value leaves none
    ensures r.Ok? && !v.Op? && key == RegistryAttr ==>
              r.value.children == [] && (HasRegistry(r.value) <==> v == Registry)
    // an Operator is registered: a new key is appended, an old key keeps its place
    ensures r.Ok? && v.Op? ==>
              && Keys(r.value.children) == (if key in Keys(n.children) then Keys(n.children)
                                            else Keys(n.children) + [key])
              && Lookup(r.value.children, key) == Some(v.id)
              && forall k :: k != key ==> Lookup(r.value.children, k) == Lookup(n.children, k)
    ensures r.Ok? && NodeOk(n) ==> NodeOk(r.value)
  {
    if v.Op? && !Initialised(n) then Err(AttributeError)
    else if v.Op? && !HasRegistry(n) then Err(TypeError)
    else if v.Op? && key in n.attrs && key !in Keys(n.children) then Err(KeyError(key))
    else if v.Op? then Ok(n.(children := Put(n.children, key, v.id), attrs := n.attrs[key := v]))
    else if key == RegistryAttr then Ok(n.(attrs := n.attrs[key := v], children := []))
    else Ok(n.(attrs := n.attrs[key := v]))
  }

  /** `__init__` is the assignment of a fresh registry through `__setattr__`. */
  lemma InitIsAssign(n: Node)
    ensures Assign(n, RegistryAttr, Registry) == Ok(Init(n))
  {
  }

  /** Once `_operators` holds a value that is not a registry, no operator can
      be assigned to any attribute until a registry is put back. */
  lemma ReplacedRegistryRefusesOperators(n: Node, a: Arg, key: string, c: NodeId)
    ensures var m := Assign(n, RegistryAttr, Plain(a)).value;
            Assign(m, key, Op(c)) == Err(TypeError)
  {
  }

  /** Every registered child is itself an operator of the heap. */
  ghost predicate Closed(h: Heap)
  {
    forall id, c :: id in h && c in Values(h[id].children) ==> c in h
  }

  /** The operator heap: every `Operator` object alive in the program. */
  class OperatorGraph {
    var nodes: Heap
    var next: NodeId

    ghost predicate Valid()
      reads this
    {
      && Closed(nodes)
      && (forall id :: id in nodes ==> id < next)
      && (forall id :: id in nodes ==> NodeOk(nodes[id]))
    }

    constructor ()
      ensures Valid() && nodes == map[]
    {
      nodes := map[];
      next := 0;
    }

    /** `object.__new__(cls)`: a fresh identity with an empty `__dict__`. */
    method Allocate(className: string) returns (id: NodeId)
      requires Valid()
      modifies this
      ensures Valid()
      ensures id !in old(nodes) && id == old(next) && next == old(next) + 1
      ensures nodes == old(nodes)[id := Blank(className)]
    {
      id := next;
      nodes := nodes[id := Blank(className)];
      next := next + 1;
    }

    /** `Operator.__init__(self)`. */
    method Construct(id: NodeId)
      requires Valid() && id in nodes
      modifies this
      ensures Valid() && next == old(next)
      ensures nodes == old(nodes)[id := Init(old(nodes)[id])]
    {
      InitIsAssign(nodes[id]);
      var _ := SetAttr(id, RegistryAttr, Registry);
    }

    /** `Operator.__setattr__(self, key, value)`. */
    method SetAttr(id: NodeId, key: string, v: Value) returns (r: Result<(), SetAttrError>)
      requires Valid() && id in nodes && (v.Op? ==> v.id in nodes)
      modifies this
      ensures Valid() && next == old(next)
      ensures Assign(old(nodes)[id], key, v).Ok? ==>
                r.Ok? && nodes == old(nodes)[id := Assign(old(nodes)[id], key, v).value]
      ensures Assign(old(nodes)[id], key, v).Err? ==>
                r == Err(Assign(old(nodes)[id], key, v).error) && nodes == old(nodes)
    {
      var n := nodes[id];
      if v.Op? {
        if RegistryAttr !in n.attrs {
          return Err(AttributeError);
        }
        if n.attrs[RegistryAttr] != Registry {
          return Err(TypeError);
        }
        if key in n.attrs && key !in Keys(n.children) {
          return Err(KeyError(key));
        }
        n := n.(children := Put(n.children, key, v.id));
      } else if key == RegistryAttr {
        n := n.(children := []);
      }
      n := n.(attrs := n.attrs[key := v]);
      assert Ok(n) == Assign(nodes[id], key, v);
      assert Values(n.children) <= nodes.Keys;
      nodes := nodes[id := n];
      r := Ok(());
    }

    /** `_register_forward(fn)`, which is defined outside the modelled files:
        it installs `fn` as the node's forward. */
    method RegisterForward(id: NodeId, f: Forward)
      requires Valid() && id in nodes
      modifies this
      ensures Valid() && next == old(next)
      ensures nodes == old(nodes)[id := old(nodes)[id].(forward := f)]
    {
      nodes := nodes[id := nodes[id].(forward := f)];
    }
  }
}
