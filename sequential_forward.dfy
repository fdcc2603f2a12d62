/** The forward `from_airflow_dag` installs on its root
    (nbox/framework/__airflow.py, `sequential_forward` bound by `partial` to
    `ops = root.operators()`): feed the keyword arguments to the first
    operator, its result to the next, and so on. What an operator returns
    when called is outside this model: the calls are a parameter. */
module SequentialForward {
  import opened Wrappers
  import opened OperatorNode
  import opened GraphWalk
  import Invocation

  /** What an operator call returns: a dict of keyword values, or any other
      value, of which only its truth matters. */
  datatype Output = Kwargs(m: map<string, Arg>) | Scalar(truthy: bool)

  /** What calling operator `id` with keyword arguments `kw` does: it
      returns, or it raises. */
  datatype Step = Returned(out: Output) | Raised

  type Caller = (NodeId, map<string, Arg>) -> Step

  /** A step raised; or the previous output was not a dict, so unpacking it
      with `**` raises a `TypeError`; or `Operator.__call__` on the root
      itself stopped before its forward. */
  datatype ForwardError = StepRaised(id: NodeId) | NotAMapping | RootCallFailed(error: Invocation.CallError)

  /** `not out`: an empty dict or a falsy value. */
  predicate Falsy(o: Output)
  {
    (o.Kwargs? && o.m == map[]) || (o.Scalar? && !o.truthy)
  }

  /** `if not out: out = {}`. */
  function Normalise(o: Output): (r: Output)
    ensures !Falsy(o) ==> r == o
    ensures Falsy(o) ==> r == Kwargs(map[])
  {
    if Falsy(o) then Kwargs(map[]) else o
  }

  /** The loop of `sequential_forward` over `ops` from the output `out`. */
  function Fold(ops: seq<NodeId>, out: Output, call: Caller): Result<Output, ForwardError>
  {
    if ops == [] then Ok(out)
    else if !out.Kwargs? then Err(NotAMapping)
    else
      match call(ops[0], out.m)
      case Raised => Err(StepRaised(ops[0]))
      case Returned(o) => Fold(ops[1..], Normalise(o), call)
  }

  /** Running two runs of operators one after the other is running them
      together: each step receives the previous step's output. */
  lemma {:induction false} FoldAppend(a: seq<NodeId>, b: seq<NodeId>, out: Output, call: Caller)
    ensures Fold(a + b, out, call) ==
              if Fold(a, out, call).Err? then Fold(a, out, call) else Fold(b, Fold(a, out, call).value, call)
  {
    if a != [] {
      assert (a + b)[0] == a[0] && (a + b)[1..] == a[1..] + b;
      if out.Kwargs? && call(a[0], out.m).Returned? {
        FoldAppend(a[1..], b, Normalise(call(a[0], out.m).out), call);
      }
    } else {
      assert a + b == b;
    }
  }

  /** After at least one step the result is the last step's output, or
      `{}` when that output was falsy. */
  lemma {:induction false} FoldResultIsLastStep(ops: seq<NodeId>, out: Output, call: Caller)
    requires ops != [] && Fold(ops, out, call).Ok?
    ensures Fold(ops[..|ops| - 1], out, call).Ok? && Fold(ops[..|ops| - 1], out, call).value.Kwargs?
    ensures call(ops[|ops| - 1], Fold(ops[..|ops| - 1], out, call).value.m).Returned?
    ensures Fold(ops, out, call).value == Normalise(call(ops[|ops| - 1], Fold(ops[..|ops| - 1], out, call).value.m).out)
  {
    var n := |ops|;
    assert ops == ops[..n - 1] + [ops[n - 1]];
    FoldAppend(ops[..n - 1], [ops[n - 1]], out, call);
  }

  /** `root.operators()`, a generator: it can be run through once. The
      operators it will yield are fixed when it is made (the calls are taken
      not to change the graph). */
  class OpStream {
    var items: seq<NodeId>
    var pos: nat

    ghost predicate Valid()
      reads this
    {
      pos <= |items|
    }

    /** What the generator has still to yield. */
    function Remaining(): seq<NodeId>
      reads this
      requires Valid()
    {
      items[pos..]
    }

    /** `root.operators()` over the graph `h`. */
    constructor (h: Heap, root: NodeId)
      requires Closed(h) && root in h
      ensures Valid() && Remaining() == Operators(h, root)
    {
      items := Operators(h, root);
      pos := 0;
    }

    /** `next(gen)`, with `None` for `StopIteration`. */
    method Next() returns (o: Option<NodeId>)
      requires Valid()
      modifies this
      ensures Valid()
      ensures old(Remaining()) == [] ==> o.None? && Remaining() == []
      ensures old(Remaining()) != [] ==> o == Some(old(Remaining())[0]) && Remaining() == old(Remaining())[1..]
    {
      if pos == |items| {
        return None;
      }
      o := Some(items[pos]);
      pos := pos + 1;
    }
  }

  /** `sequential_forward(ops, **kwargs)` as a loop over whatever the
      generator has left, each operator's step given by `call`. It consumes
      the generator, so a second call of the same forward sees no operators
      and hands its keyword arguments back unchanged. On the imported root
      the first operator is the root itself, whose call re-enters this
      forward: `InstalledForward` below models that call. */
  method Sequential(ops: OpStream, kwargs: map<string, Arg>, call: Caller) returns (r: Result<Output, ForwardError>)
    requires ops.Valid()
    modifies ops
    ensures ops.Valid()
    ensures r == Fold(old(ops.Remaining()), Kwargs(kwargs), call)
    ensures r.Ok? ==> ops.Remaining() == []
  {
    var out := Kwargs(kwargs);
    ghost var seen: seq<NodeId> := [];
    while true
      invariant ops.Valid()
      invariant old(ops.Remaining()) == seen + ops.Remaining()
      invariant Fold(seen, Kwargs(kwargs), call) == Ok(out)
      decreases |ops.Remaining()|
    {
      ghost var rest := ops.Remaining();
      var o := ops.Next();
      if o.None? {
        assert seen + rest == seen;
        return Ok(out);
      }
      var id := o.value;
      FoldAppend(seen, [id], Kwargs(kwargs), call);
      assert seen + rest == (seen + [id]) + ops.Remaining();
      FoldAppend(seen + [id], ops.Remaining(), Kwargs(kwargs), call);
      FoldAppend(seen, rest, Kwargs(kwargs), call);
      if !out.Kwargs? {
        return Err(NotAMapping);
      }
      var step := call(id, out.m);
      if step.Raised? {
        return Err(StepRaised(id));
      }
      out := Normalise(step.out);
      seen := seen + [id];
    }
  }

  /** The fold installed on an imported root starts with the root itself:
      `root.operators()` yields the root first. */
  lemma RootStepsFirst(h: Heap, root: NodeId, kwargs: map<string, Arg>, call: Caller)
    requires Closed(h) && root in h
    ensures call(root, kwargs).Raised? ==> Fold(Operators(h, root), Kwargs(kwargs), call) == Err(StepRaised(root))
    ensures call(root, kwargs).Returned? ==>
              Fold(Operators(h, root), Kwargs(kwargs), call)
              == Fold(Operators(h, root)[1..], Normalise(call(root, kwargs).out), call)
  {
    OperatorsOnce(h, root);
  }

  // ---------------------------------------------------------------------
  // The forward installed on an imported root

  /** What `root(*args, **kwargs)` returns on a root whose forward is
      `sequential_forward` over its own fresh `root.operators()`. The call
      binds its arguments, and the loop takes the root first; calling it
      re-enters `__call__`, which binds the dict once more and runs the same
      forward on the same generator. That inner run consumes every other
      operator, so the outer loop ends after the root's step, with that
      step's output normalised. `rootSpec` is the parameter list reported
      for the installed forward. */
  function InstalledOutcome(h: Heap, root: NodeId, rootSpec: seq<string>, args: seq<Arg>,
                            kwargs: map<string, Arg>, call: Caller): Result<Output, ForwardError>
    requires Closed(h) && root in h
  {
    match Invocation.CallOutcome(h, root, rootSpec, args, kwargs)
    case Err(e) => Err(RootCallFailed(e))
    case Ok(outer) =>
      match Invocation.CallOutcome(h, root, rootSpec, [], outer)
      case Err(e) => Err(RootCallFailed(e))
      case Ok(inner) =>
        OperatorsOnce(h, root);
        match Fold(Operators(h, root)[1..], Kwargs(inner), call)
        case Err(e) => Err(e)
        case Ok(o) => Ok(Normalise(o))
  }

  /** The first call of an imported root: `__call__`, then the installed
      `sequential_forward`, whose first step is the root's own call. */
  method InstalledForward(h: Heap, root: NodeId, rootSpec: seq<string>, ops: OpStream,
                          args: seq<Arg>, kwargs: map<string, Arg>, call: Caller)
      returns (r: Result<Output, ForwardError>)
    requires Closed(h) && root in h
    requires ops.Valid() && ops.Remaining() == Operators(h, root)
    modifies ops
    ensures ops.Valid()
    ensures r == InstalledOutcome(h, root, rootSpec, args, kwargs, call)
    ensures r.Ok? ==> ops.Remaining() == []
  {
    var outer := Invocation.Call(h, root, rootSpec, args, kwargs);
    if outer.Err? {
      return Err(RootCallFailed(outer.error));
    }
    OperatorsOnce(h, root);
    var first := ops.Next();
    assert first == Some(root);
    // `root(**out)`: the same `__call__` and the same forward, on the same generator
    var inner := Invocation.Call(h, root, rootSpec, [], outer.value);
    if inner.Err? {
      return Err(RootCallFailed(inner.error));
    }
    var out := Sequential(ops, inner.value, call);
    if out.Err? {
      return out;
    }
    // back in the outer loop, the generator is exhausted
    var next := ops.Next();
    assert next.None?;
    r := Ok(Normalise(out.value));
  }

  /** An installed forward reported without a `self` parameter makes
      `Operator.inputs` raise before any operator runs. */
  lemma InstalledForwardNeedsSelf(h: Heap, root: NodeId, rootSpec: seq<string>, args: seq<Arg>,
                                  kwargs: map<string, Arg>, call: Caller)
    requires Closed(h) && root in h && "self" !in rootSpec
    ensures InstalledOutcome(h, root, rootSpec, args, kwargs, call).Err?
    ensures LabelsUnique(Walk(h, root, "", {}).named) ==>
              InstalledOutcome(h, root, rootSpec, args, kwargs, call) == Err(RootCallFailed(Invocation.NoSelfParameter))
  {
  }

  /** The installed forward is not the fold of `call` over `root.operators()`:
      the other operators run on the output of the root's re-entrant call,
      not on `call(root, ...)`, and the result is that run normalised: never
      a falsy value other than `{}`. */
  lemma InstalledRunsChildrenOnce(h: Heap, root: NodeId, rootSpec: seq<string>, args: seq<Arg>,
                                  kwargs: map<string, Arg>, call: Caller)
    requires Closed(h) && root in h
    requires InstalledOutcome(h, root, rootSpec, args, kwargs, call).Ok?
    ensures var outer := Invocation.CallOutcome(h, root, rootSpec, args, kwargs);
            && outer.Ok?
            && var inner := Invocation.CallOutcome(h, root, rootSpec, [], outer.value);
            && inner.Ok?
            && var o := InstalledOutcome(h, root, rootSpec, args, kwargs, call).value;
            && (o.Scalar? ==> o.truthy)
            && (Operators(h, root) == [root] ==> o == Normalise(Kwargs(inner.value)))
            && (|Operators(h, root)| > 1 ==>
                  var ops := Operators(h, root)[1..];
                  o == Fold(ops, Kwargs(inner.value), call).value
                  && Fold(ops[..|ops| - 1], Kwargs(inner.value), call).Ok?)
  {
    OperatorsOnce(h, root);
    var outer := Invocation.CallOutcome(h, root, rootSpec, args, kwargs).value;
    var inner := Invocation.CallOutcome(h, root, rootSpec, [], outer).value;
    var ops := Operators(h, root)[1..];
    if ops != [] {
      FoldResultIsLastStep(ops, Kwargs(inner), call);
    }
  }
}
