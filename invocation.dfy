/** `Operator.inputs` and `Operator.__call__` (nbox/jobs/operator.py): the
    call contract. The declared parameter list of `forward` (what
    `inspect.getfullargspec` reports) is an input; the model's successful
    outcome is the keyword mapping handed to `forward(**input_dict)`. */
module Invocation {
  import opened Wrappers
  import opened OperatorNode
  import opened GraphWalk

  const TypeCheckKey := "_type_check_"

  datatype CallError =
    | NotDag                      // `assert self.is_dag`
    | NoSelfParameter             // `args.remove('self')` finds no 'self'
    | ArityMismatch(declared: nat, given: nat)
    | PositionalOutOfRange(index: nat)
    | KeywordIndexesList          // `self.inputs[key]` with a string key

  /** `list.index(x)`: the position of the first occurrence of `x`. */
  function FirstIndex(s: seq<string>, x: string): (k: nat)
    requires x in s
    ensures k < |s| && s[k] == x && x !in s[..k]
  {
    if s[0] == x then 0
    else
      var k := FirstIndex(s[1..], x);
      assert s[..k + 1] == [s[0]] + s[1..][..k];
      k + 1
  }

  /** `Operator.inputs`: `getfullargspec(forward).args` after
      `args.remove('self')`, which drops the first `self` and raises
      ValueError when there is none. */
  function DeclaredInputs(argspec: seq<string>): (r: Result<seq<string>, CallError>)
    ensures r.Err? <==> "self" !in argspec
    ensures r.Err? ==> r.error == NoSelfParameter
  {
    if "self" !in argspec then Err(NoSelfParameter)
    else
      var k := FirstIndex(argspec, "self");
      assert argspec == argspec[..k] + [argspec[k]] + argspec[k + 1..];
      Ok(argspec[..k] + argspec[k + 1..])
  }

  /** The declared inputs are the parameter list with exactly one `self`
      removed, the first one, and every other parameter kept in order. */
  lemma DeclaredInputsDropOneSelf(argspec: seq<string>)
    requires "self" in argspec
    ensures |DeclaredInputs(argspec).value| == |argspec| - 1
    ensures multiset(DeclaredInputs(argspec).value) == multiset(argspec) - multiset{"self"}
    ensures forall k :: 0 <= k < |argspec| && argspec[k] == "self" && "self" !in argspec[..k] ==>
              DeclaredInputs(argspec).value == argspec[..k] + argspec[k + 1..]
  {
    var k := FirstIndex(argspec, "self");
    assert argspec == argspec[..k] + [argspec[k]] + argspec[k + 1..];
  }

  /** `input_dict[inputs[i]] = args[i]` for each positional argument, in order. */
  function Bind(names: seq<string>, args: seq<Arg>): map<string, Arg>
    requires |args| <= |names|
  {
    if args == [] then map[]
    else Bind(names, args[..|args| - 1])[names[|args| - 1] := args[|args| - 1]]
  }

  predicate Distinct(names: seq<string>)
  {
    forall i, j :: 0 <= i < j < |names| ==> names[i] != names[j]
  }

  /** Positional argument `i` is bound to parameter `i`, and nothing else is bound. */
  lemma {:induction false} BindPositional(names: seq<string>, args: seq<Arg>)
    requires |args| <= |names| && Distinct(names)
    ensures Bind(names, args).Keys == set i | 0 <= i < |args| :: names[i]
    ensures forall i :: 0 <= i < |args| ==> Bind(names, args)[names[i]] == args[i]
  {
    if args != [] {
      var n := |args| - 1;
      BindPositional(names, args[..n]);
      assert forall i :: 0 <= i < n ==> args[..n][i] == args[i];
    }
  }

  /** Whether `_type_check_` asks for the arity check (it defaults to True). */
  function TypeCheck(kwargs: map<string, Arg>): bool
  {
    if TypeCheckKey in kwargs then kwargs[TypeCheckKey].truthy else true
  }

  /** The outcome of binding `args` and `kwargs` to the declared `inputs`. */
  function BindOutcome(inputs: seq<string>, args: seq<Arg>, kwargs: map<string, Arg>)
    : Result<map<string, Arg>, CallError>
  {
    var rest := kwargs - {TypeCheckKey};
    if TypeCheck(kwargs) && |args| + |rest| != |inputs| then Err(ArityMismatch(|inputs|, |args| + |rest|))
    else if |args| > |inputs| then Err(PositionalOutOfRange(|inputs|))
    else if rest != map[] then Err(KeywordIndexesList)
    else Ok(Bind(inputs, args))
  }

  /** The outcome of `op(*args, **kwargs)` on operator `id` of heap `h`. */
  function CallOutcome(h: Heap, id: NodeId, argspec: seq<string>, args: seq<Arg>, kwargs: map<string, Arg>)
    : Result<map<string, Arg>, CallError>
    requires Closed(h) && id in h
  {
    if !LabelsUnique(Walk(h, id, "", {}).named) then Err(NotDag)
    else if "self" !in argspec then Err(NoSelfParameter)
    else BindOutcome(DeclaredInputs(argspec).value, args, kwargs)
  }

  /** `Operator.__call__(self, *args, **kwargs)` up to the call of `forward`. */
  method Call(h: Heap, id: NodeId, argspec: seq<string>, args: seq<Arg>, kwargs: map<string, Arg>)
      returns (r: Result<map<string, Arg>, CallError>)
    requires Closed(h) && id in h
    ensures r == CallOutcome(h, id, argspec, args, kwargs)
  {
    var dag := IsDag(h, id);
    if !dag {
      return Err(NotDag);
    }
    r := BindArguments(argspec, args, kwargs);
  }

  /** The body of `__call__` after the DAG assertion: pop `_type_check_`,
      read `self.inputs`, check the count, then build `input_dict`. */
  method BindArguments(argspec: seq<string>, args: seq<Arg>, kwargs: map<string, Arg>)
      returns (r: Result<map<string, Arg>, CallError>)
    ensures "self" !in argspec ==> r == Err(NoSelfParameter)
    ensures "self" in argspec ==> r == BindOutcome(DeclaredInputs(argspec).value, args, kwargs)
  {
    var typeCheck := true;
    var kw := kwargs;
    if TypeCheckKey in kw {
      typeCheck := kw[TypeCheckKey].truthy;
      kw := kw - {TypeCheckKey};
    }
    assert kw == kwargs - {TypeCheckKey};
    var declared := DeclaredInputs(argspec);
    if declared.Err? {
      return Err(declared.error);
    }
    var inputs := declared.value;
    if typeCheck && |args| + |kw| != |inputs| {
      return Err(ArityMismatch(|inputs|, |args| + |kw|));
    }
    var bound := BindPositionals(inputs, args);
    if bound.Err? {
      return Err(bound.error);
    }
    // the loop over the remaining keyword arguments fails on its first
    // iteration: `self.inputs[key]` indexes a list with a string
    if kw != map[] {
      return Err(KeywordIndexesList);
    }
    return Ok(bound.value);
  }

  /** The first loop of `__call__`: `input_dict[self.inputs[i]] = arg` for
      each positional argument, which raises IndexError once `i` runs past
      the declared inputs. */
  method BindPositionals(inputs: seq<string>, args: seq<Arg>) returns (r: Result<map<string, Arg>, CallError>)
    ensures |args| <= |inputs| ==> r == Ok(Bind(inputs, args))
    ensures |args| > |inputs| ==> r == Err(PositionalOutOfRange(|inputs|))
  {
    var inputDict: map<string, Arg> := map[];
    var i := 0;
    while i < |args|
      invariant 0 <= i <= |args| && i <= |inputs|
      invariant inputDict == Bind(inputs, args[..i])
    {
      if i >= |inputs| {
        return Err(PositionalOutOfRange(i));
      }
      assert args[..i + 1][..i] == args[..i];
      inputDict := inputDict[inputs[i] := args[i]];
      i := i + 1;
    }
    assert args[..i] == args;
    return Ok(inputDict);
  }

  /** Removing the first `self` from distinct parameter names leaves
      distinct names. */
  lemma DeclaredInputsDistinct(argspec: seq<string>)
    requires Distinct(argspec) && "self" in argspec
    ensures Distinct(DeclaredInputs(argspec).value)
  {
    var inputs := DeclaredInputs(argspec).value;
    var k := FirstIndex(argspec, "self");
    forall i, j | 0 <= i < j < |inputs| ensures inputs[i] != inputs[j] {
      var i' := if i < k then i else i + 1;
      var j' := if j < k then j else j + 1;
      assert inputs[i] == argspec[i'] && inputs[j] == argspec[j'];
    }
  }

  /** Binding against distinct declared inputs: the arity check with
      `_type_check_` removed from the count, an IndexError for surplus
      positional arguments when the check is off, positional binding by
      index, a failure for any keyword argument that gets past the count,
      and success in every other case. */
  lemma BindContract(inputs: seq<string>, args: seq<Arg>, kwargs: map<string, Arg>)
    requires Distinct(inputs)
    ensures var r := BindOutcome(inputs, args, kwargs);
            var rest := kwargs - {TypeCheckKey};
            && (TypeCheck(kwargs) ==> (r.Err? && r.error.ArityMismatch? <==> |args| + |rest| != |inputs|))
            && (rest != map[] ==> r.Err?)
            && (!TypeCheck(kwargs) && |args| > |inputs| ==> r == Err(PositionalOutOfRange(|inputs|)))
            && (rest == map[] && |args| <= |inputs| && (TypeCheck(kwargs) ==> |args| == |inputs|) ==> r.Ok?)
            && (r.Ok? ==>
                  && rest == map[]
                  && |args| <= |inputs|
                  && r.value.Keys == (set i | 0 <= i < |args| :: inputs[i])
                  && forall i :: 0 <= i < |args| ==> r.value[inputs[i]] == args[i])
  {
    if BindOutcome(inputs, args, kwargs).Ok? {
      BindPositional(inputs, args);
    }
  }

  /** The four outcomes of a call: the DAG assertion first, then the arity
      check with `_type_check_` removed from the count, then positional
      binding by index, and a failure for any keyword argument that gets
      past the count. */
  lemma CallContract(h: Heap, id: NodeId, argspec: seq<string>, args: seq<Arg>, kwargs: map<string, Arg>)
    requires Closed(h) && id in h && Distinct(argspec)
    ensures var r := CallOutcome(h, id, argspec, args, kwargs);
            var rest := kwargs - {TypeCheckKey};
            && (!LabelsUnique(Walk(h, id, "", {}).named) ==> r == Err(NotDag))
            && (LabelsUnique(Walk(h, id, "", {}).named) && "self" in argspec && TypeCheck(kwargs) ==>
                  (r.Err? && r.error.ArityMismatch? <==> |args| + |rest| != |DeclaredInputs(argspec).value|))
            && (LabelsUnique(Walk(h, id, "", {}).named) && "self" in argspec && rest != map[] ==> r.Err?)
            && (LabelsUnique(Walk(h, id, "", {}).named) && "self" in argspec && !TypeCheck(kwargs)
                && |args| > |DeclaredInputs(argspec).value|
                ==> r == Err(PositionalOutOfRange(|DeclaredInputs(argspec).value|)))
            && (LabelsUnique(Walk(h, id, "", {}).named) && "self" in argspec && rest == map[]
                && |args| <= |DeclaredInputs(argspec).value|
                && (TypeCheck(kwargs) ==> |args| == |DeclaredInputs(argspec).value|)
                ==> r.Ok?)
            && (r.Ok? ==>
                  && rest == map[]
                  && |args| <= |DeclaredInputs(argspec).value|
                  && r.value.Keys == (set i | 0 <= i < |args| :: DeclaredInputs(argspec).value[i])
                  && forall i :: 0 <= i < |args| ==> r.value[DeclaredInputs(argspec).value[i]] == args[i])
  {
    if LabelsUnique(Walk(h, id, "", {}).named) && "self" in argspec {
      DeclaredInputsDistinct(argspec);
      BindContract(DeclaredInputs(argspec).value, args, kwargs);
    }
  }

  /** With the arity check on, a successful call binds every declared input. */
  lemma CheckedCallBindsAllInputs(h: Heap, id: NodeId, argspec: seq<string>, args: seq<Arg>, kwargs: map<string, Arg>)
    requires Closed(h) && id in h && Distinct(argspec) && TypeCheck(kwargs)
    requires CallOutcome(h, id, argspec, args, kwargs).Ok?
    ensures var inputs := DeclaredInputs(argspec).value;
            CallOutcome(h, id, argspec, args, kwargs).value.Keys == (set x | x in inputs)
  {
    CallContract(h, id, argspec, args, kwargs);
    var inputs := DeclaredInputs(argspec).value;
    assert |args| == |inputs|;
    forall x | x in inputs ensures x in set i | 0 <= i < |args| :: inputs[i] {
      var i :| 0 <= i < |inputs| && inputs[i] == x;
    }
  }

  // ---------------------------------------------------------------------
  // keyword arguments

  /** As written, a keyword argument never binds: with `forward(self, x)`,
      the call `op(x = a)` passes the count check and then fails, because
      the keyword loop indexes the list of inputs with the string `"x"`. */
  lemma KeywordCallFails(h: Heap, id: NodeId, a: Arg)
    requires Closed(h) && id in h && LabelsUnique(Walk(h, id, "", {}).named)
    ensures CallOutcome(h, id, ["self", "x"], [], map["x" := a]) == Err(KeywordIndexesList)
  {
    var argspec := ["self", "x"];
    assert FirstIndex(argspec, "self") == 0;
    assert DeclaredInputs(argspec).value == ["x"];
    var kwargs := map["x" := a];
    assert TypeCheckKey !in kwargs;
    assert kwargs - {TypeCheckKey} == kwargs;
    assert BindOutcome(["x"], [], kwargs) == Err(KeywordIndexesList);
  }

  /** The binding `__call__` evidently means: positional arguments by
      index, then each keyword argument under its own name
      (`input_dict[key] = value`). */
  function BindOutcomeIntended(inputs: seq<string>, args: seq<Arg>, kwargs: map<string, Arg>)
    : Result<map<string, Arg>, CallError>
  {
    var rest := kwargs - {TypeCheckKey};
    if TypeCheck(kwargs) && |args| + |rest| != |inputs| then Err(ArityMismatch(|inputs|, |args| + |rest|))
    else if |args| > |inputs| then Err(PositionalOutOfRange(|inputs|))
    else Ok(Bind(inputs, args) + rest)
  }

  function CallOutcomeIntended(h: Heap, id: NodeId, argspec: seq<string>, args: seq<Arg>, kwargs: map<string, Arg>)
    : Result<map<string, Arg>, CallError>
    requires Closed(h) && id in h
  {
    if !LabelsUnique(Walk(h, id, "", {}).named) then Err(NotDag)
    else if "self" !in argspec then Err(NoSelfParameter)
    else BindOutcomeIntended(DeclaredInputs(argspec).value, args, kwargs)
  }

  lemma {:induction false} DistinctCard(s: seq<string>)
    requires Distinct(s)
    ensures |set x | x in s| == |s|
  {
    if s != [] {
      DistinctCard(s[1..]);
      assert (set x | x in s) == {s[0]} + (set x | x in s[1..]);
      assert s[0] !in (set x | x in s[1..]);
    }
  }

  /** The positions before `n` and the names after it split a list of
      distinct names in two. */
  lemma SplitNames(inputs: seq<string>, n: nat, rest: set<string>)
    requires Distinct(inputs) && n <= |inputs| && rest == set x | x in inputs[n..]
    ensures |rest| == |inputs| - n
    ensures (set i | 0 <= i < n :: inputs[i]) !! rest
    ensures (set i | 0 <= i < n :: inputs[i]) + rest == set x | x in inputs
  {
    var tail := inputs[n..];
    assert Distinct(tail) by {
      forall i, j | 0 <= i < j < |tail| ensures tail[i] != tail[j] {
        assert tail[i] == inputs[n + i] && tail[j] == inputs[n + j];
      }
    }
    DistinctCard(tail);
    var front := set i | 0 <= i < n :: inputs[i];
    forall i, x | 0 <= i < n && x in tail ensures inputs[i] != x {
      var j :| 0 <= j < |tail| && tail[j] == x;
      assert x == inputs[n + j];
    }
    forall x | x in inputs ensures x in front || x in rest {
      var i :| 0 <= i < |inputs| && inputs[i] == x;
      if i >= n {
        assert tail[i - n] == x;
      }
    }
    forall x | x in rest ensures x in inputs {
      var j :| 0 <= j < |tail| && tail[j] == x;
      assert inputs[n + j] == x;
    }
  }

  /** The intended binding of positional then keyword arguments, when the
      keywords name exactly the inputs not given by position. */
  lemma IntendedBindByName(inputs: seq<string>, args: seq<Arg>, kwargs: map<string, Arg>)
    requires Distinct(inputs) && |args| <= |inputs|
    requires (kwargs - {TypeCheckKey}).Keys == set x | x in inputs[|args|..]
    ensures var r := BindOutcomeIntended(inputs, args, kwargs);
            && r.Ok?
            && r.value.Keys == (set x | x in inputs)
            && (forall i :: 0 <= i < |args| ==> r.value[inputs[i]] == args[i])
            && (forall k :: k in kwargs && k != TypeCheckKey ==> r.value[k] == kwargs[k])
  {
    var rest := kwargs - {TypeCheckKey};
    SplitNames(inputs, |args|, rest.Keys);
    assert |rest| == |rest.Keys|;
    BindPositional(inputs, args);
    var bound := Bind(inputs, args) + rest;
    assert BindOutcomeIntended(inputs, args, kwargs) == Ok(bound);
    forall k | k in kwargs && k != TypeCheckKey ensures bound[k] == kwargs[k] {
      assert k in rest && rest[k] == kwargs[k];
    }
    forall i | 0 <= i < |args| ensures bound[inputs[i]] == args[i] {
      assert inputs[i] in Bind(inputs, args).Keys && inputs[i] !in rest;
    }
  }

  /** With the intended binding, a call on a DAG that gives the first
      parameters by position and names each remaining one exactly once by
      keyword succeeds, and binds every declared input to the value given
      for it. */
  lemma IntendedCallBindsByName(h: Heap, id: NodeId, argspec: seq<string>, args: seq<Arg>, kwargs: map<string, Arg>)
    requires Closed(h) && id in h && LabelsUnique(Walk(h, id, "", {}).named)
    requires Distinct(argspec) && "self" in argspec
    requires |args| <= |DeclaredInputs(argspec).value|
    requires (kwargs - {TypeCheckKey}).Keys == set x | x in DeclaredInputs(argspec).value[|args|..]
    ensures var r := CallOutcomeIntended(h, id, argspec, args, kwargs);
            var inputs := DeclaredInputs(argspec).value;
            && r.Ok?
            && r.value.Keys == (set x | x in inputs)
            && (forall i :: 0 <= i < |args| ==> r.value[inputs[i]] == args[i])
            && (forall k :: k in kwargs && k != TypeCheckKey ==> r.value[k] == kwargs[k])
  {
    DeclaredInputsDistinct(argspec);
    IntendedBindByName(DeclaredInputs(argspec).value, args, kwargs);
  }
}
