# nbox operators and the Airflow bridge, in Dafny

This project models two parts of nbox and proves properties of the model.

The first part is the `Operator` class of `nbox/jobs/operator.py`. An operator is an object that holds named child operators in an ordered registry (`_operators`). It covers:

- registering a child when an operator is assigned to an attribute (`__setattr__`);
- walking the nest depth-first, each object once (`named_operators`, `operators`);
- the label check `is_dag`;
- argument binding in `__call__` (`inputs`);
- the text `__repr__` produces.

The second part is the Airflow bridge of `nbox/framework/__airflow.py`:

- the keywords `to_airflow_operator` hands to `BaseOperator`;
- the `dag_id` of `to_airflow_dag`;
- `from_airflow_operator`;
- `from_airflow_dag`, which turns a DAG's flat task list into a nest of operators under a new root, and gives that root a forward that runs every operator in turn.

The project is organised as follows:

- Python objects live in a heap, the class `OperatorNode.OperatorGraph`. It maps object identities to `Node` values: the class name, the instance `__dict__`, the `_operators` registry and the installed forward.
- Code that mutates objects is written as methods on that heap. `from_airflow_dag` is one of them, in `AirflowImport`.
- Code that only computes, such as the walk, `repr` and the keyword dictionaries, is written as functions with lemmas.
- Generators are written out. `named_operators` becomes a walk that threads its memo set through explicitly. `root.operators()` inside the installed forward becomes a one-shot stream (`SequentialForward.OpStream`).

Files:

| file | models |
|---|---|
| `wrappers.dfy` | `Option` and `Result` |
| `ordered_dict.dfy` | Python's insertion-ordered dict as an association list (`d[k] = v`, `d.get(k)`) |
| `operator_node.dfy` | operator state, `Operator.__init__`, `Operator.__setattr__`, the object heap |
| `graph_walk.dfy` | `named_operators`, `operators`, `is_dag` |
| `invocation.dfy` | `inputs`, `__call__` |
| `render.dfy` | `_addindent`, `__repr__` |
| `airflow_export.dfy` | `to_airflow_operator` keywords, `to_airflow_dag` |
| `sequential_forward.dfy` | `sequential_forward` and the `operators()` generator it consumes |
| `airflow_import.dfy` | `from_airflow_dag`, `from_airflow_operator` |

Three behaviours of the code that a reader might not expect:

- `doc_rst` is never `None`. `doc + "\n" + init_doc` always contains the newline, so the `None` branch is dead. `AirflowExport.OperatorKwargs` states that the value is the joined text.
- The sequential forward does not start with the root's direct children. `root.operators()` yields the root itself first, so its first step calls the root, which re-enters the same forward on the same generator. That inner run consumes every other operator, and the outer loop then ends (`SequentialForward.InstalledForward`).
- `is_dag` does not detect cycles. It only compares path labels. An operator registered as its own child passes (`GraphWalk.SelfRegisteredRootPassesIsDag`). An acyclic nest whose child is keyed `root` fails (`GraphWalk.ChildNamedRootFailsIsDag`).

## Model

| member | source | states |
|---|---|---|
| `OrderedDict.Put` | nbox/jobs/operator.py:84 | `d[k] = v` on an ordered dict: an existing key keeps its place and a new key goes last; `k` now maps to `v` and every other key keeps its value; keys stay unique |
| `OrderedDict.Lookup` | nbox/jobs/operator.py:82 | `k in d` exactly when the lookup finds a value, and that value is one of the dict's values |
| `OperatorNode.Init` | nbox/jobs/operator.py:23-24 | after `__init__` the object has an `_operators` attribute and an empty registry; its class, forward and other attribute names are kept |
| `OperatorNode.InitIsAssign` | nbox/jobs/operator.py:23-24 | `self._operators = OrderedDict()` in `__init__` goes through `__setattr__` and succeeds as `Init` |
| `OperatorNode.ReplacedRegistryRefusesOperators` | nbox/jobs/operator.py:80-84 | after `_operators` is given a value that is not a dict, assigning any operator to any attribute raises TypeError |
| `OperatorNode.Assign` | nbox/jobs/operator.py:78-85 | assigning an operator before `__init__` is an AttributeError; after `_operators` was replaced by a non-registry it is a TypeError; over a non-child attribute it is a KeyError; every other assignment succeeds and writes `__dict__[key]`; a plain value under another key leaves the registry alone; a plain value under `_operators` replaces the registry, which is then empty, and usable only when the value is a fresh registry; an operator is appended under a new key or replaces the child under an old key; registry invariants are preserved |
| `OperatorNode.OperatorGraph.Construct` | nbox/jobs/operator.py:23-24 | `Operator.__init__` on one heap object: that object becomes `Init` of itself and nothing else changes |
| `OperatorNode.OperatorGraph.SetAttr` | nbox/jobs/operator.py:78-85 | `setattr` on one heap object, including the replacement of `_operators`: on success only that object changes, as `Assign` says; on failure the heap is unchanged and the error is `Assign`'s |
| `OperatorNode.OperatorGraph.Allocate` | nbox/framework/__airflow.py:115 | `operator_cls()` allocation: a fresh identity with an empty `__dict__`, and nothing else changes |
| `OperatorNode.OperatorGraph.RegisterForward` | nbox/framework/__airflow.py:121 | `_register_forward(fn)`: only the forward of that object changes |
| `GraphWalk.NamedOperators` | nbox/jobs/operator.py:146-157 | the generator with its shared memo yields exactly the walk `Walk` and leaves its memo |
| `GraphWalk.ChildPath` | nbox/jobs/operator.py:155 | definition: `prefix + "." + name`, or `name` when the prefix is empty; `GraphWalk.WalkNaming` and `GraphWalk.NamedOperatorsPreOrder` state what the paths it builds are |
| `GraphWalk.Walk` | nbox/jobs/operator.py:146-157 | the memo only grows; the entries yielded are stated by `GraphWalk.WalkVisitsOnce`, `GraphWalk.WalkSound`, `GraphWalk.WalkClosed` and `GraphWalk.WalkNaming` |
| `GraphWalk.WalkChildren` | nbox/jobs/operator.py:152-157 | the loop over `self._operators.items()` of the walk: the memo only grows |
| `GraphWalk.Operators` | nbox/jobs/operator.py:89-114 | definition: the second component of each walk entry; `GraphWalk.OperatorsOnce` states what it yields |
| `GraphWalk.Label` | nbox/jobs/operator.py:170 | definition: the empty path reads as `root`; `GraphWalk.IsDag` and `GraphWalk.ChildNamedRootFailsIsDag` state its use |
| `GraphWalk.WalkVisitsOnce` | nbox/jobs/operator.py:148-150 | the memo grows by exactly the objects yielded, and none of them is yielded twice or was in the memo before |
| `GraphWalk.WalkSound` | nbox/jobs/operator.py:152-157 | every object the walk adds to the memo is reachable through registries from where it started |
| `GraphWalk.WalkClosed` | nbox/jobs/operator.py:148-157 | when the walk ends, its start is in the memo and every object it added has all its children in the memo |
| `GraphWalk.NamedOperatorsExactlyOnce` | nbox/jobs/operator.py:146-157 | from a root, the walk yields `("", root)` first and then every reachable operator, each exactly once and only those, even with cycles and shared children |
| `GraphWalk.OperatorsOnce` | nbox/jobs/operator.py:89-114 | `operators()` yields the root first, then each operator reachable from it, once each |
| `GraphWalk.WalkNaming` | nbox/jobs/operator.py:148-157 | every yielded entry after the first is a child, under its key, of an entry yielded earlier, with that entry's path extended by `.key` |
| `GraphWalk.NamedOperatorsPreOrder` | nbox/jobs/operator.py:151-157 | the walk is pre-order with dotted paths: each entry after the root comes after its parent and carries the parent's path plus its own key |
| `GraphWalk.IsDag` | nbox/jobs/operator.py:166-174 | `is_dag` is true exactly when no two yielded paths have the same label, with the empty path read as `root` |
| `GraphWalk.SelfRegisteredRootPassesIsDag` | nbox/jobs/operator.py:166-174 | an operator whose only child is itself lies on a cycle, yet the walk yields it alone and `is_dag` accepts it |
| `GraphWalk.ChildNamedRootFailsIsDag` | nbox/jobs/operator.py:170 | a root whose first child, a different object, is keyed `root` is rejected by `is_dag`, because its label equals the root's label |
| `Invocation.FirstIndex` | nbox/jobs/operator.py:163 | `list.index`: the position of the first occurrence |
| `Invocation.DeclaredInputs` | nbox/jobs/operator.py:159-164 | `inputs` raises exactly when the parameter list has no `self` |
| `Invocation.DeclaredInputsDropOneSelf` | nbox/jobs/operator.py:163 | `inputs` is the parameter list with its first `self` removed and every other parameter kept in order (so one shorter, and the multiset minus one `self`) |
| `Invocation.Bind` | nbox/jobs/operator.py:196-198 | definition of the positional dict, argument by argument; `Invocation.BindPositional` states its keys and values |
| `Invocation.TypeCheck` | nbox/jobs/operator.py:190 | definition: `kwargs.pop("_type_check_", True)` read for truth; `Invocation.BindContract` states its effect |
| `Invocation.BindOutcome` | nbox/jobs/operator.py:190-200 | definition of the outcome order (count, positional IndexError, keyword failure, success); `Invocation.BindContract` states every outcome |
| `Invocation.CallOutcome` | nbox/jobs/operator.py:181-200 | definition: the DAG assertion, then `inputs`, then `BindOutcome`; `Invocation.CallContract` states every outcome |
| `Invocation.BindPositional` | nbox/jobs/operator.py:197-198 | positional binding maps parameter `i` to argument `i` and binds nothing else |
| `Invocation.BindPositionals` | nbox/jobs/operator.py:196-198 | the positional loop binds by index, or fails with IndexError once the arguments outnumber the inputs |
| `Invocation.BindArguments` | nbox/jobs/operator.py:190-200 | the body of `__call__` after the assertion: no `self` is an error; otherwise the outcome is `BindOutcome` |
| `Invocation.Call` | nbox/jobs/operator.py:181-200 | `__call__` up to `forward`: the `is_dag` assertion, then binding |
| `Invocation.BindContract` | nbox/jobs/operator.py:190-200 | with `_type_check_` on, arity fails exactly when positional plus keyword arguments (without `_type_check_`) differ from the inputs; with it off, surplus positional arguments are an IndexError; any keyword argument makes the call fail; without keywords, with no surplus positionals and (when checked) the right count, the call succeeds; success binds exactly the positional arguments by index |
| `Invocation.CallContract` | nbox/jobs/operator.py:181-200 | the outcomes of a call: non-DAG fails first, then the arity rule, then the IndexError for surplus positionals when unchecked, then the keyword failure; every other call on a DAG with a `self` parameter succeeds and binds positionally by index |
| `Invocation.CheckedCallBindsAllInputs` | nbox/jobs/operator.py:190-198 | with the arity check on, a successful call binds every declared input |
| `Invocation.KeywordCallFails` | nbox/jobs/operator.py:199-200 | with `forward(self, x)`, the call `op(x=a)` passes the count and then fails on the keyword loop |
| `Invocation.IntendedBindByName` | nbox/jobs/operator.py:199-200 | with keywords bound by name, positional-then-keyword arguments that name each remaining input bind every input to its value |
| `Invocation.IntendedCallBindsByName` | nbox/jobs/operator.py:181-200 | the same for a whole call on a DAG |
| `Render.Split` | nbox/jobs/operator.py:44 | `str.split('\n')` has at least one line |
| `Render.SplitJoin` | nbox/jobs/operator.py:50 | joining newline-free lines with `\n` and splitting again gives the lines back |
| `Render.AddIndentSingleLine` | nbox/jobs/operator.py:43-47 | `_addindent` leaves single-line text unchanged |
| `Render.AddIndentLines` | nbox/jobs/operator.py:43-52 | `_addindent` keeps the line count and the first line, and puts `numSpaces` spaces before every other line |
| `Render.AddIndent` | nbox/jobs/operator.py:43-52 | definition of `_addindent`; `Render.AddIndentSingleLine` and `Render.AddIndentLines` state what it does |
| `Render.ChildLine` | nbox/jobs/operator.py:62-64 | definition of `(key): ` plus the child repr indented by two; `Render.ChildLinesAreChildLines` states its use |
| `Render.Enclose` | nbox/jobs/operator.py:66-76 | definition of the frame `Name(` … `)`; `Render.ReprLeaf` and `Render.ReprLayout` state its shape |
| `Render.Repr` | nbox/jobs/operator.py:41-76 | definition of `__repr__` with a recursion bound; an object without a registry has none; `Render.ReprLayout`, `Render.ReprFuelMonotone`, `Render.ReprBoundsDepth` and `Render.ReprOfCycleNeverEnds` state its properties |
| `Render.ChildLines` | nbox/jobs/operator.py:60-64 | one child line per registered child |
| `Render.ChildLinesAreChildLines` | nbox/jobs/operator.py:61-64 | child line `i` is `(key): ` followed by the child's repr indented by two |
| `Render.ReprLeaf` | nbox/jobs/operator.py:67-76 | an initialised operator without children prints as `Name()` |
| `Render.ReprFuelMonotone` | nbox/jobs/operator.py:61-62 | a repr that ends gives the same text for any larger recursion bound |
| `Render.ReprBoundsDepth` | nbox/jobs/operator.py:61-62 | a repr that ends is deeper than every chain of registrations below the operator |
| `Render.ReprOfCycleNeverEnds` | nbox/jobs/operator.py:61-62 | an operator reachable from itself has no repr at any depth: the recursion has no memo |
| `Render.ReprLayout` | nbox/jobs/operator.py:41-76 | a leaf prints `Name()`; otherwise the first line is `Name(`, the last is `)`, and the lines between (at least one per child) are indented by two spaces |
| `AirflowExport.OperatorKwargs` | nbox/framework/__airflow.py:40-61 | the keys are the four base keys plus those of `comms()` and the overrides; overrides beat `comms()`, which beats the base values `timeout`, `timeout`, class name and `doc + "\n" + init_doc` |
| `AirflowExport.TimeoutValue` | nbox/framework/__airflow.py:40-41 | definition: the timeout, or `None`; `AirflowExport.OperatorKwargs` states its place |
| `AirflowExport.DocText` | nbox/framework/__airflow.py:51-54 | definition: a missing or empty docstring reads as `""`; `AirflowExport.OperatorKwargs` states the joined text |
| `AirflowExport.CommsOrEmpty` | nbox/framework/__airflow.py:44-47 | definition: `comms()`, or `{}` when it raises; `AirflowExport.OperatorKwargs` states its precedence |
| `AirflowExport.ToAirflowOperatorKwargs` | nbox/framework/__airflow.py:23-61 | the assignments and the two `update` calls build exactly `OperatorKwargs` |
| `AirflowExport.OperatorArguments` | nbox/framework/__airflow.py:63-86 | the `BaseOperator` call fails (a keyword given twice) exactly when the dictionary repeats a fixed keyword; otherwise it receives both sets of keywords with their values |
| `AirflowExport.DagArguments` | nbox/framework/__airflow.py:99-102 | the DAG call succeeds exactly when `task_id` is text and `dag_kwargs` has no `dag_id`; then `dag_id` is `"DAG_" + task_id` and the other keywords pass through |
| `AirflowExport.ToAirflowDag` | nbox/framework/__airflow.py:97-103 | definition: the operator keywords, then the DAG keywords; `AirflowExport.DagIdIsClassName` and `AirflowExport.DagIdFollowsTaskId` state the result |
| `AirflowExport.BaseKeysNotFixed` | nbox/framework/__airflow.py:40-86 | the four keys `to_airflow_operator` sets itself never collide with the fixed keywords |
| `AirflowExport.DagIdIsClassName` | nbox/framework/__airflow.py:97-103 | with no `comms()` and no overrides, export fails only on a `dag_id` in `dag_kwargs`, and the DAG is named `DAG_<class name>` |
| `AirflowExport.DagIdFollowsTaskId` | nbox/framework/__airflow.py:97-103 | a successful export names the DAG after the final `task_id`, which is the class name unless `comms()` or the overrides replaced it |
| `SequentialForward.Normalise` | nbox/framework/__airflow.py:144-145 | a falsy output becomes `{}` and any other output is kept |
| `SequentialForward.Fold` | nbox/framework/__airflow.py:140-146 | definition of the loop as a fold over the operators; `SequentialForward.FoldAppend` and `SequentialForward.FoldResultIsLastStep` state its properties |
| `SequentialForward.FoldAppend` | nbox/framework/__airflow.py:140-146 | running two sequences of operators one after the other is running them together |
| `SequentialForward.FoldResultIsLastStep` | nbox/framework/__airflow.py:142-146 | after at least one step, the result is the last step's output, or `{}` when that output was falsy |
| `SequentialForward.OpStream.constructor` | nbox/framework/__airflow.py:148 | `root.operators()` is a stream of exactly `Operators(h, root)` |
| `SequentialForward.OpStream.Next` | nbox/jobs/operator.py:113-114 | `next()` yields the first remaining operator and drops it, or signals the end |
| `SequentialForward.Sequential` | nbox/framework/__airflow.py:140-146 | the loop computes the fold of the remaining stream from the keyword arguments, each step given by the caller; a run that succeeds leaves the stream exhausted |
| `SequentialForward.RootStepsFirst` | nbox/framework/__airflow.py:148 | `operators()` yields the root first, so the root's step comes before any other operator's |
| `SequentialForward.InstalledOutcome` | nbox/framework/__airflow.py:140-149 | definition of the first call of an imported root: binding, the root's re-entrant call binding again, the inner run over the other operators, normalised |
| `SequentialForward.InstalledForward` | nbox/framework/__airflow.py:140-149 | `root(*args, **kwargs)` on a fresh generator computes `InstalledOutcome`: the outer loop takes the root, whose call re-enters `__call__` and the same forward, and ends once the inner run has exhausted the generator |
| `SequentialForward.InstalledForwardNeedsSelf` | nbox/jobs/operator.py:159-164 | when the installed forward is reported without a `self` parameter, calling the imported root fails (on a DAG, with the ValueError of `inputs`) before any operator runs |
| `SequentialForward.InstalledRunsChildrenOnce` | nbox/framework/__airflow.py:140-149 | a successful call binds twice and returns the inner run over the other operators: for a root with no other operators its bound input normalised, otherwise the last step's normalised output; never a falsy value other than `{}` |
| `AirflowImport.BuildTopoTree` | nbox/framework/__airflow.py:108-112 | the `topo_tree` loop computes `TopoTree` |
| `AirflowImport.TopoTreeRefusal` | nbox/framework/__airflow.py:109-111 | the table is refused exactly when some task is not a `PythonOperator` |
| `AirflowImport.TopoTreeNamesFirstRefused` | nbox/framework/__airflow.py:109-111 | a refusal names the first non-`PythonOperator` task |
| `AirflowImport.TopoTreeKeys` | nbox/framework/__airflow.py:108-112 | the keys of the table are exactly the task ids |
| `AirflowImport.TopoTreeLastWins` | nbox/framework/__airflow.py:112 | each id maps to the upstream list of the last task with that id |
| `AirflowImport.TopoTreeUnique` | nbox/framework/__airflow.py:108-112 | the table never repeats a key |
| `AirflowImport.TopoTree` | nbox/framework/__airflow.py:108-112 | definition of the `topo_tree` table; `AirflowImport.TopoTreeRefusal`, `AirflowImport.TopoTreeKeys`, `AirflowImport.TopoTreeLastWins` and `AirflowImport.TopoTreeUnique` state it |
| `AirflowImport.EdgeKey` | nbox/framework/__airflow.py:126 | definition of `op__<p>__<c>`; `AirflowImport.EdgeKeyDeterminesChild` states that it is injective in the child |
| `AirflowImport.RootKey` | nbox/framework/__airflow.py:137 | definition of `op__root__<c>`; `AirflowImport.RootKeyDeterminesChild` states that it is injective |
| `AirflowImport.ForwardFor` | nbox/framework/__airflow.py:121 | definition: the task's `python_callable` as a forward; `AirflowImport.FromAirflowDag` states where it is installed |
| `AirflowImport.ParentLess` | nbox/framework/__airflow.py:133-134 | definition: the table ids with no upstream ids, in table order; `AirflowImport.AttachRoots` states how the root registers them |
| `AirflowImport.EdgeKeyDeterminesChild` | nbox/framework/__airflow.py:126 | on one parent, the key `op__<p>__<c>` determines the child |
| `AirflowImport.RootKeyDeterminesChild` | nbox/framework/__airflow.py:137 | the key `op__root__<c>` determines the child |
| `AirflowImport.NewOperator` | nbox/framework/__airflow.py:120 | `operator_cls()`: a fresh initialised operator and nothing else changes |
| `AirflowImport.EnsureOperator` | nbox/framework/__airflow.py:123-124 | `all_ops` gains `p` only if it was absent, and the new operator is initialised and not yet bound |
| `AirflowImport.Link` | nbox/framework/__airflow.py:125-127 | the `setattr` adds the edge `p -> child` and keeps every other edge, forward and operator |
| `AirflowImport.Bind` | nbox/framework/__airflow.py:128-131 | the guarded `_register_forward` gives `p` its task's callable, or leaves it when the task has none |
| `AirflowImport.AttachParent` | nbox/framework/__airflow.py:122-131 | one upstream id: its operator exists, it holds the child, and its forward is its task's |
| `AirflowImport.AttachParents` | nbox/framework/__airflow.py:122-131 | after the inner loop, every upstream id has an operator holding the child |
| `AirflowImport.CreateChild` | nbox/framework/__airflow.py:119-121 | a new child operator succeeds exactly when its task has a callable, and then has that forward |
| `AirflowImport.MakeChild` | nbox/framework/__airflow.py:119-121 | an id already in `all_ops` is kept; a new one is created as `CreateChild` says |
| `AirflowImport.ImportEntry` | nbox/framework/__airflow.py:118-131 | one table entry fails exactly when its id is new and has no callable; otherwise its id, upstream ids and edges are all built |
| `AirflowImport.ImportRow` | nbox/framework/__airflow.py:118-134 | one pass of the outer loop, including the parentless check |
| `AirflowImport.RowAdvance` | nbox/framework/__airflow.py:133-134 | after entry `i`, what was built is exactly what the first `i + 1` entries name, and the parentless list stays free of duplicates |
| `AirflowImport.BuildOperators` | nbox/framework/__airflow.py:115-134 | the outer loop builds every entry, or fails on a table id whose task has no callable |
| `AirflowImport.RootStep` | nbox/framework/__airflow.py:136-138 | each parentless id adds one new entry at the end of the root's registry |
| `AirflowImport.AttachRoots` | nbox/framework/__airflow.py:136-138 | the root's registry becomes `op__root__<id>` for each parentless id, in table order, and nothing else changes |
| `AirflowImport.ReadyForRoots` | nbox/framework/__airflow.py:133-138 | once every entry is built, changing only the root completes the import |
| `AirflowImport.FinishRoot` | nbox/framework/__airflow.py:136-149 | the parentless loop, then the root's forward becomes the sequential fold; only the root changes |
| `AirflowImport.CompleteRoot` | nbox/framework/__airflow.py:136-149 | after the root's part, the whole result satisfies `Imported` |
| `AirflowImport.ImportTable` | nbox/framework/__airflow.py:115-151 | from a table with unique keys: a new root and `Imported` (every table edge registered, and no other child on an imported operator), or a missing-callable error for a table id; no pre-existing object changes |
| `AirflowImport.FromAirflowDag` | nbox/framework/__airflow.py:105-151 | a non-`PythonOperator` task raises before any object exists. Otherwise the result is a new root; one operator per task id; each upstream operator holds its downstream operators under `op__<p>__<c>` and no other child; each operator has its task's callable; the root holds the parentless operators in table order and has the sequential forward. The only other failure is a missing callable; no pre-existing object changes |
| `AirflowImport.ImportedChildren` | nbox/framework/__airflow.py:118-131 | after an import, the keys of an operator's registry are exactly `op__<x>__<c>` for the downstream tasks `c` of its task `x`, and each holds the operator of `c` |
| `AirflowImport.ImportedOperators` | nbox/framework/__airflow.py:115-149 | `root.operators()` of an imported nest yields only the root and the operators of `all_ops`, so the installed forward runs over nothing else |
| `AirflowImport.FromAirflowOperatorAsWritten` | nbox/framework/__airflow.py:90-95 | as written: a `PythonOperator` fails the assertion and every other class is wrapped with its callable |
| `AirflowImport.FromAirflowOperator` | nbox/framework/__airflow.py:90-95 | as the assertion message means: only a `PythonOperator` is wrapped, exactly when it has a callable, and the new operator's forward is that callable |

## Left out

- `Multi` (nbox/jobs/operator.py:222-242), the `serialise`/`deserialise`/`from_airflow`/`load_state_dict` stubs, and `StateDictModel` are outside the modelled core. The stubs do nothing.
- `AirflowMixin` and the tests are outside the modelled core.
- `named_operators` with `remove_duplicate=False`: no caller in the core passes it. The model always uses the memo.
- The `module is None` branch of `named_operators` is dead. A registered child is always an `Operator`, because `__setattr__` only registers operators.
- `extra_repr` is always `""` in `__repr__`, so the extra-line branches are left out.
- `Render.Repr` uses fuel: Python's recursion has no bound, and the model stands for a recursion that does not end by running out of fuel.
- The `print(input_dict)` in `__call__` is output only and is left out. The call of `forward` itself is outside the model, whose successful outcome is the keyword mapping handed to it.
- `inspect.getfullargspec`, `__doc__`, `inspect.getdoc`, `comms()` and `python_callable` are reflection or foreign calls. Their results are inputs of the model. A `comms()` that raises is `None`.
- `_register_forward` is not defined in the modelled files. The model takes it to install its argument as the forward.
- Airflow's `BaseOperator`, `DAG`, `task_group`, `task_dict` and `get_direct_relatives` are foreign. Tasks are values holding their id, class name and upstream ids in the order Airflow yields them. Only the keywords passed to `BaseOperator` and `DAG` are modelled, and the operator and DAG objects are not built.
- `operator_cls()` is taken to run `Operator.__init__` and nothing else. A subclass initialiser with other effects is not modelled.
- `SequentialForward.Sequential`: what each operator call returns is a parameter (`Caller`). The model assumes calls do not change the graph, so the operators the generator will yield are fixed when it is created. On its own it does not model the root's step; `SequentialForward.InstalledForward` does, for the first call of an imported root.
- `SequentialForward.InstalledForward`: the parameter list `getfullargspec` reports for the installed `partial` is an input (`rootSpec`), because `_register_forward` is not part of this model; when it has no `self`, every call of the imported root fails in `inputs`. A bound input named `ops` would replace the generator in the `partial`; this is not modelled.
- `OperatorNode.Assign`: a value assigned to `_operators` is either a fresh registry or a value that is not a container; assigning another mapping, or aliasing another operator's registry, is not modelled.
- `GraphWalk.Walk` treats an object without a registry as childless, where Python raises on `self._operators.items()` when the walk reaches it. Objects built by `Operator.__init__` and never given another `_operators` always have a registry.
- `AirflowExport.ToAirflowDag` takes the timeout and the overrides as two parameters. In the source, `to_airflow_operator(operator, **operator_kwrags)` passes the dict's keys as keyword arguments, so any key other than `timeout` and `operator_kwargs` raises TypeError; that check is not modelled.
- The `dag` parameter of `to_airflow_dag` is never used by the source, so the model has none.
- Timeouts are whole seconds (`timedelta` granularity is not modelled).

## Findings

| source | as written | input that shows it | evidently intended | confidence | as-written member | corrected member |
|---|---|---|---|---|---|---|
| nbox/jobs/operator.py:200 | the keyword loop looks up each keyword's name as an index into the list of inputs, which raises TypeError, so no keyword argument can ever bind | `forward(self, x)` called as `op(x=a)` | bind each keyword argument under its own name | not executed | `Invocation.KeywordCallFails` | `Invocation.IntendedCallBindsByName` |
| nbox/framework/__airflow.py:91 | the assertion requires the task's class name to differ from `PythonOperator`, so it rejects the one kind its message calls supported and accepts every other | a `PythonOperator` task fails the assertion; a `BashOperator` task is wrapped | the class name must equal `PythonOperator`, as `from_airflow_dag` requires at line 110 | not executed | `AirflowImport.FromAirflowOperatorAsWritten` | `AirflowImport.FromAirflowOperator` |
