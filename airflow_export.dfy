/** The export half of the Airflow bridge (nbox/framework/__airflow.py):
    the keyword dictionary `to_airflow_operator` hands to Airflow's
    `BaseOperator`, and the `dag_id` that `to_airflow_dag` gives the `DAG`.
    Airflow's classes themselves are not modelled; only the keywords they
    receive, and the Python call rule that a keyword given twice raises a
    `TypeError`. */
module AirflowExport {
  import opened Wrappers

  /** The values that occur in the keyword dictionaries: Python's `None`, a
      `timedelta` (in seconds), a string, a bool, or anything else a caller
      or `comms()` may supply. */
  datatype KwValue = NoneValue | Delta(seconds: int) | Text(text: string) | Flag(b: bool) | Opaque(token: nat)

  type Kwargs = map<string, KwValue>

  datatype ExportError = DuplicateKeywords(keys: set<string>) | TaskIdNotText

  /** `timeout` is a `timedelta` or `None`. */
  function TimeoutValue(timeout: Option<int>): KwValue
  {
    if timeout.None? then NoneValue else Delta(timeout.value)
  }

  /** `doc if doc else ""`: a missing or empty doc string reads as `""`. */
  function DocText(doc: Option<string>): string
  {
    if doc.None? then "" else doc.value
  }

  /** `comms()`, or `{}` when it raises (`None` here). */
  function CommsOrEmpty(comms: Option<Kwargs>): Kwargs
  {
    if comms.None? then map[] else comms.value
  }

  const BaseKeys: set<string> := {"execution_timeout", "sla", "task_id", "doc_rst"}

  /** The keyword dictionary of `to_airflow_operator`: the four keys it sets
      itself, then `comms()`, then the caller's `operator_kwargs`, each later
      source winning over the earlier ones. The documentation is
      `doc + "\n" + init_doc`, which always holds the newline, so `doc_rst`
      is never `None`. */
  function OperatorKwargs(className: string, timeout: Option<int>, doc: Option<string>,
                          initDoc: Option<string>, comms: Option<Kwargs>, overrides: Kwargs): (kw: Kwargs)
    ensures kw.Keys == BaseKeys + CommsOrEmpty(comms).Keys + overrides.Keys
    ensures forall k :: k in overrides ==> kw[k] == overrides[k]
    ensures forall k :: k in CommsOrEmpty(comms) && k !in overrides ==> kw[k] == CommsOrEmpty(comms)[k]
    ensures var own := CommsOrEmpty(comms).Keys + overrides.Keys;
            && ("execution_timeout" !in own ==> kw["execution_timeout"] == TimeoutValue(timeout))
            && ("sla" !in own ==> kw["sla"] == TimeoutValue(timeout))
            && ("task_id" !in own ==> kw["task_id"] == Text(className))
            && ("doc_rst" !in own ==> kw["doc_rst"] == Text(DocText(doc) + "\n" + DocText(initDoc)))
  {
    var full := DocText(doc) + "\n" + DocText(initDoc);
    var base := map["execution_timeout" := TimeoutValue(timeout), "sla" := TimeoutValue(timeout),
                    "task_id" := Text(className),
                    "doc_rst" := if full == "" then NoneValue else Text(full)];
    base + CommsOrEmpty(comms) + overrides
  }

  /** `to_airflow_operator` up to the `BaseOperator` call: fill the
      dictionary by assignment, then `update` it twice. */
  method ToAirflowOperatorKwargs(className: string, timeout: Option<int>, doc: Option<string>,
                                 initDoc: Option<string>, comms: Option<Kwargs>, overrides: Kwargs)
    returns (kw: Kwargs)
    ensures kw == OperatorKwargs(className, timeout, doc, initDoc, comms, overrides)
  {
    kw := map[];
    kw := kw["execution_timeout" := TimeoutValue(timeout)];
    kw := kw["sla" := TimeoutValue(timeout)];
    kw := kw["task_id" := Text(className)];
    var received := CommsOrEmpty(comms);
    var fullDoc := DocText(doc) + "\n" + DocText(initDoc);
    var docValue := if fullDoc == "" then NoneValue else Text(fullDoc);
    kw := kw["doc_rst" := docValue];
    kw := kw + received;
    kw := kw + overrides;
  }

  /** The keywords `to_airflow_operator` writes out in the `BaseOperator`
      call itself. */
  const FixedKeywords: Kwargs := map[
    "email" := NoneValue, "email_on_retry" := Flag(false), "email_on_failure" := Flag(false),
    "doc" := NoneValue, "doc_md" := NoneValue, "doc_json" := NoneValue, "doc_yaml" := NoneValue,
    "on_execute_callback" := NoneValue, "on_failure_callback" := NoneValue,
    "on_success_callback" := NoneValue, "on_retry_callback" := NoneValue]

  /** The keywords `BaseOperator` receives: the fixed ones and `**kw`. A key
      of `kw` that is also written out makes Python raise a `TypeError` for a
      keyword given twice. */
  function OperatorArguments(kw: Kwargs): (r: Result<Kwargs, ExportError>)
    ensures r.Err? <==> exists k :: k in kw && k in FixedKeywords
    ensures r.Err? ==> r.error == DuplicateKeywords(kw.Keys * FixedKeywords.Keys)
    ensures r.Ok? ==> r.value.Keys == kw.Keys + FixedKeywords.Keys
    ensures r.Ok? ==> (forall k :: k in kw ==> r.value[k] == kw[k])
    ensures r.Ok? ==> (forall k :: k in FixedKeywords ==> r.value[k] == FixedKeywords[k])
  {
    if kw.Keys !! FixedKeywords.Keys then Ok(FixedKeywords + kw)
    else Err(DuplicateKeywords(kw.Keys * FixedKeywords.Keys))
  }

  /** `DAG(dag_id = "DAG_" + operator.task_id, **dag_kwargs)`: the task id
      must be a string for the concatenation, and `dag_kwargs` may not give
      `dag_id` a second time. */
  function DagArguments(operatorArgs: Kwargs, dagKwargs: Kwargs): (r: Result<Kwargs, ExportError>)
    ensures r.Ok? <==> "task_id" in operatorArgs && operatorArgs["task_id"].Text? && "dag_id" !in dagKwargs
    ensures r.Ok? ==> r.value.Keys == dagKwargs.Keys + {"dag_id"}
    ensures r.Ok? ==> r.value["dag_id"] == Text("DAG_" + operatorArgs["task_id"].text)
    ensures r.Ok? ==> forall k :: k in dagKwargs ==> r.value[k] == dagKwargs[k]
  {
    if "task_id" !in operatorArgs || !operatorArgs["task_id"].Text? then Err(TaskIdNotText)
    else if "dag_id" in dagKwargs then Err(DuplicateKeywords({"dag_id"}))
    else Ok(dagKwargs["dag_id" := Text("DAG_" + operatorArgs["task_id"].text)])
  }

  /** `to_airflow_dag`: the keywords of the DAG built around one operator. */
  function ToAirflowDag(className: string, timeout: Option<int>, doc: Option<string>,
                        initDoc: Option<string>, comms: Option<Kwargs>, overrides: Kwargs,
                        dagKwargs: Kwargs): Result<Kwargs, ExportError>
  {
    var operatorArgs := OperatorArguments(OperatorKwargs(className, timeout, doc, initDoc, comms, overrides));
    if operatorArgs.Err? then Err(operatorArgs.error)
    else DagArguments(operatorArgs.value, dagKwargs)
  }

  /** The four keys `to_airflow_operator` sets itself are none of those it
      writes out in the `BaseOperator` call. */
  lemma BaseKeysNotFixed()
    ensures BaseKeys !! FixedKeywords.Keys
  {
    assert FixedKeywords.Keys == {"email", "email_on_retry", "email_on_failure", "doc", "doc_md", "doc_json",
                                  "doc_yaml", "on_execute_callback", "on_failure_callback",
                                  "on_success_callback", "on_retry_callback"};
  }

  /** With no `comms()` and no overrides, the export always succeeds unless
      `dag_kwargs` names `dag_id`, and the DAG is called `DAG_<class name>`. */
  lemma DagIdIsClassName(className: string, timeout: Option<int>, doc: Option<string>,
                         initDoc: Option<string>, dagKwargs: Kwargs)
    ensures var r := ToAirflowDag(className, timeout, doc, initDoc, None, map[], dagKwargs);
            && (r.Ok? <==> "dag_id" !in dagKwargs)
            && (r.Ok? ==> r.value["dag_id"] == Text("DAG_" + className))
  {
    BaseKeysNotFixed();
  }

  /** Whatever `comms()` and the overrides hold, a successful export names
      the DAG after the operator's final `task_id`, and that is the class
      name unless one of them replaced it. */
  lemma DagIdFollowsTaskId(className: string, timeout: Option<int>, doc: Option<string>,
                           initDoc: Option<string>, comms: Option<Kwargs>, overrides: Kwargs,
                           dagKwargs: Kwargs)
    requires ToAirflowDag(className, timeout, doc, initDoc, comms, overrides, dagKwargs).Ok?
    ensures var kw := OperatorKwargs(className, timeout, doc, initDoc, comms, overrides);
            && kw["task_id"].Text?
            && ToAirflowDag(className, timeout, doc, initDoc, comms, overrides, dagKwargs).value["dag_id"]
               == Text("DAG_" + kw["task_id"].text)
            && ("task_id" !in CommsOrEmpty(comms) && "task_id" !in overrides ==> kw["task_id"].text == className)
  {
  }
}
