/**
 * The serverless entry point (codes/trigger_layer.py, `handler`): pick the
 * keyword from the event, run the pipeline on it and report the counts. The
 * pipeline is a parameter.
 */
module TriggerLayer {
  import opened Wrappers
  import opened Models
  import Orchestrator

  /** `DEFAULT_KEYWORD` (codes/config.py). */
  const DefaultKeyword := "半导体"
  const StatusOk := "ok"

  /** The event: a dict, whose "keyword" is `None` when absent or null, or anything else. */
  datatype Event = DictEvent(keyword: Option<string>) | OtherEvent

  /** The dict the pipeline returns; `None` marks an absent key. */
  datatype PipelineDict = PipelineDict(changes: Option<seq<ChangeItem>>, conflicts: Option<seq<ConflictDecision>>)

  datatype Response = Response(keyword: string, status: string, changes: nat, conflicts: nat)

  /** The event's keyword when it is a dict with a truthy one, else the default. */
  function ChooseKeyword(e: Event): (k: string)
    ensures k != ""
    ensures e.DictEvent? && e.keyword.Some? && e.keyword.value != "" ==> k == e.keyword.value
    ensures !(e.DictEvent? && e.keyword.Some? && e.keyword.value != "") ==> k == DefaultKeyword
  {
    var given := if e.DictEvent? then e.keyword else None;
    if given.Some? && given.value != "" then given.value else DefaultKeyword
  }

  /** `len(result.get(name, []))`. */
  function Count<T>(o: Option<seq<T>>): (n: nat)
    ensures o.None? ==> n == 0
    ensures o.Some? ==> n == |o.value|
  {
    if o.Some? then |o.value| else 0
  }

  /** `handler`: an error of the pipeline propagates. */
  function Handler(e: Event, run: string -> Result<PipelineDict, string>): (r: Result<Response, string>)
    ensures r.Err? <==> run(ChooseKeyword(e)).Err?
    ensures r.Ok? ==> r.value.keyword == ChooseKeyword(e) && r.value.status == StatusOk
    ensures r.Ok? ==> r.value.changes == Count(run(ChooseKeyword(e)).value.changes)
    ensures r.Ok? ==> r.value.conflicts == Count(run(ChooseKeyword(e)).value.conflicts)
  {
    var keyword := ChooseKeyword(e);
    var result := run(keyword);
    if result.Err? then Err(result.error)
    else Ok(Response(keyword, StatusOk, Count(result.value.changes), Count(result.value.conflicts)))
  }

  /** The dict `run_pipeline` returns, with both keys present. */
  function FromPipeline(p: Orchestrator.PipelineResult): PipelineDict
  {
    PipelineDict(Some(p.changes), Some(p.conflicts))
  }

  /** Over the real pipeline's result, the counts are the lengths of its two lists. */
  lemma HandlerCountsPipeline(e: Event, pipeline: string -> Orchestrator.PipelineResult)
    ensures var r := Handler(e, k => Ok(FromPipeline(pipeline(k))));
            r.Ok? &&
            r.value.changes == |pipeline(ChooseKeyword(e)).changes| &&
            r.value.conflicts == |pipeline(ChooseKeyword(e)).conflicts|
  {
  }

  /** Events without a usable keyword run on the default one. */
  lemma DefaultKeywordFallback()
    ensures ChooseKeyword(OtherEvent) == "半导体"
    ensures ChooseKeyword(DictEvent(None)) == "半导体"
    ensures ChooseKeyword(DictEvent(Some(""))) == "半导体"
    ensures ChooseKeyword(DictEvent(Some("固态电池"))) == "固态电池"
  {
  }

  /** A pipeline result without the two keys counts zero of each. */
  lemma MissingKeysCountZero(e: Event)
    ensures Handler(e, _ => Ok(PipelineDict(None, None))) == Ok(Response(ChooseKeyword(e), "ok", 0, 0))
  {
  }
}
