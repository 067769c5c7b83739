/**
 * The pipeline (codes/orchestrator.py, `run_pipeline`): load the latest
 * snapshot, compare the fetched items against it, arbitrate the changes, then
 * save the fetched items as the new snapshot. The fetched items and the
 * clock reading are parameters; the store is the modelled snapshot store.
 */
module Orchestrator {
  import opened Wrappers
  import opened Models
  import opened ConflictResolution
  import opened IncrementalAnalysis
  import opened StorageLayer

  /** The returned dict: its "changes" and "conflicts" lists. */
  datatype PipelineResult = PipelineResult(changes: seq<ChangeItem>, conflicts: seq<ConflictDecision>)

  /**
   * `run_pipeline`. The changes are computed against the snapshot stored
   * before this run; the save is unconditional, so afterwards the current
   * report holds the fetched items even when there are none. A save that
   * raises ends the run with that error and no file written.
   */
  method RunPipeline(storage: StorageClient, keyword: string, newItems: seq<NewsItem>, ts: string)
    returns (r: Result<PipelineResult, string>)
    modifies storage
    ensures r.Ok? <==> AllKnown(newItems)
    ensures r.Ok? ==> r.value.changes == Changes(old(storage.LoadLatestSnapshot()), newItems)
    ensures r.Ok? ==> r.value.conflicts == Resolve(r.value.changes)
    ensures r.Ok? ==>
              var d := SnapshotToDict(ReportSnapshot(keyword, ts, newItems)).value;
              storage.files == old(storage.files)[LatestFetch := Json(d)][CurrentReport := Json(d)] &&
              storage.history == Archived(old(storage.history), ts, d)
    ensures r.Ok? ==> storage.LoadCurrentReport() == Some(AsLoaded(ReportSnapshot(keyword, ts, newItems)))
    ensures r.Ok? ==> storage.LoadLatestSnapshot() == Some(AsLoaded(ReportSnapshot(keyword, ts, newItems)))
    ensures r.Err? ==> storage.files == old(storage.files) && storage.history == old(storage.history)
  {
    var oldSnapshot := storage.LoadLatestSnapshot();
    var changes := IncrementalCompare(oldSnapshot, newItems);
    var conflicts := ResolveConflicts(changes);
    ghost var files0, history0 := storage.files, storage.history;
    var saved := storage.SaveSnapshot(keyword, newItems, ts);
    if saved.Err? {
      return Err(saved.error);
    }
    SaveThenLoad(files0, history0, ReportSnapshot(keyword, ts, newItems), ts);
    r := Ok(PipelineResult(changes, conflicts));
  }

  /** On an empty store the first run reports no change and no conflict. */
  lemma FirstRunFindsNothing(newItems: seq<NewsItem>)
    ensures Changes(LatestSnapshot(map[], map[]), newItems) == []
    ensures Resolve(Changes(LatestSnapshot(map[], map[]), newItems)) == []
  {
    assert LegacyReports(map[]) == {};
  }

  /**
   * The run after a successful one compares against what it saved: every
   * triggering item yields its change.
   */
  lemma NextRunCompares(files: map<string, File>, history: map<string, map<string, File>>,
                        saved: ReportSnapshot, ts: string, newItems: seq<NewsItem>)
    requires AllKnown(saved.items)
    ensures
      var d := SnapshotToDict(saved).value;
      |Changes(LatestSnapshot(files[LatestFetch := Json(d)][CurrentReport := Json(d)], Archived(history, ts, d)), newItems)|
        == |Triggering(newItems)|
  {
    SaveThenLoad(files, history, saved, ts);
  }
}
