/**
 * The snapshot store (codes/storage_layer.py, `StorageClient`). The data
 * directory is a map from file name to file contents and the `history/`
 * directory a map from timestamp to such a map. A file holds either a
 * decoded JSON dict or something that does not load (unparsable, truncated,
 * not a dict). JSON text itself is not modelled: a dict written is the dict
 * read back.
 */
module StorageLayer {
  import opened Wrappers
  import opened Models
  import opened Strings

  const LatestFetch := "latest_fetch.json"
  const CurrentReport := "current_report.json"
  const FetchFile := "fetch.json"
  const ReportFile := "report.json"
  const HistoryDir := "history/"
  const LegacyPrefix := "report_"
  const LegacySuffix := ".json"
  /** Raised by `.value` on a source that is a plain string. */
  const NoValueAttribute := "AttributeError: 'str' object has no attribute 'value'"

  /** The dict of one item; `None` marks a key that is absent (for url and published_at: absent or null). */
  datatype ItemDict = ItemDict(
    title: Option<string>,
    content: Option<string>,
    source: Option<string>,
    url: Option<string>,
    publishedAt: Option<string>)

  /** The dict of a snapshot; `None` marks an absent key. */
  datatype SnapshotDict = SnapshotDict(keyword: Option<string>, collectedAt: Option<string>, items: Option<seq<ItemDict>>)

  datatype File = Json(data: SnapshotDict) | Unreadable

  // ---------------------------------------------------------------------
  // Serialisation
  // ---------------------------------------------------------------------

  predicate AllKnown(items: seq<NewsItem>)
  {
    forall i :: 0 <= i < |items| ==> items[i].source.Known?
  }

  function ItemToDict(n: NewsItem): ItemDict
    requires n.source.Known?
  {
    ItemDict(Some(n.title), Some(n.content), Some(Value(n.source.t)), n.url, n.publishedAt)
  }

  /**
   * `_snapshot_to_dict`; `None` when an item's source is a plain string,
   * whose missing `.value` makes the call raise.
   */
  function SnapshotToDict(s: ReportSnapshot): (r: Option<SnapshotDict>)
    ensures r.Some? <==> AllKnown(s.items)
    ensures r.Some? ==> r.value.keyword == Some(s.keyword) && r.value.collectedAt == Some(s.collectedAt)
    ensures r.Some? ==> r.value.items.Some? && |r.value.items.value| == |s.items|
  {
    if AllKnown(s.items) then
      Some(SnapshotDict(Some(s.keyword), Some(s.collectedAt),
                        Some(seq(|s.items|, i requires 0 <= i < |s.items| && AllKnown(s.items) => ItemToDict(s.items[i])))))
    else None
  }

  function Or(o: Option<string>, default: string): string
  {
    if o.Some? then o.value else default
  }

  /** An item read back: missing keys take their defaults and the source stays a plain string. */
  function ItemOf(d: ItemDict): (n: NewsItem)
    ensures n.source.Raw?
  {
    NewsItem(Or(d.title, ""), Or(d.content, ""), Raw(Or(d.source, "media")), d.url, d.publishedAt)
  }

  /** `_dict_to_snapshot`. */
  function DictToSnapshot(d: SnapshotDict): (s: ReportSnapshot)
    ensures d.items.None? ==> s.items == []
    ensures d.items.Some? ==> |s.items| == |d.items.value|
    ensures forall i :: 0 <= i < |s.items| ==> s.items[i].source.Raw?
  {
    var items := if d.items.Some? then d.items.value else [];
    ReportSnapshot(Or(d.keyword, ""), Or(d.collectedAt, ""), seq(|items|, i requires 0 <= i < |items| => ItemOf(items[i])))
  }

  /** What a saved snapshot looks like once loaded: each source becomes its string value. */
  function AsLoaded(s: ReportSnapshot): ReportSnapshot
    requires AllKnown(s.items)
  {
    s.(items := seq(|s.items|, i requires 0 <= i < |s.items| && AllKnown(s.items) =>
                      s.items[i].(source := Raw(Value(s.items[i].source.t)))))
  }

  /**
   * Saving then loading keeps the keyword, the timestamp, the items in order
   * and every item field, the source becoming its string value.
   */
  lemma RoundTrip(s: ReportSnapshot)
    requires AllKnown(s.items)
    ensures SnapshotToDict(s).Some?
    ensures DictToSnapshot(SnapshotToDict(s).value) == AsLoaded(s)
  {
    var d := SnapshotToDict(s).value;
    var back := DictToSnapshot(d);
    assert |back.items| == |s.items|;
    forall i | 0 <= i < |s.items| ensures back.items[i] == AsLoaded(s).items[i] {
      assert d.items.value[i] == ItemToDict(s.items[i]);
      assert back.items[i] == ItemOf(d.items.value[i]);
      assert AsLoaded(s).items[i] == s.items[i].(source := Raw(Value(s.items[i].source.t)));
    }
  }

  /** A loaded snapshot with items cannot be serialised again: its sources have no `.value`. */
  lemma LoadedCannotBeResaved(d: SnapshotDict)
    requires DictToSnapshot(d).items != []
    ensures SnapshotToDict(DictToSnapshot(d)) == None
  {
    assert DictToSnapshot(d).items[0].source.Raw?;
  }

  /** Missing keys read as "", "media" and None. */
  lemma LoadDefaults()
    ensures DictToSnapshot(SnapshotDict(None, None, None)) == ReportSnapshot("", "", [])
    ensures ItemOf(ItemDict(None, None, None, None, None)) == NewsItem("", "", Raw("media"), None, None)
  {
  }

  // ---------------------------------------------------------------------
  // Loading, over the directory contents
  // ---------------------------------------------------------------------

  /** Loading one file: an absent or unreadable file gives None. */
  function Load(dir: map<string, File>, name: string): (r: Option<ReportSnapshot>)
    ensures r.Some? <==> name in dir && dir[name].Json?
    ensures r.Some? ==> r.value == DictToSnapshot(dir[name].data)
  {
    if name in dir && dir[name].Json? then Some(DictToSnapshot(dir[name].data)) else None
  }

  predicate IsLegacyReport(name: string)
  {
    StartsWith(name, LegacyPrefix) && EndsWith(name, LegacySuffix)
  }

  /** `list_snapshots`, as a set: the listing order is the directory's. */
  function LegacyReports(files: map<string, File>): (r: set<string>)
    ensures forall n :: n in r <==> n in files && IsLegacyReport(n)
  {
    set n | n in files && IsLegacyReport(n)
  }

  /** `_load_latest_from_history`: the greatest timestamp only, with no fall back to older ones. */
  function LatestFromHistory(history: map<string, map<string, File>>): (r: Option<ReportSnapshot>)
    ensures r.Some? <==> history != map[] && ReportFile in history[Greatest(history.Keys)] &&
                         history[Greatest(history.Keys)][ReportFile].Json?
    ensures r.Some? ==> r.value == DictToSnapshot(history[Greatest(history.Keys)][ReportFile].data)
  {
    if history == map[] then None else Load(history[Greatest(history.Keys)], ReportFile)
  }

  /** `load_latest_snapshot`. */
  function LatestSnapshot(files: map<string, File>, history: map<string, map<string, File>>): (r: Option<ReportSnapshot>)
    ensures Load(files, CurrentReport).Some? ==> r == Load(files, CurrentReport)
    ensures r.Some? ==> Load(files, CurrentReport).Some? || LegacyReports(files) != {} || history != map[]
  {
    var current := Load(files, CurrentReport);
    if current.Some? then current
    else
      var legacy := LegacyReports(files);
      if legacy == {} then LatestFromHistory(history) else Load(files, Greatest(legacy))
  }

  /**
   * The fall-back order: a loadable current report; else the greatest
   * report_*.json name, even if that file does not load; else the newest
   * history directory.
   */
  lemma LatestSnapshotOrder(files: map<string, File>, history: map<string, map<string, File>>)
    ensures CurrentReport in files && files[CurrentReport].Json? ==>
              LatestSnapshot(files, history) == Some(DictToSnapshot(files[CurrentReport].data))
    ensures (CurrentReport !in files || files[CurrentReport].Unreadable?) && LegacyReports(files) != {} ==>
              exists n :: n in files && IsLegacyReport(n) &&
                (forall m :: m in files && IsLegacyReport(m) ==> LexLe(m, n)) &&
                LatestSnapshot(files, history) == Load(files, n)
    ensures (CurrentReport !in files || files[CurrentReport].Unreadable?) && LegacyReports(files) == {} ==>
              (history == map[] ==> LatestSnapshot(files, history) == None) &&
              (history != map[] ==>
                exists ts :: ts in history && (forall t :: t in history ==> LexLe(t, ts)) &&
                  LatestSnapshot(files, history) == Load(history[ts], ReportFile))
  {
    if (CurrentReport !in files || files[CurrentReport].Unreadable?) && LegacyReports(files) != {} {
      var n := Greatest(LegacyReports(files));
      assert n in files && IsLegacyReport(n);
    }
    if (CurrentReport !in files || files[CurrentReport].Unreadable?) && LegacyReports(files) == {} && history != map[] {
      var ts := Greatest(history.Keys);
      assert ts in history;
    }
  }

  /** A non-empty history whose newest directory lacks report.json gives None, whatever older ones hold. */
  lemma NewestHistoryWithoutReport(history: map<string, map<string, File>>, ts: string)
    requires ts in history && ReportFile !in history[ts]
    requires forall t :: t in history ==> LexLe(t, ts)
    ensures LatestFromHistory(history) == None
  {
    GreatestUnique(history.Keys, ts, Greatest(history.Keys));
  }

  /** The history map after archiving `d` under `ts`; a directory already there keeps its other files. */
  function Archived(history: map<string, map<string, File>>, ts: string, d: SnapshotDict): map<string, map<string, File>>
  {
    var dir := if ts in history then history[ts] else map[];
    history[ts := dir[FetchFile := Json(d)][ReportFile := Json(d)]]
  }

  lemma ReportNameIsNotLegacy()
    ensures !IsLegacyReport(CurrentReport) && !IsLegacyReport(LatestFetch)
  {
    assert CurrentReport[0] != LegacyPrefix[0];
    assert LatestFetch[..7] != LegacyPrefix;
  }

  /**
   * After `save_snapshot`, both top-level files and the newest history entry
   * load back as the saved snapshot, and `load_latest_snapshot` returns it.
   */
  lemma SaveThenLoad(files: map<string, File>, history: map<string, map<string, File>>, s: ReportSnapshot, ts: string)
    requires AllKnown(s.items)
    ensures
      var d := SnapshotToDict(s).value;
      var files' := files[LatestFetch := Json(d)][CurrentReport := Json(d)];
      var history' := Archived(history, ts, d);
      Load(files', LatestFetch) == Some(AsLoaded(s)) &&
      Load(files', CurrentReport) == Some(AsLoaded(s)) &&
      Load(history'[ts], ReportFile) == Some(AsLoaded(s)) &&
      LatestSnapshot(files', history') == Some(AsLoaded(s))
  {
    RoundTrip(s);
  }

  /** Saving never adds or removes a report_*.json name. */
  lemma SaveKeepsLegacyReports(files: map<string, File>, f: File, g: File)
    ensures LegacyReports(files[LatestFetch := f]) == LegacyReports(files)
    ensures LegacyReports(files[CurrentReport := f]) == LegacyReports(files)
    ensures LegacyReports(files[LatestFetch := f][CurrentReport := g]) == LegacyReports(files)
  {
    ReportNameIsNotLegacy();
  }

  /** The name filter on a few names. */
  lemma LegacyNameExamples()
    ensures IsLegacyReport("report_20260101_000000.json")
    ensures !IsLegacyReport("report.json")
    ensures !IsLegacyReport("report_1.txt")
    ensures !IsLegacyReport("current_report.json")
  {
    assert "report.json"[..7] == "report.";
    assert "report_1.txt"[8..] == ".txt";
    assert "current_report.json"[..7] == "current";
  }

  // ---------------------------------------------------------------------
  // The store
  // ---------------------------------------------------------------------

  class StorageClient {
    /** The files directly in the data directory, by name. */
    var files: map<string, File>
    /** `history/`: one directory per timestamp, each holding files by name. */
    var history: map<string, map<string, File>>

    /** A client over a data directory that already holds these files. */
    constructor (existing: map<string, File>, existingHistory: map<string, map<string, File>>)
      ensures files == existing && history == existingHistory
    {
      files := existing;
      history := existingHistory;
    }

    /**
     * Writes `s` to the file `name`. The file is opened for writing, which
     * empties it, before the dict is built, so a failure leaves it unreadable.
     */
    method Dump(name: string, s: ReportSnapshot) returns (r: Result<string, string>)
      modifies this
      ensures history == old(history)
      ensures AllKnown(s.items) ==> files == old(files)[name := Json(SnapshotToDict(s).value)] && r == Ok(name)
      ensures !AllKnown(s.items) ==> files == old(files)[name := Unreadable] && r == Err(NoValueAttribute)
    {
      var d := SnapshotToDict(s);
      if d.None? {
        files := files[name := Unreadable];
        return Err(NoValueAttribute);
      }
      files := files[name := Json(d.value)];
      r := Ok(name);
    }

    /** `save_fetch_data`: only latest_fetch.json changes. */
    method SaveFetchData(keyword: string, items: seq<NewsItem>, ts: string) returns (r: Result<string, string>)
      modifies this
      ensures history == old(history)
      ensures AllKnown(items) ==>
                files == old(files)[LatestFetch := Json(SnapshotToDict(ReportSnapshot(keyword, ts, items)).value)] &&
                r == Ok(LatestFetch)
      ensures !AllKnown(items) ==> files == old(files)[LatestFetch := Unreadable] && r.Err?
    {
      r := Dump(LatestFetch, ReportSnapshot(keyword, ts, items));
    }

    /** `save_current_report`: only current_report.json changes. */
    method SaveCurrentReport(keyword: string, items: seq<NewsItem>, ts: string) returns (r: Result<string, string>)
      modifies this
      ensures history == old(history)
      ensures AllKnown(items) ==>
                files == old(files)[CurrentReport := Json(SnapshotToDict(ReportSnapshot(keyword, ts, items)).value)] &&
                r == Ok(CurrentReport)
      ensures !AllKnown(items) ==> files == old(files)[CurrentReport := Unreadable] && r.Err?
    {
      r := Dump(CurrentReport, ReportSnapshot(keyword, ts, items));
    }

    /**
     * `save_snapshot`: the dict is built once, before any write, and the
     * same dict goes to the two top-level files and to history/{ts}/.
     */
    method SaveSnapshot(keyword: string, items: seq<NewsItem>, ts: string) returns (r: Result<string, string>)
      modifies this
      ensures !AllKnown(items) ==> files == old(files) && history == old(history) && r.Err?
      ensures AllKnown(items) ==>
                var d := SnapshotToDict(ReportSnapshot(keyword, ts, items)).value;
                files == old(files)[LatestFetch := Json(d)][CurrentReport := Json(d)] &&
                history == Archived(old(history), ts, d) &&
                r == Ok(HistoryDir + ts)
    {
      var snapshot := ReportSnapshot(keyword, ts, items);
      var d := SnapshotToDict(snapshot);
      if d.None? {
        return Err(NoValueAttribute);
      }
      files := files[LatestFetch := Json(d.value)];
      files := files[CurrentReport := Json(d.value)];
      var dir := if ts in history then history[ts] else map[];
      dir := dir[FetchFile := Json(d.value)];
      dir := dir[ReportFile := Json(d.value)];
      history := history[ts := dir];
      r := Ok(HistoryDir + ts);
    }

    /** `load_latest_fetch`. */
    function LoadLatestFetch(): (r: Option<ReportSnapshot>)
      reads this
      ensures r.Some? <==> LatestFetch in files && files[LatestFetch].Json?
    {
      Load(files, LatestFetch)
    }

    /** `load_current_report`. */
    function LoadCurrentReport(): (r: Option<ReportSnapshot>)
      reads this
      ensures r.Some? <==> CurrentReport in files && files[CurrentReport].Json?
    {
      Load(files, CurrentReport)
    }

    /** `load_latest_snapshot`. */
    function LoadLatestSnapshot(): (r: Option<ReportSnapshot>)
      reads this
      ensures LoadCurrentReport().Some? ==> r == LoadCurrentReport()
    {
      LatestSnapshot(files, history)
    }

    /** `_load_latest_from_history`. */
    function LoadLatestFromHistory(): (r: Option<ReportSnapshot>)
      reads this
      ensures history == map[] ==> r == None
    {
      LatestFromHistory(history)
    }

    /** `list_snapshots`. */
    function ListSnapshots(): (r: set<string>)
      reads this
      ensures forall n :: n in r <==> n in files && IsLegacyReport(n)
    {
      LegacyReports(files)
    }
  }
}
