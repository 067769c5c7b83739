/**
 * Records and the source-credibility table of the reconciliation pipeline
 * (codes/models.py). Weights are scaled by ten (1.0 / 0.7 / 0.3 become
 * 10 / 7 / 3) because they are only ever compared, and a confidence is kept
 * in hundredths (0.5 becomes 50).
 */
module Models {
  import opened Wrappers

  /** The closed source category enum. */
  datatype SourceType = Official | Media | Rumor

  /** The string value of each enum member. */
  function Value(t: SourceType): string
  {
    match t
    case Official => "official"
    case Media => "media"
    case Rumor => "rumor"
  }

  /** `SourceType(s)`: value-to-member lookup, None where Python raises ValueError. */
  function FromValue(s: string): (r: Option<SourceType>)
    ensures forall t :: r == Some(t) <==> Value(t) == s
  {
    if s == "official" then Some(Official)
    else if s == "media" then Some(Media)
    else if s == "rumor" then Some(Rumor)
    else None
  }

  /** Weights are out of this scale: 10 stands for 1.0. */
  const WeightScale: nat := 10

  /** SOURCE_WEIGHTS, scaled: exactly one weight per member, each in (0, 1]. */
  function Weight(t: SourceType): (w: nat)
    ensures 0 < w <= WeightScale
  {
    match t
    case Official => 10
    case Media => 7
    case Rumor => 3
  }

  lemma WeightsStrictlyOrdered()
    ensures Weight(Official) > Weight(Media) > Weight(Rumor)
  {
  }

  lemma ValuesDistinct(t1: SourceType, t2: SourceType)
    ensures Value(t1) == Value(t2) <==> t1 == t2
  {
  }

  /**
   * What a `source` attribute holds at run time: an enum member, or a plain
   * string (snapshots read back from JSON carry the string value, never the
   * enum member).
   */
  datatype Source = Known(t: SourceType) | Raw(s: string)

  datatype NewsItem = NewsItem(
    title: string,
    content: string,
    source: Source,
    url: Option<string> := None,
    publishedAt: Option<string> := None)

  datatype ReportSnapshot = ReportSnapshot(
    keyword: string,
    collectedAt: string,
    items: seq<NewsItem> := [])

  /** A change candidate; `confidence` is in hundredths. */
  datatype ChangeItem = ChangeItem(
    field: string,
    oldValue: string,
    newValue: string,
    status: string,
    source: Source,
    insight: string := "",
    confidence: nat := 0)

  /** An arbitration result; one field-name attribute (see README). */
  datatype ConflictDecision = ConflictDecision(
    fieldName: string,
    finalValue: string,
    chosenSource: SourceType,
    pendingSources: seq<Source> := [],
    reason: string := "")

  lemma RecordDefaults(title: string, content: string, s: Source, keyword: string, at: string,
                       f: string, o: string, n: string, st: string, v: string, chosen: SourceType)
    ensures NewsItem(title, content, s).url == None && NewsItem(title, content, s).publishedAt == None
    ensures ReportSnapshot(keyword, at).items == []
    ensures ChangeItem(f, o, n, st, s).insight == "" && ChangeItem(f, o, n, st, s).confidence == 0
    ensures ConflictDecision(f, v, chosen).pendingSources == [] && ConflictDecision(f, v, chosen).reason == ""
  {
  }
}
