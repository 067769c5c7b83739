/**
 * The change extractor as shipped (codes/incremental_analysis.py,
 * `incremental_compare`): a placeholder that, once a prior snapshot exists,
 * emits one fixed "增长率 5% -> 2%" change for every new item whose text
 * mentions both "5%" and "2%".
 */
module IncrementalAnalysis {
  import opened Wrappers
  import opened Models
  import opened Strings

  const GrowthField: string := "增长率"
  const OldRate: string := "5%"
  const NewRate: string := "2%"
  const Decreased: string := "decreased"
  /** 0.5, in hundredths. */
  const PlaceholderConfidence: nat := 50

  /** The item's text mentions both rates. */
  predicate Triggers(item: NewsItem)
  {
    Contains(item.content, OldRate) && Contains(item.content, NewRate)
  }

  /** The one change the placeholder knows, attributed to `source`. */
  function PlaceholderChange(source: Source): ChangeItem
  {
    ChangeItem(GrowthField, OldRate, NewRate, Decreased, source, confidence := PlaceholderConfidence)
  }

  /** The triggering items of `items`, in order. */
  function Triggering(items: seq<NewsItem>): (r: seq<NewsItem>)
    ensures |r| <= |items|
  {
    if items == [] then []
    else Triggering(items[..|items| - 1]) + (if Triggers(items[|items| - 1]) then [items[|items| - 1]] else [])
  }

  lemma TriggeringStep(items: seq<NewsItem>, x: NewsItem)
    ensures Triggering(items + [x]) == Triggering(items) + (if Triggers(x) then [x] else [])
  {
    assert (items + [x])[..|items|] == items;
  }

  /** Exactly the triggering items are kept, none twice more often than it occurs. */
  lemma {:induction false} TriggeringMembers(items: seq<NewsItem>)
    ensures forall x :: x in Triggering(items) <==> x in items && Triggers(x)
    ensures forall x :: multiset(Triggering(items))[x] == if Triggers(x) then multiset(items)[x] else 0
  {
    if items != [] {
      var p := items[..|items| - 1];
      var x := items[|items| - 1];
      assert items == p + [x];
      TriggeringMembers(p);
      TriggeringStep(p, x);
    }
  }

  /** What `incremental_compare` returns: one placeholder change per triggering item, once a prior snapshot exists. */
  function Changes(oldSnapshot: Option<ReportSnapshot>, newItems: seq<NewsItem>): (r: seq<ChangeItem>)
    ensures oldSnapshot.None? ==> r == []
    ensures |r| <= |newItems|
  {
    if oldSnapshot.None? then []
    else
      var t := Triggering(newItems);
      seq(|t|, i requires 0 <= i < |t| => PlaceholderChange(t[i].source))
  }

  /**
   * `incremental_compare`. A snapshot object is always truthy in Python, so
   * only a missing snapshot short-circuits.
   */
  method IncrementalCompare(oldSnapshot: Option<ReportSnapshot>, newItems: seq<NewsItem>)
    returns (changes: seq<ChangeItem>)
    ensures oldSnapshot.None? ==> changes == []
    ensures oldSnapshot.Some? ==>
              |changes| == |Triggering(newItems)| &&
              forall i :: 0 <= i < |changes| ==> changes[i] == PlaceholderChange(Triggering(newItems)[i].source)
    ensures |changes| <= |newItems|
    ensures changes == Changes(oldSnapshot, newItems)
  {
    if oldSnapshot.None? {
      return [];
    }
    changes := [];
    var i := 0;
    while i < |newItems|
      invariant 0 <= i <= |newItems|
      invariant |changes| == |Triggering(newItems[..i])|
      invariant forall k :: 0 <= k < |changes| ==> changes[k] == PlaceholderChange(Triggering(newItems[..i])[k].source)
    {
      var item := newItems[i];
      assert newItems[..i + 1] == newItems[..i] + [item];
      TriggeringStep(newItems[..i], item);
      if Contains(item.content, OldRate) && Contains(item.content, NewRate) {
        changes := changes + [PlaceholderChange(item.source)];
      }
      i := i + 1;
    }
    assert newItems[..i] == newItems;
  }

  /** Every change the placeholder emits is the fixed growth-rate decrease. */
  lemma PlaceholderShape(source: Source)
    ensures PlaceholderChange(source).field == "增长率"
    ensures PlaceholderChange(source).oldValue == "5%" && PlaceholderChange(source).newValue == "2%"
    ensures PlaceholderChange(source).status == "decreased"
    ensures PlaceholderChange(source).confidence == 50 && PlaceholderChange(source).insight == ""
    ensures PlaceholderChange(source).source == source
  {
  }

  /** An item quoting both rates triggers; one quoting only one of them does not. */
  lemma TriggerExamples()
    ensures Triggers(NewsItem("t", "增速由5%放缓至2%", Known(Media)))
    ensures !Triggers(NewsItem("t", "5%", Known(Media)))
  {
    var s := "增速由5%放缓至2%";
    assert s[3..] == "5%放缓至2%";
    assert StartsWith(s[3..], "5%");
    assert Contains(s[3..], "5%");
    assert s[3..][1..] == s[4..] && s[4..][1..] == s[5..] && s[5..][1..] == s[6..];
    assert s[6..][1..] == s[7..] && s[7..][1..] == s[8..];
    assert s[8..] == "2%";
    assert StartsWith(s[8..], "2%");
    assert Contains(s[8..], "2%");
    assert Contains(s[7..], "2%");
    assert Contains(s[6..], "2%");
    assert Contains(s[5..], "2%");
    assert Contains(s[4..], "2%");
    assert Contains(s[3..], "2%");
    assert s[1..][1..] == s[2..] && s[2..][1..] == s[3..];
    assert Contains(s[2..], "2%") && Contains(s[2..], "5%");
    assert Contains(s[1..], "2%") && Contains(s[1..], "5%");
    var t := "5%";
    assert t[..2][0] == '5' && "2%"[0] == '2';
    assert !StartsWith(t, "2%");
    assert t[1..] == "%" && t[1..][1..] == "";
    assert !Contains("", "2%");
    assert !Contains("%", "2%");
  }
}
