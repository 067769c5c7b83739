/**
 * The decision store (codes/database_layer.py, `DatabaseClient`): an
 * append-only decision-history table and an indicator-state table keyed by
 * (keyword, field name) that is upserted. The SQL tables are held as a
 * sequence of rows and a map; the queries are read-only filters over them.
 */
module DatabaseLayer {
  import opened Wrappers
  import opened Models
  import opened Strings

  /** A row of `conflict_decisions`. */
  datatype HistoryRow = HistoryRow(
    id: nat,
    runId: string,
    keyword: string,
    fieldName: string,
    finalValue: string,
    chosenSource: string,
    pendingSources: string,
    reason: string,
    createdAt: string)

  /** A row of `indicator_states`, without its (keyword, field_name) key. */
  datatype StateRow = StateRow(finalValue: string, chosenSource: string, reason: string, updatedAt: string)

  /** A row as `get_latest_states` returns it. */
  datatype LatestState = LatestState(
    keyword: string,
    fieldName: string,
    finalValue: string,
    chosenSource: string,
    reason: string,
    updatedAt: string)

  function CreatedAt(r: HistoryRow): string { r.createdAt }

  function UpdatedAt(r: LatestState): string { r.updatedAt }

  // ---------------------------------------------------------------------
  // What `save_decisions` writes
  // ---------------------------------------------------------------------

  predicate AllKnown(ps: seq<Source>)
  {
    forall p :: p in ps ==> p.Known?
  }

  /** Every pending source of every decision is an enum member. */
  predicate PendingAllKnown(ds: seq<ConflictDecision>)
  {
    forall i :: 0 <= i < |ds| ==> AllKnown(ds[i].pendingSources)
  }

  function Values(ps: seq<Source>): (r: seq<string>)
    requires AllKnown(ps)
    ensures |r| == |ps|
    ensures forall i :: 0 <= i < |ps| ==> r[i] == Value(ps[i].t)
  {
    if ps == [] then [] else [Value(ps[0].t)] + Values(ps[1..])
  }

  /**
   * `",".join([s.value for s in pending_sources])`; a plain-string source has
   * no `.value`, so the expression raises (None here).
   */
  function PendingText(ps: seq<Source>): (r: Option<string>)
    ensures r.Some? <==> AllKnown(ps)
  {
    if AllKnown(ps) then Some(Join(",", Values(ps))) else None
  }

  function HistoryRowOf(id: nat, runId: string, keyword: string, d: ConflictDecision, now: string): HistoryRow
    requires AllKnown(d.pendingSources)
  {
    HistoryRow(id, runId, keyword, d.fieldName, d.finalValue, Value(d.chosenSource),
               PendingText(d.pendingSources).value, d.reason, now)
  }

  function StateRowOf(d: ConflictDecision, now: string): StateRow
  {
    StateRow(d.finalValue, Value(d.chosenSource), d.reason, now)
  }

  /** The history rows one call inserts, numbered from `firstId`. */
  function NewHistoryRows(firstId: nat, runId: string, keyword: string, ds: seq<ConflictDecision>, now: string): (r: seq<HistoryRow>)
    requires PendingAllKnown(ds)
    ensures |r| == |ds|
  {
    if ds == [] then []
    else
      NewHistoryRows(firstId, runId, keyword, ds[..|ds| - 1], now) +
      [HistoryRowOf(firstId + |ds| - 1, runId, keyword, ds[|ds| - 1], now)]
  }

  /** The state table after upserting each decision in turn. */
  function Upserted(states: map<(string, string), StateRow>, keyword: string, ds: seq<ConflictDecision>, now: string)
    : map<(string, string), StateRow>
  {
    if ds == [] then states
    else Upserted(states, keyword, ds[..|ds| - 1], now)[(keyword, ds[|ds| - 1].fieldName) := StateRowOf(ds[|ds| - 1], now)]
  }

  /** Saving one more decision appends one row and upserts one key. */
  lemma SaveStep(states: map<(string, string), StateRow>, firstId: nat, runId: string, keyword: string,
                 ds: seq<ConflictDecision>, i: nat, now: string)
    requires i < |ds|
    requires PendingAllKnown(ds[..i]) && AllKnown(ds[i].pendingSources)
    ensures PendingAllKnown(ds[..i + 1])
    ensures NewHistoryRows(firstId, runId, keyword, ds[..i + 1], now) ==
              NewHistoryRows(firstId, runId, keyword, ds[..i], now) + [HistoryRowOf(firstId + i, runId, keyword, ds[i], now)]
    ensures Upserted(states, keyword, ds[..i + 1], now) ==
              Upserted(states, keyword, ds[..i], now)[(keyword, ds[i].fieldName) := StateRowOf(ds[i], now)]
  {
    assert ds[..i + 1][..i] == ds[..i];
    assert ds[..i + 1][i] == ds[i];
  }

  // ---------------------------------------------------------------------
  // Queries, over the table contents
  // ---------------------------------------------------------------------

  /** A filter is applied only when its argument is truthy (given and non-empty). */
  predicate Active(filter: Option<string>)
  {
    filter.Some? && filter.value != ""
  }

  predicate MatchesFilters(r: HistoryRow, keyword: Option<string>, runId: Option<string>)
  {
    (Active(keyword) ==> r.keyword == keyword.value) && (Active(runId) ==> r.runId == runId.value)
  }

  function Matching(rows: seq<HistoryRow>, keyword: Option<string>, runId: Option<string>): (r: seq<HistoryRow>)
    ensures |r| <= |rows|
  {
    if rows == [] then []
    else (if MatchesFilters(rows[0], keyword, runId) then [rows[0]] else []) + Matching(rows[1..], keyword, runId)
  }

  lemma MatchingCons(rows: seq<HistoryRow>, keyword: Option<string>, runId: Option<string>)
    requires rows != []
    ensures Matching(rows, keyword, runId) ==
              (if MatchesFilters(rows[0], keyword, runId) then [rows[0]] else []) + Matching(rows[1..], keyword, runId)
  {
  }

  lemma {:induction false} MatchingSubMultiset(rows: seq<HistoryRow>, keyword: Option<string>, runId: Option<string>)
    ensures multiset(Matching(rows, keyword, runId)) <= multiset(rows)
  {
    if rows != [] {
      var tail := rows[1..];
      var m := Matching(tail, keyword, runId);
      MatchingSubMultiset(tail, keyword, runId);
      MatchingCons(rows, keyword, runId);
      assert rows == [rows[0]] + tail;
      assert multiset(rows) == multiset{rows[0]} + multiset(tail);
      if MatchesFilters(rows[0], keyword, runId) {
        assert multiset([rows[0]] + m) == multiset{rows[0]} + multiset(m);
      } else {
        assert [] + m == m;
      }
    }
  }

  /** The filtered rows are exactly the rows matching the active filters. */
  lemma {:induction false} MatchingMembers(rows: seq<HistoryRow>, keyword: Option<string>, runId: Option<string>)
    ensures multiset(Matching(rows, keyword, runId)) <= multiset(rows)
    ensures forall r :: r in Matching(rows, keyword, runId) <==> r in rows && MatchesFilters(r, keyword, runId)
  {
    MatchingSubMultiset(rows, keyword, runId);
    if rows != [] {
      MatchingMembers(rows[1..], keyword, runId);
      MatchingCons(rows, keyword, runId);
      assert forall r :: r in rows <==> r == rows[0] || r in rows[1..];
    }
  }

  /** SQLite's LIMIT: a negative limit means no limit. */
  function Limited(n: nat, limit: int): nat
  {
    if limit < 0 || limit >= n then n else limit
  }

  /** The first `n` matching rows in newest-first order: what the query's result is made of. */
  lemma SortedMatchingPrefix(rows: seq<HistoryRow>, keyword: Option<string>, runId: Option<string>, n: nat)
    requires n <= |Matching(rows, keyword, runId)|
    ensures var p := SortDescBy(Matching(rows, keyword, runId), CreatedAt)[..n];
            (forall x :: x in p ==> x in rows && MatchesFilters(x, keyword, runId)) &&
            multiset(p) <= multiset(rows) &&
            SortedDescBy(p, CreatedAt)
  {
    var m := Matching(rows, keyword, runId);
    var sorted := SortDescBy(m, CreatedAt);
    MatchingMembers(rows, keyword, runId);
    SortDescByPermutes(m, CreatedAt);
    SortDescBySorted(m, CreatedAt);
    SortedDescByPrefix(sorted, n, CreatedAt);
    forall x | x in sorted[..n] ensures x in rows && MatchesFilters(x, keyword, runId) {
      assert x in multiset(sorted[..n]);
      assert x in multiset(m);
    }
  }

  /** `get_decision_history` over the rows of the history table. */
  function DecisionHistory(rows: seq<HistoryRow>, keyword: Option<string>, runId: Option<string>, limit: int)
    : (r: seq<HistoryRow>)
    ensures |r| == Limited(|Matching(rows, keyword, runId)|, limit)
    ensures forall x :: x in r ==> x in rows && MatchesFilters(x, keyword, runId)
    ensures multiset(r) <= multiset(rows)
    ensures SortedDescBy(r, CreatedAt)
  {
    var n := Limited(|Matching(rows, keyword, runId)|, limit);
    SortedMatchingPrefix(rows, keyword, runId, n);
    SortDescBy(Matching(rows, keyword, runId), CreatedAt)[..n]
  }

  /**
   * The rows left out by the limit are never newer than a row returned: the
   * result is the newest `limit` matching rows.
   */
  lemma DecisionHistoryIsNewest(rows: seq<HistoryRow>, keyword: Option<string>, runId: Option<string>, limit: int)
    ensures exists sorted: seq<HistoryRow> ::
              multiset(sorted) == multiset(Matching(rows, keyword, runId)) &&
              SortedDescBy(sorted, CreatedAt) &&
              DecisionHistory(rows, keyword, runId, limit) == sorted[..Limited(|sorted|, limit)]
  {
    var m := Matching(rows, keyword, runId);
    SortDescByPermutes(m, CreatedAt);
    SortDescBySorted(m, CreatedAt);
    assert |SortDescBy(m, CreatedAt)| == |m|;
  }

  // ---------------------------------------------------------------------
  // The store
  // ---------------------------------------------------------------------

  class DatabaseClient {
    /** `conflict_decisions`, in insertion order. */
    var history: seq<HistoryRow>
    /** `indicator_states`, keyed by (keyword, field_name). */
    var states: map<(string, string), StateRow>

    /** AUTOINCREMENT ids: rows are never deleted, so a row's id is its position plus one. */
    ghost predicate Valid()
      reads this
    {
      forall i :: 0 <= i < |history| ==> history[i].id == i + 1
    }

    /** A client over a freshly created database. */
    constructor ()
      ensures Valid() && history == [] && states == map[]
    {
      history := [];
      states := map[];
    }

    /**
     * `save_decisions`. All writes happen in one transaction: if a pending
     * source has no `.value` the call raises and nothing is written.
     */
    method SaveDecisions(runId: string, keyword: string, decisions: seq<ConflictDecision>, now: string)
      returns (ok: bool)
      requires Valid()
      modifies this
      ensures Valid()
      ensures ok <==> PendingAllKnown(decisions)
      ensures ok ==> history == old(history) + NewHistoryRows(|old(history)| + 1, runId, keyword, decisions, now)
      ensures ok ==> states == Upserted(old(states), keyword, decisions, now)
      ensures !ok ==> history == old(history) && states == old(states)
    {
      if |decisions| == 0 {
        return true;
      }
      var added: seq<HistoryRow> := [];
      var table := states;
      var i := 0;
      while i < |decisions|
        invariant 0 <= i <= |decisions|
        invariant PendingAllKnown(decisions[..i])
        invariant added == NewHistoryRows(|history| + 1, runId, keyword, decisions[..i], now)
        invariant table == Upserted(states, keyword, decisions[..i], now)
        invariant history == old(history) && states == old(states)
      {
        var d := decisions[i];
        var pending := PendingText(d.pendingSources);
        if pending.None? {
          assert !PendingAllKnown(decisions);
          return false;
        }
        SaveStep(states, |history| + 1, runId, keyword, decisions, i, now);
        added := added + [HistoryRowOf(|history| + |added| + 1, runId, keyword, d, now)];
        table := table[(keyword, d.fieldName) := StateRowOf(d, now)];
        i := i + 1;
      }
      assert decisions[..i] == decisions;
      NewRowsNumbered(|history| + 1, runId, keyword, decisions, now);
      AppendKeepsNumbering(history, added);
      history, states := history + added, table;
      ok := true;
    }

    /** `get_latest_states`: one row per field saved under `keyword`, newest first. */
    method GetLatestStates(keyword: string) returns (rows: seq<LatestState>)
      ensures forall r :: r in rows ==>
                r.keyword == keyword && (keyword, r.fieldName) in states &&
                r == LatestOf(keyword, r.fieldName, states[(keyword, r.fieldName)])
      ensures forall key :: key in states && key.0 == keyword ==> exists r :: r in rows && r.fieldName == key.1
      ensures forall i, j :: 0 <= i < j < |rows| ==> rows[i].fieldName != rows[j].fieldName
      ensures SortedDescBy(rows, UpdatedAt)
    {
      var pending := states.Keys;
      var found: seq<LatestState> := [];
      while pending != {}
        invariant pending <= states.Keys
        invariant forall r :: r in found ==>
                    r.keyword == keyword && (keyword, r.fieldName) in states && (keyword, r.fieldName) !in pending &&
                    r == LatestOf(keyword, r.fieldName, states[(keyword, r.fieldName)])
        invariant forall key :: key in states && key !in pending && key.0 == keyword ==>
                    exists r :: r in found && r.fieldName == key.1
        invariant forall x :: multiset(found)[x] <= 1
        decreases pending
      {
        var key :| key in pending;
        if key.0 == keyword {
          var r := LatestOf(keyword, key.1, states[key]);
          assert r !in found;
          found := found + [r];
        }
        pending := pending - {key};
      }
      rows := SortDescBy(found, UpdatedAt);
      SortDescByPermutes(found, UpdatedAt);
      SortDescBySorted(found, UpdatedAt);
      forall r | r in rows ensures r in found {
        assert r in multiset(rows);
      }
      forall key | key in states && key.0 == keyword ensures exists r :: r in rows && r.fieldName == key.1 {
        var r :| r in found && r.fieldName == key.1;
        assert r in multiset(found);
      }
      forall i, j | 0 <= i < j < |rows| ensures rows[i].fieldName != rows[j].fieldName {
        if rows[i].fieldName == rows[j].fieldName {
          assert rows[i] in found && rows[j] in found;
          TwiceCounted(rows, i, j);
        }
      }
    }

    /** `get_decision_history`; with the ids the table numbers, no row is listed twice. */
    function GetDecisionHistory(keyword: Option<string> := None, runId: Option<string> := None, limit: int := 100)
      : (r: seq<HistoryRow>)
      reads this
      ensures forall x :: x in r ==> x in history && MatchesFilters(x, keyword, runId)
      ensures SortedDescBy(r, CreatedAt)
      ensures Valid() ==> forall i, j :: 0 <= i < j < |r| ==> r[i].id != r[j].id
    {
      var r := DecisionHistory(history, keyword, runId, limit);
      IdsStayDistinct(history, r);
      r
    }
  }

  function LatestOf(keyword: string, fieldName: string, s: StateRow): LatestState
  {
    LatestState(keyword, fieldName, s.finalValue, s.chosenSource, s.reason, s.updatedAt)
  }

  /** In a sequence of distinct elements each element is counted at most once. */
  lemma {:induction false} DistinctCountedOnce<T>(s: seq<T>, x: T)
    requires forall i, j :: 0 <= i < j < |s| ==> s[i] != s[j]
    ensures multiset(s)[x] <= 1
  {
    if s != [] {
      var p := s[..|s| - 1];
      var last := s[|s| - 1];
      assert s == p + [last];
      DistinctCountedOnce(p, x);
      if x == last {
        forall k | 0 <= k < |p| ensures p[k] != x {
          assert p[k] == s[k];
        }
        assert x !in p;
      }
    }
  }

  /** Rows drawn, without repetition, from a table numbered 1, 2, ... carry distinct ids. */
  lemma IdsStayDistinct(rows: seq<HistoryRow>, r: seq<HistoryRow>)
    requires multiset(r) <= multiset(rows)
    ensures (forall i :: 0 <= i < |rows| ==> rows[i].id == i + 1) ==>
              forall i, j :: 0 <= i < j < |r| ==> r[i].id != r[j].id
  {
    if forall i :: 0 <= i < |rows| ==> rows[i].id == i + 1 {
      IdsStayDistinctNumbered(rows, r);
    }
  }

  lemma IdsStayDistinctNumbered(rows: seq<HistoryRow>, r: seq<HistoryRow>)
    requires forall i :: 0 <= i < |rows| ==> rows[i].id == i + 1
    requires multiset(r) <= multiset(rows)
    ensures forall i, j :: 0 <= i < j < |r| ==> r[i].id != r[j].id
  {
    forall i, j | 0 <= i < j < |r| ensures r[i].id != r[j].id {
      if r[i].id == r[j].id {
        assert r[i] in multiset(r) && r[j] in multiset(r);
        var a :| 0 <= a < |rows| && rows[a] == r[i];
        var b :| 0 <= b < |rows| && rows[b] == r[j];
        assert a == b;
        forall m, n | 0 <= m < n < |rows| ensures rows[m] != rows[n] {
          assert rows[m].id != rows[n].id;
        }
        DistinctCountedOnce(rows, r[i]);
        TwiceCounted(r, i, j);
        assert false;
      }
    }
  }

  lemma TwiceCounted<T>(s: seq<T>, i: nat, j: nat)
    requires i < j < |s| && s[i] == s[j]
    ensures multiset(s)[s[i]] >= 2
  {
    assert s == s[..j] + [s[j]] + s[j + 1..];
    assert s[i] == s[..j][i];
    assert s[i] in multiset(s[..j]);
  }

  lemma AppendKeepsNumbering(history: seq<HistoryRow>, added: seq<HistoryRow>)
    requires forall i :: 0 <= i < |history| ==> history[i].id == i + 1
    requires forall i :: 0 <= i < |added| ==> added[i].id == |history| + 1 + i
    ensures forall i :: 0 <= i < |history + added| ==> (history + added)[i].id == i + 1
  {
    forall i | 0 <= i < |history + added| ensures (history + added)[i].id == i + 1 {
      if i >= |history| {
        assert (history + added)[i] == added[i - |history|];
      }
    }
  }

  lemma {:induction false} NewRowsNumbered(firstId: nat, runId: string, keyword: string, ds: seq<ConflictDecision>, now: string)
    requires PendingAllKnown(ds)
    ensures forall i :: 0 <= i < |ds| ==> NewHistoryRows(firstId, runId, keyword, ds, now)[i].id == firstId + i
  {
    if ds != [] {
      var p := ds[..|ds| - 1];
      assert PendingAllKnown(p);
      NewRowsNumbered(firstId, runId, keyword, p, now);
    }
  }

  // ---------------------------------------------------------------------
  // Properties
  // ---------------------------------------------------------------------

  /**
   * One call appends one row per decision, in order, each carrying the run
   * id, the keyword and the one shared timestamp.
   */
  lemma {:induction false} NewHistoryRowsShape(firstId: nat, runId: string, keyword: string, ds: seq<ConflictDecision>, now: string)
    requires PendingAllKnown(ds)
    ensures forall i :: 0 <= i < |ds| ==>
              NewHistoryRows(firstId, runId, keyword, ds, now)[i] == HistoryRowOf(firstId + i, runId, keyword, ds[i], now)
  {
    if ds != [] {
      var p := ds[..|ds| - 1];
      assert PendingAllKnown(p);
      NewHistoryRowsShape(firstId, runId, keyword, p, now);
    }
  }

  /** `ds[j]` is the last decision in `ds` for its field. */
  predicate LastFor(ds: seq<ConflictDecision>, j: nat)
  {
    j < |ds| && forall k :: j < k < |ds| ==> ds[k].fieldName != ds[j].fieldName
  }

  lemma {:induction false} UpsertLastWinsAt(states: map<(string, string), StateRow>, keyword: string, ds: seq<ConflictDecision>, now: string, j: nat)
    requires LastFor(ds, j)
    ensures (keyword, ds[j].fieldName) in Upserted(states, keyword, ds, now)
    ensures Upserted(states, keyword, ds, now)[(keyword, ds[j].fieldName)] == StateRowOf(ds[j], now)
  {
    var p := ds[..|ds| - 1];
    if j < |ds| - 1 {
      assert ds[|ds| - 1].fieldName != ds[j].fieldName;
      assert p[j] == ds[j];
      forall k | j < k < |p| ensures p[k].fieldName != p[j].fieldName {
        assert p[k] == ds[k];
      }
      UpsertLastWinsAt(states, keyword, p, now, j);
    }
  }

  lemma {:induction false} UpsertOtherKey(states: map<(string, string), StateRow>, keyword: string, ds: seq<ConflictDecision>, now: string, key: (string, string))
    requires key.0 != keyword || forall k :: 0 <= k < |ds| ==> ds[k].fieldName != key.1
    ensures key in Upserted(states, keyword, ds, now) <==> key in states
    ensures key in states ==> Upserted(states, keyword, ds, now)[key] == states[key]
  {
    if ds != [] {
      var p := ds[..|ds| - 1];
      if key.0 == keyword {
        forall k | 0 <= k < |p| ensures p[k].fieldName != key.1 {
          assert p[k] == ds[k];
        }
      }
      UpsertOtherKey(states, keyword, p, now, key);
    }
  }

  lemma {:induction false} UpsertKeepsKey(states: map<(string, string), StateRow>, keyword: string, ds: seq<ConflictDecision>, now: string, key: (string, string))
    requires key in states
    ensures key in Upserted(states, keyword, ds, now)
  {
    if ds != [] {
      UpsertKeepsKey(states, keyword, ds[..|ds| - 1], now, key);
    }
  }

  /** After the upserts each field holds the last decision made for it; other keys keep their rows. */
  lemma UpsertLastWins(states: map<(string, string), StateRow>, keyword: string, ds: seq<ConflictDecision>, now: string)
    ensures forall j: nat :: LastFor(ds, j) ==>
              (keyword, ds[j].fieldName) in Upserted(states, keyword, ds, now) &&
              Upserted(states, keyword, ds, now)[(keyword, ds[j].fieldName)] == StateRowOf(ds[j], now)
    ensures forall key :: key in states ==> key in Upserted(states, keyword, ds, now)
    ensures forall key: (string, string) :: (key.0 != keyword || forall k :: 0 <= k < |ds| ==> ds[k].fieldName != key.1) ==>
              (key in Upserted(states, keyword, ds, now) <==> key in states) &&
              (key in states ==> Upserted(states, keyword, ds, now)[key] == states[key])
  {
    forall j: nat | LastFor(ds, j)
      ensures (keyword, ds[j].fieldName) in Upserted(states, keyword, ds, now) &&
              Upserted(states, keyword, ds, now)[(keyword, ds[j].fieldName)] == StateRowOf(ds[j], now)
    {
      UpsertLastWinsAt(states, keyword, ds, now, j);
    }
    forall key | key in states ensures key in Upserted(states, keyword, ds, now) {
      UpsertKeepsKey(states, keyword, ds, now, key);
    }
    forall key: (string, string) | key.0 != keyword || forall k :: 0 <= k < |ds| ==> ds[k].fieldName != key.1
      ensures (key in Upserted(states, keyword, ds, now) <==> key in states) &&
              (key in states ==> Upserted(states, keyword, ds, now)[key] == states[key])
    {
      UpsertOtherKey(states, keyword, ds, now, key);
    }
  }

  /** An empty call leaves both tables as they were. */
  lemma EmptySaveChangesNothing(states: map<(string, string), StateRow>, keyword: string, runId: string, now: string, firstId: nat)
    ensures NewHistoryRows(firstId, runId, keyword, [], now) == []
    ensures Upserted(states, keyword, [], now) == states
  {
  }

  /** Four examples of the stored pending text. */
  lemma PendingTextExamples()
    ensures PendingText([]) == Some("")
    ensures PendingText([Known(Media)]) == Some("media")
    ensures PendingText([Known(Media), Known(Rumor)]) == Some("media,rumor")
    ensures PendingText([Known(Media), Raw("media")]) == None
  {
    assert Values([Known(Media), Known(Rumor)]) == ["media", "rumor"];
    assert AllKnown([Known(Media), Known(Rumor)]);
    assert [Known(Media), Known(Rumor)][1..] == [Known(Rumor)];
    assert ["media", "rumor"][1..] == ["rumor"];
    assert Join(",", ["media", "rumor"]) == "media" + "," + "rumor";
    assert "media" + "," + "rumor" == "media,rumor";
    assert !AllKnown([Known(Media), Raw("media")]) by {
      assert Raw("media") in [Known(Media), Raw("media")];
    }
  }

  /** Every row a call inserts carries the call's run id, keyword and timestamp. */
  lemma {:induction false} NewRowsTagged(firstId: nat, runId: string, keyword: string, ds: seq<ConflictDecision>, now: string)
    requires PendingAllKnown(ds)
    ensures forall x :: x in NewHistoryRows(firstId, runId, keyword, ds, now) ==>
              x.runId == runId && x.keyword == keyword && x.createdAt == now
  {
    if ds != [] {
      var p := ds[..|ds| - 1];
      assert PendingAllKnown(p);
      NewRowsTagged(firstId, runId, keyword, p, now);
    }
  }

  /** With a non-zero limit the first row returned is a newest matching row. */
  lemma DecisionHistoryHeadIsNewest(rows: seq<HistoryRow>, keyword: Option<string>, runId: Option<string>, limit: int, x: HistoryRow)
    requires limit != 0 && x in Matching(rows, keyword, runId)
    ensures DecisionHistory(rows, keyword, runId, limit) != []
    ensures LexLe(x.createdAt, DecisionHistory(rows, keyword, runId, limit)[0].createdAt)
  {
    var m := Matching(rows, keyword, runId);
    var sorted := SortDescBy(m, CreatedAt);
    SortDescByPermutes(m, CreatedAt);
    SortDescBySorted(m, CreatedAt);
    assert x in multiset(sorted);
    var i :| 0 <= i < |sorted| && sorted[i] == x;
    if i == 0 {
      LexLeReflexive(x.createdAt);
    } else {
      assert LexLe(CreatedAt(sorted[i]), CreatedAt(sorted[0]));
    }
  }

  lemma {:induction false} AllMatchKeyword(rows: seq<HistoryRow>, k: string)
    requires forall x :: x in rows ==> x.keyword == k
    ensures Matching(rows, Some(k), None) == rows
  {
    if rows != [] {
      assert rows[0] in rows;
      AllMatchKeyword(rows[1..], k);
    }
  }

  /** The two timestamps of the scenario below, the second one later. */
  lemma LaterStamp()
    ensures !LexLe("20260121_000100", "20260121_000000")
  {
    var p := "20260121_000";
    assert "20260121_000100" == p + "100" && "20260121_000000" == p + "000";
    LexLeCommonPrefix(p, "100", "000");
  }

  /**
   * Rows saved by a later call, under the same keyword, come before those of
   * an earlier call.
   */
  lemma LaterSaveListedFirst(h1: seq<HistoryRow>, h2: seq<HistoryRow>, k: string, t1: string, t2: string, limit: int)
    requires k != "" && limit != 0 && h2 != [] && !LexLe(t2, t1)
    requires forall x :: x in h1 ==> x.keyword == k && x.createdAt == t1
    requires forall x :: x in h2 ==> x.keyword == k && x.createdAt == t2
    ensures |DecisionHistory(h1 + h2, Some(k), None, limit)| == Limited(|h1| + |h2|, limit)
    ensures DecisionHistory(h1 + h2, Some(k), None, limit)[0] in h2
    ensures var r := DecisionHistory(h1 + h2, Some(k), None, limit);
            forall i, j :: 0 <= i < j < |r| && r[j] in h2 ==> r[i] in h2
  {
    var h := h1 + h2;
    AllMatchKeyword(h, k);
    DecisionHistoryHeadIsNewest(h, Some(k), None, limit, h2[0]);
    var r := DecisionHistory(h, Some(k), None, limit);
    assert r[0] in h;
    forall i, j | 0 <= i < j < |r| && r[j] in h2 ensures r[i] in h2 {
      assert r[i] in h;
      assert LexLe(r[j].createdAt, r[i].createdAt);
      assert r[i] in h1 ==> LexLe(t2, t1);
    }
  }

  /**
   * Two saves under one keyword, of two decisions and then one, leave three
   * history rows for that keyword, the later run's first.
   */
  lemma HistoryAccumulates(k: string, d1: ConflictDecision, d2: ConflictDecision, d3: ConflictDecision)
    requires AllKnown(d1.pendingSources) && AllKnown(d2.pendingSources) && AllKnown(d3.pendingSources)
    requires k != ""
    ensures
      var h := NewHistoryRows(1, "run1", k, [d1, d2], "20260121_000000") +
               NewHistoryRows(3, "run2", k, [d3], "20260121_000100");
      |DecisionHistory(h, Some(k), None, 100)| == 3 &&
      DecisionHistory(h, Some(k), None, 100)[0].runId == "run2"
  {
    var t1 := "20260121_000000";
    var t2 := "20260121_000100";
    assert PendingAllKnown([d1, d2]) && PendingAllKnown([d3]);
    NewRowsTagged(1, "run1", k, [d1, d2], t1);
    NewRowsTagged(3, "run2", k, [d3], t2);
    LaterStamp();
    LaterSaveListedFirst(NewHistoryRows(1, "run1", k, [d1, d2], t1), NewHistoryRows(3, "run2", k, [d3], t2), k, t1, t2, 100);
  }

  /** The same two saves leave one state row per field, holding the later decision. */
  lemma StatesAccumulate(k: string, d1: ConflictDecision, d2: ConflictDecision, d3: ConflictDecision)
    requires d1.fieldName != d2.fieldName && d3.fieldName == d1.fieldName
    ensures
      var s := Upserted(Upserted(map[], k, [d1, d2], "20260121_000000"), k, [d3], "20260121_000100");
      s.Keys == {(k, d1.fieldName), (k, d2.fieldName)} &&
      s[(k, d1.fieldName)] == StateRowOf(d3, "20260121_000100") &&
      s[(k, d2.fieldName)] == StateRowOf(d2, "20260121_000000")
  {
    var t1 := "20260121_000000";
    assert [d1, d2][..1] == [d1];
    assert [d1][..0] == [];
    assert Upserted(map[], k, [d1], t1) == map[(k, d1.fieldName) := StateRowOf(d1, t1)];
    var s1 := Upserted(map[], k, [d1, d2], t1);
    assert s1 == map[(k, d1.fieldName) := StateRowOf(d1, t1), (k, d2.fieldName) := StateRowOf(d2, t1)];
  }
}
