/**
 * The conflict arbiter (codes/conflict_resolution.py, `resolve_conflicts`):
 * change candidates are grouped by field in first-seen order, each group is
 * stable-sorted by descending source weight, the head wins and the sources of
 * the rest, in sorted order, are kept as pending.
 */
module ConflictResolution {
  import opened Models

  /** The fixed rationale attached to every decision. */
  const Reason: string := "权重最高来源优先"

  /** The sort key: the weight of an enum source, 0 for anything else. */
  function Key(c: ChangeItem): nat
  {
    match c.source
    case Known(t) => Weight(t)
    case Raw(_) => 0
  }

  // ---------------------------------------------------------------------
  // The stable descending sort (`sorted(items, key=..., reverse=True)`)
  // ---------------------------------------------------------------------

  predicate SortedDesc(s: seq<ChangeItem>)
  {
    forall i, j :: 0 <= i < j < |s| ==> Key(s[i]) >= Key(s[j])
  }

  /** The items of `s` whose key is `w`, in their order in `s`. */
  function WithKey(s: seq<ChangeItem>, w: nat): seq<ChangeItem>
  {
    if s == [] then []
    else (if Key(s[0]) == w then [s[0]] else []) + WithKey(s[1..], w)
  }

  /**
   * Puts `c`, which came before every element of `t`, in front of the first
   * element whose key is not greater than its own.
   */
  function Insert(c: ChangeItem, t: seq<ChangeItem>): (r: seq<ChangeItem>)
    ensures |r| == |t| + 1
  {
    if t == [] || Key(t[0]) <= Key(c) then [c] + t
    else [t[0]] + Insert(c, t[1..])
  }

  function SortDesc(s: seq<ChangeItem>): (r: seq<ChangeItem>)
    ensures |r| == |s|
  {
    if s == [] then [] else Insert(s[0], SortDesc(s[1..]))
  }

  lemma {:induction false} InsertMultiset(c: ChangeItem, t: seq<ChangeItem>)
    ensures multiset(Insert(c, t)) == multiset(t) + multiset{c}
  {
    if t == [] || Key(t[0]) <= Key(c) {
      assert Insert(c, t) == [c] + t;
    } else {
      InsertMultiset(c, t[1..]);
      assert Insert(c, t) == [t[0]] + Insert(c, t[1..]);
      assert t == [t[0]] + t[1..];
    }
  }

  lemma {:induction false} InsertSources(c: ChangeItem, t: seq<ChangeItem>)
    ensures multiset(Sources(Insert(c, t))) == multiset(Sources(t)) + multiset{c.source}
  {
    if t == [] || Key(t[0]) <= Key(c) {
      var r := [c] + t;
      assert Insert(c, t) == r;
      assert r[1..] == t;
      assert Sources(r) == [c.source] + Sources(t);
    } else {
      var r' := Insert(c, t[1..]);
      InsertSources(c, t[1..]);
      var r := [t[0]] + r';
      assert Insert(c, t) == r;
      assert r[1..] == r';
      assert Sources(r) == [t[0].source] + Sources(r');
      assert Sources(t) == [t[0].source] + Sources(t[1..]);
    }
  }

  lemma SortedCons(x: ChangeItem, s: seq<ChangeItem>)
    requires SortedDesc(s)
    requires forall y :: y in s ==> Key(y) <= Key(x)
    ensures SortedDesc([x] + s)
  {
    var r := [x] + s;
    forall i, j | 0 <= i < j < |r| ensures Key(r[i]) >= Key(r[j]) {
      assert r[j] == s[j - 1];
      assert s[j - 1] in s;
      if i > 0 {
        assert r[i] == s[i - 1];
      }
    }
  }

  lemma SortedTail(s: seq<ChangeItem>)
    requires SortedDesc(s) && s != []
    ensures SortedDesc(s[1..])
    ensures forall y :: y in s[1..] ==> Key(y) <= Key(s[0])
  {
    forall i, j | 0 <= i < j < |s[1..]| ensures Key(s[1..][i]) >= Key(s[1..][j]) {
      assert s[1..][i] == s[i + 1] && s[1..][j] == s[j + 1];
    }
    forall y | y in s[1..] ensures Key(y) <= Key(s[0]) {
      var k :| 0 <= k < |s[1..]| && s[1..][k] == y;
      assert s[k + 1] == y;
    }
  }

  lemma {:induction false} InsertMembers(c: ChangeItem, t: seq<ChangeItem>)
    ensures forall x :: x in Insert(c, t) ==> x == c || x in t
  {
    if t != [] && Key(t[0]) > Key(c) {
      InsertMembers(c, t[1..]);
    }
  }

  lemma {:induction false} InsertSorted(c: ChangeItem, t: seq<ChangeItem>)
    requires SortedDesc(t)
    ensures SortedDesc(Insert(c, t))
  {
    if t == [] {
      SortedCons(c, t);
    } else if Key(t[0]) <= Key(c) {
      SortedTail(t);
      assert t == [t[0]] + t[1..];
      SortedCons(c, t);
    } else {
      SortedTail(t);
      InsertSorted(c, t[1..]);
      InsertMembers(c, t[1..]);
      SortedCons(t[0], Insert(c, t[1..]));
    }
  }

  lemma {:induction false} InsertStable(c: ChangeItem, t: seq<ChangeItem>, w: nat)
    ensures WithKey(Insert(c, t), w) == (if Key(c) == w then [c] else []) + WithKey(t, w)
  {
    if t == [] || Key(t[0]) <= Key(c) {
      var r := [c] + t;
      assert Insert(c, t) == r;
      assert r[1..] == t;
      assert WithKey(r, w) == (if Key(c) == w then [c] else []) + WithKey(t, w);
    } else {
      var r' := Insert(c, t[1..]);
      InsertStable(c, t[1..], w);
      var r := [t[0]] + r';
      assert Insert(c, t) == r;
      assert r[1..] == r';
      assert WithKey(r, w) == (if Key(t[0]) == w then [t[0]] else []) + WithKey(r', w);
      assert WithKey(t, w) == (if Key(t[0]) == w then [t[0]] else []) + WithKey(t[1..], w);
      assert Key(c) == w ==> Key(t[0]) != w;
    }
  }

  /** `SortDesc` permutes its input. */
  lemma {:induction false} SortDescPermutes(s: seq<ChangeItem>)
    ensures multiset(SortDesc(s)) == multiset(s)
  {
    if s != [] {
      SortDescPermutes(s[1..]);
      InsertMultiset(s[0], SortDesc(s[1..]));
      assert s == [s[0]] + s[1..];
    }
  }

  lemma {:induction false} SortDescPermutesSources(s: seq<ChangeItem>)
    ensures multiset(Sources(SortDesc(s))) == multiset(Sources(s))
  {
    if s != [] {
      SortDescPermutesSources(s[1..]);
      InsertSources(s[0], SortDesc(s[1..]));
      assert Sources(s) == [s[0].source] + Sources(s[1..]);
    }
  }

  /** `SortDesc` orders by non-increasing weight. */
  lemma {:induction false} SortDescSorted(s: seq<ChangeItem>)
    ensures SortedDesc(SortDesc(s))
  {
    if s != [] {
      SortDescSorted(s[1..]);
      InsertSorted(s[0], SortDesc(s[1..]));
    }
  }

  /** `SortDesc` is stable: the candidates of each weight keep their input order. */
  lemma {:induction false} SortDescStable(s: seq<ChangeItem>, w: nat)
    ensures WithKey(SortDesc(s), w) == WithKey(s, w)
  {
    if s != [] {
      SortDescStable(s[1..], w);
      InsertStable(s[0], SortDesc(s[1..]), w);
    }
  }

  // ---------------------------------------------------------------------
  // Grouping by field
  // ---------------------------------------------------------------------

  /** The distinct field names of `s`, each where it first occurs. */
  function FieldsInOrder(s: seq<ChangeItem>): seq<string>
  {
    if s == [] then []
    else
      var fs := FieldsInOrder(s[..|s| - 1]);
      if s[|s| - 1].field in fs then fs else fs + [s[|s| - 1].field]
  }

  /** The candidates of `s` for field `f`, in input order. */
  function Group(s: seq<ChangeItem>, f: string): seq<ChangeItem>
  {
    if s == [] then []
    else Group(s[..|s| - 1], f) + (if s[|s| - 1].field == f then [s[|s| - 1]] else [])
  }

  /** Index of the first candidate for `f`; |s| when there is none. */
  function FirstIndex(s: seq<ChangeItem>, f: string): (k: nat)
    ensures k <= |s|
    ensures forall i :: 0 <= i < k ==> s[i].field != f
    ensures k < |s| ==> s[k].field == f
  {
    if s == [] then 0
    else if s[0].field == f then 0
    else 1 + FirstIndex(s[1..], f)
  }

  lemma FirstIndexOfPrefix(s: seq<ChangeItem>, c: ChangeItem, f: string)
    requires FirstIndex(s, f) < |s|
    ensures FirstIndex(s + [c], f) == FirstIndex(s, f)
  {
    var k := FirstIndex(s, f);
    assert (s + [c])[k] == s[k];
  }

  lemma FirstIndexOfNew(s: seq<ChangeItem>, c: ChangeItem)
    requires forall i :: 0 <= i < |s| ==> s[i].field != c.field
    ensures FirstIndex(s + [c], c.field) == |s|
  {
    assert (s + [c])[|s|] == c;
  }

  /** No candidate for `f` at all: the first index is the length. */
  lemma FirstIndexAbsent(s: seq<ChangeItem>, f: string)
    requires forall i :: 0 <= i < |s| ==> s[i].field != f
    ensures FirstIndex(s, f) == |s|
  {
  }

  lemma {:induction false} FieldsMembership(s: seq<ChangeItem>)
    ensures forall f :: f in FieldsInOrder(s) <==> FirstIndex(s, f) < |s|
  {
    if s != [] {
      var p := s[..|s| - 1];
      var c := s[|s| - 1];
      assert s == p + [c];
      FieldsMembership(p);
      FieldsStep(p, c);
      forall f ensures f in FieldsInOrder(s) <==> FirstIndex(s, f) < |s| {
        if FirstIndex(p, f) < |p| {
          FirstIndexOfPrefix(p, c, f);
        } else if c.field == f {
          FirstIndexOfNew(p, c);
        } else {
          forall i | 0 <= i < |s| ensures s[i].field != f {
            if i < |p| {
              assert s[i] == p[i];
            }
          }
          FirstIndexAbsent(s, f);
        }
      }
    }
  }

  lemma FieldsHaveChanges(s: seq<ChangeItem>)
    ensures forall f :: FirstIndex(s, f) < |s| <==> exists c :: c in s && c.field == f
  {
    forall f ensures FirstIndex(s, f) < |s| <==> exists c :: c in s && c.field == f {
      if FirstIndex(s, f) < |s| {
        assert s[FirstIndex(s, f)] in s;
      }
      if exists c :: c in s && c.field == f {
        var c :| c in s && c.field == f;
        var k :| 0 <= k < |s| && s[k] == c;
        assert FirstIndex(s, f) <= k;
      }
    }
  }

  lemma {:induction false} FieldsDistinct(s: seq<ChangeItem>)
    ensures forall i, j :: 0 <= i < j < |FieldsInOrder(s)| ==> FieldsInOrder(s)[i] != FieldsInOrder(s)[j]
  {
    if s != [] {
      var p := s[..|s| - 1];
      var c := s[|s| - 1];
      assert s == p + [c];
      FieldsDistinct(p);
      FieldsStep(p, c);
    }
  }

  lemma FirstIndexesKept(p: seq<ChangeItem>, c: ChangeItem)
    ensures forall f :: f in FieldsInOrder(p) ==> FirstIndex(p + [c], f) == FirstIndex(p, f)
  {
    FieldsMembership(p);
    forall f | f in FieldsInOrder(p) ensures FirstIndex(p + [c], f) == FirstIndex(p, f) {
      FirstIndexOfPrefix(p, c, f);
    }
  }

  lemma {:induction false} FieldsFirstSeenOrder(s: seq<ChangeItem>)
    ensures forall i, j :: 0 <= i < j < |FieldsInOrder(s)| ==>
              FirstIndex(s, FieldsInOrder(s)[i]) < FirstIndex(s, FieldsInOrder(s)[j])
  {
    if s != [] {
      var p := s[..|s| - 1];
      var c := s[|s| - 1];
      assert s == p + [c];
      var fs := FieldsInOrder(p);
      FieldsFirstSeenOrder(p);
      FieldsStep(p, c);
      FirstIndexesKept(p, c);
      if c.field !in fs {
        FieldsMembership(p);
        assert FirstIndex(p, c.field) == |p|;
        FirstIndexOfNew(p, c);
        var r := fs + [c.field];
        forall i, j | 0 <= i < j < |r| ensures FirstIndex(s, r[i]) < FirstIndex(s, r[j]) {
          assert r[i] == fs[i] && r[i] in fs;
          if j < |fs| {
            assert r[j] == fs[j] && r[j] in fs;
          }
        }
      } else {
        forall i, j | 0 <= i < j < |fs| ensures FirstIndex(s, fs[i]) < FirstIndex(s, fs[j]) {
          assert fs[i] in fs && fs[j] in fs;
        }
      }
    }
  }

  /**
   * The fields come out exactly once each, exactly those of the input, and in
   * the order of their first occurrence.
   */
  lemma FieldsInOrderCharacterized(s: seq<ChangeItem>)
    ensures forall i, j :: 0 <= i < j < |FieldsInOrder(s)| ==> FieldsInOrder(s)[i] != FieldsInOrder(s)[j]
    ensures forall f :: f in FieldsInOrder(s) <==> exists c :: c in s && c.field == f
    ensures forall i, j :: 0 <= i < j < |FieldsInOrder(s)| ==>
              FirstIndex(s, FieldsInOrder(s)[i]) < FirstIndex(s, FieldsInOrder(s)[j])
    ensures forall f :: f in FieldsInOrder(s) <==> FirstIndex(s, f) < |s|
  {
    FieldsDistinct(s);
    FieldsMembership(s);
    FieldsHaveChanges(s);
    FieldsFirstSeenOrder(s);
  }

  lemma {:induction false} GroupMembers(s: seq<ChangeItem>, f: string)
    ensures forall c :: c in Group(s, f) <==> c in s && c.field == f
  {
    if s != [] {
      GroupMembers(s[..|s| - 1], f);
      assert s == s[..|s| - 1] + [s[|s| - 1]];
    }
  }

  // ---------------------------------------------------------------------
  // Arbitration
  // ---------------------------------------------------------------------

  function Sources(s: seq<ChangeItem>): (r: seq<Source>)
    ensures |r| == |s|
  {
    if s == [] then [] else [s[0].source] + Sources(s[1..])
  }

  lemma {:induction false} SourcesAt(s: seq<ChangeItem>, i: nat)
    requires i < |s|
    ensures Sources(s)[i] == s[i].source
  {
    if i > 0 {
      SourcesAt(s[1..], i - 1);
    }
  }

  /** The head of the sorted group. */
  function Winner(items: seq<ChangeItem>): ChangeItem
    requires items != []
  {
    SortDesc(items)[0]
  }

  /** The decision built for one field from its (non-empty) group. */
  function Decide(f: string, items: seq<ChangeItem>): (r: ConflictDecision)
    requires items != []
    ensures r.fieldName == f
    ensures |r.pendingSources| == |items| - 1
    ensures r.reason == Reason
  {
    var sorted := SortDesc(items);
    var chosen := sorted[0];
    ConflictDecision(
      fieldName := f,
      finalValue := chosen.newValue,
      chosenSource := if chosen.source.Known? then chosen.source.t else Media,
      pendingSources := Sources(sorted[1..]),
      reason := Reason)
  }

  lemma FieldsStep(s: seq<ChangeItem>, c: ChangeItem)
    ensures FieldsInOrder(s + [c]) ==
              if c.field in FieldsInOrder(s) then FieldsInOrder(s) else FieldsInOrder(s) + [c.field]
  {
    assert (s + [c])[..|s|] == s;
  }

  lemma GroupStep(s: seq<ChangeItem>, c: ChangeItem, f: string)
    ensures Group(s + [c], f) == Group(s, f) + (if c.field == f then [c] else [])
  {
    assert (s + [c])[..|s|] == s;
  }

  /** A field has candidates exactly when it is one of the listed fields. */
  lemma {:induction false} GroupEmptyIffAbsent(s: seq<ChangeItem>, f: string)
    ensures Group(s, f) == [] <==> f !in FieldsInOrder(s)
  {
    if s != [] {
      var p := s[..|s| - 1];
      GroupEmptyIffAbsent(p, f);
      assert s == p + [s[|s| - 1]];
      FieldsStep(p, s[|s| - 1]);
      GroupStep(p, s[|s| - 1], f);
    }
  }

  lemma GroupsOfFieldsNonEmpty(changes: seq<ChangeItem>)
    ensures forall f :: f in FieldsInOrder(changes) ==> Group(changes, f) != []
  {
    forall f | f in FieldsInOrder(changes) ensures Group(changes, f) != [] {
      GroupEmptyIffAbsent(changes, f);
    }
  }

  /** Reference definition: one decision per field, in first-seen order. */
  function Resolve(changes: seq<ChangeItem>): (r: seq<ConflictDecision>)
    ensures |r| == |FieldsInOrder(changes)|
    ensures forall i :: 0 <= i < |r| ==> r[i].fieldName == FieldsInOrder(changes)[i]
    ensures changes == [] ==> r == []
  {
    GroupsOfFieldsNonEmpty(changes);
    var fs := FieldsInOrder(changes);
    seq(|fs|, i requires 0 <= i < |fs| => Decide(fs[i], Group(changes, fs[i])))
  }

  /** One turn of the decision loop: the `j`-th key's decision is the `j`-th of `Resolve`. */
  lemma DecideStep(changes: seq<ChangeItem>, keys: seq<string>, groups: map<string, seq<ChangeItem>>, j: nat)
    requires keys == FieldsInOrder(changes)
    requires forall f :: f in groups <==> f in keys
    requires forall f :: f in groups ==> groups[f] == Group(changes, f)
    requires j < |keys|
    ensures keys[j] in groups && groups[keys[j]] != []
    ensures Resolve(changes)[..j + 1] == Resolve(changes)[..j] + [Decide(keys[j], groups[keys[j]])]
  {
    assert keys[j] in keys;
    ResolveAt(changes, j);
    SliceStep(Resolve(changes), j);
  }

  lemma SliceStep<T>(s: seq<T>, j: nat)
    requires j < |s|
    ensures s[..j + 1] == s[..j] + [s[j]]
  {
  }

  lemma ResolveAt(changes: seq<ChangeItem>, j: nat)
    requires j < |FieldsInOrder(changes)|
    ensures Group(changes, FieldsInOrder(changes)[j]) != []
    ensures Resolve(changes)[j] == Decide(FieldsInOrder(changes)[j], Group(changes, FieldsInOrder(changes)[j]))
  {
    var f := FieldsInOrder(changes)[j];
    GroupEmptyIffAbsent(changes, f);
  }

  /** The dictionary after `setdefault(c.field, []).append(c)`, as key order and contents. */
  lemma GroupingStep(done: seq<ChangeItem>, c: ChangeItem, keys: seq<string>, groups: map<string, seq<ChangeItem>>)
    requires keys == FieldsInOrder(done)
    requires forall f :: f in groups <==> f in keys
    requires forall f :: f in groups ==> groups[f] == Group(done, f)
    ensures var keys' := if c.field in groups then keys else keys + [c.field];
            keys' == FieldsInOrder(done + [c])
    ensures var groups' := if c.field in groups then groups[c.field := groups[c.field] + [c]] else groups[c.field := [c]];
            var keys' := if c.field in groups then keys else keys + [c.field];
            (forall f :: f in groups' <==> f in keys') &&
            (forall f :: f in groups' ==> groups'[f] == Group(done + [c], f))
  {
    FieldsStep(done, c);
    forall f ensures Group(done + [c], f) == Group(done, f) + (if c.field == f then [c] else []) {
      GroupStep(done, c, f);
    }
    if c.field !in groups {
      GroupEmptyIffAbsent(done, c.field);
    }
  }

  /**
   * The grouping loop of `resolve_conflicts`: it fills an insertion-ordered
   * dictionary, kept here as its key order `keys` and its contents `groups`.
   */
  method GroupByField(changes: seq<ChangeItem>) returns (keys: seq<string>, groups: map<string, seq<ChangeItem>>)
    ensures keys == FieldsInOrder(changes)
    ensures forall f :: f in groups <==> f in keys
    ensures forall f :: f in groups ==> groups[f] == Group(changes, f)
  {
    keys := [];
    groups := map[];
    var i := 0;
    while i < |changes|
      invariant 0 <= i <= |changes|
      invariant keys == FieldsInOrder(changes[..i])
      invariant forall f :: f in groups <==> f in keys
      invariant forall f :: f in groups ==> groups[f] == Group(changes[..i], f)
    {
      var c := changes[i];
      assert changes[..i + 1] == changes[..i] + [c];
      GroupingStep(changes[..i], c, keys, groups);
      if c.field in groups {
        groups := groups[c.field := groups[c.field] + [c]];
      } else {
        groups := groups[c.field := [c]];
        keys := keys + [c.field];
      }
      i := i + 1;
    }
    assert changes[..i] == changes;
  }

  /** `resolve_conflicts` as written: group, then one decision per key in key order. */
  method ResolveConflicts(changes: seq<ChangeItem>) returns (decisions: seq<ConflictDecision>)
    ensures decisions == Resolve(changes)
    ensures changes == [] ==> decisions == []
  {
    var keys, groups := GroupByField(changes);
    decisions := [];
    var j := 0;
    while j < |keys|
      invariant 0 <= j <= |keys|
      invariant decisions == Resolve(changes)[..j]
    {
      DecideStep(changes, keys, groups, j);
      decisions := decisions + [Decide(keys[j], groups[keys[j]])];
      j := j + 1;
    }
    assert Resolve(changes)[..j] == Resolve(changes);
  }

  // ---------------------------------------------------------------------
  // Properties
  // ---------------------------------------------------------------------

  lemma ResolveCovers(changes: seq<ChangeItem>)
    ensures forall c :: c in changes ==> exists i :: 0 <= i < |Resolve(changes)| && Resolve(changes)[i].fieldName == c.field
  {
    FieldsMembership(changes);
    FieldsHaveChanges(changes);
    var fs := FieldsInOrder(changes);
    forall c | c in changes ensures exists i :: 0 <= i < |Resolve(changes)| && Resolve(changes)[i].fieldName == c.field {
      assert c.field in fs;
      var i :| 0 <= i < |fs| && fs[i] == c.field;
      assert Resolve(changes)[i].fieldName == c.field;
    }
  }

  lemma ResolveFromChanges(changes: seq<ChangeItem>)
    ensures forall d :: d in Resolve(changes) ==> exists c :: c in changes && c.field == d.fieldName
  {
    FieldsMembership(changes);
    FieldsHaveChanges(changes);
    var fs := FieldsInOrder(changes);
    forall d | d in Resolve(changes) ensures exists c :: c in changes && c.field == d.fieldName {
      var i :| 0 <= i < |Resolve(changes)| && Resolve(changes)[i] == d;
      assert fs[i] in fs;
    }
  }

  lemma ResolveOrdered(changes: seq<ChangeItem>)
    ensures forall i, j :: 0 <= i < j < |Resolve(changes)| ==>
              Resolve(changes)[i].fieldName != Resolve(changes)[j].fieldName &&
              FirstIndex(changes, Resolve(changes)[i].fieldName) < FirstIndex(changes, Resolve(changes)[j].fieldName)
  {
    FieldsDistinct(changes);
    FieldsFirstSeenOrder(changes);
  }

  /** One decision per distinct field, fields in first-seen order, never twice. */
  lemma ResolveOnePerField(changes: seq<ChangeItem>)
    ensures |Resolve(changes)| == |FieldsInOrder(changes)|
    ensures forall i :: 0 <= i < |Resolve(changes)| ==> Resolve(changes)[i].fieldName == FieldsInOrder(changes)[i]
    ensures forall c :: c in changes ==> exists i :: 0 <= i < |Resolve(changes)| && Resolve(changes)[i].fieldName == c.field
    ensures forall d :: d in Resolve(changes) ==> exists c :: c in changes && c.field == d.fieldName
    ensures forall i, j :: 0 <= i < j < |Resolve(changes)| ==>
              Resolve(changes)[i].fieldName != Resolve(changes)[j].fieldName &&
              FirstIndex(changes, Resolve(changes)[i].fieldName) < FirstIndex(changes, Resolve(changes)[j].fieldName)
  {
    ResolveCovers(changes);
    ResolveFromChanges(changes);
    ResolveOrdered(changes);
  }

  /** The winner is a member of its group and weighs at least as much as every member. */
  lemma {:induction false} WinnerIsHeaviest(items: seq<ChangeItem>)
    requires items != []
    ensures Winner(items) in items
    ensures forall c :: c in items ==> Key(c) <= Key(Winner(items))
  {
    SortDescPermutes(items);
    SortDescSorted(items);
    var sorted := SortDesc(items);
    assert sorted[0] in multiset(items);
    forall c | c in items ensures Key(c) <= Key(sorted[0]) {
      assert c in multiset(sorted);
      var k :| 0 <= k < |sorted| && sorted[k] == c;
      if k > 0 {
        assert Key(sorted[0]) >= Key(sorted[k]);
      }
    }
  }

  /** Every pending source belongs to a candidate that weighs no more than the winner, in non-increasing weight order. */
  lemma PendingNotHeavier(f: string, items: seq<ChangeItem>)
    requires items != []
    ensures exists rest: seq<ChangeItem> ::
              multiset(rest) + multiset{Winner(items)} == multiset(items) &&
              Decide(f, items).pendingSources == Sources(rest) &&
              (forall i :: 0 <= i < |rest| ==> Key(rest[i]) <= Key(Winner(items))) &&
              (forall i, j :: 0 <= i < j < |rest| ==> Key(rest[i]) >= Key(rest[j]))
  {
    SortDescPermutes(items);
    SortDescSorted(items);
    var sorted := SortDesc(items);
    var rest := sorted[1..];
    assert sorted == [sorted[0]] + rest;
    assert multiset(rest) + multiset{Winner(items)} == multiset(items);
    forall i | 0 <= i < |rest| ensures Key(rest[i]) <= Key(Winner(items)) {
      assert rest[i] == sorted[i + 1];
    }
    forall i, j | 0 <= i < j < |rest| ensures Key(rest[i]) >= Key(rest[j]) {
      assert rest[i] == sorted[i + 1] && rest[j] == sorted[j + 1];
    }
  }

  lemma {:induction false} WithKeyHeadIsFirst(s: seq<ChangeItem>, w: nat)
    requires WithKey(s, w) != []
    ensures exists k :: 0 <= k < |s| && s[k] == WithKey(s, w)[0] && Key(s[k]) == w &&
                        forall i :: 0 <= i < k ==> Key(s[i]) != w
  {
    if Key(s[0]) == w {
      assert s[0] == WithKey(s, w)[0];
    } else {
      WithKeyHeadIsFirst(s[1..], w);
      var k :| 0 <= k < |s[1..]| && s[1..][k] == WithKey(s[1..], w)[0] && Key(s[1..][k]) == w &&
                forall i :: 0 <= i < k ==> Key(s[1..][i]) != w;
      assert s[k + 1] == WithKey(s, w)[0];
      forall i | 0 <= i < k + 1 ensures Key(s[i]) != w {
        if i > 0 {
          assert s[i] == s[1..][i - 1];
        }
      }
    }
  }

  /**
   * Ties keep their input order: the winner is the earliest candidate of the
   * greatest weight.
   */
  lemma EarliestHeaviestWins(items: seq<ChangeItem>)
    requires items != []
    ensures exists k :: 0 <= k < |items| && items[k] == Winner(items) &&
                        (forall i :: 0 <= i < |items| ==> Key(items[i]) <= Key(items[k])) &&
                        (forall i :: 0 <= i < k ==> Key(items[i]) < Key(items[k]))
  {
    WinnerIsHeaviest(items);
    var sorted := SortDesc(items);
    var w := Key(sorted[0]);
    SortDescStable(items, w);
    assert WithKey(sorted, w) == [sorted[0]] + WithKey(sorted[1..], w);
    assert WithKey(items, w) == WithKey(sorted, w);
    WithKeyHeadIsFirst(items, w);
    var k :| 0 <= k < |items| && items[k] == WithKey(items, w)[0] && Key(items[k]) == w &&
              forall i :: 0 <= i < k ==> Key(items[i]) != w;
    forall i | 0 <= i < |items| ensures Key(items[i]) <= w {
      assert items[i] in items;
    }
  }

  /** What one decision says about its group. */
  lemma DecisionShape(f: string, items: seq<ChangeItem>)
    requires items != []
    ensures Decide(f, items).fieldName == f
    ensures Decide(f, items).finalValue == Winner(items).newValue
    ensures |Decide(f, items).pendingSources| == |items| - 1
    ensures multiset([Winner(items).source] + Decide(f, items).pendingSources) == multiset(Sources(items))
    ensures Winner(items).source.Known? ==> Decide(f, items).chosenSource == Winner(items).source.t
    ensures Winner(items).source.Raw? ==> Decide(f, items).chosenSource == Media
    ensures Decide(f, items).reason == Reason
  {
    SortDescPermutesSources(items);
    var sorted := SortDesc(items);
    assert Sources(sorted) == [sorted[0].source] + Sources(sorted[1..]);
  }

  /** Candidates that all name one field are grouped as they come, in one group. */
  lemma {:induction false} OneFieldGroups(cs: seq<ChangeItem>, f: string)
    requires cs != []
    requires forall i :: 0 <= i < |cs| ==> cs[i].field == f
    ensures FieldsInOrder(cs) == [f]
    ensures Group(cs, f) == cs
  {
    var p := cs[..|cs| - 1];
    var c := cs[|cs| - 1];
    assert cs == p + [c];
    FieldsStep(p, c);
    GroupStep(p, c, f);
    if p != [] {
      OneFieldGroups(p, f);
    }
  }

  /** Candidates that all name one field give exactly one decision, over all of them. */
  lemma OneFieldResolve(cs: seq<ChangeItem>, f: string)
    requires cs != []
    requires forall i :: 0 <= i < |cs| ==> cs[i].field == f
    ensures Resolve(cs) == [Decide(f, cs)]
  {
    OneFieldGroups(cs, f);
  }

  /** The arbitration scenario of the architecture check: rumor 85%, media 90%, official 92%. */
  lemma ThreeSourcesScenario()
    ensures
      var f := "产能利用率";
      var rumor := ChangeItem(f, "80%", "85%", "increased", Known(Rumor));
      var media := ChangeItem(f, "80%", "90%", "increased", Known(Media));
      var official := ChangeItem(f, "80%", "92%", "increased", Known(Official));
      Resolve([rumor, media, official]) ==
        [ConflictDecision(f, "92%", Official, [Known(Media), Known(Rumor)], Reason)]
  {
    var f := "产能利用率";
    var rumor := ChangeItem(f, "80%", "85%", "increased", Known(Rumor));
    var media := ChangeItem(f, "80%", "90%", "increased", Known(Media));
    var official := ChangeItem(f, "80%", "92%", "increased", Known(Official));
    var cs := [rumor, media, official];
    OneFieldResolve(cs, f);
    assert SortDesc([official]) == [official];
    assert [media, official][1..] == [official];
    assert [official][1..] == [];
    assert Insert(media, [official]) == [official, media];
    assert SortDesc([media, official]) == [official, media];
    assert cs[1..] == [media, official];
    assert [official, media][1..] == [media];
    assert [media][1..] == [];
    assert Insert(rumor, [media]) == [media, rumor];
    assert Insert(rumor, [official, media]) == [official, media, rumor];
    assert SortDesc(cs) == [official, media, rumor];
    assert [official, media, rumor][1..] == [media, rumor];
    assert Sources([media, rumor]) == [Known(Media), Known(Rumor)];
  }

  /** Equal weights: the earlier of two media candidates wins, the later one is pending. */
  lemma TieKeepsInputOrder()
    ensures
      var a := ChangeItem("x", "1", "2", "changed", Known(Media));
      var b := ChangeItem("x", "1", "3", "changed", Known(Media));
      var c := ChangeItem("x", "1", "4", "changed", Known(Rumor));
      Resolve([a, b, c]) == [ConflictDecision("x", "2", Media, [Known(Media), Known(Rumor)], Reason)]
  {
    var a := ChangeItem("x", "1", "2", "changed", Known(Media));
    var b := ChangeItem("x", "1", "3", "changed", Known(Media));
    var c := ChangeItem("x", "1", "4", "changed", Known(Rumor));
    var cs := [a, b, c];
    OneFieldResolve(cs, "x");
    assert SortDesc([c]) == [c];
    assert [b, c][1..] == [c];
    assert [c][1..] == [];
    assert Insert(b, [c]) == [b, c];
    assert SortDesc([b, c]) == [b, c];
    assert cs[1..] == [b, c];
    assert Insert(a, [b, c]) == [a, b, c];
    assert SortDesc(cs) == [a, b, c];
    assert Sources([b, c]) == [Known(Media), Known(Rumor)];
  }

}
