/**
 * Text helpers shared by the model: prefix/suffix/substring tests as Python's
 * `str.startswith`, `str.endswith` and `in` perform them, `",".join`, and the
 * lexicographic order by code point that Python uses for `sorted` on strings
 * and SQLite uses for ORDER BY on TEXT columns.
 */
module Strings {

  predicate StartsWith(s: string, prefix: string)
  {
    |prefix| <= |s| && s[..|prefix|] == prefix
  }

  predicate EndsWith(s: string, suffix: string)
  {
    |suffix| <= |s| && s[|s| - |suffix|..] == suffix
  }

  /** Python's `sub in s`: `sub` occurs at some position of `s`. */
  predicate Contains(s: string, sub: string)
  {
    StartsWith(s, sub) || (s != [] && Contains(s[1..], sub))
  }

  /** `sub` occurs in `s` at position `i`. */
  predicate OccursAt(s: string, sub: string, i: nat)
  {
    i + |sub| <= |s| && s[i..i + |sub|] == sub
  }

  /** `Contains` agrees with "`sub` occurs at some position of `s`". */
  lemma {:induction false} ContainsIffOccurs(s: string, sub: string)
    ensures Contains(s, sub) <==> exists i: nat :: OccursAt(s, sub, i)
  {
    if s == [] {
      if Contains(s, sub) {
        assert OccursAt(s, sub, 0);
      }
      if exists i: nat :: OccursAt(s, sub, i) {
        var i: nat :| OccursAt(s, sub, i);
        assert StartsWith(s, sub);
      }
    } else {
      ContainsIffOccurs(s[1..], sub);
      if StartsWith(s, sub) {
        assert OccursAt(s, sub, 0);
      } else if Contains(s[1..], sub) {
        var i: nat :| OccursAt(s[1..], sub, i);
        assert s[1..][i..i + |sub|] == s[i + 1..i + 1 + |sub|];
        assert OccursAt(s, sub, i + 1);
      }
      if exists i: nat :: OccursAt(s, sub, i) {
        var i: nat :| OccursAt(s, sub, i);
        if i == 0 {
          assert StartsWith(s, sub);
        } else {
          assert s[1..][i - 1..i - 1 + |sub|] == s[i..i + |sub|];
          assert OccursAt(s[1..], sub, i - 1);
        }
      }
    }
  }

  lemma ContainsAt(s: string, sub: string, i: nat)
    requires OccursAt(s, sub, i)
    ensures Contains(s, sub)
  {
    ContainsIffOccurs(s, sub);
  }

  /** `sub` does not occur where no two adjacent characters of `s` are `sub`'s first two. */
  lemma AbsentFirstTwo(s: string, sub: string)
    requires |sub| >= 2
    requires forall i :: 0 <= i < |s| - 1 ==> !(s[i] == sub[0] && s[i + 1] == sub[1])
    ensures !Contains(s, sub)
  {
    ContainsIffOccurs(s, sub);
    forall i: nat ensures !OccursAt(s, sub, i) {
      if i + |sub| <= |s| {
        assert s[i..i + |sub|][0] == s[i] && s[i..i + |sub|][1] == s[i + 1];
      }
    }
  }

  /** Python's `sep.join(parts)`. */
  function Join(sep: string, parts: seq<string>): (r: string)
    ensures parts == [] ==> r == ""
    ensures |parts| == 1 ==> r == parts[0]
  {
    if parts == [] then ""
    else if |parts| == 1 then parts[0]
    else parts[0] + sep + Join(sep, parts[1..])
  }

  /** `a <= b` in code-point lexicographic order. */
  predicate LexLe(a: string, b: string)
  {
    a == [] || (b != [] && (a[0] < b[0] || (a[0] == b[0] && LexLe(a[1..], b[1..]))))
  }

  lemma {:induction false} LexLeReflexive(a: string)
    ensures LexLe(a, a)
  {
    if a != [] {
      LexLeReflexive(a[1..]);
    }
  }

  lemma {:induction false} LexLeTotal(a: string, b: string)
    ensures LexLe(a, b) || LexLe(b, a)
  {
    if a != [] && b != [] && a[0] == b[0] {
      LexLeTotal(a[1..], b[1..]);
    }
  }

  lemma {:induction false} LexLeAntisymmetric(a: string, b: string)
    requires LexLe(a, b) && LexLe(b, a)
    ensures a == b
  {
    if a != [] && b != [] {
      LexLeAntisymmetric(a[1..], b[1..]);
      assert a == [a[0]] + a[1..] && b == [b[0]] + b[1..];
    }
  }

  lemma {:induction false} LexLeTransitive(a: string, b: string, c: string)
    requires LexLe(a, b) && LexLe(b, c)
    ensures LexLe(a, c)
  {
    if a != [] && b != [] && c != [] && a[0] == b[0] && b[0] == c[0] {
      LexLeTransitive(a[1..], b[1..], c[1..]);
    }
  }

  /** A common prefix does not change the order. */
  lemma {:induction false} LexLeCommonPrefix(p: string, a: string, b: string)
    ensures LexLe(p + a, p + b) <==> LexLe(a, b)
  {
    if p == [] {
      assert p + a == a && p + b == b;
    } else {
      LexLeCommonPrefix(p[1..], a, b);
      assert (p + a)[0] == p[0] == (p + b)[0];
      assert (p + a)[1..] == p[1..] + a;
      assert (p + b)[1..] == p[1..] + b;
    }
  }

  predicate IsGreatest(names: set<string>, m: string)
  {
    m in names && forall x :: x in names ==> LexLe(x, m)
  }

  lemma {:induction false} GreatestExists(names: set<string>)
    requires names != {}
    ensures exists m :: IsGreatest(names, m)
    decreases |names|
  {
    var x :| x in names;
    var rest := names - {x};
    if rest == {} {
      LexLeReflexive(x);
      assert names == {x};
      assert IsGreatest(names, x);
    } else {
      GreatestExists(rest);
      var m :| IsGreatest(rest, m);
      LexLeTotal(x, m);
      LexLeReflexive(x);
      if LexLe(x, m) {
        assert IsGreatest(names, m);
      } else {
        forall y | y in names ensures LexLe(y, x) {
          if y != x {
            LexLeTransitive(y, m, x);
          }
        }
        assert IsGreatest(names, x);
      }
    }
  }

  lemma GreatestUnique(names: set<string>, m1: string, m2: string)
    requires IsGreatest(names, m1) && IsGreatest(names, m2)
    ensures m1 == m2
  {
    LexLeAntisymmetric(m1, m2);
  }

  /** The last element of `sorted(names)`: the greatest name. */
  function Greatest(names: set<string>): (m: string)
    requires names != {}
    ensures IsGreatest(names, m)
  {
    GreatestExists(names);
    assert forall m1, m2 :: m1 in names && IsGreatest(names, m1) && m2 in names && IsGreatest(names, m2) ==> m1 == m2 by {
      forall m1, m2 | IsGreatest(names, m1) && IsGreatest(names, m2) ensures m1 == m2 {
        GreatestUnique(names, m1, m2);
      }
    }
    var m :| m in names && IsGreatest(names, m);
    m
  }

  // ---------------------------------------------------------------------
  // ORDER BY <text column> DESC, as a stable insertion sort on a key
  // ---------------------------------------------------------------------

  predicate SortedDescBy<T>(s: seq<T>, key: T -> string)
  {
    forall i, j :: 0 <= i < j < |s| ==> LexLe(key(s[j]), key(s[i]))
  }

  function InsertDescBy<T>(x: T, s: seq<T>, key: T -> string): (r: seq<T>)
    ensures |r| == |s| + 1
  {
    if s == [] || LexLe(key(s[0]), key(x)) then [x] + s
    else [s[0]] + InsertDescBy(x, s[1..], key)
  }

  function SortDescBy<T>(s: seq<T>, key: T -> string): (r: seq<T>)
    ensures |r| == |s|
  {
    if s == [] then [] else InsertDescBy(s[0], SortDescBy(s[1..], key), key)
  }

  lemma {:induction false} InsertDescByMultiset<T>(x: T, s: seq<T>, key: T -> string)
    ensures multiset(InsertDescBy(x, s, key)) == multiset(s) + multiset{x}
  {
    if s != [] && !LexLe(key(s[0]), key(x)) {
      InsertDescByMultiset(x, s[1..], key);
      assert InsertDescBy(x, s, key) == [s[0]] + InsertDescBy(x, s[1..], key);
      assert s == [s[0]] + s[1..];
    }
  }

  lemma SortedDescByCons<T>(x: T, s: seq<T>, key: T -> string)
    requires SortedDescBy(s, key)
    requires forall y :: y in s ==> LexLe(key(y), key(x))
    ensures SortedDescBy([x] + s, key)
  {
    var r := [x] + s;
    forall i, j | 0 <= i < j < |r| ensures LexLe(key(r[j]), key(r[i])) {
      assert r[j] == s[j - 1];
      assert s[j - 1] in s;
      if i > 0 {
        assert r[i] == s[i - 1];
      }
    }
  }

  lemma SortedDescByTail<T>(s: seq<T>, key: T -> string)
    requires SortedDescBy(s, key) && s != []
    ensures SortedDescBy(s[1..], key)
    ensures forall y :: y in s[1..] ==> LexLe(key(y), key(s[0]))
  {
    forall i, j | 0 <= i < j < |s[1..]| ensures LexLe(key(s[1..][j]), key(s[1..][i])) {
      assert s[1..][i] == s[i + 1] && s[1..][j] == s[j + 1];
    }
    forall y | y in s[1..] ensures LexLe(key(y), key(s[0])) {
      var k :| 0 <= k < |s[1..]| && s[1..][k] == y;
      assert s[k + 1] == y;
    }
  }

  lemma {:induction false} InsertDescByMembers<T>(x: T, s: seq<T>, key: T -> string)
    ensures forall y :: y in InsertDescBy(x, s, key) ==> y == x || y in s
  {
    if s != [] && !LexLe(key(s[0]), key(x)) {
      InsertDescByMembers(x, s[1..], key);
    }
  }

  lemma {:induction false} InsertDescBySorted<T>(x: T, s: seq<T>, key: T -> string)
    requires SortedDescBy(s, key)
    ensures SortedDescBy(InsertDescBy(x, s, key), key)
  {
    if s == [] {
      SortedDescByCons(x, s, key);
    } else if LexLe(key(s[0]), key(x)) {
      SortedDescByTail(s, key);
      forall y | y in s ensures LexLe(key(y), key(x)) {
        if y != s[0] {
          assert y in s[1..] by { assert s == [s[0]] + s[1..]; }
          LexLeTransitive(key(y), key(s[0]), key(x));
        }
      }
      SortedDescByCons(x, s, key);
    } else {
      SortedDescByTail(s, key);
      LexLeTotal(key(s[0]), key(x));
      InsertDescBySorted(x, s[1..], key);
      InsertDescByMembers(x, s[1..], key);
      SortedDescByCons(s[0], InsertDescBy(x, s[1..], key), key);
    }
  }

  /** `SortDescBy` reorders its input and no more. */
  lemma {:induction false} SortDescByPermutes<T>(s: seq<T>, key: T -> string)
    ensures multiset(SortDescBy(s, key)) == multiset(s)
  {
    if s != [] {
      SortDescByPermutes(s[1..], key);
      InsertDescByMultiset(s[0], SortDescBy(s[1..], key), key);
      assert s == [s[0]] + s[1..];
    }
  }

  /** `SortDescBy` orders by non-increasing key. */
  lemma {:induction false} SortDescBySorted<T>(s: seq<T>, key: T -> string)
    ensures SortedDescBy(SortDescBy(s, key), key)
  {
    if s != [] {
      SortDescBySorted(s[1..], key);
      InsertDescBySorted(s[0], SortDescBy(s[1..], key), key);
    }
  }

  /** A prefix of a sorted sequence is sorted and takes nothing it does not have. */
  lemma SortedDescByPrefix<T>(s: seq<T>, n: nat, key: T -> string)
    requires n <= |s|
    requires SortedDescBy(s, key)
    ensures SortedDescBy(s[..n], key)
    ensures multiset(s[..n]) <= multiset(s)
  {
    assert s == s[..n] + s[n..];
    assert multiset(s) == multiset(s[..n]) + multiset(s[n..]);
  }
}
