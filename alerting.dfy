/**
 * Redaction of alert context (codes/alerting.py, `_sanitize_dict`). A
 * Python dict is an association list in insertion order; the values it can
 * hold are strings, nested dicts and other values that are copied as they
 * are.
 */
module Alerting {
  import opened Strings

  datatype Value =
    | Str(s: string)
    | Dict(entries: seq<Entry>)
    | Int(i: int)
    | Bool(b: bool)
    | Null
    | List(elems: seq<Value>)

  datatype Entry = Entry(key: string, value: Value)

  const Mask := "***"
  const MaxShown := 50
  const Ellipsis := "..."

  /** The alternatives of the sensitive-key pattern. */
  const SensitivePatterns := ["key", "secret", "password", "token", "passwd", "pwd", "credential"]

  function LowerChar(c: char): char
  {
    if 'A' <= c <= 'Z' then (c as int + 32) as char else c
  }

  /** ASCII lower-casing. */
  function Lower(s: string): (r: string)
    ensures |r| == |s|
    ensures forall i :: 0 <= i < |s| ==> r[i] == LowerChar(s[i])
  {
    seq(|s|, i requires 0 <= i < |s| => LowerChar(s[i]))
  }

  /** The pattern, compiled with IGNORECASE, finds a match somewhere in `key`. */
  predicate IsSensitive(key: string)
  {
    exists p :: p in SensitivePatterns && Contains(Lower(key), p)
  }

  /** One entry of the result. */
  function SanitizeEntry(e: Entry): (r: Entry)
    ensures r.key == e.key
    ensures IsSensitive(e.key) ==> r.value == Str(Mask)
    decreases e, 0
  {
    if IsSensitive(e.key) then Entry(e.key, Str(Mask))
    else
      match e.value
      case Dict(inner) => Entry(e.key, Dict(Sanitize(inner)))
      case Str(s) => if |s| > MaxShown then Entry(e.key, Str(s[..MaxShown] + Ellipsis)) else e
      case _ => e
  }

  /** `_sanitize_dict`: a fresh dict with the input's keys, in the input's order. */
  function Sanitize(entries: seq<Entry>): (r: seq<Entry>)
    ensures |r| == |entries|
    ensures forall i :: 0 <= i < |r| ==> r[i].key == entries[i].key
    decreases entries, 1
  {
    if entries == [] then [] else [SanitizeEntry(entries[0])] + Sanitize(entries[1..])
  }

  /**
   * No secret survives and no long entry string is shown: at every depth a
   * sensitive key holds "***" and a string held directly as an entry's value
   * is at most 53 characters long (strings inside lists are not looked at).
   */
  predicate Redacted(entries: seq<Entry>)
    decreases entries, 1
  {
    forall i :: 0 <= i < |entries| ==> RedactedEntry(entries[i])
  }

  predicate RedactedEntry(e: Entry)
    decreases e, 0
  {
    (IsSensitive(e.key) ==> e.value == Str(Mask)) &&
    (e.value.Str? ==> |e.value.s| <= MaxShown + |Ellipsis|) &&
    (e.value.Dict? ==> Redacted(e.value.entries))
  }

  lemma {:induction false} SanitizeEntryRedacts(e: Entry)
    ensures RedactedEntry(SanitizeEntry(e))
    decreases e, 0
  {
    if !IsSensitive(e.key) && e.value.Dict? {
      SanitizeRedacts(e.value.entries);
    }
  }

  /** The result of `_sanitize_dict` is redacted, whatever its input. */
  lemma {:induction false} SanitizeRedacts(entries: seq<Entry>)
    ensures Redacted(Sanitize(entries))
    decreases entries, 1
  {
    if entries != [] {
      SanitizeEntryRedacts(entries[0]);
      SanitizeRedacts(entries[1..]);
      var r := Sanitize(entries);
      forall i | 0 <= i < |r| ensures RedactedEntry(r[i]) {
        if i > 0 {
          assert r[i] == Sanitize(entries[1..])[i - 1];
        }
      }
    }
  }

  lemma {:induction false} SanitizeEntryIdempotent(e: Entry)
    ensures SanitizeEntry(SanitizeEntry(e)) == SanitizeEntry(e)
    decreases e, 0
  {
    if !IsSensitive(e.key) {
      match e.value
      case Dict(inner) => SanitizeIdempotent(inner);
      case Str(s) =>
        if |s| > MaxShown {
          assert (s[..MaxShown] + Ellipsis)[..MaxShown] == s[..MaxShown];
        }
      case _ =>
    }
  }

  /** Sanitising a sanitised dict changes nothing more. */
  lemma {:induction false} SanitizeIdempotent(entries: seq<Entry>)
    ensures Sanitize(Sanitize(entries)) == Sanitize(entries)
    decreases entries, 1
  {
    if entries != [] {
      SanitizeEntryIdempotent(entries[0]);
      SanitizeIdempotent(entries[1..]);
      var r := Sanitize(entries);
      assert r[0] == SanitizeEntry(entries[0]) && r[1..] == Sanitize(entries[1..]);
    }
  }

  /** A value under a non-sensitive key that is neither a dict nor a long string is copied unchanged. */
  lemma CopiedUnchanged(e: Entry)
    requires !IsSensitive(e.key) && !e.value.Dict? && !(e.value.Str? && |e.value.s| > MaxShown)
    ensures SanitizeEntry(e) == e
  {
  }

  /** A long string under a non-sensitive key keeps its first 50 characters and ends in "...". */
  lemma LongStringTruncated(e: Entry)
    requires !IsSensitive(e.key) && e.value.Str? && |e.value.s| > MaxShown
    ensures SanitizeEntry(e).value.Str?
    ensures SanitizeEntry(e).value.s[..MaxShown] == e.value.s[..MaxShown]
    ensures EndsWith(SanitizeEntry(e).value.s, Ellipsis)
    ensures |SanitizeEntry(e).value.s| == MaxShown + |Ellipsis|
  {
  }

  /** A key is sensitive when one of the patterns occurs in it, in any ASCII letter case. */
  lemma SensitiveAt(k: string, p: string, i: nat)
    requires p in SensitivePatterns && OccursAt(Lower(k), p, i)
    ensures IsSensitive(k)
  {
    ContainsAt(Lower(k), p, i);
  }

  /** The first two letters of each pattern. */
  predicate PatternStart(a: char, b: char)
  {
    (a, b) in {('k', 'e'), ('s', 'e'), ('p', 'a'), ('t', 'o'), ('p', 'w'), ('c', 'r')}
  }

  /** A key in which no two adjacent letters start a pattern is not sensitive. */
  lemma NotSensitive(k: string)
    requires forall i :: 0 <= i < |k| - 1 ==> !PatternStart(LowerChar(k[i]), LowerChar(k[i + 1]))
    ensures !IsSensitive(k)
  {
    forall p | p in SensitivePatterns ensures !Contains(Lower(k), p) {
      AbsentFirstTwo(Lower(k), p);
    }
  }

  lemma KeywordIsMasked(v: Value)
    ensures SanitizeEntry(Entry("keyword", v)) == Entry("keyword", Str(Mask))
  {
    assert Lower("keyword")[0..3] == "key";
    SensitiveAt("keyword", "key", 0);
  }

  /** The sensitive keys of the first test, in lower and in upper case. */
  lemma ApiKeyIsSensitive()
    ensures IsSensitive("api_key")
  {
    assert Lower("api_key")[4..7] == "key";
    SensitiveAt("api_key", "key", 4);
  }

  lemma PasswordIsSensitive()
    ensures IsSensitive("password")
  {
    assert Lower("password")[0..8] == "password";
    SensitiveAt("password", "password", 0);
  }

  lemma AccessTokenIsSensitive()
    ensures IsSensitive("ACCESS_TOKEN")
  {
    assert Lower("ACCESS_TOKEN")[7..12] == "token";
    SensitiveAt("ACCESS_TOKEN", "token", 7);
  }

  lemma SecretIsSensitive()
    ensures IsSensitive("secret")
  {
    assert Lower("secret")[0..6] == "secret";
    SensitiveAt("secret", "secret", 0);
  }

  /** The keys of the tests that are not sensitive. */
  lemma PlainKeysExample()
    ensures !IsSensitive("normal_field") && !IsSensitive("outer") && !IsSensitive("nested")
    ensures !IsSensitive("public") && !IsSensitive("long_text")
  {
    NotSensitive("normal_field");
    NotSensitive("outer");
    NotSensitive("nested");
    NotSensitive("public");
    NotSensitive("long_text");
  }

  lemma SanitizeCons(e: Entry, rest: seq<Entry>)
    ensures Sanitize([e] + rest) == [SanitizeEntry(e)] + Sanitize(rest)
  {
    assert ([e] + rest)[1..] == rest;
  }

  lemma SanitizeFour(e0: Entry, e1: Entry, e2: Entry, e3: Entry)
    ensures Sanitize([e0, e1, e2, e3]) == [SanitizeEntry(e0), SanitizeEntry(e1), SanitizeEntry(e2), SanitizeEntry(e3)]
  {
    SanitizeCons(e3, []);
    SanitizeCons(e2, [e3]);
    SanitizeCons(e1, [e2, e3]);
    SanitizeCons(e0, [e1, e2, e3]);
    assert [e0] + [e1, e2, e3] == [e0, e1, e2, e3];
  }

  /** The first test: three sensitive keys masked, the plain one kept. */
  lemma SensitiveKeysTest()
    ensures Sanitize([Entry("api_key", Str("secret123")), Entry("password", Str("pass123")),
                      Entry("normal_field", Str("value")), Entry("ACCESS_TOKEN", Str("token123"))])
         == [Entry("api_key", Str(Mask)), Entry("password", Str(Mask)),
             Entry("normal_field", Str("value")), Entry("ACCESS_TOKEN", Str(Mask))]
  {
    var e0, e1, e2, e3 := Entry("api_key", Str("secret123")), Entry("password", Str("pass123")),
                          Entry("normal_field", Str("value")), Entry("ACCESS_TOKEN", Str("token123"));
    SanitizeFour(e0, e1, e2, e3);
    ApiKeyIsSensitive();
    PasswordIsSensitive();
    AccessTokenIsSensitive();
    PlainKeysExample();
    CopiedUnchanged(e2);
  }

  /** The second test: a nested dict is sanitised in place of its value. */
  lemma NestedDictTest()
    ensures Sanitize([Entry("outer", Str("value")),
                      Entry("nested", Dict([Entry("secret", Str("hidden")), Entry("public", Str("visible"))]))])
         == [Entry("outer", Str("value")),
             Entry("nested", Dict([Entry("secret", Str(Mask)), Entry("public", Str("visible"))]))]
  {
    var i0, i1 := Entry("secret", Str("hidden")), Entry("public", Str("visible"));
    var e0, e1 := Entry("outer", Str("value")), Entry("nested", Dict([i0, i1]));
    SecretIsSensitive();
    PlainKeysExample();
    CopiedUnchanged(i1);
    CopiedUnchanged(e0);
    SanitizeCons(i1, []);
    SanitizeCons(i0, [i1]);
    assert Sanitize([i0, i1]) == [Entry("secret", Str(Mask)), i1] by {
      assert [i0] + [i1] == [i0, i1];
    }
    SanitizeCons(e1, []);
    SanitizeCons(e0, [e1]);
    assert [e0] + [e1] == [e0, e1];
  }

  /** The third test: one hundred "a"s become fifty and "...", shorter than sixty. */
  lemma LongStringTest()
    ensures Sanitize([Entry("long_text", Str(seq(100, _ => 'a')))])[0].value.Str?
    ensures EndsWith(Sanitize([Entry("long_text", Str(seq(100, _ => 'a')))])[0].value.s, Ellipsis)
    ensures |Sanitize([Entry("long_text", Str(seq(100, _ => 'a')))])[0].value.s| < 60
  {
    PlainKeysExample();
    LongStringTruncated(Entry("long_text", Str(seq(100, _ => 'a'))));
  }
}
