/**
 * The cache of the search view is a JavaScript object keyed by the
 * string `${query}-${page}`. This module models that encoding, its
 * decoding at the last '-', and proves that for non-negative pages two
 * different (query, page) pairs never produce the same key, so the
 * string-keyed cache behaves as a map from pairs.
 */
module CacheKey {
  import opened Wrappers
  import opened Text

  /** The template literal `${query}-${page}`. */
  function Key(query: string, page: int): string
  {
    query + "-" + NumberString(page)
  }

  /** The key starts with the query and a '-'; for a non-negative page only digits follow. */
  lemma KeyShape(query: string, page: int)
    ensures var k := Key(query, page);
      |k| >= |query| + 2 && k[..|query|] == query && k[|query|] == '-'
      && (page >= 0 ==> AllDigits(k[|query| + 1..]))
  {
    var k := Key(query, page);
    assert k[|query| + 1..] == NumberString(page);
  }

  /** The position of the last occurrence of `c` in `s`, if any. */
  function LastIndexOf(s: string, c: char): (r: Option<nat>)
    ensures r.Some? ==> r.value < |s| && s[r.value] == c
                        && forall j | r.value < j < |s| :: s[j] != c
    ensures r.None? ==> forall j | 0 <= j < |s| :: s[j] != c
  {
    if s == [] then None
    else if s[|s| - 1] == c then Some(|s| - 1)
    else LastIndexOf(s[..|s| - 1], c)
  }

  /** Splits a key at its last '-' into the query and the page, accepting only a canonical decimal page. */
  function ParseKey(k: string): (r: Option<(string, nat)>)
    ensures r.Some? ==> Key(r.value.0, r.value.1) == k
  {
    match LastIndexOf(k, '-')
    case None => None
    case Some(i) =>
      var digits := k[i + 1..];
      if AllDigits(digits) && NumberString(ParseDecimal(digits)) == digits then
        assert k == k[..i] + "-" + digits;
        Some((k[..i], ParseDecimal(digits)))
      else None
  }

  /** Decoding a key at its last '-' gives back the query and the page. */
  lemma ParseKeyOfKey(query: string, page: nat)
    ensures ParseKey(Key(query, page)) == Some((query, page))
  {
    var k := Key(query, page);
    var digits := NumberString(page);
    assert k == query + "-" + digits;
    assert k[|query| + 1..] == digits;
    KeyShape(query, page);
    var r := LastIndexOf(k, '-');
    assert forall j | |query| < j < |k| :: k[j] == digits[j - |query| - 1];
    assert r == Some(|query|);
    NumberStringRoundTrip(page);
  }

  /** Distinct (query, page) pairs with non-negative pages never share a cache entry. */
  lemma KeyInjective(q1: string, p1: int, q2: string, p2: int)
    requires p1 >= 0 && p2 >= 0
    requires Key(q1, p1) == Key(q2, p2)
    ensures q1 == q2 && p1 == p2
  {
    ParseKeyOfKey(q1, p1);
    ParseKeyOfKey(q2, p2);
  }

  /** For a negative page the encoding is ambiguous: ("a", -1) and ("a-", 1) share the key "a--1". */
  lemma NegativePageKeysCollide()
    ensures Key("a", -1) == Key("a-", 1) == "a--1"
  {
  }
}
