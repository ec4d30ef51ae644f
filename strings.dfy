/** Small facts about strings used to read rendered messages back. */
module Strings {
  import opened Wrappers

  predicate StartsWith(s: string, prefix: string) {
    |prefix| <= |s| && s[..|prefix|] == prefix
  }

  predicate EndsWith(s: string, suffix: string) {
    |suffix| <= |s| && s[|s| - |suffix|..] == suffix
  }

  /** Position of the first `c` in `s`, or `|s|` when `s` has none. */
  function IndexOf(s: string, c: char): (i: nat)
    ensures i <= |s|
    ensures c !in s[..i]
    ensures i < |s| ==> s[i] == c
  {
    if s == [] then 0
    else if s[0] == c then 0
    else 1 + IndexOf(s[1..], c)
  }

  /** Splits `s` around its first `c`, if it has one. */
  function SplitAtFirst(s: string, c: char): (r: Option<(string, string)>)
    ensures r.Some? ==> c !in r.value.0 && s == r.value.0 + [c] + r.value.1
    ensures r.None? ==> c !in s
  {
    var i := IndexOf(s, c);
    if i == |s| then None
    else
      assert s == s[..i] + [c] + s[i + 1..];
      Some((s[..i], s[i + 1..]))
  }

  /** The text strictly between a known prefix and a known suffix, if `s` has both. */
  function Between(s: string, prefix: string, suffix: string): (r: Option<string>)
    ensures r.Some? <==> StartsWith(s, prefix) && EndsWith(s, suffix) && |prefix| + |suffix| <= |s|
    ensures r.Some? ==> s == prefix + r.value + suffix
  {
    if StartsWith(s, prefix) && EndsWith(s, suffix) && |prefix| + |suffix| <= |s| then
      var mid := s[|prefix|..|s| - |suffix|];
      assert s == s[..|prefix|] + mid + s[|s| - |suffix|..];
      Some(mid)
    else None
  }

  lemma StartsWithConcat(prefix: string, rest: string)
    ensures StartsWith(prefix + rest, prefix)
  {
    assert (prefix + rest)[..|prefix|] == prefix;
  }

  lemma EndsWithConcat(rest: string, suffix: string)
    ensures EndsWith(rest + suffix, suffix)
  {
    assert (rest + suffix)[|rest|..] == suffix;
  }

  lemma BetweenConcat(prefix: string, mid: string, suffix: string)
    ensures Between(prefix + mid + suffix, prefix, suffix) == Some(mid)
  {
    var s := prefix + mid + suffix;
    assert s[..|prefix|] == prefix;
    assert s[|s| - |suffix|..] == suffix;
    assert s[|prefix|..|s| - |suffix|] == mid;
  }

  /** The first `c` of `a + [c] + b` is right after `a` when `a` has none. */
  lemma {:induction false} IndexOfAfter(a: string, c: char, b: string)
    requires c !in a
    ensures IndexOf(a + [c] + b, c) == |a|
  {
    var s := a + [c] + b;
    assert s[|a|] == c;
    assert s[..|a|] == a;
  }

  lemma SplitAtFirstConcat(a: string, c: char, b: string)
    requires c !in a
    ensures SplitAtFirst(a + [c] + b, c) == Some((a, b))
  {
    var s := a + [c] + b;
    IndexOfAfter(a, c, b);
    assert s[..|a|] == a;
    assert s[|a| + 1..] == b;
  }

  /** Two prefixes that differ at position `k` cannot both start `s`. */
  lemma NotStartsWithAt(s: string, p: string, q: string, k: nat)
    requires k < |p| && k < |q| && p[k] != q[k]
    requires StartsWith(s, p)
    ensures !StartsWith(s, q)
  {
    assert s[k] == p[k];
  }

  /** Two suffixes that differ at position `k` from the end cannot both end `s`. */
  lemma NotEndsWithAt(s: string, p: string, q: string, k: nat)
    requires k < |p| && k < |q| && p[|p| - 1 - k] != q[|q| - 1 - k]
    requires EndsWith(s, p)
    ensures !EndsWith(s, q)
  {
    assert s[|s| - 1 - k] == s[|s| - |p|..][|p| - 1 - k];
  }
}
