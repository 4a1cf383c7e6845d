/** NUL-terminated strings held in buffers, and the scanning primitive behind strcspn and strchr. */
module CStrings {

  const NUL: char := '\0'

  /** How many leading elements of s lie outside stops: strcspn(s, stops). */
  function Span<T(==)>(s: seq<T>, stops: set<T>): (n: nat)
    ensures n <= |s|
    ensures forall k :: 0 <= k < n ==> s[k] !in stops
    ensures n < |s| ==> s[n] in stops
  {
    if s == [] || s[0] in stops then 0 else 1 + Span(s[1..], stops)
  }

  /** The position of the first stop is determined by what surrounds it. */
  lemma SpanIs<T>(s: seq<T>, stops: set<T>, n: nat)
    requires n <= |s|
    requires forall k :: 0 <= k < n ==> s[k] !in stops
    requires n < |s| ==> s[n] in stops
    ensures Span(s, stops) == n
  {
  }

  /** How many leading elements of s lie inside chars: strspn(s, chars). */
  function Lead<T(==)>(s: seq<T>, chars: set<T>): (n: nat)
    ensures n <= |s|
    ensures forall k :: 0 <= k < n ==> s[k] in chars
    ensures n < |s| ==> s[n] !in chars
  {
    if s == [] || s[0] !in chars then 0 else 1 + Lead(s[1..], chars)
  }

  lemma LeadIs<T>(s: seq<T>, chars: set<T>, n: nat)
    requires n <= |s|
    requires forall k :: 0 <= k < n ==> s[k] in chars
    requires n < |s| ==> s[n] !in chars
    ensures Lead(s, chars) == n
  {
  }

  predicate Terminated(b: seq<char>) {
    NUL in b
  }

  /** The C string that starts at the head of a buffer. */
  function Text(b: seq<char>): (s: string)
    ensures NUL !in s
    ensures s <= b
  {
    b[..Span(b, {NUL})]
  }

  lemma TextOf(s: string, tail: seq<char>)
    requires NUL !in s
    ensures Text(s + [NUL] + tail) == s
  {
    SpanIs(s + [NUL] + tail, {NUL}, |s|);
  }

  /** memcpy(dst + at, s, |s|): the bytes of s, and nothing else, change. */
  method Store<T>(dst: array<T>, at: nat, s: seq<T>)
    requires at + |s| <= dst.Length
    modifies dst
    ensures dst[..] == old(dst[..at]) + s + old(dst[at + |s|..])
  {
    for k := 0 to |s|
      invariant dst[at..at + k] == s[..k]
      invariant dst[..at] == old(dst[..at])
      invariant dst[at + k..] == old(dst[at + k..])
    {
      dst[at + k] := s[k];
    }
    assert dst[..] == dst[..at] + dst[at..at + |s|] + dst[at + |s|..];
  }
}
