/**
 * Whitespace as both the `regex` crate's `\S` (Unicode mode) and
 * `str::split_whitespace` understand it: the Unicode `White_Space` property.
 */
module Whitespace {

  /** The Unicode `White_Space` code points. */
  predicate IsWhitespace(c: char) {
    ('\t' <= c <= '\r') || c == ' ' || c == '\U{0085}' || c == '\U{00A0}' || c == '\U{1680}'
    || ('\U{2000}' <= c <= '\U{200A}') || c == '\U{2028}' || c == '\U{2029}' || c == '\U{202F}'
    || c == '\U{205F}' || c == '\U{3000}'
  }

  /** No character of `s` is whitespace (what `\S+` consumes). */
  predicate NoWhitespace(s: string) {
    forall k :: 0 <= k < |s| ==> !IsWhitespace(s[k])
  }

  /** A token `split_whitespace` can yield: non-empty and free of whitespace. */
  predicate IsWord(s: string) {
    s != [] && NoWhitespace(s)
  }

  /** Length of the leading run of non-whitespace characters of `s`. */
  function WordLength(s: string): (n: nat)
    ensures n <= |s|
    ensures NoWhitespace(s[..n])
    ensures n < |s| ==> IsWhitespace(s[n])
  {
    if s == [] || IsWhitespace(s[0]) then 0 else 1 + WordLength(s[1..])
  }

  /**
   * `str::split_whitespace`: the maximal whitespace-free runs of `s`, in
   * order; leading, trailing and repeated whitespace yields no empty token.
   */
  function Tokens(s: string): (ts: seq<string>)
    ensures forall k :: 0 <= k < |ts| ==> IsWord(ts[k])
    decreases |s|
  {
    if s == [] then []
    else if IsWhitespace(s[0]) then Tokens(s[1..])
    else
      var n := WordLength(s);
      [s[..n]] + Tokens(s[n..])
  }

  /** The tokens joined by single spaces: the partner of `Tokens`. */
  function Join(ts: seq<string>): string {
    if ts == [] then []
    else if |ts| == 1 then ts[0]
    else ts[0] + " " + Join(ts[1..])
  }

  /** A string has no tokens exactly when it is all whitespace (or empty). */
  lemma {:induction false} TokensEmptyIff(s: string)
    ensures Tokens(s) == [] <==> forall k :: 0 <= k < |s| ==> IsWhitespace(s[k])
    decreases |s|
  {
    if s != [] {
      if IsWhitespace(s[0]) {
        TokensEmptyIff(s[1..]);
        if Tokens(s) == [] {
          forall k | 0 <= k < |s| ensures IsWhitespace(s[k]) {
            if k > 0 { assert s[k] == s[1..][k - 1]; }
          }
        }
      } else {
        assert Tokens(s) != [];
      }
    }
  }

  /** A word followed by whitespace or by nothing is one whole token. */
  lemma {:induction false} WordLengthOfWord(w: string, rest: string)
    requires IsWord(w)
    requires rest == [] || IsWhitespace(rest[0])
    ensures WordLength(w + rest) == |w|
    decreases |w|
  {
    if |w| > 1 {
      assert (w + rest)[1..] == w[1..] + rest;
      WordLengthOfWord(w[1..], rest);
    } else {
      assert (w + rest)[1..] == rest;
    }
  }

  /** Splitting the space-joined words gives the words back. */
  lemma {:induction false} TokensOfJoin(ts: seq<string>)
    requires forall k :: 0 <= k < |ts| ==> IsWord(ts[k])
    ensures Tokens(Join(ts)) == ts
  {
    if |ts| == 1 {
      WordLengthOfWord(ts[0], []);
      assert ts[0] + [] == ts[0];
      assert ts[0][|ts[0]|..] == [];
    } else if |ts| > 1 {
      var w, j := ts[0], Join(ts[1..]);
      var s := w + " " + j;
      assert s == w + (" " + j);
      WordLengthOfWord(w, " " + j);
      assert s[..|w|] == w;
      assert s[|w|..] == " " + j;
      assert (" " + j)[1..] == j;
      TokensOfJoin(ts[1..]);
      assert ts == [ts[0]] + ts[1..];
    }
  }

  /** Leading whitespace produces no token. */
  lemma {:induction false} TokensSkipWhitespace(gap: string, rest: string)
    requires forall k :: 0 <= k < |gap| ==> IsWhitespace(gap[k])
    ensures Tokens(gap + rest) == Tokens(rest)
  {
    if gap != [] {
      assert (gap + rest)[1..] == gap[1..] + rest;
      TokensSkipWhitespace(gap[1..], rest);
    } else {
      assert gap + rest == rest;
    }
  }

  /** A word followed by whitespace is the first token, and the rest is split on. */
  lemma TokensOfWordThen(w: string, gap: string, rest: string)
    requires IsWord(w)
    requires gap != [] && forall k :: 0 <= k < |gap| ==> IsWhitespace(gap[k])
    ensures Tokens(w + gap + rest) == [w] + Tokens(rest)
  {
    var s := w + gap + rest;
    assert s == w + (gap + rest);
    WordLengthOfWord(w, gap + rest);
    assert s[..|w|] == w;
    assert s[|w|..] == gap + rest;
    TokensSkipWhitespace(gap, rest);
  }
}
