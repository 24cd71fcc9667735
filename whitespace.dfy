/**
 * Blankness of request parameters: the whitespace set of Go's unicode.IsSpace,
 * the trimming done by strings.TrimSpace, and the service's validstring
 * predicate built on it. Strings are sequences of runes (Unicode scalar values).
 */
module Whitespace {

  /** Go's unicode.IsSpace: the Latin-1 spaces plus the Unicode White_Space property. */
  predicate IsSpace(c: char) {
    || c == '\t' || c == '\n' || c == '\U{0B}' || c == '\U{0C}' || c == '\r' || c == ' '
    || c == '\U{85}' || c == '\U{A0}' || c == '\U{1680}'
    || ('\U{2000}' <= c <= '\U{200A}')
    || c == '\U{2028}' || c == '\U{2029}' || c == '\U{202F}' || c == '\U{205F}' || c == '\U{3000}'
  }

  /** Drops the leading whitespace: what is left is a suffix that does not start with a space. */
  function TrimLeft(s: string): (r: string)
    ensures |r| <= |s| && r == s[|s| - |r|..]
    ensures forall k | 0 <= k < |s| - |r| :: IsSpace(s[k])
    ensures r != [] ==> !IsSpace(r[0])
  {
    if s != [] && IsSpace(s[0]) then TrimLeft(s[1..]) else s
  }

  /** Drops the trailing whitespace: what is left is a prefix that does not end with a space. */
  function TrimRight(s: string): (r: string)
    ensures |r| <= |s| && r == s[..|r|]
    ensures forall k | |r| <= k < |s| :: IsSpace(s[k])
    ensures r != [] ==> !IsSpace(r[|r| - 1])
  {
    if s != [] && IsSpace(s[|s| - 1]) then TrimRight(s[..|s| - 1]) else s
  }

  /** strings.TrimSpace: the input without its leading and trailing whitespace. */
  function TrimSpace(s: string): (r: string)
    ensures |r| <= |s|
    ensures r != [] ==> !IsSpace(r[0]) && !IsSpace(r[|r| - 1])
    ensures r == [] <==> forall k | 0 <= k < |s| :: IsSpace(s[k])
  {
    TrimRight(TrimLeft(s))
  }

  /** Trimming twice trims nothing more. */
  lemma TrimSpaceIdempotent(s: string)
    ensures TrimSpace(TrimSpace(s)) == TrimSpace(s)
  {
    var r := TrimSpace(s);
    assert TrimLeft(r) == r;
    assert TrimRight(r) == r;
  }

  /** The trimmed string is the piece of the input between its leading and trailing whitespace. */
  lemma TrimSpaceIsInfix(s: string) returns (i: nat)
    ensures i + |TrimSpace(s)| <= |s| && TrimSpace(s) == s[i..i + |TrimSpace(s)|]
    ensures forall k | 0 <= k < i :: IsSpace(s[k])
    ensures forall k | i + |TrimSpace(s)| <= k < |s| :: IsSpace(s[k])
  {
    var t := TrimLeft(s);
    i := |s| - |t|;
    var r := TrimRight(t);
    assert TrimSpace(s) == r;
    assert r == s[i..i + |r|] by {
      assert t == s[i..];
      assert r == t[..|r|];
    }
    forall k | i + |r| <= k < |s| ensures IsSpace(s[k]) {
      assert s[k] == t[k - i];
    }
  }

  /** validstring: a parameter is valid iff it still has a character once trimmed. */
  predicate ValidString(s: string): (b: bool)
    ensures b <==> exists k | 0 <= k < |s| :: !IsSpace(s[k])
  {
    |TrimSpace(s)| > 0
  }
}
