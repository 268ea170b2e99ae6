/**
 * JavaScript's `String.prototype.trim`, which the sign-in and upload forms
 * apply to every text field before using it.
 */
module Text {

  /** The characters `trim` removes: ECMAScript WhiteSpace and LineTerminator code points. */
  predicate IsWhite(c: char)
    ensures ' ' <= c <= '~' ==> (IsWhite(c) <==> c == ' ')
    ensures c == '\t' || c == '\n' || c == '\r' ==> IsWhite(c)
  {
    || c == '\t' || c == '\n' || c == '\U{000B}' || c == '\U{000C}' || c == '\r' || c == ' '
    || c == '\U{00A0}' || c == '\U{1680}' || ('\U{2000}' <= c <= '\U{200A}')
    || c == '\U{2028}' || c == '\U{2029}' || c == '\U{202F}' || c == '\U{205F}'
    || c == '\U{3000}' || c == '\U{FEFF}'
  }

  predicate AllWhite(s: string) {
    forall i :: 0 <= i < |s| ==> IsWhite(s[i])
  }

  /** Number of white characters at the front of `s`. */
  function LeadingWhite(s: string): (k: nat)
    ensures k <= |s|
    ensures AllWhite(s[..k])
    ensures k < |s| ==> !IsWhite(s[k])
  {
    if s != [] && IsWhite(s[0]) then 1 + LeadingWhite(s[1..]) else 0
  }

  /** Number of white characters at the end of `s`. */
  function TrailingWhite(s: string): (k: nat)
    ensures k <= |s|
    ensures AllWhite(s[|s| - k..])
    ensures k < |s| ==> !IsWhite(s[|s| - 1 - k])
  {
    if s != [] && IsWhite(s[|s| - 1]) then 1 + TrailingWhite(s[..|s| - 1]) else 0
  }

  /**
   * `s.trim()`: the slice of `s` between its leading and its trailing run of
   * white characters. Only white characters are cut, and what is left
   * neither starts nor ends with one.
   */
  function Trim(s: string): (r: string)
    ensures r == [] <==> AllWhite(s)
    ensures r != [] ==> !IsWhite(r[0]) && !IsWhite(r[|r| - 1])
    ensures LeadingWhite(s) + |r| <= |s|
    ensures r == s[LeadingWhite(s)..LeadingWhite(s) + |r|]
    ensures AllWhite(s[LeadingWhite(s) + |r|..])
  {
    var a := LeadingWhite(s);
    if a == |s| then
      assert s[..a] == s;
      []
    else
      s[a..|s| - TrailingWhite(s)]
  }

  /** Trimming twice is trimming once. */
  lemma TrimIdempotent(s: string)
    ensures Trim(Trim(s)) == Trim(s)
  {
    var r := Trim(s);
    if r != [] {
      assert LeadingWhite(r) == 0;
      assert TrailingWhite(r) == 0;
    }
  }

  /** A string with no white character at either end is left as it is. */
  lemma TrimKeepsClean(s: string)
    requires s == [] || (!IsWhite(s[0]) && !IsWhite(s[|s| - 1]))
    ensures Trim(s) == s
  {
    if s != [] {
      assert LeadingWhite(s) == 0;
      assert TrailingWhite(s) == 0;
    }
  }
}
