/**
 * The part of JavaScript's `String.prototype.trim` the components rely on:
 * `!input.trim()` holds exactly when the input is empty or made only of
 * white space and line terminators.
 */
module Text {

  /** ECMAScript WhiteSpace and LineTerminator code points, which `trim` strips. */
  predicate IsJsSpace(c: char) {
    c in {'\t', '\n', '\U{B}', '\U{C}', '\r', ' ', '\U{A0}', '\U{1680}',
          '\U{2000}', '\U{2001}', '\U{2002}', '\U{2003}', '\U{2004}', '\U{2005}',
          '\U{2006}', '\U{2007}', '\U{2008}', '\U{2009}', '\U{200A}',
          '\U{2028}', '\U{2029}', '\U{202F}', '\U{205F}', '\U{3000}', '\U{FEFF}'}
  }

  /** Every character is white space (vacuously true of the empty string). */
  predicate IsBlank(s: string) {
    forall i :: 0 <= i < |s| ==> IsJsSpace(s[i])
  }

  /** Strips leading white space: the result is a suffix of `s` that starts with a non-space. */
  function TrimStart(s: string): (r: string)
    ensures |r| <= |s| && r == s[|s| - |r|..]
    ensures IsBlank(s[..|s| - |r|])
    ensures r == [] || !IsJsSpace(r[0])
  {
    if s == [] || !IsJsSpace(s[0]) then s else TrimStart(s[1..])
  }

  /** Strips trailing white space: the result is a prefix of `s` that ends with a non-space. */
  function TrimEnd(s: string): (r: string)
    ensures |r| <= |s| && r == s[..|r|]
    ensures IsBlank(s[|r|..])
    ensures r == [] || !IsJsSpace(r[|r| - 1])
  {
    if s == [] || !IsJsSpace(s[|s| - 1]) then s else TrimEnd(s[..|s| - 1])
  }

  /** `s.trim()`. */
  function Trim(s: string): string {
    TrimEnd(TrimStart(s))
  }

  /** `s.trim()` is the empty (falsy) string exactly when `s` is blank. */
  lemma TrimEmptyIffBlank(s: string)
    ensures Trim(s) == [] <==> IsBlank(s)
  {
  }

  /** Evaluates `!s.trim()`. */
  method TrimsToEmpty(s: string) returns (empty: bool)
    ensures empty <==> IsBlank(s)
  {
    TrimEmptyIffBlank(s);
    empty := Trim(s) == [];
  }
}
