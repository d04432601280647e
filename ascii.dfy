/**
 * The C string conventions the game's text handling relies on: a line ends
 * at its first NUL, and tolower/toupper act on the ASCII letters only (the
 * "C" locale).
 */
module Ascii {

  /** The characters a C function sees of a line: everything before the first NUL. */
  function CString(s: string): (r: string)
    ensures r <= s
    ensures '\0' !in r
    ensures |r| < |s| ==> s[|r|] == '\0'
    ensures '\0' !in s ==> r == s
  {
    if s == [] || s[0] == '\0' then [] else [s[0]] + CString(s[1..])
  }

  predicate IsUpper(c: char) {
    'A' <= c <= 'Z'
  }

  predicate IsLower(c: char) {
    'a' <= c <= 'z'
  }

  /** tolower in the "C" locale. */
  function ToLower(c: char): (r: char)
    ensures IsUpper(c) ==> IsLower(r) && r as int == c as int + 32
    ensures !IsUpper(c) ==> r == c
  {
    if IsUpper(c) then (c as int + 32) as char else c
  }

  /** toupper in the "C" locale. */
  function ToUpper(c: char): (r: char)
    ensures IsLower(c) ==> IsUpper(r) && r as int == c as int - 32
    ensures !IsLower(c) ==> r == c
  {
    if IsLower(c) then (c as int - 32) as char else c
  }

  /**
   * A token after the lowering loop of parseCommand: tolower applied to
   * every character. No upper-case letter is left, every upper-case letter
   * becomes its lower-case partner, and every other character stays.
   */
  function Lower(s: string): (r: string)
    ensures |r| == |s|
    ensures forall i :: 0 <= i < |r| ==> !IsUpper(r[i])
    ensures forall i :: 0 <= i < |s| && IsUpper(s[i]) ==> IsLower(r[i]) && r[i] as int == s[i] as int + 32
    ensures forall i :: 0 <= i < |s| && !IsUpper(s[i]) ==> r[i] == s[i]
  {
    seq(|s|, i requires 0 <= i < |s| => ToLower(s[i]))
  }

  /** Lowering twice changes nothing more: a lowered token has no upper-case letter left. */
  lemma LowerIsIdempotent(s: string)
    ensures Lower(Lower(s)) == Lower(s)
  {
  }

  /**
   * The loop parseCommand runs over a token: `token[i] = tolower(token[i])`
   * for every character up to the terminating NUL.
   */
  method LowerInPlace(token: array<char>)
    modifies token
    ensures token[..] == Lower(old(token[..]))
  {
    var i := 0;
    while i < token.Length
      invariant 0 <= i <= token.Length
      invariant token[..i] == Lower(old(token[..]))[..i]
      invariant token[i..] == old(token[..])[i..]
    {
      token[i] := ToLower(token[i]);
      i := i + 1;
    }
  }
}
