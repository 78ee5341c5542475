/**
 * Player-name normalisation of addPlayer: `value.trim().toUpperCase()`.
 * Trim strips the JavaScript white-space and line-terminator characters at
 * both ends; upper-casing is modelled on the ASCII letters only.
 */
module Names {

  /** The characters String.prototype.trim removes: WhiteSpace and
      LineTerminator of ECMAScript (tab, line tab, form feed, space, no-break
      space, byte order mark, the Zs category, LF, CR, LS, PS). */
  predicate IsJsSpace(c: char)
  {
    c == '\t' || c == '\n' || c == '\U{000B}' || c == '\U{000C}' || c == '\r'
    || c == ' ' || c == '\U{00A0}' || c == '\U{1680}'
    || ('\U{2000}' <= c <= '\U{200A}')
    || c == '\U{2028}' || c == '\U{2029}' || c == '\U{202F}' || c == '\U{205F}'
    || c == '\U{3000}' || c == '\U{FEFF}'
  }

  /** Drops the leading white space: what is left is a suffix of s that is
      empty or starts with a non-space, and everything dropped is space. */
  function TrimStart(s: string): (r: string)
    ensures |r| <= |s| && r == s[|s| - |r|..]
    ensures forall i :: 0 <= i < |s| - |r| ==> IsJsSpace(s[i])
    ensures r == [] || !IsJsSpace(r[0])
  {
    if s == [] || !IsJsSpace(s[0]) then s else TrimStart(s[1..])
  }

  /** Drops the trailing white space: what is left is a prefix of s that is
      empty or ends with a non-space, and everything dropped is space. */
  function TrimEnd(s: string): (r: string)
    ensures |r| <= |s| && r == s[..|r|]
    ensures forall i :: |r| <= i < |s| ==> IsJsSpace(s[i])
    ensures r == [] || !IsJsSpace(r[|r| - 1])
  {
    if s == [] || !IsJsSpace(s[|s| - 1]) then s else TrimEnd(s[..|s| - 1])
  }

  /** `String.prototype.trim`. */
  function Trim(s: string): string
  {
    TrimEnd(TrimStart(s))
  }

  /** `toUpperCase` on one character, ASCII letters only. */
  function UpperChar(c: char): char
  {
    if 'a' <= c <= 'z' then (c as int - 32) as char else c
  }

  /** `toUpperCase`, ASCII letters only. */
  function Upper(s: string): (r: string)
    ensures |r| == |s|
    ensures forall i :: 0 <= i < |s| ==> r[i] == UpperChar(s[i])
  {
    if s == [] then [] else [UpperChar(s[0])] + Upper(s[1..])
  }

  /** The name addPlayer stores: trimmed, then upper-cased. */
  function Normalize(s: string): string
  {
    Upper(Trim(s))
  }

  /** A normalised name: no surrounding space and no lower-case ASCII letter. */
  predicate IsNormal(s: string)
  {
    (s == [] || (!IsJsSpace(s[0]) && !IsJsSpace(s[|s| - 1])))
    && forall i :: 0 <= i < |s| ==> !('a' <= s[i] <= 'z')
  }

  /** Upper-casing neither creates nor removes white space. */
  lemma UpperCharKeepsSpace(c: char)
    ensures IsJsSpace(UpperChar(c)) <==> IsJsSpace(c)
  {
  }

  /** A trimmed string keeps both of its ends. */
  lemma TrimEnds(s: string)
    ensures var t := Trim(s); t == [] || (!IsJsSpace(t[0]) && !IsJsSpace(t[|t| - 1]))
  {
    var u := TrimStart(s);
    var t := TrimEnd(u);
    if t != [] {
      assert t[0] == u[0];
    }
  }

  /** Every name addPlayer produces is normal. */
  lemma NormalizeIsNormal(s: string)
    ensures IsNormal(Normalize(s))
  {
    var t := Trim(s);
    var r := Upper(t);
    TrimEnds(s);
    if r != [] {
      UpperCharKeepsSpace(t[0]);
      UpperCharKeepsSpace(t[|t| - 1]);
    }
  }

  /** Normalising a normal name changes nothing. */
  lemma NormalFixed(s: string)
    requires IsNormal(s)
    ensures Normalize(s) == s
  {
    assert TrimStart(s) == s;
    assert TrimEnd(s) == s;
    assert Upper(s) == s;
  }

  /** Normalisation is idempotent: a stored name normalises to itself. */
  lemma NormalizeIdempotent(s: string)
    ensures Normalize(Normalize(s)) == Normalize(s)
  {
    NormalizeIsNormal(s);
    NormalFixed(Normalize(s));
  }

  /** The `if (name && ...)` test fails exactly on blank input: the
      normalised name is empty iff the raw text is all white space. */
  lemma NormalizeBlank(s: string)
    ensures Normalize(s) == [] <==> forall i :: 0 <= i < |s| ==> IsJsSpace(s[i])
  {
    var u := TrimStart(s);
    if u != [] {
      assert !IsJsSpace(s[|s| - |u|]);
      assert TrimEnd(u) != [] by {
        assert !IsJsSpace(u[0]);
      }
    }
  }
}
