/**
  The card title made from a repository name:
  `name.replace(/-/g, ' ').replace(/\b\w/g, l => l.toUpperCase())`.
  The regular expressions carry no `u` flag, so `\w` is the ASCII class
  `[A-Za-z0-9_]` and every other character, including every non-ASCII one,
  is a non-word character.
 */
module DisplayName {

  /** A character of the regular-expression class `\w`. */
  predicate IsWordChar(c: char) {
    'A' <= c <= 'Z' || 'a' <= c <= 'z' || '0' <= c <= '9' || c == '_'
  }

  /**
    `toUpperCase` on a word character: only `a` to `z` change, each to the
    capital letter at the same place in the alphabet.
   */
  function ToUpper(c: char): (u: char)
    ensures IsWordChar(u) <==> IsWordChar(c)
    ensures !('a' <= u <= 'z')
    ensures u != c <==> 'a' <= c <= 'z'
    ensures 'a' <= c <= 'z' ==> 'A' <= u <= 'Z' && u as int - 'A' as int == c as int - 'a' as int
  {
    if 'a' <= c <= 'z' then (c as int - 32) as char else c
  }

  /** Position `i` of `s` matches `\b\w`: a word character at the start or after a non-word character. */
  predicate StartsWord(s: string, i: int)
    requires 0 <= i < |s|
  {
    IsWordChar(s[i]) && (i == 0 || !IsWordChar(s[i - 1]))
  }

  /** `replace(/-/g, ' ')`: every hyphen becomes a space, every other character stays. */
  function DashesToSpaces(s: string): (r: string)
    ensures |r| == |s|
    ensures forall i :: 0 <= i < |s| ==> r[i] == if s[i] == '-' then ' ' else s[i]
  {
    if s == [] then [] else [if s[0] == '-' then ' ' else s[0]] + DashesToSpaces(s[1..])
  }

  /**
    The left-to-right scan of `replace(/\b\w/g, upper)`: `afterWord` says whether
    the character before `s` was a word character. Each match is one character,
    and the boundary test looks at the original text, so the scan carries only
    whether the previous character was a word character.
   */
  function CapitalizeFrom(s: string, afterWord: bool): (r: string)
    ensures |r| == |s|
    ensures s != [] ==> r[0] == if IsWordChar(s[0]) && !afterWord then ToUpper(s[0]) else s[0]
    ensures forall i :: 1 <= i < |s| ==> r[i] == if StartsWord(s, i) then ToUpper(s[i]) else s[i]
  {
    if s == [] then []
    else
      var rest := CapitalizeFrom(s[1..], IsWordChar(s[0]));
      assert forall j :: 1 <= j < |s| - 1 ==> s[1..][j] == s[j + 1] && s[1..][j - 1] == s[j];
      [if IsWordChar(s[0]) && !afterWord then ToUpper(s[0]) else s[0]] + rest
  }

  /** `replace(/\b\w/g, l => l.toUpperCase())`: upper-cases the first character of every word. */
  function Capitalize(s: string): (r: string)
    ensures |r| == |s|
    ensures forall i :: 0 <= i < |s| ==> r[i] == if StartsWord(s, i) then ToUpper(s[i]) else s[i]
  {
    CapitalizeFrom(s, false)
  }

  /**
    The displayed name. It is as long as the name and holds no hyphen; each
    hyphen became a space; a character is upper-cased exactly when it begins a
    word of the original name (hyphens count as non-word characters there, just
    as the spaces that replace them do); every other character is unchanged.
   */
  function PrettyName(name: string): (r: string)
    ensures |r| == |name|
    ensures '-' !in r
    ensures forall i :: 0 <= i < |name| ==>
      r[i] == if name[i] == '-' then ' ' else if StartsWord(name, i) then ToUpper(name[i]) else name[i]
  {
    var spaced := DashesToSpaces(name);
    assert forall i :: 0 <= i < |name| ==> (StartsWord(spaced, i) <==> StartsWord(name, i));
    Capitalize(spaced)
  }

  /** Prettifying a displayed name again leaves it as it is. */
  lemma PrettyNameIdempotent(name: string)
    ensures PrettyName(PrettyName(name)) == PrettyName(name)
  {
  }
}
