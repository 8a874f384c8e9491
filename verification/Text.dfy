/** The string operations that several components share. */
module Text {
  function LowerChar(c: char): char {
    if 'A' <= c <= 'Z' then (c as int + 32) as char else c
  }

  /** `to_ascii_lowercase`. */
  function Lower(s: string): string {
    seq(|s|, i requires 0 <= i < |s| => LowerChar(s[i]))
  }

  predicate IsSpace(c: char) {
    c == ' ' || '\t' <= c <= '\r'
  }

  predicate IsQuote(c: char) {
    c == '"'
  }

  predicate IsSlash(c: char) {
    c == '/'
  }

  function TrimStart(s: string, drop: char -> bool): string {
    if s != [] && drop(s[0]) then TrimStart(s[1..], drop) else s
  }

  function TrimEnd(s: string, drop: char -> bool): string {
    if s != [] && drop(s[|s| - 1]) then TrimEnd(s[..|s| - 1], drop) else s
  }

  /** `trim_matches`. */
  function Trim(s: string, drop: char -> bool): string {
    TrimEnd(TrimStart(s, drop), drop)
  }

  lemma TrimStartSpace(s: string)
    ensures TrimStart(" " + s, IsSpace) == TrimStart(s, IsSpace)
  {
    assert (" " + s)[1..] == s;
  }

  lemma TrimmedIsFixed(s: string, drop: char -> bool)
    requires s == [] || (!drop(s[0]) && !drop(s[|s| - 1]))
    ensures Trim(s, drop) == s
  {
  }

  lemma {:induction false} TrimStartEnds(s: string, drop: char -> bool)
    ensures var t := TrimStart(s, drop); t == [] || !drop(t[0])
  {
    if s != [] && drop(s[0]) {
      TrimStartEnds(s[1..], drop);
    }
  }

  lemma {:induction false} TrimEndEnds(s: string, drop: char -> bool)
    ensures var t := TrimEnd(s, drop); t <= s && (t == [] || !drop(t[|t| - 1]))
  {
    if s != [] && drop(s[|s| - 1]) {
      TrimEndEnds(s[..|s| - 1], drop);
    }
  }

  /** A trimmed text neither starts nor ends with a dropped character. */
  lemma TrimmedEnds(s: string, drop: char -> bool)
    ensures var t := Trim(s, drop); t == [] || (!drop(t[0]) && !drop(t[|t| - 1]))
  {
    TrimStartEnds(s, drop);
    TrimEndEnds(TrimStart(s, drop), drop);
  }
}
