/** Character classes, case mapping and trimming. */
module Characters {
  // The character classes and case mappings outside ASCII are those of the Unicode tables.
  const UnicodeSpace: char -> bool
  const UnicodeDigit: char -> bool
  const UnicodeLetter: char -> bool
  const UnicodeUpper: char -> char
  const UnicodeFold: char -> char

  predicate Ascii(c: char) { c < '\U{80}' }

  predicate IsSpace(c: char) {
    if Ascii(c) then c == ' ' || '\t' <= c <= '\r' else UnicodeSpace(c)
  }

  predicate IsDigit(c: char) { if Ascii(c) then '0' <= c <= '9' else UnicodeDigit(c) }

  predicate IsLetter(c: char) {
    if Ascii(c) then 'a' <= c <= 'z' || 'A' <= c <= 'Z' else UnicodeLetter(c)
  }

  predicate IdentChar(c: char) { c == '_' || IsLetter(c) || IsDigit(c) }

  function AsciiUpper(c: char): char { if 'a' <= c <= 'z' then c - 'a' + 'A' else c }

  function Upper(c: char): char { if Ascii(c) then AsciiUpper(c) else UnicodeUpper(c) }

  function Fold(c: char): char { if Ascii(c) then AsciiUpper(c) else UnicodeFold(c) }

  function ToUpper(s: string): string { seq(|s|, i requires 0 <= i < |s| => Upper(s[i])) }

  predicate EqualFold(s: string, t: string) {
    |s| == |t| && forall i | 0 <= i < |s| :: Fold(s[i]) == Fold(t[i])
  }

  const LOWER := "abcdefghijklmnopqrstuvwxyz"
  const UPPER := "ABCDEFGHIJKLMNOPQRSTUVWXYZ"

  /** The ASCII characters of each class, one by one. */
  lemma ClassesAre(c: char)
    requires c as int < 128
    ensures IsLetter(c) <==> c in LOWER || c in UPPER
    ensures IsDigit(c) <==> c in "0123456789"
    ensures IdentChar(c) <==> c in LOWER || c in UPPER || c in "0123456789_"
  {
    LettersStand();
    InRange(c, LOWER, 'a');
    InRange(c, UPPER, 'A');
    InRange(c, "0123456789", '0');
    assert c in "0123456789_" <==> c in "0123456789" || c == '_' by { assert "0123456789_" == "0123456789" + "_"; }
    hide LOWER, UPPER;
  }

  /** A run of successive characters. */
  lemma InRange(c: char, s: string, first: char)
    requires forall i | 0 <= i < |s| :: s[i] as int == first as int + i
    ensures c in s <==> first as int <= c as int < first as int + |s|
  {
    if first as int <= c as int < first as int + |s| { assert s[c as int - first as int] == c; }
  }

  /** The letters stand in order. */
  lemma LettersStand()
    ensures |LOWER| == |UPPER| == 26
    ensures forall i | 0 <= i < 26 :: LOWER[i] as int == 97 + i
    ensures forall i | 0 <= i < 26 :: UPPER[i] as int == 65 + i
  {}

  /** Upper case, letter by letter; no other ASCII character changes. */
  lemma UpperIs(c: char, i: nat)
    requires c as int < 128
    ensures i < |LOWER| == |UPPER| && c == LOWER[i] ==> Upper(c) == UPPER[i] == Fold(c)
    ensures c !in LOWER ==> Upper(c) == c == Fold(c)
  {
    LettersStand();
    hide LOWER, UPPER;
    InRange(c, LOWER, 'a');
    if 'a' <= c <= 'z' { assert AsciiUpper(c) as int == c as int - 32; }
  }

  // ---- trimming ----

  function TrimLeft(s: string): string { if s != "" && IsSpace(s[0]) then TrimLeft(s[1..]) else s }

  function TrimEnd(s: string): string { if s != "" && IsSpace(s[|s| - 1]) then TrimEnd(s[..|s| - 1]) else s }

  function TrimSpace(s: string): string { TrimEnd(TrimLeft(s)) }
}
