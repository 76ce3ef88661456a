/** The normalisation of signed header values: spaces trimmed and collapsed, in place. */
module Compaction {
  import opened Order

  // ---- what it should be: the words, joined by single spaces ----

  function WordLength(s: string): (n: nat)
    ensures n <= |s| && (forall i | 0 <= i < n :: s[i] != ' ') && (n < |s| ==> s[n] == ' ')
  {
    if s == "" || s[0] == ' ' then 0
    else
      var n := WordLength(s[1..]);
      assert forall i | 0 < i <= n :: s[i] == s[1..][i - 1];
      1 + n
  }

  /** The maximal runs of other characters between spaces. */
  function Words(s: string): seq<string> {
    if s == "" then []
    else if s[0] == ' ' then Words(s[1..])
    else [s[..WordLength(s)]] + Words(s[WordLength(s)..])
  }

  function Joined(words: seq<string>): string {
    if words == [] then ""
    else if |words| == 1 then words[0]
    else words[0] + " " + Joined(words[1..])
  }

  // ---- trimming and collapsing ----

  function TrimLeft(s: string): string { if s != "" && s[0] == ' ' then TrimLeft(s[1..]) else s }

  function TrimRight(s: string): string { if s != "" && s[|s| - 1] == ' ' then TrimRight(s[..|s| - 1]) else s }

  /** Spaces right after a space dropped; `after` says that one came just before. */
  function Collapse(after: bool, s: string): string
    decreases |s|
  {
    if s == "" then ""
    else if s[0] == ' ' && after then Collapse(true, s[1..])
    else [s[0]] + Collapse(s[0] == ' ', s[1..])
  }

  function Strip(s: string): string { Collapse(false, TrimLeft(TrimRight(s))) }

  // ---- the two agree ----

  lemma {:induction false} WordCollapses(after: bool, s: string, n: nat)
    requires n <= |s| && forall i | 0 <= i < n :: s[i] != ' '
    requires n > 0
    ensures Collapse(after, s) == s[..n] + Collapse(false, s[n..])
    decreases n
  {
    if n == 1 {
      assert s[..1] == [s[0]];
    } else {
      WordCollapses(false, s[1..], n - 1);
      assert s[..n] == [s[0]] + s[1..][..n - 1] && s[n..] == s[1..][n - 1..];
    }
  }

  predicate EndsInWord(s: string) { s == "" || s[|s| - 1] != ' ' }

  lemma {:induction false} HasWords(s: string)
    requires s != "" && EndsInWord(s)
    ensures Words(s) != []
  {
    if s[0] == ' ' { HasWords(s[1..]); }
  }

  lemma {:induction false} CollapseJoins(s: string)
    requires EndsInWord(s)
    ensures Collapse(true, s) == Joined(Words(s))
    decreases |s|
  {
    if s != "" {
      if s[0] == ' ' {
        CollapseJoins(s[1..]);
      } else {
        var n := WordLength(s);
        var rest := s[n..];
        WordCollapses(true, s, n);
        if rest != "" {
          CollapseJoins(rest[1..]);
          HasWords(rest[1..]);
          assert Collapse(false, rest) == " " + Collapse(true, rest[1..]);
          assert Words(s)[1..] == Words(rest) == Words(rest[1..]);
          assert s[..n] + (" " + Joined(Words(rest))) == s[..n] + " " + Joined(Words(rest));
        } else {
          assert s[..n] == s && s + "" == s && Words("") == [] && [s] + [] == [s];
        }
      }
    }
  }

  lemma {:induction false} WordsTrimRight(s: string)
    ensures Words(TrimRight(s)) == Words(s) && EndsInWord(TrimRight(s))
  {
    if s != "" && s[|s| - 1] == ' ' {
      WordsTrimRight(s[..|s| - 1]);
      WordsThenSpace(s[..|s| - 1]);
      assert s == s[..|s| - 1] + " ";
    }
  }

  lemma {:induction false} WordsThenSpace(s: string)
    ensures Words(s + " ") == Words(s)
    decreases |s|
  {
    if s == "" {
      assert Words(" ") == Words(" "[1..]);
    } else if s[0] == ' ' {
      WordsThenSpace(s[1..]);
      assert (s + " ")[1..] == s[1..] + " ";
    } else {
      var n := WordLength(s);
      WordsThenSpace(s[n..]);
      SameWord(s, n);
      assert (s + " ")[n..] == s[n..] + " " && (s + " ")[..n] == s[..n];
    }
  }

  lemma SameWord(s: string, n: nat)
    requires n == WordLength(s)
    ensures WordLength(s + " ") == n
  {
    var t := s + " ";
    assert forall i | 0 <= i < |s| :: t[i] == s[i];
    assert t[n] == ' ';
    var m := WordLength(t);
    assert m >= n by { assert m < |t| ==> t[m] == ' '; }
  }

  lemma {:induction false} TrimLeftKeeps(s: string)
    ensures Words(TrimLeft(s)) == Words(s) && (EndsInWord(s) ==> EndsInWord(TrimLeft(s)))
    ensures TrimLeft(s) == "" || TrimLeft(s)[0] != ' '
  {
    if s != "" && s[0] == ' ' { TrimLeftKeeps(s[1..]); }
  }

  /** MEANING: stripping gives exactly the words of the text with one space between them. */
  lemma StripJoins(s: string)
    ensures Strip(s) == Joined(Words(s))
  {
    var t := TrimRight(s);
    WordsTrimRight(s);
    TrimLeftKeeps(t);
    CollapseJoins(TrimLeft(t));
    assert Collapse(false, TrimLeft(t)) == Collapse(true, TrimLeft(t));
  }

  predicate IsWord(w: string) { w != "" && ' ' !in w }

  lemma {:induction false} WordsAreWords(s: string)
    ensures forall w | w in Words(s) :: IsWord(w)
    decreases |s|
  {
    if s != "" {
      if s[0] == ' ' {
        WordsAreWords(s[1..]);
      } else {
        var n := WordLength(s);
        WordsAreWords(s[n..]);
        assert IsWord(s[..n]);
      }
    }
  }

  lemma {:induction false} WordsJoined(words: seq<string>)
    requires forall w | w in words :: IsWord(w)
    ensures Words(Joined(words)) == words
  {
    if words != [] {
      var w, s := words[0], Joined(words);
      if |words| == 1 {
        WholeWord(w, "");
        assert w + "" == w && s[|w|..] == "" && s[..|w|] == w && words == [w];
      } else {
        var rest := " " + Joined(words[1..]);
        WordsJoined(words[1..]);
        WholeWord(w, rest);
        assert s == w + rest && s[|w|..] == rest && s[..|w|] == w && rest[1..] == Joined(words[1..]);
        assert words == [w] + words[1..];
      }
    }
  }

  lemma WholeWord(w: string, rest: string)
    requires IsWord(w) && (rest == "" || rest[0] == ' ')
    ensures WordLength(w + rest) == |w|
  {
    var s := w + rest;
    assert forall i | 0 <= i < |w| :: s[i] == w[i];
    assert |w| < |s| ==> s[|w|] == ' ';
    var m := WordLength(s);
    assert m >= |w| by { assert m < |s| ==> s[m] == ' '; }
  }

  /** IDEMPOTENT: a stripped text is left as it is. */
  lemma StripTwice(s: string)
    ensures Strip(Strip(s)) == Strip(s)
  {
    StripJoins(s);
    StripJoins(Strip(s));
    WordsAreWords(s);
    WordsJoined(Words(s));
  }

  // ---- in place ----

  predicate DoubleAt(s: string, i: int) { 0 <= i && i + 1 < |s| && s[i] == ' ' && s[i + 1] == ' ' }

  lemma DoubleShift(s: string, i: int)
    requires s != "" && i >= 0
    ensures DoubleAt(s[1..], i) <==> DoubleAt(s, i + 1)
  {}

  /** Up to a place without a double space before it, nothing is dropped. */
  lemma {:induction false} NothingDropped(s: string, j: nat)
    requires j < |s| && s[j] == ' ' && forall i | 0 <= i < j :: !DoubleAt(s, i)
    ensures Collapse(false, s) == s[..j] + Collapse(false, s[j..])
    decreases j
  {
    if j > 0 {
      var t := s[1..];
      forall i | 0 <= i < j - 1 ensures !DoubleAt(t, i) { DoubleShift(s, i); }
      assert !DoubleAt(s, 0);
      NothingDropped(t, j - 1);
      assert Collapse(false, s) == [s[0]] + Collapse(false, t);
      assert s[..j] == [s[0]] + t[..j - 1] && s[j..] == t[j - 1..];
    } else {
      assert s[..0] == "" && s[0..] == s;
    }
  }

  lemma {:induction false} NoDoubles(s: string)
    requires forall i | 0 <= i < |s| :: !DoubleAt(s, i)
    ensures Collapse(false, s) == s
  {
    if s != "" {
      var t := s[1..];
      forall i | 0 <= i < |t| ensures !DoubleAt(t, i) { DoubleShift(s, i); }
      assert !DoubleAt(s, 0);
      NoDoubles(t);
      assert Collapse(s[0] == ' ', t) == Collapse(false, t);
      assert [s[0]] + t == s;
    }
  }

  /** The compaction of the buffer from its first double space on: the write index never passes the
      read index, and the kept characters end up at the front. */
  method Compact(buf: array<char>, j: nat) returns (m: nat)
    requires j < buf.Length && buf[j] == ' ' && (j > 0 ==> buf[j - 1] != ' ')
    modifies buf
    ensures m <= buf.Length && buf[..m] == old(buf[..j]) + Collapse(false, old(buf[j..]))
  {
    ghost var s := buf[..];
    var k, spaces := j, 0;
    m := j;
    assert s[j..] == buf[j..] && buf[..j] == s[..j];
    while k < buf.Length
      invariant j <= m <= k <= buf.Length
      invariant buf[k..] == s[k..]
      invariant buf[..m] + Collapse(spaces > 0, s[k..]) == s[..j] + Collapse(false, s[j..])
    {
      assert buf[k] == s[k] && s[k..][1..] == s[k + 1..];
      ghost var was := buf[..m];
      if buf[k] == ' ' {
        if spaces == 0 {
          buf[m] := buf[k];
          assert buf[..m + 1] == was + [s[k]];
          m := m + 1;
        }
        spaces := spaces + 1;
      } else {
        spaces := 0;
        buf[m] := buf[k];
        assert buf[..m + 1] == was + [s[k]];
        m := m + 1;
      }
      assert buf[k + 1..] == s[k + 1..];
      k := k + 1;
    }
    assert s[k..] == "" && buf[..m] + "" == buf[..m];
  }

  lemma OccursIsDouble(s: string, i: int)
    ensures OccursAt(s, "  ", i) <==> DoubleAt(s, i)
  {
    if 0 <= i && i + 2 <= |s| {
      var t := s[i..i + 2];
      assert t == [s[i], s[i + 1]];
    }
  }

  lemma {:induction false} TrimRightTo(s: string, n: nat)
    requires n <= |s| && (forall i | n <= i < |s| :: s[i] == ' ') && (n > 0 ==> s[n - 1] != ' ')
    ensures TrimRight(s) == s[..n]
    decreases |s|
  {
    if n < |s| {
      TrimRightTo(s[..|s| - 1], n);
      assert s[..|s| - 1][..n] == s[..n];
    } else {
      assert s[..n] == s;
    }
  }

  lemma {:induction false} TrimLeftTo(s: string, k: nat)
    requires k <= |s| && (forall i | 0 <= i < k :: s[i] == ' ') && (k < |s| ==> s[k] != ' ')
    ensures TrimLeft(s) == s[k..]
    decreases k
  {
    if k > 0 {
      TrimLeftTo(s[1..], k - 1);
      assert s[1..][k - 1..] == s[k..];
    } else {
      assert s[0..] == s;
    }
  }

  /** The two trimming loops. */
  method TrimSpaces(str: string) returns (r: string)
    ensures r == TrimLeft(TrimRight(str))
  {
    var j := |str| - 1;
    while j >= 0 && str[j] == ' '
      invariant -1 <= j < |str| && forall i | j < i < |str| :: str[i] == ' '
      decreases j
    {
      j := j - 1;
    }
    var k := 0;
    while k < j && str[k] == ' '
      invariant 0 <= k && (k <= j || k == 0) && forall i | 0 <= i < k :: str[i] == ' '
    {
      k := k + 1;
    }
    TrimRightTo(str, j + 1);
    TrimLeftTo(str[..j + 1], k);
    assert str[..j + 1][k..] == str[k..j + 1];
    r := str[k..j + 1];
  }

  /** The whole function, for every text. */
  method StripExcessSpaces(str: string) returns (r: string)
    ensures r == Strip(str)
    ensures r == Joined(Words(str))
  {
    StripJoins(str);
    var t := TrimSpaces(str);
    var j := Index(t, "  ");
    forall i ensures OccursAt(t, "  ", i) <==> DoubleAt(t, i) { OccursIsDouble(t, i); }
    if j < 0 {
      NoDoubles(t);
      return t;
    }
    assert DoubleAt(t, j) && (j > 0 ==> !DoubleAt(t, j - 1));
    NothingDropped(t, j);
    var buf := new char[|t|](i requires 0 <= i < |t| => t[i]);
    assert buf[..] == t && buf[..j] == t[..j] && buf[j..] == t[j..];
    var m := Compact(buf, j);
    r := buf[..m];
  }
}
