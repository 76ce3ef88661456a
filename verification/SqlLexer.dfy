/** The lexer: one scan over the characters, and its inverse. */
module SqlLexer {
  import opened Types
  import opened Sql
  import opened Characters

  datatype Scan = Blank | Found(token: Token, length: nat) | Bad

  /** The text of a string literal after its opening quote, and how many characters it takes up to and
      including the closing one. */
  function StringBody(s: string): (r: Option<(string, nat)>)
    ensures r.Some? ==> 1 <= r.value.1 <= |s|
  {
    if s == "" then None
    else if s[0] == '\'' then
      if |s| > 1 && s[1] == '\'' then Ahead("'", 2, StringBody(s[2..])) else Some(("", 1))
    else Ahead([s[0]], 1, StringBody(s[1..]))
  }

  function Ahead(text: string, n: nat, r: Option<(string, nat)>): Option<(string, nat)> {
    match r case None => None case Some((t, m)) => Some((text + t, n + m))
  }

  /** How many characters at the start are digits, and how many belong to an identifier. */
  function Digits(s: string): (n: nat)
    ensures n <= |s|
  {
    if s == "" || !IsDigit(s[0]) then 0 else 1 + Digits(s[1..])
  }

  function IdentLength(s: string): (n: nat)
    ensures n <= |s|
  {
    if s == "" || !IdentChar(s[0]) then 0 else 1 + IdentLength(s[1..])
  }

  /** The length of an unsigned number: digits and an optional fraction. */
  function Unsigned(s: string): (n: nat)
    ensures n <= |s|
  {
    var d := Digits(s);
    if d < |s| && s[d] == '.' then d + 1 + Digits(s[d + 1..]) else d
  }

  function FoundNumber(s: string, n: nat): Scan
    requires n <= |s|
  {
    Found(Number(s[..n]), n)
  }

  predicate Starts(s: string, c: char) { s != "" && s[0] == c }

  /** One lexical step at the start of a text. */
  function ScanAt(s: string): (r: Scan)
    requires s != ""
    ensures r.Found? ==> 1 <= r.length <= |s|
  {
    var c := s[0];
    if IsSpace(c) then Blank
    else if c == '\'' then
      match StringBody(s[1..]) case None => Bad case Some((text, n)) => Found(Str(text), 1 + n)
    else if c == '(' then Found(LParen, 1)
    else if c == ')' then Found(RParen, 1)
    else if c == ',' then Found(Comma, 1)
    else if c == '.' then Found(Dot, 1)
    else if c == '*' then Found(Star, 1)
    else if c == '[' then Found(LBracket, 1)
    else if c == ']' then Found(RBracket, 1)
    else if c == '=' then Found(Op("="), 1)
    else if c == '<' then
      if Starts(s[1..], '>') then Found(Op("<>"), 2)
      else if Starts(s[1..], '=') then Found(Op("<="), 2)
      else Found(Op("<"), 1)
    else if c == '>' then
      if Starts(s[1..], '=') then Found(Op(">="), 2) else Found(Op(">"), 1)
    else if c == '!' then
      if Starts(s[1..], '=') then Found(Op("!="), 2) else Bad
    else if c == '-' then
      if |s| < 2 || !IsDigit(s[1]) then Bad else FoundNumber(s, 1 + Unsigned(s[1..]))
    else if IsDigit(c) then FoundNumber(s, Unsigned(s))
    else if c == '_' || IsLetter(c) then Found(Ident(s[..IdentLength(s)]), IdentLength(s))
    else Bad
  }

  function Prepend(ts: seq<Token>, r: Option<seq<Token>>): Option<seq<Token>> {
    match r case None => None case Some(more) => Some(ts + more)
  }

  /** The tokens of a text, the end marker last, or no tokens for a text with a lexical error. */
  function Lex(s: string): Option<seq<Token>> {
    if s == "" then Some([EOF])
    else
      match ScanAt(s)
      case Blank => Lex(s[1..])
      case Bad => None
      case Found(t, n) => Prepend([t], Lex(s[n..]))
  }

  // ---- which tokens a text can contain ----

  predicate IdentText(s: string) {
    && s != "" && !IsSpace(s[0]) && !IsDigit(s[0])
    && forall c | c in s :: IdentChar(c)
  }

  predicate NumberText(s: string) {
    var u := if Starts(s, '-') then s[1..] else s;
    u != "" && IsDigit(u[0]) && (u == s ==> !IsSpace(u[0])) && Unsigned(u) == |u|
  }

  predicate Lexical(t: Token) {
    match t
    case EOF => false
    case Ident(s) => IdentText(s)
    case Number(s) => NumberText(s)
    case Op(s) => s in OPS
    case _ => true
  }

  lemma {:induction false} IdentLengthSpan(s: string)
    ensures forall c | c in s[..IdentLength(s)] :: IdentChar(c)
  {
    if s != "" && IdentChar(s[0]) {
      IdentLengthSpan(s[1..]);
      assert s[..IdentLength(s)] == [s[0]] + s[1..][..IdentLength(s[1..])];
    }
  }

  lemma {:induction false} DigitsCut(s: string, m: nat)
    requires Digits(s) <= m <= |s|
    ensures Digits(s[..m]) == Digits(s)
  {
    if s != "" && IsDigit(s[0]) {
      DigitsCut(s[1..], m - 1);
      assert s[..m][1..] == s[1..][..m - 1];
    }
  }

  lemma UnsignedCut(s: string)
    ensures Unsigned(s[..Unsigned(s)]) == Unsigned(s)
  {
    var n, d := Unsigned(s), Digits(s);
    DigitsCut(s, n);
    if n != d {
      DigitsCut(s[d + 1..], n - d - 1);
      assert s[..n][d + 1..] == s[d + 1..][..n - d - 1];
    }
  }

  /** Every token a scan finds is lexical. */
  lemma ScanLexical(s: string)
    requires s != "" && ScanAt(s).Found?
    ensures Lexical(ScanAt(s).token)
  {
    var c, n := s[0], ScanAt(s).length;
    if ScanAt(s).token.Ident? {
      IdentLengthSpan(s);
    } else if ScanAt(s).token.Number? {
      if c == '-' {
        UnsignedCut(s[1..]);
        assert s[..n][1..] == s[1..][..n - 1];
      } else {
        UnsignedCut(s);
      }
    }
  }

  predicate AllLexical(ts: seq<Token>) { forall t | t in ts :: t == EOF || Lexical(t) }

  /** What the lexer returns ends with the end marker and holds lexical tokens only. */
  lemma {:induction false} LexedStream(s: string)
    requires Lex(s).Some?
    ensures Stream(Lex(s).value) && AllLexical(Lex(s).value)
    ensures forall i | 0 <= i < |Lex(s).value| - 1 :: Lexical(Lex(s).value[i])
    decreases |s|
  {
    if s != "" {
      match ScanAt(s)
      case Blank => LexedStream(s[1..]);
      case Found(t, n) => LexedStream(s[n..]); ScanLexical(s);
    }
  }

  // ---- spelling tokens ----

  /** A string with every quote doubled. */
  function Escaped(s: string): string {
    if s == "" then "" else (if s[0] == '\'' then "''" else [s[0]]) + Escaped(s[1..])
  }

  function Spelling(t: Token): string {
    match t
    case EOF => ""
    case Ident(s) => s
    case Str(s) => "'" + Escaped(s) + "'"
    case Number(s) => s
    case Op(s) => s
    case LParen => "("
    case RParen => ")"
    case Comma => ","
    case Dot => "."
    case Star => "*"
    case LBracket => "["
    case RBracket => "]"
  }

  /** A token list spelled out, a space after each token. */
  function Spell(ts: seq<Token>): string {
    if |ts| <= 1 then "" else Spelling(ts[0]) + " " + Spell(ts[1..])
  }

  lemma {:induction false} BodyBack(s: string, more: string)
    requires !Starts(more, '\'')
    ensures StringBody(Escaped(s) + "'" + more) == Some((s, |Escaped(s)| + 1))
  {
    var all := Escaped(s) + "'" + more;
    if s == "" {
      assert all == "'" + more && (|all| > 1 ==> all[1] == more[0]);
    } else {
      BodyBack(s[1..], more);
      var n := if s[0] == '\'' then 2 else 1;
      assert all[n..] == Escaped(s[1..]) + "'" + more;
      assert [s[0]] + s[1..] == s;
    }
  }

  lemma {:induction false} DigitsBack(s: string, more: string)
    requires Digits(s) < |s| || more == "" || !IsDigit(more[0])
    ensures Digits(s + more) == Digits(s)
  {
    if s != "" && IsDigit(s[0]) {
      DigitsBack(s[1..], more);
      assert (s + more)[1..] == s[1..] + more;
    } else if s == "" {
      assert s + more == more;
    }
  }

  lemma UnsignedBack(s: string, more: string)
    requires Unsigned(s) == |s|
    ensures Unsigned(s + " " + more) == |s|
  {
    var all, d := s + " " + more, Digits(s);
    assert all == s + (" " + more);
    DigitsBack(s, " " + more);
    if d < |s| {
      assert all[d + 1..] == s[d + 1..] + (" " + more);
      DigitsBack(s[d + 1..], " " + more);
    }
  }

  lemma {:induction false} IdentBack(s: string, more: string)
    requires forall c | c in s :: IdentChar(c)
    ensures IdentLength(s + " " + more) == |s|
  {
    if s != "" {
      IdentBack(s[1..], more);
      assert (s + " " + more)[1..] == s[1..] + " " + more;
    }
  }

  lemma StringBack(text: string, more: string)
    ensures var s := Spelling(Str(text)) + " " + more;
      ScanAt(s) == Found(Str(text), |Spelling(Str(text))|)
  {
    var s := Spelling(Str(text)) + " " + more;
    assert s[1..] == Escaped(text) + "'" + (" " + more);
    BodyBack(text, " " + more);
  }

  lemma NumberBack(text: string, more: string)
    requires NumberText(text)
    ensures ScanAt(text + " " + more) == Found(Number(text), |text|)
  {
    var s := text + " " + more;
    assert s[..|text|] == text && s[0] == text[0];
    if text[0] == '-' {
      UnsignedBack(text[1..], more);
      assert s[1..] == text[1..] + " " + more && s[1] == text[1];
    } else {
      UnsignedBack(text, more);
    }
    hide Unsigned, StringBody, IdentLength;
  }

  /** A spelled token scans back to itself. */
  lemma ScanBack(t: Token, more: string)
    requires Lexical(t)
    ensures Spelling(t) != "" && ScanAt(Spelling(t) + " " + more) == Found(t, |Spelling(t)|)
  {
    var s := Spelling(t) + " " + more;
    match t
    case Str(text) => StringBack(text, more);
    case Number(text) => NumberBack(text, more);
    case Ident(text) =>
      IdentBack(text, more);
      assert s[..|text|] == text;
    case Op(text) =>
      OpBack(text, more);
    case _ =>
  }

  lemma OpBack(text: string, more: string)
    requires text in OPS
    ensures ScanAt(text + " " + more) == Found(Op(text), |text|)
  {
    var s := text + " " + more;
    assert text == [text[0]] || text == [text[0], text[1]];
    assert s[1] == if |text| == 1 then ' ' else text[1];
    assert s[1..][0] == s[1];
  }

  /** ROUND TRIP: lexing the spelling of a list of lexical tokens gives the list back. */
  lemma {:induction false} LexBack(ts: seq<Token>)
    requires Stream(ts) && forall i | 0 <= i < |ts| - 1 :: Lexical(ts[i])
    ensures Lex(Spell(ts)) == Some(ts)
  {
    if |ts| > 1 {
      var rest, n := Spell(ts[1..]), |Spelling(ts[0])|;
      ScanBack(ts[0], rest);
      LexBack(ts[1..]);
      var s := Spelling(ts[0]) + " " + rest;
      assert s == Spell(ts);
      hide ScanAt, Spelling, Lex, Spell;
      LexFound(s);
      assert s[n..] == " " + rest;
      SpaceSkipped(rest);
      assert [ts[0]] + ts[1..] == ts;
    } else {
      assert ts == [EOF];
    }
  }

  lemma LexFound(s: string)
    requires s != "" && ScanAt(s).Found?
    ensures Lex(s) == Prepend([ScanAt(s).token], Lex(s[ScanAt(s).length..]))
  {}

  lemma SpaceSkipped(s: string)
    ensures Lex(" " + s) == Lex(s)
  {
    assert (" " + s)[1..] == s;
  }

  // ---- the loops ----

  /** The loop over a string literal: from just after the opening quote. */
  method ReadString(rs: string, start: nat) returns (text: Option<string>, i: nat)
    requires start <= |rs|
    ensures match StringBody(rs[start..])
      case None => text == None
      case Some((t, n)) => text == Some(t) && i == start + n
  {
    hide StringBody;
    i := start;
    var b := "";
    AheadNothing(StringBody(rs[start..]));
    while i < |rs|
      invariant start <= i <= |rs|
      invariant StringBody(rs[start..]) == Ahead(b, i - start, StringBody(rs[i..]))
    {
      ghost var was := b;
      BodySteps(rs, i);
      if rs[i] == '\'' {
        if i + 1 < |rs| && rs[i + 1] == '\'' {
          b, i := b + "'", i + 2;
          AheadTwice(was, i - 2 - start, "'", 2, StringBody(rs[i..]));
          continue;
        }
        i := i + 1;
        assert b + "" == b;
        return Some(b), i;
      }
      b, i := b + [rs[i]], i + 1;
      AheadTwice(was, i - 1 - start, [rs[i - 1]], 1, StringBody(rs[i..]));
    }
    assert rs[i..] == "";
    NoBody();
    text := None;
  }

  lemma NoBody()
    ensures StringBody("") == None
  {}

  lemma AheadNothing(r: Option<(string, nat)>)
    ensures Ahead("", 0, r) == r
  {
    if r.Some? { assert "" + r.value.0 == r.value.0; }
  }

  lemma AheadTwice(a: string, m: nat, b: string, n: nat, r: Option<(string, nat)>)
    ensures Ahead(a, m, Ahead(b, n, r)) == Ahead(a + b, m + n, r)
  {
    if r.Some? { assert a + (b + r.value.0) == a + b + r.value.0; }
  }

  /** One unfolding of a literal's body at a place in the text. */
  lemma BodySteps(rs: string, i: nat)
    requires i < |rs|
    ensures StringBody(rs[i..]) ==
      if rs[i] == '\'' then
        if i + 1 < |rs| && rs[i + 1] == '\'' then Ahead("'", 2, StringBody(rs[i + 2..])) else Some(("", 1))
      else Ahead([rs[i]], 1, StringBody(rs[i + 1..]))
  {
    var s := rs[i..];
    assert s[0] == rs[i] && s[1..] == rs[i + 1..];
    if i + 1 < |rs| { assert s[1] == rs[i + 1] && s[2..] == rs[i + 2..]; }
  }

  method SkipDigits(rs: string, start: nat) returns (i: nat)
    requires start <= |rs|
    ensures i == start + Digits(rs[start..])
  {
    i := start;
    while i < |rs| && IsDigit(rs[i])
      invariant start <= i <= |rs|
      invariant Digits(rs[start..]) == i - start + Digits(rs[i..])
    {
      assert rs[i..][1..] == rs[i + 1..];
      i := i + 1;
    }
  }

  method SkipIdent(rs: string, start: nat) returns (i: nat)
    requires start <= |rs|
    ensures i == start + IdentLength(rs[start..])
  {
    i := start;
    while i < |rs| && IdentChar(rs[i])
      invariant start <= i <= |rs|
      invariant IdentLength(rs[start..]) == i - start + IdentLength(rs[i..])
    {
      assert rs[i..][1..] == rs[i + 1..];
      i := i + 1;
    }
  }

  method SkipUnsigned(rs: string, start: nat) returns (i: nat)
    requires start <= |rs|
    ensures i == start + Unsigned(rs[start..])
  {
    i := SkipDigits(rs, start);
    if i < |rs| && rs[i] == '.' {
      assert rs[start..][i - start + 1..] == rs[i + 1..];
      i := SkipDigits(rs, i + 1);
    }
  }

  /** One step of the scan at `i`: the token found there, if any, and where the scan goes on. */
  method Step(rs: string, i: nat) returns (r: Scan)
    requires i < |rs|
    ensures r == ScanAt(rs[i..])
  {
    var c := rs[i];
    ghost var s := rs[i..];
    assert s[0] == c && s[1..] == rs[i + 1..] && (|s| > 1 ==> s[1] == rs[i + 1]);
    var next := if i + 1 < |rs| then rs[i + 1] else ' ';
    assert forall d | d != ' ' :: Starts(s[1..], d) <==> next == d;
    if IsSpace(c) {
      return Blank;
    }
    match c {
      case '\'' =>
        var text, j := ReadString(rs, i + 1);
        r := if text == None then Bad else Found(Str(text.value), j - i);
      case '(' => r := Found(LParen, 1);
      case ')' => r := Found(RParen, 1);
      case ',' => r := Found(Comma, 1);
      case '.' => r := Found(Dot, 1);
      case '*' => r := Found(Star, 1);
      case '[' => r := Found(LBracket, 1);
      case ']' => r := Found(RBracket, 1);
      case '=' => r := Found(Op("="), 1);
      case '<' =>
        r := if next == '>' then Found(Op("<>"), 2) else if next == '=' then Found(Op("<="), 2) else Found(Op("<"), 1);
      case '>' => r := if next == '=' then Found(Op(">="), 2) else Found(Op(">"), 1);
      case '!' => r := if next == '=' then Found(Op("!="), 2) else Bad;
      case _ => r := StepWord(rs, i);
    }
  }

  /** Numbers and identifiers. */
  method StepWord(rs: string, i: nat) returns (r: Scan)
    requires i < |rs| && !IsSpace(rs[i]) && rs[i] !in "'(),.*[]=<>!"
    ensures r == ScanAt(rs[i..])
  {
    hide Unsigned, IdentLength, StringBody;
    var c := rs[i];
    ghost var s := rs[i..];
    assert s[0] == c && s[1..] == rs[i + 1..] && (|s| > 1 ==> s[1] == rs[i + 1]);
    if c == '-' {
      if i + 1 >= |rs| || !IsDigit(rs[i + 1]) {
        return Bad;
      }
      var j := SkipUnsigned(rs, i + 1);
      assert s[..j - i] == rs[i..j];
      return Found(Number(rs[i..j]), j - i);
    }
    if IsDigit(c) {
      var j := SkipUnsigned(rs, i);
      assert s[..j - i] == rs[i..j];
      return Found(Number(rs[i..j]), j - i);
    }
    if c == '_' || IsLetter(c) {
      var j := SkipIdent(rs, i);
      assert s[..j - i] == rs[i..j];
      return Found(Ident(rs[i..j]), j - i);
    }
    return Bad;
  }

  /** The lexer's loop: it stops at the first error or at the end of the text, whatever the text. */
  method LexText(rs: string) returns (r: Option<seq<Token>>)
    ensures r == Lex(rs)
    ensures r.Some? ==> Stream(r.value) && AllLexical(r.value)
  {
    hide Lex, ScanAt;
    var toks, i := [], 0;
    assert rs[0..] == rs;
    PrependTwice([], [], Lex(rs));
    while i < |rs|
      invariant i <= |rs|
      invariant Lex(rs) == Prepend(toks, Lex(rs[i..]))
    {
      var step := Step(rs, i);
      if step.Blank? {
        LexNoToken(rs[i..]);
        assert rs[i..][1..] == rs[i + 1..];
        i := i + 1;
      } else if step.Found? {
        LexFound(rs[i..]);
        assert rs[i..][step.length..] == rs[i + step.length..];
        PrependTwice(toks, [step.token], Lex(rs[i + step.length..]));
        toks, i := toks + [step.token], i + step.length;
      } else {
        LexNoToken(rs[i..]);
        return None;
      }
    }
    assert rs[i..] == "";
    LexEnd();
    LexedStream(rs);
    return Some(toks + [EOF]);
  }

  lemma PrependTwice(a: seq<Token>, b: seq<Token>, r: Option<seq<Token>>)
    ensures Prepend(a, Prepend(b, r)) == Prepend(a + b, r)
    ensures Prepend([], r) == r
  {
    if r.Some? { assert a + (b + r.value) == a + b + r.value && [] + r.value == r.value; }
  }

  lemma LexNoToken(s: string)
    requires s != "" && !ScanAt(s).Found?
    ensures Lex(s) == if ScanAt(s).Blank? then Lex(s[1..]) else None
  {}

  lemma LexEnd()
    ensures Lex("") == Some([EOF])
  {}
}
