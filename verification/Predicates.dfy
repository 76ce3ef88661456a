/** What values and predicates mean on a row. */
module Predicates {
  import opened Types
  import opened Sql
  import opened Characters
  import opened Order

  // Library functions on floats.
  const FormatFloat: Float -> string
  const Truncated: Float -> Float

  /** A column's value; `Compound` is a JSON object or array with its printed form. */
  datatype Datum = Null | Chars(text: string) | Flag(b: bool) | Num(f: Float) | Compound(text: string)

  /** An input row: what it gives for a column reference. */
  datatype Row = Row(lookup: seq<string> -> Option<Datum>)

  function AsFloat(d: Datum): Option<Float> {
    match d case Num(f) => Some(f) case Chars(s) => ParseFloat(TrimSpace(s)) case _ => None
  }

  function AsString(d: Datum): string {
    match d
    case Null => ""
    case Chars(s) => s
    case Flag(b) => if b then "true" else "false"
    case Num(f) => FormatFloat(f)
    case Compound(s) => s
  }

  predicate Truthy(d: Datum) {
    match d
    case Null => false
    case Chars(s) => s != ""
    case Flag(b) => b
    case Num(f) => f != Finite(0.0)
    case Compound(_) => true
  }

  function NumberValue(text: string): Datum { match ParseFloat(text) case Some(f) => Num(f) case None => Null }

  /** A column's name without the table's alias in front. */
  function Unqualified(parts: seq<string>, alias: string): seq<string> {
    if |parts| > 1 && ((alias != "" && EqualFold(parts[0], alias)) || EqualFold(parts[0], "S3Object")) then parts[1..]
    else parts
  }

  function Eval(v: Value, row: Row, alias: string): Option<Datum> {
    match v
    case StrLit(s) => Some(Chars(s))
    case NumLit(s) => Some(NumberValue(s))
    case BoolLit(b) => Some(Flag(b))
    case Col(parts) => row.lookup(Unqualified(parts, alias))
    case Cast(inner, typ) =>
      match Eval(inner, row, alias)
      case None => None
      case Some(d) =>
        if typ == "STRING" then Some(Chars(AsString(d)))
        else if typ != "INT" && typ != "FLOAT" then None
        else match AsFloat(d) case None => None case Some(f) => Some(Num(if typ == "INT" then Truncated(f) else f))
  }

  predicate FloatLess(a: Float, b: Float) {
    match (a, b)
    case (Finite(x), Finite(y)) => x < y
    case (Finite(_), Infinite(pos)) => pos
    case (Infinite(pos), Finite(_)) => !pos
    case (Infinite(p), Infinite(q)) => !p && q
    case _ => false
  }

  predicate FloatEqual(a: Float, b: Float) { a == b && a != NaN }

  predicate Equal(l: Datum, r: Datum) {
    if l.Flag? && r.Flag? then l == r
    else if AsFloat(l).Some? && AsFloat(r).Some? then FloatEqual(AsFloat(l).value, AsFloat(r).value)
    else AsString(l) == AsString(r)
  }

  /** The sign of a comparison: as numbers when both are, else as strings. */
  function Compare(l: Datum, r: Datum): int {
    if AsFloat(l).Some? && AsFloat(r).Some? then
      if FloatLess(AsFloat(l).value, AsFloat(r).value) then -1
      else if FloatLess(AsFloat(r).value, AsFloat(l).value) then 1
      else 0
    else if Less(AsString(l), AsString(r)) then -1
    else if AsString(l) == AsString(r) then 0
    else 1
  }

  predicate Holds(op: string, l: Datum, r: Datum) {
    if op == "=" then Equal(l, r)
    else if op == "<>" || op == "!=" then !Equal(l, r)
    else if op == "<" then Compare(l, r) < 0
    else if op == "<=" then Compare(l, r) <= 0
    else if op == ">" then Compare(l, r) > 0
    else op == ">=" && Compare(l, r) >= 0
  }

  // ---- LIKE ----

  /** What a LIKE pattern is compiled to: an anchored regular expression of these pieces. */
  datatype Piece = Literal(text: string) | AnyOne | AnyMany

  /** Anchored matching, where a wildcard never stands for a newline. */
  predicate Matches(re: seq<Piece>, s: string)
    decreases |re|, |s|
  {
    if re == [] then s == ""
    else
      match re[0]
      case Literal(t) => t <= s && Matches(re[1..], s[|t|..])
      case AnyOne => s != "" && s[0] != '\n' && Matches(re[1..], s[1..])
      case AnyMany => Matches(re[1..], s) || (s != "" && s[0] != '\n' && Matches(re, s[1..]))
  }

  /** The meaning of LIKE in SQL: % stands for any text, _ for any one character. */
  predicate Resembles(pattern: string, s: string)
    decreases |pattern|
  {
    if pattern == "" then s == ""
    else if pattern[0] == '%' then exists k | 0 <= k <= |s| :: Resembles(pattern[1..], s[k..])
    else s != "" && (pattern[0] == '_' || pattern[0] == s[0]) && Resembles(pattern[1..], s[1..])
  }

  function Flush(re: seq<Piece>, lit: string): seq<Piece> { if lit == "" then re else re + [Literal(lit)] }

  /** The pieces of a pattern, the literal text gathered so far in front. */
  function Pieces(lit: string, pattern: string): seq<Piece>
    decreases |pattern|
  {
    if pattern == "" then Flush([], lit)
    else if pattern[0] == '%' then Flush([], lit) + [AnyMany] + Pieces("", pattern[1..])
    else if pattern[0] == '_' then Flush([], lit) + [AnyOne] + Pieces("", pattern[1..])
    else Pieces(lit + [pattern[0]], pattern[1..])
  }

  lemma FlushOnto(re: seq<Piece>, lit: string, more: seq<Piece>)
    ensures re + (Flush([], lit) + more) == Flush(re, lit) + more
    ensures re + Flush([], lit) == Flush(re, lit)
  {
    if lit == "" {
      assert re + ([] + more) == re + more && re + [] == re;
    } else {
      assert [] + [Literal(lit)] == [Literal(lit)];
      assert re + ([Literal(lit)] + more) == re + [Literal(lit)] + more;
    }
  }

  /** One step of the loop at the start of a pattern. */
  lemma PiecesStep(re: seq<Piece>, lit: string, pattern: string)
    requires pattern != ""
    ensures var wild, rest := if pattern[0] == '%' then AnyMany else AnyOne, pattern[1..];
      re + Pieces(lit, pattern) ==
      if pattern[0] == '%' || pattern[0] == '_' then Flush(re, lit) + [wild] + Pieces("", rest)
      else re + Pieces(lit + [pattern[0]], rest)
  {
    if pattern[0] == '%' || pattern[0] == '_' {
      var wild, more := if pattern[0] == '%' then AnyMany else AnyOne, Pieces("", pattern[1..]);
      assert Flush([], lit) + [wild] + more == Flush([], lit) + ([wild] + more);
      FlushOnto(re, lit, [wild] + more);
      assert Flush(re, lit) + ([wild] + more) == Flush(re, lit) + [wild] + more;
    }
  }

  /** The loop that fills the two string builders. */
  method CompileLike(pattern: string) returns (re: seq<Piece>)
    ensures re == Pieces("", pattern)
  {
    var lit := "";
    re := [];
    assert pattern[0..] == pattern && [] + Pieces("", pattern) == Pieces("", pattern);
    for i := 0 to |pattern|
      invariant re + Pieces(lit, pattern[i..]) == Pieces("", pattern)
    {
      hide Pieces, Flush;
      PiecesStep(re, lit, pattern[i..]);
      assert pattern[i..][1..] == pattern[i + 1..];
      if pattern[i] == '%' {
        re, lit := Flush(re, lit) + [AnyMany], "";
      } else if pattern[i] == '_' {
        re, lit := Flush(re, lit) + [AnyOne], "";
      } else {
        lit := lit + [pattern[i]];
      }
    }
    FlushOnto(re, lit, []);
    re := Flush(re, lit);
  }

  lemma LiteralFirst(lit: string, re: seq<Piece>, s: string)
    ensures Matches(Flush([], lit) + re, s) <==> lit <= s && Matches(re, s[if lit <= s then |lit| else 0..])
  {
    if lit == "" {
      assert Flush([], lit) + re == re && s[0..] == s;
    } else {
      assert (Flush([], lit) + re)[1..] == re;
    }
  }

  lemma {:induction false} ManyMatches(re: seq<Piece>, s: string)
    requires '\n' !in s && re != [] && re[0] == AnyMany
    ensures Matches(re, s) <==> exists k | 0 <= k <= |s| :: Matches(re[1..], s[k..])
    decreases |s|
  {
    assert s[0..] == s;
    if s != "" {
      ManyMatches(re, s[1..]);
      assert forall k | 1 <= k <= |s| :: s[k..] == s[1..][k - 1..];
      assert forall k | 0 <= k <= |s[1..]| :: s[1..][k..] == s[k + 1..];
    }
  }

  /** The compiled pattern means what the pattern means on every text without a newline. */
  lemma {:induction false} PiecesMean(lit: string, pattern: string, s: string)
    requires '\n' !in s
    ensures Matches(Pieces(lit, pattern), s) <==> lit <= s && Resembles(pattern, s[if lit <= s then |lit| else 0..])
    decreases |pattern|
  {
    if pattern == "" {
      LiteralFirst(lit, [], s);
      assert Flush([], lit) + [] == Flush([], lit);
    } else if pattern[0] == '%' || pattern[0] == '_' {
      var re := [if pattern[0] == '%' then AnyMany else AnyOne] + Pieces("", pattern[1..]);
      assert Pieces(lit, pattern) == Flush([], lit) + re;
      LiteralFirst(lit, re, s);
      if lit <= s {
        WildcardMeans(pattern, s[|lit|..]);
      }
    } else {
      PiecesMean(lit + [pattern[0]], pattern[1..], s);
      var more := lit + [pattern[0]];
      if lit <= s {
        var rest := s[|lit|..];
        assert more <= s <==> rest != "" && rest[0] == pattern[0];
        if more <= s { assert rest[1..] == s[|more|..]; }
      } else {
        assert lit <= more;
      }
    }
  }

  lemma {:induction false} WildcardMeans(pattern: string, s: string)
    requires '\n' !in s && pattern != "" && (pattern[0] == '%' || pattern[0] == '_')
    ensures Matches([if pattern[0] == '%' then AnyMany else AnyOne] + Pieces("", pattern[1..]), s) <==> Resembles(pattern, s)
    decreases |pattern|, 0
  {
    var re := [if pattern[0] == '%' then AnyMany else AnyOne] + Pieces("", pattern[1..]);
    assert re[1..] == Pieces("", pattern[1..]);
    if pattern[0] == '%' {
      ManyMatches(re, s);
      forall k | 0 <= k <= |s| ensures Matches(re[1..], s[k..]) <==> Resembles(pattern[1..], s[k..]) {
        PiecesMean("", pattern[1..], s[k..]);
        assert s[k..][0..] == s[k..];
      }
    } else if s != "" {
      PiecesMean("", pattern[1..], s[1..]);
      assert s[1..][0..] == s[1..];
    }
  }

  /** MEANING PRESERVED, exactly: the regular expression of every pattern agrees with LIKE on a text if
      and only if the text holds no newline. */
  lemma LikeExact(s: string)
    ensures (forall pattern :: Matches(Pieces("", pattern), s) <==> Resembles(pattern, s)) <==> '\n' !in s
  {
    if '\n' !in s {
      forall pattern ensures Matches(Pieces("", pattern), s) <==> Resembles(pattern, s) {
        PiecesMean("", pattern, s);
        assert s[0..] == s;
      }
    } else {
      assert "%"[1..] == "" && Pieces("", "%") == [AnyMany] && Pieces("", "") == [];
      PercentFails(s);
      assert Resembles("%", s) by { assert Resembles("", s[|s|..]); }
    }
  }

  lemma {:induction false} PercentFails(s: string)
    requires '\n' in s
    ensures !Matches([AnyMany], s)
  {
    assert [AnyMany][1..] == [];
    if s[0] != '\n' { PercentFails(s[1..]); }
  }

  // ---- predicates ----

  predicate Test(p: Pred, row: Row, alias: string) {
    match p
    case And(l, r) => Test(l, row, alias) && Test(r, row, alias)
    case Or(l, r) => Test(l, row, alias) || Test(r, row, alias)
    case Not(q) => !Test(q, row, alias)
    case Cmp(l, r, op) =>
      var a, b := Eval(l, row, alias), Eval(r, row, alias);
      if a == None || b == None then (op == "<>" || op == "!=") && a.Some? != b.Some?
      else Holds(op, a.value, b.value)
    case Like(v, pattern, neg) =>
      var d := Eval(v, row, alias);
      d.Some? && Matches(Pieces("", pattern), AsString(d.value)) != neg
    case Truth(v) =>
      var d := Eval(v, row, alias);
      d.Some? && Truthy(d.value)
  }

  /** A comparison with <> is the negation of the one with = exactly when one of its operands is there. */
  lemma NotEqualExact(l: Value, r: Value, row: Row, alias: string)
    ensures Test(Cmp(l, r, "<>"), row, alias) == Test(Not(Cmp(l, r, "=")), row, alias) <==>
            Eval(l, row, alias).Some? || Eval(r, row, alias).Some?
  {}

  /** NOT LIKE is the negation of LIKE exactly when the value is there. */
  lemma NotLikeExact(v: Value, pattern: string, row: Row, alias: string)
    ensures Test(Like(v, pattern, true), row, alias) == Test(Not(Like(v, pattern, false)), row, alias) <==>
            Eval(v, row, alias).Some?
  {}

  // ---- comparison laws ----

  /** The two values are compared as numbers and one of them is not a number. */
  predicate Unordered(l: Datum, r: Datum) {
    AsFloat(l).Some? && AsFloat(r).Some? && (AsFloat(l).value == NaN || AsFloat(r).value == NaN)
  }

  /** Turning a comparison round turns its sign. */
  lemma CompareTurned(l: Datum, r: Datum)
    ensures Compare(l, r) == -Compare(r, l)
  {
    var a, b := AsString(l), AsString(r);
    LessTotal(a, b);
    LessIrreflexive(a);
    if Less(a, b) { LessAsymmetric(a, b); }
  }

  /** Every comparison says the same with its operands exchanged, <= is the negation of >, and = is
      symmetric. */
  lemma OperatorsAgree(l: Datum, r: Datum)
    ensures Holds("<", l, r) <==> Holds(">", r, l)
    ensures Holds("<=", l, r) <==> Holds(">=", r, l)
    ensures Holds("<=", l, r) <==> !Holds(">", l, r)
    ensures Holds("=", l, r) <==> Holds("=", r, l)
    ensures Holds("<>", l, r) <==> !Holds("=", l, r)
  {
    CompareTurned(l, r);
  }

  /** Exactly one of <, = and > holds, unless the values are unordered. */
  lemma TrichotomyExact(l: Datum, r: Datum)
    ensures Unordered(l, r) <==> !Holds("<", l, r) && !Holds("=", l, r) && !Holds(">", l, r)
    ensures !(Holds("<", l, r) && Holds(">", l, r)) && !(Holds("<", l, r) && Holds("=", l, r)) && !(Holds(">", l, r) && Holds("=", l, r))
  {
    CompareTurned(l, r);
    LessIrreflexive(AsString(l));
    LessTotal(AsString(l), AsString(r));
  }

  /** Among numbers, and among values of which at most one is a number, < is transitive. */
  lemma LessTransitive(a: Datum, b: Datum, c: Datum)
    requires Holds("<", a, b) && Holds("<", b, c)
    requires (AsFloat(a).Some? && AsFloat(b).Some? && AsFloat(c).Some?)
      || (AsFloat(a).None? && AsFloat(b).None?) || (AsFloat(b).None? && AsFloat(c).None?) || (AsFloat(a).None? && AsFloat(c).None?)
    ensures Holds("<", a, c)
  {
    if !(AsFloat(a).Some? && AsFloat(b).Some? && AsFloat(c).Some?) {
      LessTrans(AsString(a), AsString(b), AsString(c));
    }
  }

  /** With two numbers and a text < need not be transitive, wherever the text stands: 9 < 10 < '1a' < 9. */
  lemma LessCycles(nine: Datum, ten: Datum, text: Datum)
    requires nine == Chars("9") && ten == Chars("10") && text == Chars("1a")
    requires ParseFloat("9") == Some(Finite(9.0)) && ParseFloat("10") == Some(Finite(10.0)) && ParseFloat("1a") == None
    ensures Holds("<", nine, ten) && Holds("<", ten, text) && Holds("<", text, nine)
    ensures !Holds("<", nine, text) && !Holds("<", ten, nine) && !Holds("<", text, ten)
  {
    assert TrimSpace("9") == "9" && TrimSpace("10") == "10" && TrimSpace("1a") == "1a";
    assert "10"[1..] == "0" && "1a"[1..] == "a";
  }

  /** A column may be written with the table's alias or S3Object in front, in whatever case; with any other name in
      front, or alone, it is another column. */
  lemma AliasOptional(parts: seq<string>, row: Row, alias: string, name: string)
    requires parts != [] && Unqualified(parts, alias) == parts
    ensures (alias != "" && EqualFold(name, alias)) || EqualFold(name, "S3Object") ==>
      Eval(Col([name] + parts), row, alias) == Eval(Col(parts), row, alias)
    ensures !(alias != "" && EqualFold(name, alias)) && !EqualFold(name, "S3Object") ==>
      Eval(Col([name] + parts), row, alias) == row.lookup([name] + parts)
    ensures Eval(Col([name]), row, alias) == row.lookup([name])
  {
    assert ([name] + parts)[1..] == parts;
  }

  /** Two ASCII names are the same up to case if and only if they are in upper case. */
  lemma SameCase(s: string, t: string)
    requires (forall i | 0 <= i < |s| :: Ascii(s[i])) && (forall i | 0 <= i < |t| :: Ascii(t[i]))
    ensures EqualFold(s, t) <==> ToUpper(s) == ToUpper(t)
  {
    assert |s| == |ToUpper(s)| && |t| == |ToUpper(t)|;
    if ToUpper(s) == ToUpper(t) {
      forall i | 0 <= i < |s| ensures Fold(s[i]) == Fold(t[i]) { assert ToUpper(s)[i] == ToUpper(t)[i]; }
    }
  }

  // ---- negation ----

  function Opposite(op: string): string {
    if op == "=" then "<>"
    else if op == "<>" || op == "!=" then "="
    else if op == "<" then ">="
    else if op == ">=" then "<"
    else if op == ">" then "<="
    else ">"
  }

  /** The predicate, negated when `neg` says so, with every NOT moved into its comparisons and LIKEs. */
  function Pushed(p: Pred, neg: bool): Pred {
    match p
    case And(l, r) => if neg then Or(Pushed(l, true), Pushed(r, true)) else And(Pushed(l, false), Pushed(r, false))
    case Or(l, r) => if neg then And(Pushed(l, true), Pushed(r, true)) else Or(Pushed(l, false), Pushed(r, false))
    case Not(q) => Pushed(q, !neg)
    case Cmp(l, r, op) => if neg then Cmp(l, r, Opposite(op)) else p
    case Like(v, pattern, n) => if neg then Like(v, pattern, !n) else p
    case Truth(_) => if neg then Not(p) else p
  }

  /** The row has every value that the predicate compares. */
  predicate Complete(p: Pred, row: Row, alias: string) {
    match p
    case And(l, r) => Complete(l, row, alias) && Complete(r, row, alias)
    case Or(l, r) => Complete(l, row, alias) && Complete(r, row, alias)
    case Not(q) => Complete(q, row, alias)
    case Cmp(l, r, op) => op in OPS && Eval(l, row, alias).Some? && Eval(r, row, alias).Some?
    case Like(v, _, _) => Eval(v, row, alias).Some?
    case Truth(_) => true
  }

  predicate NotFree(p: Pred) {
    match p
    case And(l, r) => NotFree(l) && NotFree(r)
    case Or(l, r) => NotFree(l) && NotFree(r)
    case Not(q) => q.Truth?
    case _ => true
  }

  /** MEANING PRESERVED: on a row that has the compared values, NOT may be moved inward, through AND and OR,
      into the operators and LIKEs: the outcome is the same, whatever was short-circuited. */
  lemma {:induction false} NotMovesInward(p: Pred, neg: bool, row: Row, alias: string)
    ensures NotFree(Pushed(p, neg))
    ensures Complete(p, row, alias) ==> Test(Pushed(p, neg), row, alias) == (Test(p, row, alias) != neg)
  {
    match p
    case And(l, r) =>
      NotMovesInward(l, neg, row, alias);
      NotMovesInward(r, neg, row, alias);
    case Or(l, r) =>
      NotMovesInward(l, neg, row, alias);
      NotMovesInward(r, neg, row, alias);
    case Not(q) => NotMovesInward(q, !neg, row, alias);
    case Cmp(l, r, op) =>
      if Complete(p, row, alias) { OperatorNegated(op, Eval(l, row, alias).value, Eval(r, row, alias).value); }
    case _ =>
  }

  lemma OperatorNegated(op: string, l: Datum, r: Datum)
    requires op in OPS
    ensures Holds(Opposite(op), l, r) <==> !Holds(op, l, r)
  {
    hide Equal, Compare;
  }
}
