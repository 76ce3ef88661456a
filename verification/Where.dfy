/** What a WHERE clause selects, as laws on the rows selected. */
module Where {
  import opened Types
  import opened Sql
  import opened Characters
  import opened Order
  import opened Predicates
  import opened SelectRun

  /** The statement with another condition. */
  function Over(q: Query, p: Pred): Query { q.(where := Some(p)) }

  function Everywhere(rows: seq<Row>): (r: set<int>)
    ensures forall i :: i in r <==> 0 <= i < |rows|
  {
    if rows == [] then {} else Everywhere(rows[..|rows| - 1]) + {|rows| - 1}
  }

  // ---- connectives ----

  /** BOOLEAN LAWS: AND selects the intersection, OR the union and NOT the complement; TRUE and no condition select
      every row, FALSE none. */
  lemma ConnectivesSelect(q: Query, l: Pred, r: Pred, rows: seq<Row>)
    ensures Places(Over(q, And(l, r)), rows) == Places(Over(q, l), rows) * Places(Over(q, r), rows)
    ensures Places(Over(q, Or(l, r)), rows) == Places(Over(q, l), rows) + Places(Over(q, r), rows)
    ensures Places(Over(q, Not(l)), rows) == Everywhere(rows) - Places(Over(q, l), rows)
    ensures Places(Over(q, Truth(BoolLit(true))), rows) == Everywhere(rows) == Places(q.(where := None), rows)
    ensures Places(Over(q, Truth(BoolLit(false))), rows) == {}
  {
    assert Everywhere(rows) == Places(Over(q, Truth(BoolLit(true))), rows);
    assert Everywhere(rows) == Places(q.(where := None), rows);
  }

  /** What is answered are the selected rows, in order: the n-th one matching stands at a place selected, with n
      selected places before it. */
  lemma {:induction false} AnswersSelected(q: Query, rows: seq<Row>, n: nat) returns (i: nat)
    requires n < |Matching(q, rows)|
    ensures i < |rows| && i in Places(q, rows) && Matching(q, rows)[n] == rows[i]
    ensures |Places(q, rows[..i])| == n
  {
    hide Selected;
    var init, last := rows[..|rows| - 1], |rows| - 1;
    MatchingAre(q, init);
    if n < |Matching(q, init)| {
      i := AnswersSelected(q, init, n);
      assert init[..i] == rows[..i] && init[i] == rows[i];
    } else {
      i := last;
    }
  }

  // ---- comparisons ----

  predicate IsText(s: string) { ParseFloat(TrimSpace(s)) == None }

  /** The comparison of two reals, or of two texts in byte order. */
  predicate Ordered(op: string, less: bool, equal: bool) {
    match op
    case "=" => equal
    case "<>" => !equal
    case "!=" => !equal
    case "<" => less
    case "<=" => less || equal
    case ">" => !less && !equal
    case _ => !less
  }

  /** TEXTS: two texts that are not numbers compare in byte order. */
  lemma TextsCompare(q: Query, s: string, t: string, op: string, rows: seq<Row>)
    requires IsText(s) && IsText(t) && op in OPS
    ensures Places(Over(q, Cmp(StrLit(s), StrLit(t), op)), rows) == if Ordered(op, Less(s, t), s == t) then Everywhere(rows) else {}
  {
    LessIrreflexive(s);
    hide TrimSpace, Less;
    var p := Cmp(StrLit(s), StrLit(t), op);
    forall row ensures Test(p, row, q.alias) <==> Ordered(op, Less(s, t), s == t) {}
    hide Test, Ordered;
  }

  /** NUMBERS: a number, written as one or as a text with spaces around it, compares by its value. */
  lemma NumbersCompare(q: Query, s: string, t: string, op: string, x: real, y: real, rows: seq<Row>)
    requires ParseFloat(s) == Some(Finite(x)) && ParseFloat(TrimSpace(t)) == Some(Finite(y)) && op in OPS
    ensures Places(Over(q, Cmp(NumLit(s), StrLit(t), op)), rows) == if Ordered(op, x < y, x == y) then Everywhere(rows) else {}
  {
    hide TrimSpace, Less;
    var p := Cmp(NumLit(s), StrLit(t), op);
    forall row ensures Test(p, row, q.alias) <==> Ordered(op, x < y, x == y) {}
    hide Test, Ordered;
  }

  /** The ASCII characters that count as space. */
  lemma SpacesAre(c: char)
    requires Ascii(c)
    ensures IsSpace(c) <==> c in {' ', '\t', '\n', '\U{0B}', '\U{0C}', '\r'}
  {}

  lemma {:induction false} LeftSpace(s: string, c: char)
    requires IsSpace(c)
    ensures TrimSpace([c] + s) == TrimSpace(s)
  {
    assert ([c] + s)[1..] == s;
  }

  lemma {:induction false} RightSpace(s: string, c: char)
    requires IsSpace(c)
    ensures TrimSpace(s + [c]) == TrimSpace(s)
  {
    var t := s + [c];
    if s == "" {
      assert t[1..] == "";
    } else if IsSpace(s[0]) {
      RightSpace(s[1..], c);
      assert t[1..] == s[1..] + [c];
    } else {
      assert t[..|t| - 1] == s;
    }
  }

  /** SPACES: white space at either end of a text does not change how it compares as a number. */
  lemma SpacesIgnored(q: Query, s: string, c: char, v: Value, op: string, rows: seq<Row>)
    requires c in {' ', '\t', '\n', '\U{0B}', '\U{0C}', '\r'} && !IsText(s) && op in OPS
    requires forall i | 0 <= i < |rows| :: Eval(v, rows[i], q.alias).Some? && AsFloat(Eval(v, rows[i], q.alias).value).Some?
    ensures Places(Over(q, Cmp(StrLit([c] + s), v, op)), rows) == Places(Over(q, Cmp(StrLit(s), v, op)), rows)
    ensures Places(Over(q, Cmp(StrLit(s + [c]), v, op)), rows) == Places(Over(q, Cmp(StrLit(s), v, op)), rows)
  {
    SpacesAre(c);
    LeftSpace(s, c);
    RightSpace(s, c);
    SameNumber(q, [c] + s, s, v, op, rows);
    SameNumber(q, s + [c], s, v, op, rows);
  }

  lemma SameNumber(q: Query, s: string, t: string, v: Value, op: string, rows: seq<Row>)
    requires TrimSpace(s) == TrimSpace(t) && !IsText(t)
    requires forall i | 0 <= i < |rows| :: Eval(v, rows[i], q.alias).Some? && AsFloat(Eval(v, rows[i], q.alias).value).Some?
    ensures Places(Over(q, Cmp(StrLit(s), v, op)), rows) == Places(Over(q, Cmp(StrLit(t), v, op)), rows)
  {
    hide TrimSpace;
    var l, r := Over(q, Cmp(StrLit(s), v, op)), Over(q, Cmp(StrLit(t), v, op));
    forall i | 0 <= i < |rows| ensures Selected(l, rows[i]) <==> Selected(r, rows[i]) {
      var d := Eval(v, rows[i], q.alias).value;
      assert Holds(op, Chars(s), d) == Holds(op, Chars(t), d);
      hide Holds, AsFloat;
    }
    hide Selected;
  }

  /** MISSING: where a row lacks one side, only <> selects it; where it lacks both, nothing does. */
  lemma MissingCompares(q: Query, l: Value, r: Value, op: string, rows: seq<Row>, i: nat)
    requires i < |rows| && op in OPS && (Eval(l, rows[i], q.alias) == None || Eval(r, rows[i], q.alias) == None)
    ensures i in Places(Over(q, Cmp(l, r, op)), rows) <==>
      (op == "<>" || op == "!=") && !(Eval(l, rows[i], q.alias) == None && Eval(r, rows[i], q.alias) == None)
  {
    hide Eval;
  }

  /** The text of a value: NULL is empty, a truth value its name, a number its shortest form. */
  predicate Prints(d: Datum, s: string) {
    d == Chars(s) || d == Compound(s) || (d == Null && s == "") || (d == Flag(true) && s == "true")
    || (d == Flag(false) && s == "false") || (d.Num? && s == FormatFloat(d.f))
  }

  /** LIKE: a row is selected if and only if it has the value and its text resembles the pattern, or for NOT LIKE
      does not, on texts without a newline. */
  lemma LikeSelects(q: Query, v: Value, pattern: string, neg: bool, rows: seq<Row>, i: nat, d: Datum, s: string)
    requires i < |rows| && '\n' !in s && Eval(v, rows[i], q.alias) == Some(d) && Prints(d, s)
    ensures i in Places(Over(q, Like(v, pattern, neg)), rows) <==> (Resembles(pattern, s) != neg)
  {
    LikeExact(s);
    hide Eval, Matches, Resembles, Pieces;
  }

  lemma LikeMissing(q: Query, v: Value, pattern: string, neg: bool, rows: seq<Row>, i: nat)
    requires i < |rows| && Eval(v, rows[i], q.alias) == None
    ensures i !in Places(Over(q, Like(v, pattern, neg)), rows) && i !in Places(Over(q, Truth(v)), rows)
  {
    hide Eval, Matches, Pieces;
  }

  /** A bare value selects unless it is NULL, an empty text, FALSE or zero. */
  lemma ValueSelects(q: Query, v: Value, rows: seq<Row>, i: nat, d: Datum)
    requires i < |rows| && Eval(v, rows[i], q.alias) == Some(d)
    ensures i in Places(Over(q, Truth(v)), rows) <==> d !in {Null, Chars(""), Flag(false), Num(Finite(0.0))}
  {
    hide Eval;
  }

  // ---- casts ----

  /** CASTS: to STRING, a value keeps what LIKE sees of it; to FLOAT, a number keeps how it compares with numbers;
      to INT is to truncate the same number; what is not a number has no cast to one; a missing value stays missing. */
  lemma CastsSelect(v: Value, row: Row, alias: string, pattern: string, neg: bool, r: Value, op: string, typ: string)
    requires typ == "INT" || typ == "FLOAT"
    ensures Test(Like(Cast(v, "STRING"), pattern, neg), row, alias) <==> Test(Like(v, pattern, neg), row, alias)
    ensures var d, e := Eval(v, row, alias), Eval(r, row, alias);
      d.Some? && AsFloat(d.value).Some? && e.Some? && AsFloat(e.value).Some? ==>
        (Test(Cmp(Cast(v, "FLOAT"), r, op), row, alias) <==> Test(Cmp(v, r, op), row, alias))
        && Eval(Cast(v, "INT"), row, alias) == Some(Num(Truncated(AsFloat(d.value).value)))
    ensures Eval(v, row, alias) == None || AsFloat(Eval(v, row, alias).value) == None ==> Eval(Cast(v, typ), row, alias) == None
  {
    CastLike(v, row, alias, pattern, neg);
    CastNumber(v, row, alias, r, op);
    hide Test, Matches, TrimSpace;
  }

  lemma CastLike(v: Value, row: Row, alias: string, pattern: string, neg: bool)
    ensures Test(Like(Cast(v, "STRING"), pattern, neg), row, alias) <==> Test(Like(v, pattern, neg), row, alias)
  {
    hide Matches, Pieces;
  }

  lemma CastNumber(v: Value, row: Row, alias: string, r: Value, op: string)
    ensures var d, e := Eval(v, row, alias), Eval(r, row, alias);
      d.Some? && AsFloat(d.value).Some? && e.Some? && AsFloat(e.value).Some? ==>
        (Test(Cmp(Cast(v, "FLOAT"), r, op), row, alias) <==> Test(Cmp(v, r, op), row, alias))
  {
    var d, e := Eval(v, row, alias), Eval(r, row, alias);
    if d.Some? && AsFloat(d.value).Some? && e.Some? && AsFloat(e.value).Some? {
      NumberHolds(d.value, e.value, op);
      hide Holds, AsFloat;
    }
  }

  lemma NumberHolds(d: Datum, e: Datum, op: string)
    requires AsFloat(d).Some? && AsFloat(e).Some?
    ensures Holds(op, Num(AsFloat(d).value), e) <==> Holds(op, d, e)
  {
    hide TrimSpace, Less;
  }
}
