/** Whole statements: rendering, parsing back, and the exact image of the parser. */
module SqlStatements {
  import opened Types
  import opened Sql
  import opened Characters
  import opened SqlLexer
  import opened SqlGrammar
  import opened SqlRoundTrip
  import Decimal

  function AliasTokens(alias: string, rest: seq<Token>): seq<Token> {
    if alias == "" then rest else [Ident("AS"), Ident(alias)] + rest
  }

  function ItemTokens(it: Item, rest: seq<Token>): seq<Token> {
    match it.expr
    case None => [Ident("COUNT"), LParen] + ([Star, RParen] + rest)
    case Some(e) => ValueTokens(e, AliasTokens(if OwnName(it) then "" else it.name, rest))
  }

  function ItemsTokens(items: seq<Item>, rest: seq<Token>): seq<Token> {
    if items == [] then [Star] + rest
    else if |items| == 1 then ItemTokens(items[0], rest)
    else ItemTokens(items[0], [Comma] + ItemsTokens(items[1..], rest))
  }

  function WhereTokens(where: Option<Pred>, rest: seq<Token>): seq<Token> {
    match where case None => rest case Some(p) => [Ident("WHERE")] + PredTokens(p, 0, rest)
  }

  function LimitTokens(limit: int, rest: seq<Token>): seq<Token> {
    if limit < 0 then rest else [Ident("LIMIT"), Number(Decimal.Dec(limit))] + rest
  }

  /** A canonical text of a statement, as tokens. */
  function QueryTokens(q: Query): seq<Token> {
    var tail := WhereTokens(q.where, LimitTokens(q.limit, [EOF]));
    [Ident("SELECT")] + ItemsTokens(q.proj.items, [Ident("FROM"), Ident("S3Object")] + AliasTokens(q.alias, tail))
  }

  // ---- projections come back ----

  /** A token that may follow a projected item or an alias. */
  predicate AfterItem(ts: seq<Token>) { Stream(ts) && (ts[0] == Comma || ts[0] == Ident("FROM")) }

  predicate AfterFrom(ts: seq<Token>) {
    Stream(ts) && (ts[0] == Ident("WHERE") || ts[0] == Ident("LIMIT") || ts[0] == EOF)
  }

  lemma AliasBack(alias: string, rest: seq<Token>)
    requires AfterItem(rest) || AfterFrom(rest)
    ensures Stream(AliasTokens(alias, rest)) && OptAlias(AliasTokens(alias, rest)) == (alias, rest)
    ensures AliasTokens(alias, rest)[0] !in {Dot, LParen, LBracket}
  {
    if alias == "" {
      assert ToUpper("FROM") == "FROM" && ToUpper("WHERE") == "WHERE" && ToUpper("LIMIT") == "LIMIT";
    } else {
      NextTwo(Ident("AS"), Ident(alias), rest);
      hide Next, Stream;
    }
  }

  lemma NoCount(v: Value, rest: seq<Token>)
    requires WellFormedValue(v) && Stream(rest) && rest[0] != LParen && Stream(ValueTokens(v, rest))
    ensures !CountAhead(ValueTokens(v, rest))
  {
    assert !EqualFold("TRUE", "COUNT") && !EqualFold("CAST", "COUNT");
    assert Fold("FALSE"[0]) != Fold("COUNT"[0]);
    hide IdentText, NumberText, EqualFold, ToUpper;
    if v.Col? {
      assert PartsTokens(v.parts[1..], rest)[0] != LParen;
      assert ValueTokens(v, rest)[1] == PartsTokens(v.parts[1..], rest)[0];
    }
  }

  function Added(p: Projection, it: Item): Projection {
    p.(countStar := p.countStar || it.expr.None?, items := p.items + [it])
  }

  lemma CountBack(p: Projection, rest: seq<Token>)
    requires Stream(rest)
    ensures var ts := [Ident("COUNT"), LParen] + ([Star, RParen] + rest);
      Stream(ts) && ParseItem(p, ts) == Parsed(Added(p, Item(None, "_1")), rest)
  {
    NextTwo(Star, RParen, rest);
    NextTwo(Ident("COUNT"), LParen, [Star, RParen] + rest);
    var ts := [Ident("COUNT"), LParen] + ([Star, RParen] + rest);
    assert ts[1] == LParen && EqualFold("COUNT", "COUNT");
    hide Next, EqualFold;
  }

  lemma ColumnNamed(p: Projection, it: Item)
    requires WellFormedItem(it) && it.expr.Some?
    ensures it.name != "" && Column(p, it.expr.value, if OwnName(it) then "" else it.name) == it
  {
    if OwnName(it) {
      var parts := it.expr.value.parts;
      if |parts| > 1 { assert parts[|parts| - 1] == parts[1..][|parts| - 2]; }
      assert it.name in parts[1..] || it.name == parts[0];
      assert IdentText(it.name) || NumberText(it.name);
    }
  }

  lemma ColumnBack(p: Projection, it: Item, rest: seq<Token>)
    requires WellFormedItem(it) && it.expr.Some? && AfterItem(rest)
    ensures Stream(ItemTokens(it, rest)) && ParseItem(p, ItemTokens(it, rest)) == Parsed(Added(p, it), rest)
  {
    var e, alias := it.expr.value, if OwnName(it) then "" else it.name;
    var us := AliasTokens(alias, rest);
    hide Next, Stream, ParseValue, OptAlias, Column, CountAhead, WellFormedValue, IdentText, OwnName, AliasTokens, ValueTokens;
    AliasBack(alias, rest);
    ValueBack(e, us);
    ValueStart(e, us);
    NoCount(e, us);
    ColumnNamed(p, it);
  }

  lemma ItemBack(p: Projection, it: Item, rest: seq<Token>)
    requires WellFormedItem(it) && AfterItem(rest)
    ensures Stream(ItemTokens(it, rest)) && ParseItem(p, ItemTokens(it, rest)) == Parsed(Added(p, it), rest)
  {
    if it.expr.None? {
      CountBack(p, rest);
    } else {
      ColumnBack(p, it, rest);
    }
  }

  function AllAdded(p: Projection, items: seq<Item>): Projection {
    p.(countStar := p.countStar || HasCount(items), items := p.items + items)
  }

  lemma AddedFirst(p: Projection, items: seq<Item>)
    requires items != []
    ensures AllAdded(Added(p, items[0]), items[1..]) == AllAdded(p, items)
  {
    assert items == [items[0]] + items[1..];
    assert p.items + [items[0]] + items[1..] == p.items + items;
    assert HasCount(items) <==> items[0].expr.None? || HasCount(items[1..]);
  }

  lemma {:induction false} ItemsBack(p: Projection, items: seq<Item>, rest: seq<Token>)
    requires items != [] && !p.star && AfterItem(rest) && rest[0] != Comma && forall it | it in items :: WellFormedItem(it)
    ensures Stream(ItemsTokens(items, rest)) && ParseItems(p, ItemsTokens(items, rest)) == Parsed(AllAdded(p, items), rest)
    decreases |items|
  {
    hide WellFormedItem, ParseItem, ItemTokens, AllAdded, Next, Stream;
    AddedFirst(p, items);
    var p' := Added(p, items[0]);
    if |items| == 1 {
      ItemBack(p, items[0], rest);
      NoneAdded(p');
      assert items[1..] == [];
    } else {
      ItemsBack(p', items[1..], rest);
      NextOf(Comma, ItemsTokens(items[1..], rest));
      ItemBack(p, items[0], [Comma] + ItemsTokens(items[1..], rest));
    }
  }

  lemma NoneAdded(p: Projection)
    ensures AllAdded(p, []) == p
  {
    assert p.items + [] == p.items;
  }

  lemma StarBack(p: Projection, rest: seq<Token>)
    requires AfterItem(rest) && rest[0] != Comma && p == Projection(false, false, [])
    ensures Stream([Star] + rest) && ParseItems(p, [Star] + rest) == Parsed(p.(star := true), rest)
  {
    NextOf(Star, rest);
    hide Next;
  }

  /** A rendered projection parses back. */
  lemma ProjectionBack(p: Projection, rest: seq<Token>)
    requires WellFormedProjection(p) && AfterItem(rest) && rest[0] != Comma
    ensures Stream(ItemsTokens(p.items, rest))
    ensures ParseItems(Projection(false, false, []), ItemsTokens(p.items, rest)) == Parsed(p, rest)
  {
    hide ParseItems, WellFormedItem;
    if p.items == [] {
      StarBack(Projection(false, false, []), rest);
      assert !HasCount([]);
    } else {
      ItemsBack(Projection(false, false, []), p.items, rest);
      assert [] + p.items == p.items;
    }
  }

  // ---- the clauses come back ----

  lemma FromBack(alias: string, rest: seq<Token>)
    requires AfterFrom(rest)
    ensures var ts := [Ident("S3Object")] + AliasTokens(alias, rest);
      Stream(ts) && ParseFrom(ts) == Parsed(alias, rest)
  {
    AliasBack(alias, rest);
    NextOf(Ident("S3Object"), AliasTokens(alias, rest));
    hide Next, Stream, OptAlias, AliasTokens;
    assert EqualFold("S3Object", "S3Object");
  }

  lemma WhereBack(where: Option<Pred>, rest: seq<Token>)
    requires where.Some? ==> WellFormedPred(where.value)
    requires AfterFrom(rest) && rest[0] != Ident("WHERE")
    ensures AfterFrom(WhereTokens(where, rest)) && ParseWhere(WhereTokens(where, rest)) == Parsed(where, rest)
  {
    Distinct();
    match where
    case None =>
      assert !EqualFold("LIMIT", "WHERE") by { assert Fold("LIMIT"[0]) != Fold("WHERE"[0]); }
    case Some(p) =>
      OrBack(p, rest);
      Ends(p, rest);
      NextOf(Ident("WHERE"), PredTokens(p, 0, rest));
      hide Next, Stream, ParseOr, OrTail, PredTokens;
      assert EqualFold("WHERE", "WHERE");
  }

  lemma {:induction false} AllDigitsSpan(s: string)
    requires Decimal.AllDigits(s)
    ensures Digits(s) == |s|
  {
    if s != "" {
      assert Decimal.IsDigit(s[0]);
      AllDigitsSpan(s[1..]);
    }
  }

  lemma DecimalBack(n: nat)
    requires n <= Decimal.MAX_INT
    ensures NumberText(Decimal.Dec(n)) && Decimal.ParseInt(Decimal.Dec(n)) == Some(n)
  {
    var s := Decimal.Dec(n);
    assert Decimal.IsDigit(s[0]);
    AllDigitsSpan(s);
  }

  lemma LimitBack(limit: int)
    requires limit == -1 || 0 <= limit <= Decimal.MAX_INT
    ensures var ts := LimitTokens(limit, [EOF]);
      AfterFrom(ts) && ts[0] != Ident("WHERE") && ParseLimit(ts) == Parsed(limit, [EOF])
  {
    if limit >= 0 {
      DecimalBack(limit);
      NextTwo(Ident("LIMIT"), Number(Decimal.Dec(limit)), [EOF]);
      hide Next, Decimal.ParseInt;
      assert EqualFold("LIMIT", "LIMIT");
    }
  }

  lemma StatementStep(q: Query, ts: seq<Token>, us: seq<Token>, ws: seq<Token>, xs: seq<Token>, ys: seq<Token>)
    requires Stream(ts) && Keyword(ts[0], "SELECT")
    requires ParseItems(Projection(false, false, []), Next(ts)) == Parsed(q.proj, us) && Keyword(us[0], "FROM")
    requires ParseFrom(Next(us)) == Parsed(q.alias, ws) && ParseWhere(ws) == Parsed(q.where, xs)
    requires ParseLimit(xs) == Parsed(q.limit, ys) && ys[0] == EOF
    ensures ParseStatement(ts) == Some(q)
  {
    hide ParseItems, ParseFrom, ParseWhere, ParseLimit, Next, Stream, Keyword;
  }

  lemma KeywordAhead(kw: string, rest: seq<Token>)
    requires Stream(rest)
    ensures var ts := [Ident(kw)] + rest; Stream(ts) && ts[0] == Ident(kw) && Keyword(ts[0], kw) && Next(ts) == rest
  {
    NextOf(Ident(kw), rest);
  }

  /** A rendered statement parses back. */
  lemma StatementBack(q: Query)
    requires WellFormedQuery(q)
    ensures Stream(QueryTokens(q)) && ParseStatement(QueryTokens(q)) == Some(q)
  {
    var limit := LimitTokens(q.limit, [EOF]);
    var tail := WhereTokens(q.where, limit);
    var source := [Ident("S3Object")] + AliasTokens(q.alias, tail);
    var from := [Ident("FROM")] + source;
    assert [Ident("FROM"), Ident("S3Object")] + AliasTokens(q.alias, tail) == from;
    assert QueryTokens(q) == [Ident("SELECT")] + ItemsTokens(q.proj.items, from);
    hide WellFormedPred, ParseItems, ParseFrom, ParseWhere, ParseLimit, ParseStatement, ItemsTokens, WhereTokens, LimitTokens,
      AliasTokens, QueryTokens, WellFormedProjection, Next, Keyword;
    LimitBack(q.limit);
    WhereBack(q.where, limit);
    FromBack(q.alias, tail);
    KeywordAhead("FROM", source);
    ProjectionBack(q.proj, from);
    KeywordAhead("SELECT", ItemsTokens(q.proj.items, from));
    StatementStep(q, QueryTokens(q), from, tail, limit, [EOF]);
  }

  // ---- rendered statements have a spelling ----

  lemma AliasClean(alias: string, rest: seq<Token>)
    requires (alias == "" || IdentText(alias)) && Clean(rest)
    ensures Clean(AliasTokens(alias, rest))
  {
    Words();
    hide IdentText, Clean;
    if alias != "" { ConsTwo(Ident("AS"), Ident(alias), rest); }
  }

  lemma ItemClean(it: Item, rest: seq<Token>)
    requires WellFormedItem(it) && Clean(rest)
    ensures Clean(ItemTokens(it, rest))
  {
    Words();
    hide IdentText, Clean, WellFormedValue;
    match it.expr
    case None =>
      ConsTwo(Star, RParen, rest);
      ConsTwo(Ident("COUNT"), LParen, [Star, RParen] + rest);
    case Some(e) =>
      var alias := if OwnName(it) then "" else it.name;
      AliasClean(alias, rest);
      ValueClean(e, AliasTokens(alias, rest));
  }

  lemma {:induction false} ItemsClean(items: seq<Item>, rest: seq<Token>)
    requires Clean(rest) && forall it | it in items :: WellFormedItem(it)
    ensures Clean(ItemsTokens(items, rest))
  {
    hide Clean, WellFormedItem, ItemTokens;
    if items == [] {
      Cons(Star, rest);
    } else if |items| == 1 {
      ItemClean(items[0], rest);
    } else {
      ItemsClean(items[1..], rest);
      Cons(Comma, ItemsTokens(items[1..], rest));
      ItemClean(items[0], [Comma] + ItemsTokens(items[1..], rest));
    }
  }

  lemma WhereClean(where: Option<Pred>, rest: seq<Token>)
    requires (where.Some? ==> WellFormedPred(where.value)) && Clean(rest)
    ensures Clean(WhereTokens(where, rest))
  {
    Words();
    hide Clean, IdentText;
    if where.Some? {
      PredClean(where.value, 0, rest);
      Cons(Ident("WHERE"), PredTokens(where.value, 0, rest));
    }
  }

  lemma LimitClean(limit: int)
    requires limit <= Decimal.MAX_INT
    ensures Clean(LimitTokens(limit, [EOF]))
  {
    Words();
    assert Clean([EOF]);
    hide Clean, IdentText, NumberText;
    if limit >= 0 {
      DecimalBack(limit);
      ConsTwo(Ident("LIMIT"), Number(Decimal.Dec(limit)), [EOF]);
    }
  }

  lemma QueryClean(q: Query)
    requires WellFormedQuery(q)
    ensures Clean(QueryTokens(q))
  {
    var limit := LimitTokens(q.limit, [EOF]);
    var tail := WhereTokens(q.where, limit);
    var source := AliasTokens(q.alias, tail);
    var from := [Ident("FROM"), Ident("S3Object")] + source;
    assert QueryTokens(q) == [Ident("SELECT")] + ItemsTokens(q.proj.items, from);
    Words();
    hide Clean, IdentText, NumberText, WellFormedPred, WellFormedItem, ItemsTokens, WhereTokens, LimitTokens, AliasTokens,
      QueryTokens;
    LimitClean(q.limit);
    WhereClean(q.where, limit);
    AliasClean(q.alias, tail);
    ConsTwo(Ident("FROM"), Ident("S3Object"), source);
    ItemsClean(q.proj.items, from);
    Cons(Ident("SELECT"), ItemsTokens(q.proj.items, from));
  }

  // ---- from text to tree ----

  /** The statement a text denotes, or none for a lexical or syntactic error. */
  function Parse(sql: string): Option<Query> {
    match Lex(sql)
    case None => None
    case Some(ts) => if Stream(ts) then ParseStatement(ts) else None
  }

  function Render(q: Query): string { Spell(QueryTokens(q)) }

  /** ROUND TRIP: every well-formed statement, its predicate nested at will, parses back from its text. */
  lemma ParseBack(q: Query)
    requires WellFormedQuery(q)
    ensures Parse(Render(q)) == Some(q)
  {
    StatementBack(q);
    QueryClean(q);
    LexBack(QueryTokens(q));
    hide Lex, ParseStatement, QueryTokens, Spell;
  }
}
