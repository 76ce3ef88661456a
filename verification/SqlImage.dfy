/** Every tree the parser returns is well formed, so the well-formed trees are exactly the parsed ones. */
module SqlImage {
  import opened Types
  import opened Sql
  import opened Characters
  import opened SqlLexer
  import opened SqlGrammar
  import opened SqlRoundTrip
  import opened SqlStatements
  import Decimal

  ghost predicate Lexed(ts: seq<Token>) { Stream(ts) && AllLexical(ts) }

  lemma NextLexed(ts: seq<Token>)
    requires Lexed(ts)
    ensures Lexed(Next(ts))
  {}

  lemma HeadLexical(ts: seq<Token>)
    requires Lexed(ts) && ts[0] != EOF
    ensures Lexical(ts[0])
  {}

  // ---- values ----

  lemma {:induction false} DotTailSound(parts: seq<string>, ts: seq<Token>)
    requires Lexed(ts) && WellFormedColumn(parts) && DotTail(parts, ts).Parsed?
    ensures var r := DotTail(parts, ts);
      Lexed(r.rest) && r.value.Col? && WellFormedColumn(r.value.parts) && r.value.parts[0] == parts[0]
    decreases |ts|
  {
    if ts[0] == Dot {
      var us := Next(ts);
      NextLexed(ts);
      HeadLexical(us);
      NextLexed(us);
      PartAdded(parts, us[0].text);
      hide AllLexical, Next, WellFormedColumn;
      DotTailSound(parts + [us[0].text], Next(us));
    }
  }

  lemma PartAdded(parts: seq<string>, s: string)
    requires WellFormedColumn(parts) && PartText(s)
    ensures WellFormedColumn(parts + [s])
  {
    assert (parts + [s])[1..] == parts[1..] + [s];
  }

  lemma {:induction false} ValueSound(ts: seq<Token>)
    requires Lexed(ts) && ParseValue(ts).Parsed?
    ensures var r := ParseValue(ts);
      Lexed(r.rest) && WellFormedValue(r.value) && (r.value.Col? ==> ts[0] == Ident(r.value.parts[0]))
    decreases |ts|, 1
  {
    HeadLexical(ts);
    NextLexed(ts);
    if ts[0].Ident? {
      var up := ToUpper(ts[0].text);
      hide AllLexical, Next, ToUpper, IdentText;
      if up == "CAST" {
        CastSound(ts);
      } else if up != "TRUE" && up != "FALSE" {
        assert WellFormedColumn([ts[0].text]);
        DotTailSound([ts[0].text], Next(ts));
      }
    }
  }

  lemma {:induction false} CastSound(ts: seq<Token>)
    requires Lexed(ts) && ts[0].Ident? && ParseCast(ts).Parsed?
    ensures Lexed(ParseCast(ts).rest) && ParseCast(ts).value.Cast? && WellFormedValue(ParseCast(ts).value)
    decreases |ts|, 0
  {
    hide AllLexical, ParseValue;
    NextLexed(ts);
    NextLexed(Next(ts));
    ValueSound(Next(Next(ts)));
    var ws := ParseValue(Next(Next(ts))).rest;
    NextLexed(ws);
    NextLexed(Next(ws));
    NextLexed(Next(Next(ws)));
  }

  // ---- predicates ----

  lemma RestSound(left: Value, ts: seq<Token>)
    requires Lexed(ts) && Leads(left) && Rest(left, ts).Parsed?
    ensures Lexed(Rest(left, ts).rest) && WellFormedPred(Rest(left, ts).value)
  {
    hide AllLexical, ParseValue, WellFormedValue, Keyword, Next;
    var us := if NotLike(ts) then Next(ts) else ts;
    NextLexed(ts);
    NextLexed(us);
    if Keyword(us[0], "LIKE") {
      NextLexed(Next(us));
    } else if us[0].Op? {
      HeadLexical(us);
      ValueSound(Next(us));
    }
  }

  lemma {:induction false} OrSound(ts: seq<Token>)
    requires Lexed(ts) && ParseOr(ts).Parsed?
    ensures Lexed(ParseOr(ts).rest) && WellFormedPred(ParseOr(ts).value)
    decreases |ts|, 4
  {
    hide AllLexical, ParseAnd, OrTail;
    AndSound(ts);
    OrTailSound(ParseAnd(ts).value, ParseAnd(ts).rest);
  }

  lemma {:induction false} OrTailSound(left: Pred, ts: seq<Token>)
    requires Lexed(ts) && WellFormedPred(left) && OrTail(left, ts).Parsed?
    ensures Lexed(OrTail(left, ts).rest) && WellFormedPred(OrTail(left, ts).value)
    decreases |ts|, 4
  {
    hide AllLexical, ParseAnd, EqualFold, Next;
    if Keyword(ts[0], "OR") {
      NextLexed(ts);
      AndSound(Next(ts));
      var r := ParseAnd(Next(ts));
      OrTailSound(Or(left, r.value), r.rest);
    }
  }

  lemma {:induction false} AndSound(ts: seq<Token>)
    requires Lexed(ts) && ParseAnd(ts).Parsed?
    ensures Lexed(ParseAnd(ts).rest) && WellFormedPred(ParseAnd(ts).value)
    decreases |ts|, 3
  {
    hide AllLexical, ParseNot, AndTail;
    NotSound(ts);
    AndTailSound(ParseNot(ts).value, ParseNot(ts).rest);
  }

  lemma {:induction false} AndTailSound(left: Pred, ts: seq<Token>)
    requires Lexed(ts) && WellFormedPred(left) && AndTail(left, ts).Parsed?
    ensures Lexed(AndTail(left, ts).rest) && WellFormedPred(AndTail(left, ts).value)
    decreases |ts|, 3
  {
    hide AllLexical, ParseNot, EqualFold, Next;
    if Keyword(ts[0], "AND") {
      NextLexed(ts);
      NotSound(Next(ts));
      var r := ParseNot(Next(ts));
      AndTailSound(And(left, r.value), r.rest);
    }
  }

  lemma {:induction false} NotSound(ts: seq<Token>)
    requires Lexed(ts) && ParseNot(ts).Parsed?
    ensures Lexed(ParseNot(ts).rest) && WellFormedPred(ParseNot(ts).value)
    decreases |ts|, 2
  {
    hide AllLexical, EqualFold, Next, ParsePrimary;
    if Keyword(ts[0], "NOT") {
      NextLexed(ts);
      NotSound(Next(ts));
    } else {
      PrimarySound(ts);
    }
  }

  lemma {:induction false} PrimarySound(ts: seq<Token>)
    requires Lexed(ts) && !Keyword(ts[0], "NOT") && ParsePrimary(ts).Parsed?
    ensures Lexed(ParsePrimary(ts).rest) && WellFormedPred(ParsePrimary(ts).value)
    decreases |ts|, 1
  {
    hide AllLexical, ParseOr, ParseValue, Rest, Next, WellFormedValue, EqualFold;
    if ts[0] == LParen {
      NextLexed(ts);
      OrSound(Next(ts));
      NextLexed(ParseOr(Next(ts)).rest);
    } else {
      ValueSound(ts);
      var r := ParseValue(ts);
      assert Leads(r.value);
      RestSound(r.value, r.rest);
    }
  }

  // ---- projections ----

  lemma AliasSound(ts: seq<Token>)
    requires Lexed(ts)
    ensures var r := OptAlias(ts); Lexed(r.1) && (r.0 == "" || IdentText(r.0))
  {
    hide IdentText, EqualFold, ToUpper;
    NextLexed(ts);
    NextLexed(Next(ts));
    if ts[0] != EOF { HeadLexical(ts); }
    if Next(ts)[0] != EOF { HeadLexical(Next(ts)); }
  }

  lemma NumberedName(n: nat)
    ensures IdentText("_" + Decimal.Dec(n))
  {
    var d := Decimal.Dec(n);
    var s := "_" + d;
    forall c | c in s ensures IdentChar(c) {
      if c != '_' { assert c in d && Decimal.IsDigit(c); }
    }
  }

  /** The projection gathered so far. */
  ghost predicate Gathered(p: Projection) {
    (p.countStar <==> HasCount(p.items)) && forall it | it in p.items :: WellFormedItem(it)
  }

  lemma GatheredMore(p: Projection, it: Item)
    requires Gathered(p) && WellFormedItem(it)
    ensures Gathered(Added(p, it))
  {
    hide WellFormedItem;
    assert HasCount(p.items + [it]) <==> HasCount(p.items) || it.expr.None?;
  }

  lemma ColumnSound(p: Projection, e: Value, alias: string)
    requires WellFormedValue(e) && (alias == "" || IdentText(alias))
    ensures WellFormedItem(Column(p, e, alias))
  {
    hide IdentText, WellFormedValue;
    NumberedName(|p.items| + 1);
  }

  lemma ItemSound(p: Projection, ts: seq<Token>)
    requires Lexed(ts) && Gathered(p) && ParseItem(p, ts).Parsed?
    ensures var r := ParseItem(p, ts); Lexed(r.rest) && Gathered(r.value) && (r.value.star || r.value.items != [])
  {
    hide AllLexical, ParseValue, OptAlias, Column, WellFormedItem, Gathered, Next, CountAhead, WellFormedValue, IdentText;
    if CountAhead(ts) {
      NextLexed(ts);
      NextLexed(Next(ts));
      NextLexed(Next(Next(ts)));
      NextLexed(Next(Next(Next(ts))));
      CountItem();
      GatheredMore(p, Item(None, "_1"));
    } else if ts[0] == Star {
      NextLexed(ts);
      StarGathered(p);
    } else {
      ValueSound(ts);
      var r := ParseValue(ts);
      AliasSound(r.rest);
      ColumnSound(p, r.value, OptAlias(r.rest).0);
      ColumnExpr(p, r.value, OptAlias(r.rest).0);
      GatheredMore(p, Column(p, r.value, OptAlias(r.rest).0));
    }
  }

  lemma CountItem()
    ensures WellFormedItem(Item(None, "_1"))
  {}

  lemma ColumnExpr(p: Projection, e: Value, alias: string)
    ensures Column(p, e, alias).expr == Some(e)
  {}

  lemma StarGathered(p: Projection)
    requires Gathered(p)
    ensures Gathered(p.(star := true))
  {}

  lemma {:induction false} ItemsSound(p: Projection, ts: seq<Token>)
    requires Lexed(ts) && Gathered(p) && ParseItems(p, ts).Parsed?
    ensures Lexed(ParseItems(p, ts).rest) && WellFormedProjection(ParseItems(p, ts).value)
    decreases |ts|
  {
    hide AllLexical, ParseItem, WellFormedItem, HasCount, Next;
    ItemSound(p, ts);
    var r := ParseItem(p, ts);
    if r.rest[0] == Comma {
      NextLexed(r.rest);
      ItemsSound(r.value, Next(r.rest));
    }
  }

  // ---- statements ----

  lemma {:induction false} DotPathSound(ts: seq<Token>)
    requires Lexed(ts) && DotPath(ts).Some?
    ensures Lexed(DotPath(ts).value)
    decreases |ts|
  {
    hide AllLexical, Next;
    if ts[0] == Dot {
      NextLexed(ts);
      NextLexed(Next(ts));
      DotPathSound(Next(Next(ts)));
    }
  }

  lemma BracketsSound(ts: seq<Token>)
    requires Lexed(ts) && Brackets(ts).Some?
    ensures Lexed(Brackets(ts).value)
  {
    hide AllLexical, Next;
    NextLexed(ts);
    NextLexed(Next(ts));
    NextLexed(Next(Next(ts)));
  }

  lemma FromSound(ts: seq<Token>)
    requires Lexed(ts) && ParseFrom(ts).Parsed?
    ensures Lexed(ParseFrom(ts).rest) && (ParseFrom(ts).value == "" || IdentText(ParseFrom(ts).value))
  {
    hide AllLexical, Next, Brackets, DotPath, OptAlias, IdentText, Keyword;
    NextLexed(ts);
    BracketsSound(Next(ts));
    var us := Brackets(Next(ts)).value;
    DotPathSound(us);
    AliasSound(DotPath(us).value);
  }

  lemma WhereSound(ts: seq<Token>)
    requires Lexed(ts) && ParseWhere(ts).Parsed?
    ensures var r := ParseWhere(ts); Lexed(r.rest) && (r.value.Some? ==> WellFormedPred(r.value.value))
  {
    hide AllLexical, Next, ParseOr, Keyword;
    if Keyword(ts[0], "WHERE") {
      NextLexed(ts);
      OrSound(Next(ts));
    }
  }

  lemma StatementSound(ts: seq<Token>)
    requires Lexed(ts) && ParseStatement(ts).Some?
    ensures WellFormedQuery(ParseStatement(ts).value)
  {
    hide AllLexical, Next, Keyword, ParseItems, ParseFrom, ParseWhere, WellFormedProjection, WellFormedPred, IdentText;
    var start := Projection(false, false, []);
    assert Gathered(start);
    NextLexed(ts);
    ItemsSound(start, Next(ts));
    var us := ParseItems(start, Next(ts)).rest;
    NextLexed(us);
    FromSound(Next(us));
    WhereSound(ParseFrom(Next(us)).rest);
  }

  lemma ParseSound(sql: string)
    requires Parse(sql).Some?
    ensures WellFormedQuery(Parse(sql).value)
  {
    hide Lex, ParseStatement;
    LexedStream(sql);
    StatementSound(Lex(sql).value);
  }

  /** MAIN THEOREM: a statement is the meaning of some text if and only if it is well formed, and its
      rendering is such a text; so the parser loses nothing and returns nothing else. */
  lemma ParsedExactly(q: Query)
    ensures (exists sql :: Parse(sql) == Some(q)) <==> WellFormedQuery(q)
    ensures WellFormedQuery(q) ==> Parse(Render(q)) == Some(q)
  {
    hide Parse, Render;
    if WellFormedQuery(q) { ParseBack(q); }
    forall sql | Parse(sql) == Some(q) ensures WellFormedQuery(q) { ParseSound(sql); }
  }

  /** Rendering and parsing again changes nothing more, whatever text came first. */
  lemma Normalised(sql: string)
    ensures Parse(sql).Some? ==> Parse(Render(Parse(sql).value)) == Parse(sql)
  {
    hide Parse, Render;
    if Parse(sql).Some? {
      ParseSound(sql);
      ParseBack(Parse(sql).value);
    }
  }
}
