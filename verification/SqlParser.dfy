/** The recursive-descent parser: a cursor over the tokens. */
module SqlParser {
  import opened Types
  import opened Sql
  import opened Characters
  import opened SqlLexer
  import opened SqlGrammar
  import opened SqlStatements
  import Decimal

  class Parser {
    const toks: seq<Token>
    var pos: nat

    /** The cursor is on a token and the last token is the end marker. */
    ghost predicate Valid()
      reads this
    {
      pos < |toks| && Stream(toks)
    }

    /** The tokens from the cursor on. */
    ghost function Left(): (r: seq<Token>)
      requires Valid()
      reads this
      ensures Stream(r)
    {
      toks[pos..]
    }

    constructor (toks: seq<Token>)
      requires Stream(toks)
      ensures Valid() && Left() == toks
    {
      this.toks := toks;
      pos := 0;
    }

    /** A method has read what the grammar reads from the same place: the same tree and the same rest. */
    ghost predicate Reads<T>(spec: Parsed<T>, r: Option<T>)
      reads this
    {
      Valid() && match spec case Failed => r == None case Parsed(v, rest) => r == Some(v) && Left() == rest
    }

    function Peek(): Token
      requires Valid()
      reads this
      ensures Peek() == Left()[0]
    {
      toks[pos]
    }

    method Advance() returns (t: Token)
      requires Valid()
      modifies this
      ensures Valid() && t == old(Left()[0]) && Left() == Next(old(Left()))
    {
      t := toks[pos];
      assert |toks[pos..]| > 1 ==> toks[pos..][1..] == toks[pos + 1..];
      if pos < |toks| - 1 {
        pos := pos + 1;
      }
    }

    /** The lookahead by one token: never past the last token. */
    function PeekNext(): Token
      requires Valid() && Peek() != EOF
      reads this
      ensures |Left()| > 1 && PeekNext() == Left()[1]
    {
      toks[pos + 1]
    }

    // ---- values ----

    method ParseColRef() returns (r: Option<Value>)
      requires Valid() && Peek().Ident?
      modifies this
      ensures Reads(SqlGrammar.ParseColRef(old(Left())), r)
    {
      var t := Advance();
      var parts := [t.text];
      ghost var spec := SqlGrammar.ParseColRef(old(Left()));
      while Peek() == Dot
        invariant Valid() && spec == DotTail(parts, Left())
        decreases |Left()|
      {
        t := Advance();
        if !Peek().Ident? && !Peek().Number? {
          return None;
        }
        t := Advance();
        parts := parts + [t.text];
      }
      r := Some(Col(parts));
    }

    method ParseCast() returns (r: Option<Value>)
      requires Valid() && Peek().Ident?
      modifies this
      ensures Reads(SqlGrammar.ParseCast(old(Left())), r)
      decreases |Left()|, 0
    {
      hide EqualFold, ToUpper;
      var t := Advance();
      if Peek() != LParen {
        return None;
      }
      t := Advance();
      var inner := ParseValue();
      if inner == None || !Keyword(Peek(), "AS") {
        return None;
      }
      t := Advance();
      t := Advance();
      if !t.Ident? {
        return None;
      }
      var typ := CastType(t.text);
      if typ == None || Peek() != RParen {
        return None;
      }
      t := Advance();
      r := Some(Cast(inner.value, typ.value));
    }

    method ParseValue() returns (r: Option<Value>)
      requires Valid()
      modifies this
      ensures Reads(SqlGrammar.ParseValue(old(Left())), r)
      decreases |Left()|, 1
    {
      hide ToUpper, Next, DotTail;
      var t := Peek();
      match t
      case Str(s) => var _ := Advance(); r := Some(StrLit(s));
      case Number(s) =>
        var _ := Advance();
        r := if FloatText(s) then Some(NumLit(s)) else None;
      case Ident(s) =>
        var up := ToUpper(s);
        if up == "TRUE" {
          var _ := Advance();
          r := Some(BoolLit(true));
        } else if up == "FALSE" {
          var _ := Advance();
          r := Some(BoolLit(false));
        } else if up == "CAST" {
          r := ParseCast();
        } else {
          r := ParseColRef();
        }
      case _ => r := None;
    }

    // ---- predicates ----

    method ParseOr() returns (r: Option<Pred>)
      requires Valid()
      modifies this
      ensures Reads(SqlGrammar.ParseOr(old(Left())), r)
      decreases |Left()|, 4
    {
      hide EqualFold, SqlGrammar.ParseAnd, Next;
      ghost var spec := SqlGrammar.ParseOr(old(Left()));
      r := ParseAnd();
      if r == None {
        return;
      }
      var left := r.value;
      while Keyword(Peek(), "OR")
        invariant Valid() && |Left()| < old(|Left()|) && spec == OrTail(left, Left())
        decreases |Left()|
      {
        var t := Advance();
        r := ParseAnd();
        if r == None {
          return;
        }
        left := Or(left, r.value);
      }
      r := Some(left);
    }

    method ParseAnd() returns (r: Option<Pred>)
      requires Valid()
      modifies this
      ensures Reads(SqlGrammar.ParseAnd(old(Left())), r)
      decreases |Left()|, 3
    {
      hide EqualFold, SqlGrammar.ParseNot, Next;
      ghost var spec := SqlGrammar.ParseAnd(old(Left()));
      r := ParseNot();
      if r == None {
        return;
      }
      var left := r.value;
      while Keyword(Peek(), "AND")
        invariant Valid() && |Left()| < old(|Left()|) && spec == AndTail(left, Left())
        decreases |Left()|
      {
        var t := Advance();
        r := ParseNot();
        if r == None {
          return;
        }
        left := And(left, r.value);
      }
      r := Some(left);
    }

    method ParseNot() returns (r: Option<Pred>)
      requires Valid()
      modifies this
      ensures Reads(SqlGrammar.ParseNot(old(Left())), r)
      decreases |Left()|, 2
    {
      hide EqualFold, SqlGrammar.ParsePrimary, Next;
      if Keyword(Peek(), "NOT") {
        var t := Advance();
        r := ParseNot();
        return if r == None then None else Some(Not(r.value));
      }
      r := ParsePrimary();
    }

    method ParsePrimary() returns (r: Option<Pred>)
      requires Valid()
      modifies this
      ensures Reads(SqlGrammar.ParsePrimary(old(Left())), r)
      decreases |Left()|, 1
    {
      hide EqualFold, SqlGrammar.ParseOr, SqlGrammar.ParseValue, Next, Rest;
      if Peek() == LParen {
        var t := Advance();
        r := ParseOr();
        if r == None || Peek() != RParen {
          return None;
        }
        t := Advance();
        return;
      }
      var left := ParseValue();
      if left == None {
        return None;
      }
      r := ParseRest(left.value);
    }

    /** [NOT] LIKE, a comparison, or a bare value. */
    method ParseRest(left: Value) returns (r: Option<Pred>)
      requires Valid()
      modifies this
      ensures Reads(Rest(left, old(Left())), r)
      decreases |Left()|, 0
    {
      hide EqualFold, SqlGrammar.ParseValue, Next;
      var neg := false;
      if Keyword(Peek(), "NOT") {
        if Keyword(PeekNext(), "LIKE") {
          var _ := Advance();
          neg := true;
        }
      }
      assert neg == NotLike(old(Left()));
      NextAt(old(Left()));
      if Keyword(Peek(), "LIKE") {
        var _ := Advance();
        var t := Advance();
        return if t.Str? && Compiles(t.text) then Some(Like(left, t.text, neg)) else None;
      }
      if Peek().Op? {
        var op := Advance();
        var right := ParseValue();
        return if right == None then None else Some(Cmp(left, right.value, op.text));
      }
      r := Some(Truth(left));
    }

    // ---- the statement ----

    method OptAlias() returns (alias: string)
      requires Valid()
      modifies this
      ensures Valid() && (alias, Left()) == SqlGrammar.OptAlias(old(Left()))
    {
      hide EqualFold, Next;
      if Keyword(Peek(), "AS") {
        var t := Advance();
        t := Advance();
        return if t.Ident? then t.text else "";
      }
      if Peek().Ident? {
        if ToUpper(Peek().text) in RESERVED {
          return "";
        }
        var t := Advance();
        return t.text;
      }
      return "";
    }

    /** One projected item, added to the query. */
    method ParseItem(q: Draft) returns (ok: bool)
      requires Valid()
      modifies this, q`proj
      ensures Reads(SqlGrammar.ParseItem(old(q.proj), old(Left())), if ok then Some(q.proj) else None)
    {
      hide EqualFold, Next, SqlGrammar.ParseValue, SqlGrammar.OptAlias;
      if Keyword(Peek(), "COUNT") && PeekNext() == LParen {
        var t := Advance();
        t := Advance();
        if Peek() != Star {
          return false;
        }
        t := Advance();
        if Peek() != RParen {
          return false;
        }
        t := Advance();
        q.proj := q.proj.(countStar := true, items := q.proj.items + [Item(None, "_1")]);
      } else if Peek() == Star {
        var t := Advance();
        q.proj := q.proj.(star := true);
      } else {
        var e := ParseValue();
        if e == None {
          return false;
        }
        var name := OptAlias();
        if name == "" && e.value.Col? && e.value.parts != [] {
          name := e.value.parts[|e.value.parts| - 1];
        }
        if name == "" {
          name := "_" + Decimal.Dec(|q.proj.items| + 1);
        }
        q.proj := q.proj.(items := q.proj.items + [Item(e, name)]);
      }
      return true;
    }

    method ParseProjection(q: Draft) returns (ok: bool)
      requires Valid()
      modifies this, q`proj
      ensures Reads(ParseItems(old(q.proj), old(Left())), if ok then Some(q.proj) else None)
    {
      hide Next, SqlGrammar.ParseItem;
      ghost var spec := ParseItems(q.proj, Left());
      while true
        invariant Valid() && spec == ParseItems(q.proj, Left())
        decreases |Left()|
      {
        ok := ParseItem(q);
        if !ok {
          return false;
        }
        if Peek() == Comma {
          var t := Advance();
          continue;
        }
        break;
      }
      return !(q.proj.star && q.proj.items != []);
    }

    /** An optional [*] or [n]. */
    method SkipBrackets() returns (ok: bool)
      requires Valid()
      modifies this
      ensures Valid() && Brackets(old(Left())) == if ok then Some(Left()) else None
    {
      hide Next;
      if Peek() == LBracket {
        var t := Advance();
        if Peek() == Star || Peek().Number? {
          t := Advance();
        }
        if Peek() != RBracket {
          return false;
        }
        t := Advance();
      }
      return true;
    }

    method SkipPath() returns (ok: bool)
      requires Valid()
      modifies this
      ensures Valid() && DotPath(old(Left())) == if ok then Some(Left()) else None
    {
      hide Next;
      ghost var start := Left();
      while Peek() == Dot
        invariant Valid() && DotPath(start) == DotPath(Left())
        decreases |Left()|
      {
        var t := Advance();
        if !Peek().Ident? {
          return false;
        }
        t := Advance();
      }
      return true;
    }

    method ParseFrom(q: Draft) returns (ok: bool)
      requires Valid()
      modifies this, q`alias
      ensures Reads(SqlGrammar.ParseFrom(old(Left())), if ok then Some(q.alias) else None)
    {
      hide EqualFold, Next, SqlGrammar.OptAlias, Brackets, DotPath;
      var t := Advance();
      if !Keyword(t, "S3Object") {
        return false;
      }
      ok := SkipBrackets();
      if !ok {
        return;
      }
      ok := SkipPath();
      if ok {
        q.alias := OptAlias();
      }
    }

    method ParseWhere(q: Draft) returns (ok: bool)
      requires Valid() && q.where == None
      modifies this, q`where
      ensures Reads(SqlGrammar.ParseWhere(old(Left())), if ok then Some(q.where) else None)
    {
      hide EqualFold, Next, SqlGrammar.ParseOr;
      if Keyword(Peek(), "WHERE") {
        var t := Advance();
        var w := ParseOr();
        if w == None {
          return false;
        }
        q.where := w;
      }
      return true;
    }

    method ParseLimit(q: Draft) returns (ok: bool)
      requires Valid() && q.limit == -1
      modifies this, q`limit
      ensures Reads(SqlGrammar.ParseLimit(old(Left())), if ok then Some(q.limit) else None)
    {
      hide EqualFold, Next;
      if Keyword(Peek(), "LIMIT") {
        var t := Advance();
        t := Advance();
        if !t.Number? {
          return false;
        }
        var lim := Decimal.ParseInt(t.text);
        if lim == None || lim.value < 0 {
          return false;
        }
        q.limit := lim.value;
      }
      return true;
    }
  }

  /** The statement under construction. */
  class Draft {
    var proj: Projection
    var alias: string
    var where: Option<Pred>
    var limit: int

    constructor ()
      ensures proj == Projection(false, false, []) && alias == "" && where == None && limit == -1
    {
      proj, alias, where, limit := Projection(false, false, []), "", None, -1;
    }
  }

  method ParseTail(p: Parser, q: Draft) returns (r: Option<Query>)
    requires p.Valid() && q.where == None && q.limit == -1
    modifies p, q
    ensures r == ParseClauses(old(q.proj), old(p.Left()))
  {
    hide EqualFold, SqlGrammar.ParseFrom, SqlGrammar.ParseWhere, SqlGrammar.ParseLimit;
    var ok := p.ParseFrom(q);
    if !ok {
      return None;
    }
    ok := p.ParseWhere(q);
    if !ok {
      return None;
    }
    ok := p.ParseLimit(q);
    if !ok || p.Peek() != EOF {
      return None;
    }
    return Some(Query(q.proj, q.alias, q.where, q.limit));
  }

  method ParseTokens(toks: seq<Token>) returns (r: Option<Query>)
    requires Stream(toks)
    ensures r == ParseStatement(toks)
  {
    hide EqualFold, Next, ParseItems, ParseClauses;
    var p := new Parser(toks);
    var q := new Draft();
    if !Keyword(p.Peek(), "SELECT") {
      return None;
    }
    var _ := p.Advance();
    var ok := p.ParseProjection(q);
    if !ok || !Keyword(p.Peek(), "FROM") {
      return None;
    }
    var _ := p.Advance();
    r := ParseTail(p, q);
  }

  /** The whole parser: it ends on every text, with exactly the tree the grammar gives. */
  method ParseText(sql: string) returns (r: Option<Query>)
    ensures r == Parse(sql)
  {
    hide Lex, ParseStatement;
    var toks := LexText(sql);
    if toks == None {
      return None;
    }
    r := ParseTokens(toks.value);
  }

  lemma NextAt(ts: seq<Token>)
    requires Stream(ts)
    ensures |ts| > 1 ==> Next(ts)[0] == ts[1]
  {}
}
