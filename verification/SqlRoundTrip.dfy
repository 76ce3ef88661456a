/** Rendering statements, and the exact set of syntax trees the parser can return. */
module SqlRoundTrip {
  import opened Types
  import opened Sql
  import opened Characters
  import opened SqlLexer
  import opened SqlGrammar
  import Decimal

  // ---- which trees have a text ----

  const LITERALS: set<string> := {"TRUE", "FALSE", "CAST"}

  predicate PartText(s: string) { IdentText(s) || NumberText(s) }

  predicate WellFormedColumn(parts: seq<string>) {
    && parts != [] && IdentText(parts[0]) && ToUpper(parts[0]) !in LITERALS
    && forall s | s in parts[1..] :: PartText(s)
  }

  predicate WellFormedValue(v: Value) {
    match v
    case StrLit(_) => true
    case NumLit(s) => NumberText(s) && FloatText(s)
    case BoolLit(_) => true
    case Col(parts) => WellFormedColumn(parts)
    case Cast(inner, typ) => WellFormedValue(inner) && typ in {"INT", "FLOAT", "STRING"}
  }

  /** A value that may start a predicate: not a column called NOT. */
  predicate Leads(v: Value) { WellFormedValue(v) && !(v.Col? && EqualFold(v.parts[0], "NOT")) }

  predicate WellFormedPred(p: Pred) {
    match p
    case Or(l, r) => WellFormedPred(l) && WellFormedPred(r)
    case And(l, r) => WellFormedPred(l) && WellFormedPred(r)
    case Not(q) => WellFormedPred(q)
    case Like(v, pattern, _) => Leads(v) && Compiles(pattern)
    case Cmp(l, r, op) => Leads(l) && WellFormedValue(r) && op in OPS
    case Truth(v) => Leads(v)
  }

  predicate OwnName(it: Item) { it.expr.Some? && it.expr.value.Col? && it.expr.value.parts != [] &&
    it.name == it.expr.value.parts[|it.expr.value.parts| - 1] }

  predicate WellFormedItem(it: Item) {
    match it.expr
    case None => it.name == "_1"
    case Some(e) => WellFormedValue(e) && (OwnName(it) || IdentText(it.name))
  }

  predicate HasCount(items: seq<Item>) { exists it | it in items :: it.expr.None? }

  predicate WellFormedProjection(p: Projection) {
    && (p.star <==> p.items == [])
    && (p.countStar <==> HasCount(p.items))
    && forall it | it in p.items :: WellFormedItem(it)
  }

  predicate WellFormedQuery(q: Query) {
    && WellFormedProjection(q.proj)
    && (q.alias == "" || IdentText(q.alias))
    && (q.where.Some? ==> WellFormedPred(q.where.value))
    && (q.limit == -1 || 0 <= q.limit <= Decimal.MAX_INT)
  }

  // ---- rendering, in front of the tokens that follow ----

  function PartToken(s: string): Token { if IdentText(s) then Ident(s) else Number(s) }

  function PartsTokens(parts: seq<string>, rest: seq<Token>): seq<Token> {
    if parts == [] then rest else [Dot, PartToken(parts[0])] + PartsTokens(parts[1..], rest)
  }

  function ValueTokens(v: Value, rest: seq<Token>): seq<Token> {
    match v
    case StrLit(s) => [Str(s)] + rest
    case NumLit(s) => [Number(s)] + rest
    case BoolLit(b) => [Ident(if b then "TRUE" else "FALSE")] + rest
    case Col(parts) => if parts == [] then rest else [Ident(parts[0])] + PartsTokens(parts[1..], rest)
    case Cast(inner, typ) => [Ident("CAST"), LParen] + ValueTokens(inner, [Ident("AS"), Ident(typ), RParen] + rest)
  }

  /** Operands bind tighter as `level` grows from OR (0) over AND (1) to NOT (2); what binds less
      tightly than its place demands goes into parentheses. */
  function PredTokens(p: Pred, level: nat, rest: seq<Token>): seq<Token>
    decreases p, level
  {
    match p
    case Or(l, r) =>
      if level > 0 then [LParen] + PredTokens(p, 0, [RParen] + rest)
      else PredTokens(l, 0, [Ident("OR")] + PredTokens(r, 1, rest))
    case And(l, r) =>
      if level > 1 then [LParen] + PredTokens(p, 0, [RParen] + rest)
      else PredTokens(l, 1, [Ident("AND")] + PredTokens(r, 2, rest))
    case Not(q) => [Ident("NOT")] + PredTokens(q, 2, rest)
    case Like(v, pattern, neg) =>
      var like := [Ident("LIKE"), Str(pattern)] + rest;
      ValueTokens(v, if neg then [Ident("NOT")] + like else like)
    case Cmp(l, r, op) => ValueTokens(l, [Op(op)] + ValueTokens(r, rest))
    case Truth(v) => ValueTokens(v, rest)
  }

  // ---- values come back ----

  lemma NextOf(t: Token, rest: seq<Token>)
    requires Stream(rest)
    ensures Stream([t] + rest) && Next([t] + rest) == rest && ([t] + rest)[0] == t
  {
    assert ([t] + rest)[1..] == rest;
  }

  lemma NextTwo(a: Token, b: Token, rest: seq<Token>)
    requires Stream(rest)
    ensures var ts := [a, b] + rest;
      Stream(ts) && ts[0] == a && Stream([b] + rest) && Next(ts) == [b] + rest && Next(ts)[0] == b && Next(Next(ts)) == rest
  {
    NextOf(b, rest);
    NextOf(a, [b] + rest);
    assert [a, b] + rest == [a] + ([b] + rest);
  }

  lemma DotStep(done: seq<string>, part: string, more: seq<Token>)
    requires Stream(more) && PartText(part)
    ensures var ts := [Dot, PartToken(part)] + more;
      Stream(ts) && DotTail(done, ts) == DotTail(done + [part], more)
  {
    hide IdentText, NumberText, Stream, Next;
    var us := [PartToken(part)] + more;
    NextOf(PartToken(part), more);
    NextOf(Dot, us);
    assert [Dot, PartToken(part)] + more == [Dot] + us;
  }

  lemma DotEnd(done: seq<string>, rest: seq<Token>)
    requires Stream(rest) && rest[0] != Dot
    ensures DotTail(done, rest) == Parsed(Col(done), rest)
  {}

  lemma {:induction false} PartsBack(done: seq<string>, parts: seq<string>, rest: seq<Token>)
    requires Stream(rest) && rest[0] != Dot && forall s | s in parts :: PartText(s)
    ensures Stream(PartsTokens(parts, rest)) && DotTail(done, PartsTokens(parts, rest)) == Parsed(Col(done + parts), rest)
    decreases |parts|
  {
    hide PartText, PartToken, DotTail, Stream;
    if parts == [] {
      DotEnd(done, rest);
      assert done + parts == done;
    } else {
      var p, more := parts[0], parts[1..];
      assert p in parts && forall s | s in more :: s in parts;
      PartsBack(done + [p], more, rest);
      DotStep(done, p, PartsTokens(more, rest));
      assert done + [p] + more == done + parts;
    }
  }

  lemma TypesBack()
    ensures CastType("INT") == Some("INT") && CastType("FLOAT") == Some("FLOAT") && CastType("STRING") == Some("STRING")
  {
    assert ToUpper("INT") == "INT" && ToUpper("FLOAT") == "FLOAT" && ToUpper("STRING") == "STRING";
  }

  /** A rendered value parses back, whatever follows it but a dot. */
  lemma {:induction false} ValueBack(v: Value, rest: seq<Token>)
    requires WellFormedValue(v) && Stream(rest) && rest[0] != Dot
    ensures Stream(ValueTokens(v, rest)) && ParseValue(ValueTokens(v, rest)) == Parsed(v, rest)
  {
    match v
    case StrLit(s) => NextOf(Str(s), rest);
    case NumLit(s) => NextOf(Number(s), rest);
    case BoolLit(b) => BoolBack(b, rest);
    case Col(parts) => ColBack(parts, rest);
    case Cast(inner, typ) => CastBack(inner, typ, rest);
  }

  lemma BoolBack(b: bool, rest: seq<Token>)
    requires Stream(rest)
    ensures Stream(ValueTokens(BoolLit(b), rest)) && ParseValue(ValueTokens(BoolLit(b), rest)) == Parsed(BoolLit(b), rest)
  {
    NextOf(Ident(if b then "TRUE" else "FALSE"), rest);
    assert ToUpper("TRUE") == "TRUE" && ToUpper("FALSE") == "FALSE";
  }

  lemma ColBack(parts: seq<string>, rest: seq<Token>)
    requires WellFormedColumn(parts) && Stream(rest) && rest[0] != Dot
    ensures Stream(ValueTokens(Col(parts), rest)) && ParseValue(ValueTokens(Col(parts), rest)) == Parsed(Col(parts), rest)
  {
    hide ToUpper, IdentText, PartText, DotTail, PartsTokens;
    PartsBack([parts[0]], parts[1..], rest);
    NextOf(Ident(parts[0]), PartsTokens(parts[1..], rest));
    hide Next, Stream;
    assert [parts[0]] + parts[1..] == parts;
  }

  lemma AsStep(typ: string, rest: seq<Token>)
    requires Stream(rest) && typ in {"INT", "FLOAT", "STRING"}
    ensures var ts := [Ident("AS"), Ident(typ), RParen] + rest;
      && Stream(ts) && Keyword(ts[0], "AS") && Next(ts)[0] == Ident(typ) && CastType(typ) == Some(typ)
      && Next(Next(ts))[0] == RParen && Next(Next(Next(ts))) == rest
  {
    var end := [RParen] + rest;
    var ts := [Ident("AS"), Ident(typ), RParen] + rest;
    TypesBack();
    hide CastType;
    NextOf(RParen, rest);
    NextOf(Ident(typ), end);
    NextOf(Ident("AS"), [Ident(typ)] + end);
    assert ts == [Ident("AS")] + ([Ident(typ)] + end);
  }

  /** The rest of a CAST: AS, a type and the closing parenthesis, in front of `rest`. */
  predicate Closes(tail: seq<Token>, typ: string, rest: seq<Token>) {
    && Stream(tail) && Keyword(tail[0], "AS") && Next(tail)[0].Ident? && CastType(Next(tail)[0].text) == Some(typ)
    && Next(Next(tail))[0] == RParen && Next(Next(Next(tail))) == rest
  }

  lemma CastStep(inner: Value, typ: string, us: seq<Token>, ts: seq<Token>, tail: seq<Token>, rest: seq<Token>)
    requires Stream(us) && us[0].Ident? && Next(us)[0] == LParen && Next(Next(us)) == ts
    requires ParseValue(ts) == Parsed(inner, tail) && Closes(tail, typ, rest)
    ensures ParseCast(us) == Parsed(Cast(inner, typ), rest)
  {
    hide ParseValue, CastType, Stream, Next, Keyword;
  }

  lemma CastIsValue(ts: seq<Token>)
    requires Stream(ts) && ts[0] == Ident("CAST")
    ensures ParseValue(ts) == ParseCast(ts)
  {
    hide ParseCast;
    assert ToUpper("CAST") == "CAST";
  }

  lemma {:induction false} CastBack(inner: Value, typ: string, rest: seq<Token>)
    requires WellFormedValue(Cast(inner, typ)) && Stream(rest)
    ensures Stream(ValueTokens(Cast(inner, typ), rest))
    ensures ParseValue(ValueTokens(Cast(inner, typ), rest)) == Parsed(Cast(inner, typ), rest)
    decreases inner
  {
    AsStep(typ, rest);
    var tail := [Ident("AS"), Ident(typ), RParen] + rest;
    ValueBack(inner, tail);
    var ts, all := ValueTokens(inner, tail), ValueTokens(Cast(inner, typ), rest);
    NextTwo(Ident("CAST"), LParen, ts);
    hide ParseValue, ParseCast, Stream, Next, ValueTokens, WellFormedValue, CastType, Keyword;
    CastStep(inner, typ, all, ts, tail, rest);
    CastIsValue(all);
  }

  lemma ValueStart(v: Value, rest: seq<Token>)
    requires WellFormedValue(v)
    ensures var ts := ValueTokens(v, rest);
      ts != [] && ts[0] != LParen && ts[0] != Star && (Leads(v) ==> !Keyword(ts[0], "NOT"))
  {}

  // ---- predicates come back ----

  /** Nothing here extends a value or a comparison. */
  predicate Stop(rest: seq<Token>) {
    Stream(rest) && rest[0] != Dot && !rest[0].Op? && !Keyword(rest[0], "LIKE") && !Keyword(rest[0], "NOT")
  }

  lemma Distinct()
    ensures !EqualFold("OR", "AND") && !EqualFold("LIMIT", "OR") && !EqualFold("LIMIT", "AND")
    ensures forall kw | kw in {"OR", "AND", "LIMIT"} :: !EqualFold(kw, "LIKE") && !EqualFold(kw, "NOT")
  {
    assert Fold("OR"[0]) != Fold("NOT"[0]);
    assert Fold("AND"[0]) != Fold("NOT"[0]);
  }

  lemma PrimaryIsRest(ts: seq<Token>, left: Value, us: seq<Token>)
    requires Stream(ts) && ts[0] != LParen && ParseValue(ts) == Parsed(left, us)
    ensures ParsePrimary(ts) == Rest(left, us)
  {
    hide ParseValue, Rest, Next;
  }

  lemma LikeRest(v: Value, pattern: string, rest: seq<Token>)
    requires Compiles(pattern) && Stream(rest)
    ensures var like := [Ident("LIKE"), Str(pattern)] + rest;
      && Stream(like) && Rest(v, like) == Parsed(Like(v, pattern, false), rest)
      && Stream([Ident("NOT")] + like) && Rest(v, [Ident("NOT")] + like) == Parsed(Like(v, pattern, true), rest)
  {
    var like := [Ident("LIKE"), Str(pattern)] + rest;
    NextTwo(Ident("LIKE"), Str(pattern), rest);
    NextOf(Ident("NOT"), like);
    hide Stream, Next;
    assert Fold("LIKE"[0]) != Fold("NOT"[0]);
    assert ([Ident("NOT")] + like)[1] == Ident("LIKE");
  }

  lemma LikeBack(v: Value, pattern: string, neg: bool, rest: seq<Token>)
    requires Leads(v) && Compiles(pattern) && Stream(rest)
    ensures var p := Like(v, pattern, neg);
      Stream(PredTokens(p, 2, rest)) && ParsePrimary(PredTokens(p, 2, rest)) == Parsed(p, rest)
  {
    var like := [Ident("LIKE"), Str(pattern)] + rest;
    var ts := if neg then [Ident("NOT")] + like else like;
    assert PredTokens(Like(v, pattern, neg), 2, rest) == ValueTokens(v, ts);
    ValueStart(v, ts);
    LikeRest(v, pattern, rest);
    assert ts[0] != Dot;
    hide ParseValue, ParsePrimary, Rest, Next, Stream, ValueTokens, WellFormedValue, PredTokens, Keyword;
    ValueBack(v, ts);
    PrimaryIsRest(ValueTokens(v, ts), v, ts);
  }

  lemma CmpRest(l: Value, r: Value, op: string, us: seq<Token>, rest: seq<Token>)
    requires Stream(us) && us[0] == Op(op) && ParseValue(Next(us)) == Parsed(r, rest)
    ensures Rest(l, us) == Parsed(Cmp(l, r, op), rest)
  {
    hide ParseValue, Next, Stream;
  }

  lemma CmpBack(l: Value, r: Value, op: string, rest: seq<Token>)
    requires Leads(l) && WellFormedValue(r) && Stop(rest)
    ensures var p := Cmp(l, r, op);
      Stream(PredTokens(p, 2, rest)) && ParsePrimary(PredTokens(p, 2, rest)) == Parsed(p, rest)
  {
    var us := [Op(op)] + ValueTokens(r, rest);
    assert PredTokens(Cmp(l, r, op), 2, rest) == ValueTokens(l, us);
    ValueStart(l, us);
    hide ParseValue, ParsePrimary, Rest, Next, Stream, ValueTokens, WellFormedValue, PredTokens, Keyword;
    ValueBack(r, rest);
    NextOf(Op(op), ValueTokens(r, rest));
    ValueBack(l, us);
    CmpRest(l, r, op, us, rest);
    PrimaryIsRest(ValueTokens(l, us), l, us);
  }

  lemma TruthBack(v: Value, rest: seq<Token>)
    requires Leads(v) && Stop(rest)
    ensures Stream(PredTokens(Truth(v), 2, rest)) && ParsePrimary(PredTokens(Truth(v), 2, rest)) == Parsed(Truth(v), rest)
  {
    ValueBack(v, rest);
    ValueStart(v, rest);
    hide ParseValue, Stream, Next, ValueTokens, Leads, WellFormedValue;
  }

  predicate Leaf(p: Pred) { p.Like? || p.Cmp? || p.Truth? }

  lemma LeafBack(p: Pred, rest: seq<Token>)
    requires Leaf(p) && WellFormedPred(p) && Stop(rest)
    ensures Stream(PredTokens(p, 2, rest)) && ParseNot(PredTokens(p, 2, rest)) == Parsed(p, rest)
  {
    var v := if p.Cmp? then p.lhs else p.value;
    assert !Keyword(PredTokens(p, 2, rest)[0], "NOT") by {
      ValueStart(v, match p
                    case Like(_, pattern, neg) =>
                      var like := [Ident("LIKE"), Str(pattern)] + rest;
                      if neg then [Ident("NOT")] + like else like
                    case Cmp(_, r, op) => [Op(op)] + ValueTokens(r, rest)
                    case Truth(_) => rest);
    }
    match p
    case Like(v, pattern, neg) => LikeBack(v, pattern, neg, rest);
    case Cmp(l, r, op) => CmpBack(l, r, op, rest);
    case Truth(v) => TruthBack(v, rest);
  }

  lemma Ahead(t: Token, ts: seq<Token>)
    requires Stream(ts) && t in {Ident("OR"), Ident("AND"), RParen}
    ensures var us := [t] + ts;
      && Stop(us) && us[0] == t && Next(us) == ts
      && (Keyword(us[0], "OR") <==> t == Ident("OR")) && (Keyword(us[0], "AND") <==> t == Ident("AND"))
  {
    NextOf(t, ts);
    Distinct();
  }

  lemma OrOf(ts: seq<Token>, left: Pred, us: seq<Token>)
    requires Stream(ts) && ParseAnd(ts) == Parsed(left, us)
    ensures ParseOr(ts) == OrTail(left, us)
  {
    hide ParseAnd, OrTail;
  }

  lemma OrTailStep(left: Pred, right: Pred, ts: seq<Token>, us: seq<Token>)
    requires Stream(ts) && Keyword(ts[0], "OR") && ParseAnd(Next(ts)) == Parsed(right, us)
    ensures OrTail(left, ts) == OrTail(Or(left, right), us)
  {
    hide ParseAnd, Keyword, Next;
  }

  lemma AndOf(ts: seq<Token>, left: Pred, us: seq<Token>)
    requires Stream(ts) && ParseNot(ts) == Parsed(left, us)
    ensures ParseAnd(ts) == AndTail(left, us)
  {
    hide ParseNot, AndTail;
  }

  lemma AndTailStep(left: Pred, right: Pred, ts: seq<Token>, us: seq<Token>)
    requires Stream(ts) && Keyword(ts[0], "AND") && ParseNot(Next(ts)) == Parsed(right, us)
    ensures AndTail(left, ts) == AndTail(And(left, right), us)
  {
    hide ParseNot, Keyword, Next;
  }

  lemma Ends(p: Pred, rest: seq<Token>)
    requires Stream(rest)
    ensures !Keyword(rest[0], "AND") ==> AndTail(p, rest) == Parsed(p, rest)
    ensures !Keyword(rest[0], "OR") ==> OrTail(p, rest) == Parsed(p, rest)
  {}

  lemma {:induction false} OrBack(p: Pred, rest: seq<Token>)
    requires WellFormedPred(p) && Stop(rest) && !Keyword(rest[0], "AND")
    ensures Stream(PredTokens(p, 0, rest)) && ParseOr(PredTokens(p, 0, rest)) == OrTail(p, rest)
    decreases p, if p.Or? then 0 else if p.And? then 1 else 2
  {
    hide Keyword, Next, ParseOr, ParseAnd, OrTail, AndTail, Stream;
    if p.Or? {
      AndBack(p.right, rest);
      Ends(p.right, rest);
      var ts := [Ident("OR")] + PredTokens(p.right, 1, rest);
      Ahead(Ident("OR"), PredTokens(p.right, 1, rest));
      OrBack(p.left, ts);
      OrTailStep(p.left, p.right, ts, rest);
    } else {
      AndBack(p, rest);
      Ends(p, rest);
      assert PredTokens(p, 0, rest) == PredTokens(p, 1, rest);
      OrOf(PredTokens(p, 1, rest), p, rest);
    }
  }

  lemma {:induction false} AndBack(p: Pred, rest: seq<Token>)
    requires WellFormedPred(p) && Stop(rest)
    ensures Stream(PredTokens(p, 1, rest)) && ParseAnd(PredTokens(p, 1, rest)) == AndTail(p, rest)
    decreases p, if p.And? then 0 else if p.Or? then 2 else 1
  {
    hide Keyword, Next, ParseNot, ParseAnd, AndTail, Stream;
    if p.And? {
      NotBack(p.right, rest);
      var ts := [Ident("AND")] + PredTokens(p.right, 2, rest);
      Ahead(Ident("AND"), PredTokens(p.right, 2, rest));
      AndBack(p.left, ts);
      AndTailStep(p.left, p.right, ts, rest);
    } else {
      NotBack(p, rest);
      assert PredTokens(p, 1, rest) == PredTokens(p, 2, rest);
      AndOf(PredTokens(p, 2, rest), p, rest);
    }
  }

  lemma ParenStep(p: Pred, ts: seq<Token>, us: seq<Token>)
    requires Stream(ts) && ts[0] == LParen && ParseOr(Next(ts)) == Parsed(p, us) && us[0] == RParen
    ensures ParseNot(ts) == Parsed(p, Next(us))
  {
    hide ParseOr, Next, Stream;
  }

  lemma NotStep(p: Pred, ts: seq<Token>, us: seq<Token>)
    requires Stream(ts) && Keyword(ts[0], "NOT") && ParseNot(Next(ts)) == Parsed(p, us)
    ensures ParseNot(ts) == Parsed(Not(p), us)
  {
    hide Next, Stream, Keyword, ParsePrimary;
  }

  lemma {:induction false} NotBack(p: Pred, rest: seq<Token>)
    requires WellFormedPred(p) && Stop(rest)
    ensures Stream(PredTokens(p, 2, rest)) && ParseNot(PredTokens(p, 2, rest)) == Parsed(p, rest)
    decreases p, if p.And? then 2 else if p.Or? then 1 else 0
  {
    if Leaf(p) {
      LeafBack(p, rest);
    } else if p.Not? {
      NotBack(p.inner, rest);
      var ts := PredTokens(p.inner, 2, rest);
      NextOf(Ident("NOT"), ts);
      NotStep(p.inner, [Ident("NOT")] + ts, rest);
    } else {
      hide Keyword, Next, ParseNot, ParseOr, OrTail, Stream;
      var us := [RParen] + rest;
      Ahead(RParen, rest);
      OrBack(p, us);
      Ends(p, us);
      NextOf(LParen, PredTokens(p, 0, us));
      ParenStep(p, [LParen] + PredTokens(p, 0, us), us);
    }
  }

  // ---- rendered tokens have a spelling ----

  ghost predicate Clean(ts: seq<Token>) { Stream(ts) && forall i | 0 <= i < |ts| - 1 :: Lexical(ts[i]) }

  lemma Cons(t: Token, rest: seq<Token>)
    requires Lexical(t) && Clean(rest)
    ensures Clean([t] + rest)
  {
    var ts := [t] + rest;
    forall i | 0 <= i < |ts| - 1 ensures Lexical(ts[i]) {
      if i > 0 { assert ts[i] == rest[i - 1]; }
    }
  }

  lemma ConsTwo(a: Token, b: Token, rest: seq<Token>)
    requires Lexical(a) && Lexical(b) && Clean(rest)
    ensures Clean([a, b] + rest)
  {
    Cons(b, rest);
    Cons(a, [b] + rest);
    assert [a, b] + rest == [a] + ([b] + rest);
  }

  lemma Words()
    ensures forall w | w in {"OR", "AND", "LIMIT", "NOT", "LIKE", "AS", "FROM", "WHERE", "SELECT", "S3Object", "TRUE", "FALSE",
      "CAST", "INT", "FLOAT", "STRING", "COUNT"} :: IdentText(w)
  {}

  lemma {:induction false} PartsClean(parts: seq<string>, rest: seq<Token>)
    requires Clean(rest) && forall s | s in parts :: PartText(s)
    ensures Clean(PartsTokens(parts, rest))
  {
    hide Clean, IdentText, NumberText;
    if parts != [] {
      PartsClean(parts[1..], rest);
      assert PartText(parts[0]);
      ConsTwo(Dot, PartToken(parts[0]), PartsTokens(parts[1..], rest));
    }
  }

  lemma {:induction false} ValueClean(v: Value, rest: seq<Token>)
    requires WellFormedValue(v) && Clean(rest)
    ensures Clean(ValueTokens(v, rest))
  {
    Words();
    hide Clean, IdentText, NumberText;
    match v
    case StrLit(s) => Cons(Str(s), rest);
    case NumLit(s) => Cons(Number(s), rest);
    case BoolLit(b) => Cons(Ident(if b then "TRUE" else "FALSE"), rest);
    case Col(parts) =>
      PartsClean(parts[1..], rest);
      Cons(Ident(parts[0]), PartsTokens(parts[1..], rest));
    case Cast(inner, typ) =>
      var tail := [Ident("AS"), Ident(typ), RParen] + rest;
      Cons(RParen, rest);
      ConsTwo(Ident("AS"), Ident(typ), [RParen] + rest);
      assert tail == [Ident("AS"), Ident(typ)] + ([RParen] + rest);
      ValueClean(inner, tail);
      ConsTwo(Ident("CAST"), LParen, ValueTokens(inner, tail));
  }

  lemma {:induction false} PredClean(p: Pred, level: nat, rest: seq<Token>)
    requires WellFormedPred(p) && Clean(rest)
    ensures Clean(PredTokens(p, level, rest))
    decreases p, level
  {
    Words();
    hide Clean, IdentText, NumberText, WellFormedValue;
    match p
    case Or(l, r) =>
      if level > 0 {
        Cons(RParen, rest);
        PredClean(p, 0, [RParen] + rest);
        Cons(LParen, PredTokens(p, 0, [RParen] + rest));
      } else {
        PredClean(r, 1, rest);
        Cons(Ident("OR"), PredTokens(r, 1, rest));
        PredClean(l, 0, [Ident("OR")] + PredTokens(r, 1, rest));
      }
    case And(l, r) =>
      if level > 1 {
        Cons(RParen, rest);
        PredClean(p, 0, [RParen] + rest);
        Cons(LParen, PredTokens(p, 0, [RParen] + rest));
      } else {
        PredClean(r, 2, rest);
        Cons(Ident("AND"), PredTokens(r, 2, rest));
        PredClean(l, 1, [Ident("AND")] + PredTokens(r, 2, rest));
      }
    case Not(q) =>
      PredClean(q, 2, rest);
      Cons(Ident("NOT"), PredTokens(q, 2, rest));
    case Like(v, pattern, neg) =>
      ConsTwo(Ident("LIKE"), Str(pattern), rest);
      var like := [Ident("LIKE"), Str(pattern)] + rest;
      Cons(Ident("NOT"), like);
      ValueClean(v, if neg then [Ident("NOT")] + like else like);
    case Cmp(l, r, op) =>
      ValueClean(r, rest);
      Cons(Op(op), ValueTokens(r, rest));
      ValueClean(l, [Op(op)] + ValueTokens(r, rest));
    case Truth(v) => ValueClean(v, rest);
  }
}
