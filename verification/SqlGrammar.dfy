/** The grammar as functions on the tokens still to be read. */
module SqlGrammar {
  import opened Types
  import opened Sql
  import opened Characters
  import Decimal

  datatype Parsed<T> = Parsed(value: T, rest: seq<Token>) | Failed

  /** The tokens after one step of the cursor, which never leaves the end marker. */
  function Next(ts: seq<Token>): (r: seq<Token>)
    requires Stream(ts)
    ensures Stream(r) && |r| <= |ts|
    ensures ts[0] != EOF ==> |r| < |ts|
  {
    if |ts| > 1 then ts[1..] else ts
  }

  // ---- values ----

  function DotTail(parts: seq<string>, ts: seq<Token>): (r: Parsed<Value>)
    requires Stream(ts)
    ensures r.Parsed? ==> Stream(r.rest) && |r.rest| <= |ts|
    decreases |ts|
  {
    if ts[0] != Dot then Parsed(Col(parts), ts)
    else
      var us := Next(ts);
      if us[0].Ident? || us[0].Number? then DotTail(parts + [us[0].text], Next(us)) else Failed
  }

  function ParseColRef(ts: seq<Token>): (r: Parsed<Value>)
    requires Stream(ts) && ts[0].Ident?
    ensures r.Parsed? ==> Stream(r.rest) && |r.rest| < |ts|
  {
    DotTail([ts[0].text], Next(ts))
  }

  function CastType(name: string): Option<string> {
    var typ := ToUpper(name);
    if typ == "INT" || typ == "INTEGER" then Some("INT")
    else if typ == "FLOAT" || typ == "DECIMAL" || typ == "DOUBLE" then Some("FLOAT")
    else if typ == "STRING" || typ == "VARCHAR" then Some("STRING")
    else None
  }

  function ParseCast(ts: seq<Token>): (r: Parsed<Value>)
    requires Stream(ts) && ts[0].Ident?
    ensures r.Parsed? ==> Stream(r.rest) && |r.rest| < |ts|
    decreases |ts|, 0
  {
    var us := Next(ts);
    if us[0] != LParen then Failed
    else
      match ParseValue(Next(us))
      case Failed => Failed
      case Parsed(inner, ws) =>
        if !Keyword(ws[0], "AS") then Failed
        else
          var xs := Next(ws);
          var ys := Next(xs);
          if !xs[0].Ident? || CastType(xs[0].text) == None || ys[0] != RParen then Failed
          else Parsed(Cast(inner, CastType(xs[0].text).value), Next(ys))
  }

  function ParseValue(ts: seq<Token>): (r: Parsed<Value>)
    requires Stream(ts)
    ensures r.Parsed? ==> Stream(r.rest) && |r.rest| < |ts|
    decreases |ts|, 1
  {
    match ts[0]
    case Str(s) => Parsed(StrLit(s), Next(ts))
    case Number(s) => if FloatText(s) then Parsed(NumLit(s), Next(ts)) else Failed
    case Ident(s) =>
      var up := ToUpper(s);
      if up == "TRUE" then Parsed(BoolLit(true), Next(ts))
      else if up == "FALSE" then Parsed(BoolLit(false), Next(ts))
      else if up == "CAST" then ParseCast(ts)
      else ParseColRef(ts)
    case _ => Failed
  }

  // ---- predicates ----

  function ParseOr(ts: seq<Token>): (r: Parsed<Pred>)
    requires Stream(ts)
    ensures r.Parsed? ==> Stream(r.rest) && |r.rest| < |ts|
    decreases |ts|, 4
  {
    match ParseAnd(ts)
    case Failed => Failed
    case Parsed(left, us) => OrTail(left, us)
  }

  function OrTail(left: Pred, ts: seq<Token>): (r: Parsed<Pred>)
    requires Stream(ts)
    ensures r.Parsed? ==> Stream(r.rest) && |r.rest| <= |ts|
    decreases |ts|, 4
  {
    if !Keyword(ts[0], "OR") then Parsed(left, ts)
    else
      match ParseAnd(Next(ts))
      case Failed => Failed
      case Parsed(right, us) => OrTail(Or(left, right), us)
  }

  function ParseAnd(ts: seq<Token>): (r: Parsed<Pred>)
    requires Stream(ts)
    ensures r.Parsed? ==> Stream(r.rest) && |r.rest| < |ts|
    decreases |ts|, 3
  {
    match ParseNot(ts)
    case Failed => Failed
    case Parsed(left, us) => AndTail(left, us)
  }

  function AndTail(left: Pred, ts: seq<Token>): (r: Parsed<Pred>)
    requires Stream(ts)
    ensures r.Parsed? ==> Stream(r.rest) && |r.rest| <= |ts|
    decreases |ts|, 3
  {
    if !Keyword(ts[0], "AND") then Parsed(left, ts)
    else
      match ParseNot(Next(ts))
      case Failed => Failed
      case Parsed(right, us) => AndTail(And(left, right), us)
  }

  function ParseNot(ts: seq<Token>): (r: Parsed<Pred>)
    requires Stream(ts)
    ensures r.Parsed? ==> Stream(r.rest) && |r.rest| < |ts|
    decreases |ts|, 2
  {
    if Keyword(ts[0], "NOT") then
      match ParseNot(Next(ts))
      case Failed => Failed
      case Parsed(inner, us) => Parsed(Not(inner), us)
    else ParsePrimary(ts)
  }

  function ParsePrimary(ts: seq<Token>): (r: Parsed<Pred>)
    requires Stream(ts)
    ensures r.Parsed? ==> Stream(r.rest) && |r.rest| < |ts|
    decreases |ts|, 1
  {
    if ts[0] == LParen then
      match ParseOr(Next(ts))
      case Failed => Failed
      case Parsed(inner, us) => if us[0] == RParen then Parsed(inner, Next(us)) else Failed
    else
      match ParseValue(ts)
      case Failed => Failed
      case Parsed(left, us) => Rest(left, us)
  }

  /** A NOT at the cursor belongs to a LIKE. */
  predicate NotLike(ts: seq<Token>)
    requires Stream(ts)
  {
    Keyword(ts[0], "NOT") && |ts| > 1 && Keyword(ts[1], "LIKE")
  }

  /** What may follow the value a predicate starts with: [NOT] LIKE, a comparison, or nothing. */
  function Rest(left: Value, ts: seq<Token>): (r: Parsed<Pred>)
    requires Stream(ts)
    ensures r.Parsed? ==> Stream(r.rest) && |r.rest| <= |ts|
  {
    var neg := NotLike(ts);
    var us := if neg then Next(ts) else ts;
    if Keyword(us[0], "LIKE") then
      var ws := Next(us);
      if ws[0].Str? && Compiles(ws[0].text) then Parsed(Like(left, ws[0].text, neg), Next(ws)) else Failed
    else if us[0].Op? then
      match ParseValue(Next(us))
      case Failed => Failed
      case Parsed(right, ws) => Parsed(Cmp(left, right, us[0].text), ws)
    else Parsed(Truth(left), us)
  }

  // ---- the statement ----

  const RESERVED: set<string> := {"FROM", "WHERE", "LIMIT", "AND", "OR", "AS", "LIKE", "NOT"}

  /** An optional alias and the tokens after it. */
  function OptAlias(ts: seq<Token>): (r: (string, seq<Token>))
    requires Stream(ts)
    ensures Stream(r.1) && |r.1| <= |ts|
  {
    if Keyword(ts[0], "AS") then
      var us := Next(ts);
      (if us[0].Ident? then us[0].text else "", Next(us))
    else if ts[0].Ident? && ToUpper(ts[0].text) !in RESERVED then (ts[0].text, Next(ts))
    else ("", ts)
  }

  /** The lookahead that tells COUNT(*) from a column of that name. */
  predicate CountAhead(ts: seq<Token>)
    requires Stream(ts)
  {
    Keyword(ts[0], "COUNT") && |ts| > 1 && ts[1] == LParen
  }

  function Column(p: Projection, e: Value, alias: string): Item {
    var name := if alias == "" && e.Col? && e.parts != [] then e.parts[|e.parts| - 1] else alias;
    Item(Some(e), if name == "" then "_" + Decimal.Dec(|p.items| + 1) else name)
  }

  function ParseItem(p: Projection, ts: seq<Token>): (r: Parsed<Projection>)
    requires Stream(ts)
    ensures r.Parsed? ==> Stream(r.rest) && |r.rest| < |ts|
  {
    if CountAhead(ts) then
      var us := Next(Next(ts));
      var ws := Next(us);
      if us[0] != Star || ws[0] != RParen then Failed
      else Parsed(p.(countStar := true, items := p.items + [Item(None, "_1")]), Next(ws))
    else if ts[0] == Star then Parsed(p.(star := true), Next(ts))
    else
      match ParseValue(ts)
      case Failed => Failed
      case Parsed(e, us) =>
        var (alias, ws) := OptAlias(us);
        Parsed(p.(items := p.items + [Column(p, e, alias)]), ws)
  }

  function ParseItems(p: Projection, ts: seq<Token>): (r: Parsed<Projection>)
    requires Stream(ts)
    ensures r.Parsed? ==> Stream(r.rest) && |r.rest| < |ts|
    decreases |ts|
  {
    match ParseItem(p, ts)
    case Failed => Failed
    case Parsed(p', us) =>
      if us[0] == Comma then ParseItems(p', Next(us))
      else if p'.star && p'.items != [] then Failed
      else Parsed(p', us)
  }

  function DotPath(ts: seq<Token>): (r: Option<seq<Token>>)
    requires Stream(ts)
    ensures r.Some? ==> Stream(r.value) && |r.value| <= |ts|
    decreases |ts|
  {
    if ts[0] != Dot then Some(ts)
    else
      var us := Next(ts);
      if us[0].Ident? then DotPath(Next(us)) else None
  }

  /** An optional [*] or [n]. */
  function Brackets(ts: seq<Token>): (r: Option<seq<Token>>)
    requires Stream(ts)
    ensures r.Some? ==> Stream(r.value) && |r.value| <= |ts|
  {
    if ts[0] != LBracket then Some(ts)
    else
      var us := Next(ts);
      var ws := if us[0] == Star || us[0].Number? then Next(us) else us;
      if ws[0] == RBracket then Some(Next(ws)) else None
  }

  function ParseFrom(ts: seq<Token>): (r: Parsed<string>)
    requires Stream(ts)
    ensures r.Parsed? ==> Stream(r.rest) && |r.rest| <= |ts|
  {
    if !Keyword(ts[0], "S3Object") then Failed
    else
      match Brackets(Next(ts))
      case None => Failed
      case Some(us) =>
        match DotPath(us)
        case None => Failed
        case Some(ws) => var (alias, xs) := OptAlias(ws); Parsed(alias, xs)
  }

  function ParseWhere(ts: seq<Token>): (r: Parsed<Option<Pred>>)
    requires Stream(ts)
    ensures r.Parsed? ==> Stream(r.rest) && |r.rest| <= |ts|
  {
    if !Keyword(ts[0], "WHERE") then Parsed(None, ts)
    else
      match ParseOr(Next(ts))
      case Failed => Failed
      case Parsed(w, us) => Parsed(Some(w), us)
  }

  function ParseLimit(ts: seq<Token>): (r: Parsed<int>)
    requires Stream(ts)
    ensures r.Parsed? ==> Stream(r.rest) && |r.rest| <= |ts|
  {
    if !Keyword(ts[0], "LIMIT") then Parsed(-1, ts)
    else
      var us := Next(ts);
      if !us[0].Number? then Failed
      else
        match Decimal.ParseInt(us[0].text)
        case None => Failed
        case Some(n) => if n < 0 then Failed else Parsed(n, Next(us))
  }

  /** From the source after FROM to the end of the text. */
  function ParseClauses(proj: Projection, ts: seq<Token>): Option<Query>
    requires Stream(ts)
  {
    match ParseFrom(ts)
    case Failed => None
    case Parsed(alias, us) =>
      match ParseWhere(us)
      case Failed => None
      case Parsed(where, ws) =>
        match ParseLimit(ws)
        case Failed => None
        case Parsed(limit, xs) => if xs[0] == EOF then Some(Query(proj, alias, where, limit)) else None
  }

  function ParseStatement(ts: seq<Token>): Option<Query>
    requires Stream(ts)
  {
    if !Keyword(ts[0], "SELECT") then None
    else
      match ParseItems(Projection(false, false, []), Next(ts))
      case Failed => None
      case Parsed(proj, us) => if Keyword(us[0], "FROM") then ParseClauses(proj, Next(us)) else None
  }
}
