/** S3 Select statements: tokens and syntax trees. */
module Sql {
  import opened Types
  import opened Characters

  /** A 64-bit float; what it rounds to is left to the library. */
  datatype Float = Finite(value: real) | Infinite(positive: bool) | NaN

  const ParseFloat: string -> Option<Float>

  /** Whether a LIKE pattern, as a regular expression, is within the library's limits. */
  const Compiles: string -> bool

  predicate FloatText(s: string) { ParseFloat(s).Some? }

  datatype Token =
    | EOF
    | Ident(text: string)
    | Str(text: string)
    | Number(text: string)
    | Op(text: string)
    | LParen
    | RParen
    | Comma
    | Dot
    | Star
    | LBracket
    | RBracket

  /** A token list as the parser holds it: it ends with the end marker. */
  predicate Stream(ts: seq<Token>) { ts != [] && ts[|ts| - 1] == EOF }

  predicate Keyword(t: Token, kw: string) { t.Ident? && EqualFold(t.text, kw) }

  const OPS: set<string> := {"=", "<>", "!=", "<", ">", "<=", ">="}

  datatype Value =
    | StrLit(text: string)
    | NumLit(text: string)
    | BoolLit(b: bool)
    | Col(parts: seq<string>)
    | Cast(inner: Value, typ: string)

  datatype Pred =
    | Or(left: Pred, right: Pred)
    | And(left: Pred, right: Pred)
    | Not(inner: Pred)
    | Like(value: Value, pattern: string, neg: bool)
    | Cmp(lhs: Value, rhs: Value, op: string)
    | Truth(value: Value)

  /** A projected item; COUNT(*) has no expression. */
  datatype Item = Item(expr: Option<Value>, name: string)

  datatype Projection = Projection(star: bool, countStar: bool, items: seq<Item>)

  /** `limit` is -1 without a LIMIT clause. */
  datatype Query = Query(proj: Projection, alias: string, where: Option<Pred>, limit: int)
}
