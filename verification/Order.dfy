/** Byte-wise order on strings, and what prefixes do to it. */
module Order {
  predicate Less(a: string, b: string) {
    if b == "" then false
    else if a == "" then true
    else a[0] < b[0] || (a[0] == b[0] && Less(a[1..], b[1..]))
  }

  predicate AtMost(a: string, b: string) { a == b || Less(a, b) }

  lemma {:induction false} LessTrans(a: string, b: string, c: string)
    requires Less(a, b) && Less(b, c)
    ensures Less(a, c)
  {
    if a != "" && a[0] == b[0] && b[0] == c[0] { LessTrans(a[1..], b[1..], c[1..]); }
  }

  lemma {:induction false} LessIrreflexive(a: string)
    ensures !Less(a, a)
  {
    if a != "" { LessIrreflexive(a[1..]); }
  }

  lemma LessAsymmetric(a: string, b: string)
    requires Less(a, b)
    ensures a != b && !Less(b, a)
  {
    LessIrreflexive(a);
    if Less(b, a) { LessTrans(a, b, a); }
  }

  lemma {:induction false} LessTotal(a: string, b: string)
    ensures a == b || Less(a, b) || Less(b, a)
  {
    if a != "" && b != "" && a[0] == b[0] {
      LessTotal(a[1..], b[1..]);
      assert a == [a[0]] + a[1..] && b == [b[0]] + b[1..];
    }
  }

  /** A prefix comes first. */
  lemma {:induction false} PrefixFirst(p: string, k: string)
    requires p <= k
    ensures AtMost(p, k)
  {
    if p != "" {
      assert p[1..] <= k[1..];
      PrefixFirst(p[1..], k[1..]);
      if p[1..] == k[1..] { assert p == [p[0]] + p[1..] && k == [k[0]] + k[1..]; }
    }
  }

  /** Everything between a string and one of its extensions extends it too. */
  lemma {:induction false} Between(p: string, x: string, k: string)
    requires p <= k && AtMost(p, x) && AtMost(x, k)
    ensures p <= x
  {
    if p != "" && x != p && x != k {
      assert p[1..] <= k[1..];
      if x[0] == p[0] {
        assert AtMost(p[1..], x[1..]) && AtMost(x[1..], k[1..]);
        Between(p[1..], x[1..], k[1..]);
        assert p == [p[0]] + p[1..] && x == [x[0]] + x[1..];
      }
    }
  }

  predicate Ascending(s: seq<string>) { forall i, j | 0 <= i < j < |s| :: Less(s[i], s[j]) }

  // ---- substring search ----

  /** `d` stands in `s` at place `i`. */
  predicate OccursAt(s: string, d: string, i: int) { 0 <= i && i + |d| <= |s| && s[i..i + |d|] == d }

  function IndexFrom(s: string, d: string, i: nat): (r: int)
    requires i <= |s|
    ensures r >= 0 ==> i <= r && OccursAt(s, d, r) && forall j | i <= j < r :: !OccursAt(s, d, j)
    ensures r < 0 ==> r == -1 && forall j | i <= j :: !OccursAt(s, d, j)
    decreases |s| - i
  {
    if OccursAt(s, d, i) then i
    else if i == |s| then -1
    else IndexFrom(s, d, i + 1)
  }

  function Index(s: string, d: string): (r: int)
    ensures r >= 0 ==> OccursAt(s, d, r) && forall j | 0 <= j < r :: !OccursAt(s, d, j)
    ensures r < 0 ==> r == -1 && forall j :: !OccursAt(s, d, j)
  {
    IndexFrom(s, d, 0)
  }
}
