/** Sorted key lists: there is one for every set of keys, and the walks arrive at it. */
module Sorting {
  import opened Order

  /** The keys of a set, in byte order and each once. */
  ghost predicate ListsKeys(keys: seq<string>, s: set<string>) {
    Ascending(keys) && forall k :: k in keys <==> k in s
  }

  lemma {:induction false} BelowAll(keys: seq<string>, k: string, j: nat)
    requires Ascending(keys) && j < |keys| && Less(k, keys[j])
    ensures forall n | j <= n < |keys| :: Less(k, keys[n])
  {
    forall n | j <= n < |keys| ensures Less(k, keys[n]) {
      if n > j { LessTrans(k, keys[j], keys[n]); }
    }
  }

  /** A key in its place in a sorted list, unless it is there already. */
  method InsertKey(keys: seq<string>, k: string) returns (r: seq<string>)
    requires Ascending(keys)
    ensures Ascending(r) && forall x :: x in r <==> x in keys || x == k
  {
    var j := 0;
    while j < |keys| && Less(keys[j], k)
      invariant j <= |keys| && forall n | 0 <= n < j :: Less(keys[n], k)
    {
      j := j + 1;
    }
    if j < |keys| && keys[j] == k {
      return keys;
    }
    if j < |keys| {
      LessTotal(keys[j], k);
      BelowAll(keys, k, j);
    }
    r := keys[..j] + [k] + keys[j..];
    assert keys == keys[..j] + keys[j..];
    forall x ensures x in r <==> x in keys || x == k {}
  }

  /** The keys of the history walk and of the tree walk together, sorted and each once. */
  method MergeSortedUnique(a: seq<string>, b: seq<string>) returns (r: seq<string>)
    ensures Ascending(r) && forall k :: k in r <==> k in a || k in b
  {
    r := [];
    for i := 0 to |a|
      invariant Ascending(r) && forall k :: k in r <==> k in a[..i]
    {
      assert a[..i + 1] == a[..i] + [a[i]];
      r := InsertKey(r, a[i]);
    }
    assert a[..|a|] == a;
    for i := 0 to |b|
      invariant Ascending(r) && forall k :: k in r <==> k in a || k in b[..i]
    {
      assert b[..i + 1] == b[..i] + [b[i]];
      r := InsertKey(r, b[i]);
    }
    assert b[..|b|] == b;
  }

  ghost predicate SameMembers(a: seq<string>, b: seq<string>) { forall k :: k in a <==> k in b }

  /** There is only one sorted list of a set of keys. */
  lemma {:induction false} SortedOnce(a: seq<string>, b: seq<string>)
    requires Ascending(a) && Ascending(b) && SameMembers(a, b)
    ensures a == b
    decreases |a|
  {
    assert b == [] || b[0] in a;
    if a != [] {
      assert a[0] in b;
      SameLast(a, b);
      var a', b' := a[..|a| - 1], b[..|b| - 1];
      ShorterSame(a, b, a', b');
      SortedOnce(a', b');
      assert a == a' + [a[|a| - 1]] && b == b' + [b[|b| - 1]];
    }
  }

  lemma ShorterSame(a: seq<string>, b: seq<string>, a': seq<string>, b': seq<string>)
    requires Ascending(a) && Ascending(b) && SameMembers(a, b) && a != [] && b != [] && a[|a| - 1] == b[|b| - 1]
    requires a' == a[..|a| - 1] && b' == b[..|b| - 1]
    ensures Ascending(a') && Ascending(b') && SameMembers(a', b')
  {
    forall k ensures k in a' <==> k in b' {
      LastOnce(a, k);
      LastOnce(b, k);
    }
  }

  lemma SameLast(a: seq<string>, b: seq<string>)
    requires Ascending(a) && Ascending(b) && a != [] && b != [] && SameMembers(a, b)
    ensures a[|a| - 1] == b[|b| - 1]
  {
    var x, y := a[|a| - 1], b[|b| - 1];
    assert x in b && y in a;
    var i :| 0 <= i < |b| && b[i] == x;
    var j :| 0 <= j < |a| && a[j] == y;
    if i < |b| - 1 && j < |a| - 1 {
      LessAsymmetric(x, y);
    }
  }

  lemma LastOnce(a: seq<string>, k: string)
    requires Ascending(a) && a != []
    ensures k in a[..|a| - 1] <==> k in a && k != a[|a| - 1]
  {
    LessIrreflexive(a[|a| - 1]);
  }

  /** A walk over the keys, then a sort. */
  method SortKeys(s: set<string>) returns (keys: seq<string>)
    ensures ListsKeys(keys, s)
  {
    keys := [];
    var todo := s;
    while todo != {}
      invariant todo <= s && ListsKeys(keys, s - todo)
      decreases |todo|
    {
      var k :| k in todo;
      keys := InsertKey(keys, k);
      todo := todo - {k};
    }
  }
}
