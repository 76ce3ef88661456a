/** The paginated object listing: delimiter roll-up, de-duplication and cursors compose. */
module Listing {
  import opened Types
  import opened Store
  import opened Order
  import opened Sorting

  datatype Token = Token(text: string, isPrefix: bool)

  /** The listing position of a key: the common prefix it rolls into, or the key itself. */
  function DisplayToken(key: string, prefix: string, delim: string): Token
    requires prefix <= key
  {
    if delim == "" then Token(key, false)
    else
      var rest := key[|prefix|..];
      var i := Index(rest, delim);
      if i >= 0 then Token(prefix + rest[..i + |delim|], true) else Token(key, false)
  }

  lemma TokenShape(key: string, prefix: string, delim: string)
    requires prefix <= key
    ensures var t := DisplayToken(key, prefix, delim);
      && prefix <= t.text <= key && (!t.isPrefix ==> t.text == key)
      && (t.isPrefix ==> delim != "" && |t.text| >= |prefix| + |delim|
                         && OccursAt(key[|prefix|..], delim, |t.text| - |prefix| - |delim|))
  {
    var rest := key[|prefix|..];
    assert key == prefix + rest;
    if delim != "" && Index(rest, delim) >= 0 {
      var i := Index(rest, delim);
      assert prefix + rest == prefix + rest[..i + |delim|] + rest[i + |delim|..];
    }
  }

  /** The delimiter stands in the key after the prefix and `a`. */
  predicate Splits(key: string, prefix: string, delim: string, a: string, b: string) { key == prefix + a + delim + b }

  /** The delimiter occurs in the key after the prefix. */
  ghost predicate RollsUp(key: string, prefix: string, delim: string) {
    delim != "" && exists a, b :: Splits(key, prefix, delim, a, b)
  }

  /** `t` is the key up to and with the first delimiter after the prefix. */
  ghost predicate RollsInto(key: string, prefix: string, delim: string, t: string) {
    && delim != ""
    && exists a, b ::
         && Splits(key, prefix, delim, a, b) && t == prefix + a + delim
         && forall a', b' | Splits(key, prefix, delim, a', b') :: |a| <= |a'|
  }

  lemma SplitIs(key: string, prefix: string, delim: string, a: string, b: string)
    requires Splits(key, prefix, delim, a, b)
    ensures prefix <= key && OccursAt(key[|prefix|..], delim, |a|) && a == key[|prefix|..][..|a|]
  {
    assert key[|prefix|..] == a + delim + b;
  }

  lemma OccurrenceSplits(key: string, prefix: string, delim: string, i: nat)
    requires prefix <= key && OccursAt(key[|prefix|..], delim, i)
    ensures var rest := key[|prefix|..]; Splits(key, prefix, delim, rest[..i], rest[i + |delim|..])
  {
    var rest := key[|prefix|..];
    assert rest == rest[..i] + rest[i..i + |delim|] + rest[i + |delim|..];
  }

  /** EXACT: a key rolls up if and only if the delimiter is not empty and occurs after the prefix, and then into
      the shortest such start of the key. */
  lemma TokenExact(key: string, prefix: string, delim: string, t: string)
    requires prefix <= key
    ensures DisplayToken(key, prefix, delim).isPrefix <==> RollsUp(key, prefix, delim)
    ensures DisplayToken(key, prefix, delim) == Token(t, true) <==> RollsInto(key, prefix, delim, t)
    ensures DisplayToken(key, prefix, delim) == Token(t, false) <==> t == key && !RollsUp(key, prefix, delim)
  {
    var rest := key[|prefix|..];
    var i := Index(rest, delim);
    forall a, b | Splits(key, prefix, delim, a, b) ensures 0 <= i <= |a| { SplitIs(key, prefix, delim, a, b); }
    if delim != "" && i >= 0 {
      OccurrenceSplits(key, prefix, delim, i);
      var a0, b0 := rest[..i], rest[i + |delim|..];
      assert Splits(key, prefix, delim, a0, b0);
      assert rest[..i + |delim|] == a0 + delim;
      assert DisplayToken(key, prefix, delim) == Token(prefix + a0 + delim, true);
      forall a, b | Splits(key, prefix, delim, a, b) && |a| == i ensures a == a0 { SplitIs(key, prefix, delim, a, b); }
      hide Splits, OccursAt, Index, DisplayToken;
    }
  }

  /** Two strings with a common start have the same occurrences there. */
  lemma SameOccurrence(a: string, b: string, d: string, j: nat, n: nat)
    requires n <= |a| && n <= |b| && a[..n] == b[..n] && j + |d| <= n
    ensures OccursAt(a, d, j) <==> OccursAt(b, d, j)
  {
    assert a[j..j + |d|] == a[..n][j..j + |d|];
    assert b[j..j + |d|] == b[..n][j..j + |d|];
  }

  /** A key that extends another key's common prefix rolls into the same one. */
  lemma SamePrefix(k: string, k2: string, prefix: string, delim: string)
    requires prefix <= k && prefix <= k2 && DisplayToken(k2, prefix, delim).isPrefix
    requires DisplayToken(k2, prefix, delim).text <= k
    ensures DisplayToken(k, prefix, delim) == DisplayToken(k2, prefix, delim)
  {
    TokenShape(k2, prefix, delim);
    var t := DisplayToken(k2, prefix, delim).text;
    var r, r2 := k[|prefix|..], k2[|prefix|..];
    var n := |t| - |prefix|;
    var i2 := n - |delim|;
    assert r[..n] == t[|prefix|..] && r2[..n] == t[|prefix|..];
    SameOccurrence(r, r2, delim, i2, n);
    assert Index(r2, delim) == i2;
    var i := Index(r, delim);
    assert i >= 0 && i <= i2;
    if i < i2 {
      SameOccurrence(r, r2, delim, i, n);
    }
  }

  /** MONOTONE: the display token never decreases along the keys. */
  lemma DisplayMonotone(k: string, k2: string, prefix: string, delim: string)
    requires prefix <= k && prefix <= k2 && Less(k, k2)
    ensures AtMost(DisplayToken(k, prefix, delim).text, DisplayToken(k2, prefix, delim).text)
    ensures !DisplayToken(k, prefix, delim).isPrefix || !DisplayToken(k2, prefix, delim).isPrefix ==>
              Less(DisplayToken(k, prefix, delim).text, DisplayToken(k2, prefix, delim).text)
  {
    var t, t2 := DisplayToken(k, prefix, delim), DisplayToken(k2, prefix, delim);
    TokenShape(k, prefix, delim);
    TokenShape(k2, prefix, delim);
    PrefixFirst(t.text, k);
    PrefixFirst(t2.text, k2);
    LessTotal(k, t2.text);
    if Less(k, t2.text) {
      if t.text != k { LessTrans(t.text, k, t2.text); }
    } else {
      Between(t2.text, k, k2);
      if t2.isPrefix {
        SamePrefix(k, k2, prefix, delim);
      } else {
        LessAsymmetric(k, k2);
      }
    }
  }

  // ---- the whole listing ----

  datatype Query = Query(prefix: string, delim: string, after: string)

  /** The keys with a live current version. */
  predicate Live(v: Volume, key: string) {
    var km := ReadKeyMeta(v, key);
    km.Some? && km.value != [] && !km.value[0].deleteMarker
  }

  /** The key contributes to the listing. */
  predicate Listed(v: Volume, q: Query, key: string) {
    && q.prefix <= key
    && var t := DisplayToken(key, q.prefix, q.delim);
       && (q.after == "" || !AtMost(t.text, q.after))
       && (t.isPrefix || Live(v, key))
  }

  /** The unpaged listing: every token once, in key order. */
  function Full(v: Volume, q: Query, keys: seq<string>): seq<Token> {
    if keys == [] then []
    else
      var rest, key := Full(v, q, keys[..|keys| - 1]), keys[|keys| - 1];
      if !Listed(v, q, key) then rest
      else
        var t := DisplayToken(key, q.prefix, q.delim);
        if t.isPrefix && t in rest then rest else rest + [t]
  }

  function Texts(ts: seq<Token>): seq<string> { seq(|ts|, i requires 0 <= i < |ts| => ts[i].text) }

  /** Every token of the listing comes from a listed key, and every listed key has its token there. */
  lemma {:induction false} FullMembers(v: Volume, q: Query, keys: seq<string>)
    ensures forall t | t in Full(v, q, keys) :: exists k | k in keys :: Listed(v, q, k) && DisplayToken(k, q.prefix, q.delim) == t
    ensures forall k | k in keys && Listed(v, q, k) :: DisplayToken(k, q.prefix, q.delim) in Full(v, q, keys)
  {
    hide Listed, DisplayToken;
    if keys != [] {
      var init, key := keys[..|keys| - 1], keys[|keys| - 1];
      assert forall k :: k in keys <==> k in init || k == key;
      FullMembers(v, q, init);
    }
  }

  /** The listing is in strictly ascending order. */
  lemma {:induction false} FullAscending(v: Volume, q: Query, keys: seq<string>)
    requires Ascending(keys)
    ensures Ascending(Texts(Full(v, q, keys)))
  {
    if keys != [] {
      var init, key := keys[..|keys| - 1], keys[|keys| - 1];
      FullAscending(v, q, init);
      FullMembers(v, q, init);
      var rest, all := Full(v, q, init), Full(v, q, keys);
      if all != rest {
        hide Full, Listed;
        var t := DisplayToken(key, q.prefix, q.delim);
        assert all == rest + [t];
        forall i | 0 <= i < |rest| ensures Less(rest[i].text, t.text) {
          assert rest[i] in rest;
          var k :| k in init && Listed(v, q, k) && DisplayToken(k, q.prefix, q.delim) == rest[i];
          var j :| 0 <= j < |init| && init[j] == k;
          assert Less(keys[j], keys[|keys| - 1]);
          KeyBefore(v, q, k, key, rest);
        }
        LastAscends(rest, t);
      }
    }
  }

  lemma KeyBefore(v: Volume, q: Query, k: string, key: string, rest: seq<Token>)
    requires Listed(v, q, k) && Listed(v, q, key) && Less(k, key)
    requires DisplayToken(k, q.prefix, q.delim) in rest
    requires DisplayToken(key, q.prefix, q.delim).isPrefix ==> DisplayToken(key, q.prefix, q.delim) !in rest
    ensures Less(DisplayToken(k, q.prefix, q.delim).text, DisplayToken(key, q.prefix, q.delim).text)
  {
    DisplayMonotone(k, key, q.prefix, q.delim);
    hide DisplayToken;
  }

  lemma LastAscends(rest: seq<Token>, t: Token)
    requires Ascending(Texts(rest)) && forall i | 0 <= i < |rest| :: Less(rest[i].text, t.text)
    ensures Ascending(Texts(rest + [t]))
  {
    var all := Texts(rest + [t]);
    assert forall i | 0 <= i < |rest| :: all[i] == Texts(rest)[i];
  }

  // ---- pages ----

  datatype Page = Page(items: seq<Token>, truncated: bool, next: string)

  function ClampMax(n: int): (m: nat)
    ensures 1 <= m <= 1000
  {
    if n <= 0 || n > 1000 then 1000 else n
  }

  /** Where a request starts: the marker if given, else the continuation token, else start-after. */
  function Cursor(token: string, startAfter: string, marker: string): string {
    if marker != "" then marker else if token != "" then token else startAfter
  }

  /** What one request answers. */
  function PageOf(v: Volume, q: Query, keys: seq<string>, max: nat): Page
    requires max > 0
  {
    var f := Full(v, q, keys);
    if |f| <= max then Page(f, false, "") else Page(f[..max], true, f[max - 1].text)
  }

  /** The tokens beyond a cursor. */
  function Beyond(ts: seq<Token>, next: string): seq<Token> {
    if ts == [] then []
    else Beyond(ts[..|ts| - 1], next) + if AtMost(ts[|ts| - 1].text, next) then [] else [ts[|ts| - 1]]
  }

  lemma {:induction false} BeyondMembers(ts: seq<Token>, next: string, t: Token)
    ensures t in Beyond(ts, next) <==> t in ts && !AtMost(t.text, next)
  {
    if ts != [] {
      BeyondMembers(ts[..|ts| - 1], next, t);
      assert ts == ts[..|ts| - 1] + [ts[|ts| - 1]];
    }
  }

  lemma ListedBeyond(v: Volume, q: Query, key: string, next: string)
    requires q.after == "" || AtMost(q.after, next)
    requires next != ""
    ensures Listed(v, q.(after := next), key) <==>
            Listed(v, q, key) && !AtMost(DisplayToken(key, q.prefix, q.delim).text, next)
  {
    if q.prefix <= key && q.after != "" {
      var t := DisplayToken(key, q.prefix, q.delim).text;
      if AtMost(t, q.after) && t != q.after && q.after != next { LessTrans(t, q.after, next); }
    }
  }

  lemma BeyondAppend(ts: seq<Token>, t: Token, next: string)
    ensures Beyond(ts + [t], next) == Beyond(ts, next) + if AtMost(t.text, next) then [] else [t]
  {
    assert (ts + [t])[..|ts|] == ts;
  }

  lemma {:induction false} FullBeyond(v: Volume, q: Query, keys: seq<string>, next: string)
    requires next != "" && (q.after == "" || AtMost(q.after, next))
    ensures Full(v, q.(after := next), keys) == Beyond(Full(v, q, keys), next)
  {
    if keys != [] {
      hide Listed, DisplayToken, Beyond, AtMost;
      var init, key := keys[..|keys| - 1], keys[|keys| - 1];
      FullBeyond(v, q, init, next);
      ListedBeyond(v, q, key, next);
      var rest := Full(v, q, init);
      if Listed(v, q, key) {
        var t := DisplayToken(key, q.prefix, q.delim);
        BeyondMembers(rest, next, t);
        BeyondAppend(rest, t, next);
      }
    }
  }

  /** In an ascending listing, the tokens beyond the n-th are the ones after it. */
  lemma {:induction false} BeyondIsRest(ts: seq<Token>, n: nat)
    requires Ascending(Texts(ts)) && 0 < n <= |ts|
    ensures Beyond(ts, ts[n - 1].text) == ts[n..]
  {
    var init, last := ts[..|ts| - 1], ts[|ts| - 1];
    assert forall i | 0 <= i < |init| :: Texts(init)[i] == Texts(ts)[i];
    if n < |ts| {
      assert Less(Texts(ts)[n - 1], Texts(ts)[|ts| - 1]);
      LessAsymmetric(ts[n - 1].text, last.text);
      BeyondIsRest(init, n);
      assert init[n - 1] == ts[n - 1];
      assert ts[n..] == init[n..] + [last];
    } else {
      NoneBeyond(init, last.text, ts);
    }
  }

  lemma {:induction false} NoneBeyond(init: seq<Token>, next: string, ts: seq<Token>)
    requires Ascending(Texts(ts)) && ts != [] && |init| < |ts| && init == ts[..|init|] && next == ts[|ts| - 1].text
    ensures Beyond(init, next) == []
  {
    if init != [] {
      assert Less(Texts(ts)[|init| - 1], Texts(ts)[|ts| - 1]);
      NoneBeyond(init[..|init| - 1], next, ts);
    }
  }

  lemma {:induction false} BeyondAfter(v: Volume, q: Query, keys: seq<string>, i: nat)
    requires i < |Full(v, q, keys)|
    ensures q.after == "" || !AtMost(Full(v, q, keys)[i].text, q.after)
    ensures "" !in keys ==> Full(v, q, keys)[i].text != ""
  {
    FullMembers(v, q, keys);
    var t := Full(v, q, keys)[i];
    assert t in Full(v, q, keys);
    var k :| k in keys && Listed(v, q, k) && DisplayToken(k, q.prefix, q.delim) == t;
    TokenShape(k, q.prefix, q.delim);
  }

  /** RESUMING: the listing from a page's cursor is exactly what the page left out. */
  lemma ResumeIsRest(v: Volume, q: Query, keys: seq<string>, max: nat)
    requires Ascending(keys) && "" !in keys && 0 < max < |Full(v, q, keys)|
    ensures Full(v, q.(after := PageOf(v, q, keys, max).next), keys) == Full(v, q, keys)[max..]
  {
    hide Full;
    var f := Full(v, q, keys);
    FullAscending(v, q, keys);
    BeyondAfter(v, q, keys, max - 1);
    LessTotal(f[max - 1].text, q.after);
    FullBeyond(v, q, keys, f[max - 1].text);
    BeyondIsRest(f, max);
  }

  /** Following the cursors from a query until a page is not truncated. */
  function Walk(v: Volume, q: Query, keys: seq<string>, max: nat): seq<Page>
    requires Ascending(keys) && "" !in keys && max > 0
    decreases |Full(v, q, keys)|
  {
    var page := PageOf(v, q, keys, max);
    if !page.truncated then [page]
    else
      ResumeIsRest(v, q, keys, max);
      [page] + Walk(v, q.(after := page.next), keys, max)
  }

  function Items(pages: seq<Page>): seq<Token> {
    if pages == [] then [] else pages[0].items + Items(pages[1..])
  }

  /** MAIN THEOREM: following the cursors visits every object and common prefix of the unpaged listing
      exactly once, in order, and ends; a page says it is truncated exactly when something remains. */
  lemma {:induction false} WalkVisitsAll(v: Volume, q: Query, keys: seq<string>, max: nat)
    requires Ascending(keys) && "" !in keys && max > 0
    ensures Items(Walk(v, q, keys, max)) == Full(v, q, keys)
    ensures var pages := Walk(v, q, keys, max);
      && pages != [] && (forall i | 0 <= i < |pages| :: pages[i].truncated <==> i < |pages| - 1)
      && (forall i | 0 <= i < |pages| - 1 :: |pages[i].items| == max)
    decreases |Full(v, q, keys)|
  {
    hide Full;
    var page, pages := PageOf(v, q, keys, max), Walk(v, q, keys, max);
    if page.truncated {
      ResumeIsRest(v, q, keys, max);
      var q' := q.(after := page.next);
      WalkVisitsAll(v, q', keys, max);
      var rest := Walk(v, q', keys, max);
      assert pages == [page] + rest && pages[1..] == rest;
      assert Full(v, q, keys)[..max] + Full(v, q, keys)[max..] == Full(v, q, keys);
    } else {
      assert pages == [page] && pages[1..] == [];
      assert Items([]) == [];
    }
  }

  /** And that unpaged listing is the ascending list of exactly the tokens of the listed keys. */
  lemma FullIsTheListing(v: Volume, q: Query, keys: seq<string>)
    requires Ascending(keys)
    ensures Ascending(Texts(Full(v, q, keys)))
    ensures forall t :: t in Full(v, q, keys) <==> exists k | k in keys :: Listed(v, q, k) && DisplayToken(k, q.prefix, q.delim) == t
  {
    hide Full, Listed, DisplayToken;
    FullAscending(v, q, keys);
    FullMembers(v, q, keys);
  }

  // ---- the loop ----

  lemma {:induction false} FullGrows(v: Volume, q: Query, keys: seq<string>, i: nat)
    requires i <= |keys|
    ensures Full(v, q, keys[..i]) <= Full(v, q, keys)
    decreases |keys| - i
  {
    if i < |keys| {
      FullGrows(v, q, keys, i + 1);
      assert keys[..i + 1][..i] == keys[..i];
    } else {
      assert keys[..i] == keys;
    }
  }

  /** The common prefixes among the tokens. */
  function Prefixes(ts: seq<Token>): set<string> { set t | t in ts && t.isPrefix :: t.text }

  lemma PrefixSeen(ts: seq<Token>, t: Token)
    requires t.isPrefix
    ensures t.text in Prefixes(ts) <==> t in ts
    ensures Prefixes(ts + [t]) == Prefixes(ts) + {t.text}
  {
    if t.text in Prefixes(ts) {
      var t' :| t' in ts && t'.isPrefix && t'.text == t.text;
    }
  }

  /** One pass over the sorted keys, stopping as soon as one item too many turns up. */
  method ListObjects(v: Volume, q: Query, keys: seq<string>, maxKeys: int) returns (page: Page)
    ensures page == PageOf(v, q, keys, ClampMax(maxKeys))
  {
    hide Listed, DisplayToken, Live;
    var max := ClampMax(maxKeys);
    var items, seen, last := [], {}, "";
    assert keys[..0] == [];
    for i := 0 to |keys|
      invariant items == Full(v, q, keys[..i]) && |items| <= max
      invariant seen == Prefixes(items)
      invariant items != [] ==> last == items[|items| - 1].text
    {
      var key := keys[i];
      assert keys[..i + 1][..i] == keys[..i];
      FullGrows(v, q, keys, i + 1);
      ListedCases(v, q, key);
      if !(q.prefix <= key) {
        continue;
      }
      var t := DisplayToken(key, q.prefix, q.delim);
      if q.after != "" && AtMost(t.text, q.after) {
        continue;
      }
      if t.isPrefix {
        PrefixSeen(items, t);
        if t.text in seen {
          continue;
        }
        if |items| >= max {
          return Page(items, true, last);
        }
        seen := seen + {t.text};
        items, last := items + [t], t.text;
        continue;
      }
      if !Live(v, key) {
        continue;
      }
      if |items| >= max {
        return Page(items, true, last);
      }
      assert Prefixes(items + [t]) == Prefixes(items);
      items, last := items + [t], t.text;
    }
    assert keys[..|keys|] == keys;
    page := Page(items, false, "");
  }

  lemma ListedCases(v: Volume, q: Query, key: string)
    ensures Listed(v, q, key) <==>
      q.prefix <= key && !(q.after != "" && AtMost(DisplayToken(key, q.prefix, q.delim).text, q.after))
      && (DisplayToken(key, q.prefix, q.delim).isPrefix || Live(v, key))
  {
  }

  datatype ListInput = ListInput(prefix: string, delim: string, token: string, startAfter: string, marker: string, maxKeys: int)

  /** The page holds no more than was asked for, and as much as that when there is more. */
  predicate Fills(page: Page, max: nat) { |page.items| <= max && (page.truncated ==> |page.items| == max) }

  /** The whole request: a missing bucket is refused, the keys are those of the tree walk, and of the
      three cursors the marker wins over the token and the token over start-after. */
  method ListObjectsV2(v: Volume, input: ListInput) returns (page: Option<Page>)
    ensures BucketConfig(v).None? ==> page == None
    ensures BucketConfig(v).Some? ==>
      forall keys | ListsKeys(keys, v.tree.Keys) ::
        var q := Query(input.prefix, input.delim, Cursor(input.token, input.startAfter, input.marker));
        page == Some(PageOf(v, q, keys, ClampMax(input.maxKeys)))
    ensures page.Some? && 1 <= input.maxKeys <= 1000 ==> Fills(page.value, input.maxKeys)
    ensures page.Some? && !(1 <= input.maxKeys <= 1000) ==> Fills(page.value, 1000)
  {
    if BucketConfig(v).None? {
      return None;
    }
    var keys := SortKeys(v.tree.Keys);
    forall other | ListsKeys(other, v.tree.Keys) ensures other == keys { SortedOnce(other, keys); }
    var after := input.token;
    if after == "" {
      after := input.startAfter;
    }
    if input.marker != "" {
      after := input.marker;
    }
    hide Full;
    var p := ListObjects(v, Query(input.prefix, input.delim, after), keys, input.maxKeys);
    return Some(p);
  }
}
