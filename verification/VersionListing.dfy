/** The paginated listing of versions and delete markers, resumed at the first entry not returned. */
module VersionListing {
  import opened Types
  import opened Store
  import opened Rep
  import opened Order
  import opened Sorting
  import opened Listing

  /** One listed thing: a version (or delete marker) at its place in its key's list, or a common prefix. */
  datatype Item = Entry(key: string, index: nat, meta: ObjectMeta) | Common(text: string)

  function Place(x: Item): string { if x.Entry? then x.key else x.text }

  datatype Request = Request(prefix: string, delim: string, keyMarker: string, versionMarker: string)

  function EntriesOf(key: string, vs: seq<ObjectMeta>): (r: seq<Item>)
    ensures |r| == |vs| && forall i | 0 <= i < |vs| :: r[i] == Entry(key, i, vs[i])
  {
    seq(|vs|, i requires 0 <= i < |vs| => Entry(key, i, vs[i]))
  }

  /** What a key contributes, markers aside. */
  function ItemsOf(v: Volume, q: Request, key: string): seq<Item> {
    if !(q.prefix <= key) then []
    else
      var t := DisplayToken(key, q.prefix, q.delim);
      if t.isPrefix then [Common(t.text)] else EntriesOf(key, Versions(v, key))
  }

  /** Everything there is to list, each common prefix once. */
  function All(v: Volume, q: Request, keys: seq<string>): seq<Item> {
    if keys == [] then []
    else
      var rest, more := All(v, q, keys[..|keys| - 1]), ItemsOf(v, q, keys[|keys| - 1]);
      if |more| == 1 && more[0].Common? && more[0] in rest then rest else rest + more
  }

  /** The item is not passed over by the markers: it lies beyond the key marker or, at the marker key
      itself, at or below the marker version. */
  predicate Keeps(v: Volume, q: Request, x: Item) {
    if q.keyMarker == "" then true
    else if Less(q.keyMarker, Place(x)) then true
    else
      x.Entry? && x.key == q.keyMarker && q.versionMarker != "" && x.index >= IndexOfID(Versions(v, x.key), q.versionMarker)
  }

  function Kept(v: Volume, q: Request, xs: seq<Item>): seq<Item> {
    if xs == [] then []
    else Kept(v, q, xs[..|xs| - 1]) + if Keeps(v, q, xs[|xs| - 1]) then [xs[|xs| - 1]] else []
  }

  /** The whole answer to a request, unpaged. */
  function Answer(v: Volume, q: Request, keys: seq<string>): seq<Item> { Kept(v, q, All(v, q, keys)) }

  // ---- the order of the items ----

  /** `x` is listed before `y`. */
  predicate Before(x: Item, y: Item) {
    Less(Place(x), Place(y)) || (x.Entry? && y.Entry? && x.key == y.key && x.index < y.index)
  }

  ghost predicate InOrder(xs: seq<Item>) { forall i, j | 0 <= i < j < |xs| :: Before(xs[i], xs[j]) }

  /** Every item of the list comes from one of the keys. */
  lemma {:induction false} AllFrom(v: Volume, q: Request, keys: seq<string>)
    ensures forall x | x in All(v, q, keys) :: exists k | k in keys :: x in ItemsOf(v, q, k)
  {
    hide ItemsOf;
    if keys != [] {
      var init, key := keys[..|keys| - 1], keys[|keys| - 1];
      AllFrom(v, q, init);
      assert forall k :: k in keys <==> k in init || k == key;
    }
  }

  lemma ItemsShape(v: Volume, q: Request, k: string, x: Item)
    requires x in ItemsOf(v, q, k)
    ensures q.prefix <= k
    ensures var t := DisplayToken(k, q.prefix, q.delim);
      && Place(x) == t.text && (x.Common? <==> t.isPrefix)
      && (x.Entry? ==> x.key == k && x.index < |Versions(v, k)| && x.meta == Versions(v, k)[x.index])
  {
    hide Versions;
    TokenShape(k, q.prefix, q.delim);
  }

  /** The items of a smaller key come before those of a larger one, but for a shared common prefix. */
  lemma KeysInOrder(v: Volume, q: Request, k: string, k2: string, x: Item, y: Item)
    requires Less(k, k2) && x in ItemsOf(v, q, k) && y in ItemsOf(v, q, k2)
    ensures Before(x, y) || (x == y && x.Common?)
  {
    ItemsShape(v, q, k, x);
    ItemsShape(v, q, k2, y);
    DisplayMonotone(k, k2, q.prefix, q.delim);
    hide ItemsOf, DisplayToken;
  }

  /** What smaller keys contribute precedes a larger key's items, a shared common prefix apart. */
  lemma EarlierKeysFirst(v: Volume, q: Request, keys: seq<string>, key: string, x: Item, y: Item)
    requires forall i | 0 <= i < |keys| :: Less(keys[i], key)
    requires x in All(v, q, keys) && y in ItemsOf(v, q, key)
    ensures Before(x, y) || (x == y && x.Common?)
  {
    AllFrom(v, q, keys);
    hide All, ItemsOf;
    var k :| k in keys && x in ItemsOf(v, q, k);
    KeysInOrder(v, q, k, key, x, y);
  }

  lemma {:induction false} AllInOrder(v: Volume, q: Request, keys: seq<string>)
    requires Ascending(keys)
    ensures InOrder(All(v, q, keys))
  {
    if keys != [] {
      var init, key := keys[..|keys| - 1], keys[|keys| - 1];
      AllInOrder(v, q, init);
      var rest, more, all := All(v, q, init), ItemsOf(v, q, key), All(v, q, keys);
      if all != rest {
        assert all == rest + more;
        forall x, y | x in rest && y in more ensures Before(x, y) {
          EarlierKeysFirst(v, q, init, key, x, y);
          if y.Common? { OneCommon(v, q, key, y); }
        }
        OwnInOrder(v, q, key);
        AppendInOrder(rest, more);
      }
    }
  }

  /** A common prefix is a key's only item. */
  lemma OneCommon(v: Volume, q: Request, key: string, x: Item)
    requires x in ItemsOf(v, q, key) && x.Common?
    ensures ItemsOf(v, q, key) == [x]
  {
    hide Versions;
  }

  lemma OwnInOrder(v: Volume, q: Request, key: string)
    ensures InOrder(ItemsOf(v, q, key))
  {
    hide Versions;
  }

  lemma AppendInOrder(a: seq<Item>, b: seq<Item>)
    requires InOrder(a) && InOrder(b) && forall i, j | 0 <= i < |a| && 0 <= j < |b| :: Before(a[i], b[j])
    ensures InOrder(a + b)
  {
    var c := a + b;
    forall i, j | 0 <= i < j < |c| ensures Before(c[i], c[j]) {
      if j < |a| {} else if i < |a| { assert Before(a[i], b[j - |a|]); } else { assert Before(b[i - |a|], b[j - |a|]); }
    }
  }

  // ---- markers cut the list ----

  /** The markers a truncated page hands out: those of the first item it did not return. */
  function Mark(q: Request, x: Item): Request {
    if x.Entry? then q.(keyMarker := x.key, versionMarker := x.meta.versionID)
    else q.(keyMarker := x.text, versionMarker := "")
  }

  /** Resuming at this entry finds it again: its id is not empty and no newer version of the key has it. */
  predicate Findable(v: Volume, x: Item) {
    x.Entry? && x.meta.versionID != "" && IndexOfID(Versions(v, x.key), x.meta.versionID) == x.index
  }

  lemma {:induction false} SameAll(v: Volume, q: Request, q2: Request, keys: seq<string>)
    requires q.prefix == q2.prefix && q.delim == q2.delim
    ensures All(v, q, keys) == All(v, q2, keys)
  {
    if keys != [] { SameAll(v, q, q2, keys[..|keys| - 1]); }
  }

  lemma {:induction false} KeptSuffix(v: Volume, q: Request, xs: seq<Item>, n: nat)
    requires n <= |xs| && forall i | 0 <= i < |xs| :: Keeps(v, q, xs[i]) <==> i >= n
    ensures Kept(v, q, xs) == xs[n..]
  {
    if xs != [] {
      var init := xs[..|xs| - 1];
      if n < |xs| {
        KeptSuffix(v, q, init, n);
        assert xs[n..] == init[n..] + [xs[|xs| - 1]];
      } else {
        KeptSuffix(v, q, init, n - 1);
      }
    }
  }

  /** Markers keep everything from some place on. */
  lemma {:induction false} CutPoint(v: Volume, q: Request, xs: seq<Item>) returns (n: nat)
    requires InOrder(xs)
    ensures n <= |xs| && forall i | 0 <= i < |xs| :: Keeps(v, q, xs[i]) <==> i >= n
  {
    if xs == [] {
      n := 0;
    } else {
      var init, last := xs[..|xs| - 1], xs[|xs| - 1];
      n := CutPoint(v, q, init);
      if n < |init| {
        assert Before(xs[n], last) && Keeps(v, q, init[n]);
        KeepsLater(v, q, xs[n], last);
      } else if !Keeps(v, q, last) {
        n := |xs|;
      }
    }
  }

  lemma KeepsLater(v: Volume, q: Request, x: Item, y: Item)
    requires Keeps(v, q, x) && Before(x, y)
    ensures Keeps(v, q, y)
  {
    hide Versions;
    if q.keyMarker != "" && Less(Place(x), Place(y)) && Less(q.keyMarker, Place(x)) {
      LessTrans(q.keyMarker, Place(x), Place(y));
    }
  }

  /** A marker from an item passes over everything before it; it keeps the item itself exactly when
      the item can be found again, and keeps everything after it in any case but one. */
  lemma MarkSeparates(v: Volume, q: Request, x: Item, y: Item)
    requires Place(x) != ""
    ensures Before(y, x) && (x.Common? || Findable(v, x)) ==> !Keeps(v, Mark(q, x), y)
    ensures Before(x, y) && (x.Common? || Findable(v, x)) ==> Keeps(v, Mark(q, x), y)
    ensures Findable(v, x) ==> Keeps(v, Mark(q, x), x)
    ensures x.Common? || x.meta.versionID == "" ==> !Keeps(v, Mark(q, x), x)
  {
    hide Versions;
    LessIrreflexive(Place(x));
    if Less(Place(y), Place(x)) { LessAsymmetric(Place(y), Place(x)); }
  }

  lemma {:induction false} HoldsAll(v: Volume, q: Request, keys: seq<string>, k: string)
    requires k in keys
    ensures forall x | x in ItemsOf(v, q, k) :: x in All(v, q, keys)
  {
    hide ItemsOf;
    var init, key := keys[..|keys| - 1], keys[|keys| - 1];
    if k != key {
      assert keys == init + [key];
      HoldsAll(v, q, init, k);
    } else {
      var more := ItemsOf(v, q, key);
      forall x | x in more ensures x in All(v, q, keys) {
        if |more| == 1 { assert x == more[0]; }
      }
    }
  }

  /** If a newer version of the key has the same id, that one is kept. */
  lemma TwinKept(v: Volume, q: Request, keys: seq<string>, x: Item) returns (y: Item)
    requires x in All(v, q, keys) && x.Entry? && x.meta.versionID != "" && !Findable(v, x) && x.key != ""
    ensures y in All(v, q, keys) && Before(y, x) && Keeps(v, Mark(q, x), y)
  {
    hide All;
    AllFrom(v, q, keys);
    var k :| k in keys && x in ItemsOf(v, q, k);
    ItemsShape(v, q, k, x);
    HoldsAll(v, q, keys, k);
    var vs := Versions(v, k);
    var i := IndexOfID(vs, x.meta.versionID);
    y := Entry(k, i, vs[i]);
    assert y == EntriesOf(k, vs)[i];
    LessIrreflexive(k);
  }

  lemma PlacesNamed(v: Volume, q: Request, keys: seq<string>, x: Item)
    requires x in All(v, q, keys) && "" !in keys
    ensures Place(x) != ""
  {
    hide All, ItemsOf;
    AllFrom(v, q, keys);
    var k :| k in keys && x in ItemsOf(v, q, k);
    ItemsShape(v, q, k, x);
    TokenShape(k, q.prefix, q.delim);
  }

  /** Where the markers of the n-th item cut: at it when it can be found again, just past it when it
      is a common prefix, and elsewhere otherwise. */
  lemma MarkCuts(v: Volume, q: Request, keys: seq<string>, n: nat)
    requires Ascending(keys) && "" !in keys && n < |All(v, q, keys)|
    ensures var xs, q2 := All(v, q, keys), Mark(q, All(v, q, keys)[n]);
      && (Kept(v, q2, xs) == xs[n..] <==> Findable(v, xs[n]))
      && (xs[n].Common? ==> Kept(v, q2, xs) == xs[n + 1..])
  {
    hide All, Findable, Keeps;
    var xs := All(v, q, keys);
    var x := xs[n];
    var q2 := Mark(q, x);
    AllInOrder(v, q, keys);
    PlacesNamed(v, q, keys, x);
    var c := CutPoint(v, q2, xs);
    KeptSuffix(v, q2, xs, c);
    MarkSeparates(v, q, x, x);
    if x.Common? || Findable(v, x) {
      if n > 0 { MarkSeparates(v, q, x, xs[n - 1]); }
      if n + 1 < |xs| { MarkSeparates(v, q, x, xs[n + 1]); }
      assert x.Common? ==> !Findable(v, x) by { FindableIsEntry(v, x); }
      assert c == if x.Common? then n + 1 else n;
    } else if x.meta.versionID != "" {
      var y := TwinKept(v, q, keys, x);
      var m :| 0 <= m < |xs| && xs[m] == y;
      NotAfter(xs, m, n);
    }
    assert |xs[n..]| == |xs| - n && |Kept(v, q2, xs)| == |xs| - c;
  }

  lemma FindableIsEntry(v: Volume, x: Item)
    ensures Findable(v, x) ==> x.Entry? && x.meta.versionID != ""
  {}

  lemma NotAfter(xs: seq<Item>, m: nat, n: nat)
    requires InOrder(xs) && m < |xs| && n < |xs| && Before(xs[m], xs[n])
    ensures m < n
  {
    LessIrreflexive(Place(xs[m]));
    if n < m {
      assert Before(xs[n], xs[m]);
      if Less(Place(xs[m]), Place(xs[n])) { LessAsymmetric(Place(xs[m]), Place(xs[n])); }
    }
  }

  // ---- pages ----

  datatype VersionPage = VersionPage(items: seq<Item>, truncated: bool, next: Request)

  function PageOf(v: Volume, q: Request, keys: seq<string>, max: nat): VersionPage {
    var all := Answer(v, q, keys);
    if |all| <= max then VersionPage(all, false, q) else VersionPage(all[..max], true, Mark(q, all[max]))
  }

  /** RESUMING: the answer from a page's markers is exactly what the page left out if and only if the
      first item left out is a version that its id finds again. If it is a common prefix, the answer
      continues just after it: that prefix is never listed. */
  lemma ResumeExact(v: Volume, q: Request, keys: seq<string>, max: nat)
    requires Ascending(keys) && "" !in keys && max < |Answer(v, q, keys)|
    ensures var all, next := Answer(v, q, keys), PageOf(v, q, keys, max).next;
      && (Answer(v, next, keys) == all[max..] <==> Findable(v, all[max]))
      && (all[max].Common? ==> Answer(v, next, keys) == all[max + 1..])
  {
    hide All, Findable, Keeps, Kept;
    var xs := All(v, q, keys);
    AllInOrder(v, q, keys);
    var c := CutPoint(v, q, xs);
    KeptSuffix(v, q, xs, c);
    var n := c + max;
    SameAll(v, q, Mark(q, xs[n]), keys);
    MarkCuts(v, q, keys, n);
    assert xs[c..][max..] == xs[n..] && xs[c..][max + 1..] == xs[n + 1..];
  }

  /** Ids tell the versions of each key apart, as every well-formed key's do. */
  ghost predicate NamedApart(v: Volume, keys: seq<string>) {
    forall k, i | k in keys && 0 <= i < |Versions(v, k)| ::
      Versions(v, k)[i].versionID != "" && IndexOfID(Versions(v, k), Versions(v, k)[i].versionID) == i
  }

  lemma AnswerFindable(v: Volume, q: Request, keys: seq<string>, x: Item)
    requires NamedApart(v, keys) && x in Answer(v, q, keys) && x.Entry?
    ensures Findable(v, x)
  {
    hide All, ItemsOf, Versions;
    KeptIn(v, q, All(v, q, keys), x);
    AllFrom(v, q, keys);
    var k :| k in keys && x in ItemsOf(v, q, k);
    ItemsShape(v, q, k, x);
  }

  lemma {:induction false} KeptIn(v: Volume, q: Request, xs: seq<Item>, x: Item)
    requires x in Kept(v, q, xs)
    ensures x in xs
  {
    if x in Kept(v, q, xs[..|xs| - 1]) { KeptIn(v, q, xs[..|xs| - 1], x); }
  }

  /** Following the markers until a page is not truncated. */
  ghost function Walk(v: Volume, q: Request, keys: seq<string>, max: nat): seq<VersionPage>
    requires Ascending(keys) && "" !in keys && NamedApart(v, keys) && max > 0
    decreases |Answer(v, q, keys)|
  {
    var page := PageOf(v, q, keys, max);
    if !page.truncated then [page]
    else
      Shrinks(v, q, keys, max);
      [page] + Walk(v, page.next, keys, max)
  }

  lemma Shrinks(v: Volume, q: Request, keys: seq<string>, max: nat)
    requires Ascending(keys) && "" !in keys && NamedApart(v, keys) && max < |Answer(v, q, keys)|
    ensures var all := Answer(v, q, keys);
      Answer(v, PageOf(v, q, keys, max).next, keys) == all[if all[max].Common? then max + 1 else max..]
  {
    hide Answer, Findable;
    ResumeExact(v, q, keys, max);
    var x := Answer(v, q, keys)[max];
    if x.Entry? { AnswerFindable(v, q, keys, x); }
  }

  function Items(pages: seq<VersionPage>): seq<Item> {
    if pages == [] then [] else pages[0].items + Items(pages[1..])
  }

  /** What a walk lists of the whole answer: a page at a time, a common prefix that would start a page
      left out. */
  function Surviving(all: seq<Item>, max: nat): seq<Item>
    requires max > 0
    decreases |all|
  {
    if |all| <= max then all
    else all[..max] + Surviving(all[if all[max].Common? then max + 1 else max..], max)
  }

  /** The items in places max, 2 * max, 3 * max and so on of the answer are versions. */
  predicate PagesStartAtVersions(all: seq<Item>, max: nat)
    requires max > 0
  {
    forall i | 0 < i < |all| && i % max == 0 :: all[i].Entry?
  }

  lemma Scaled(k: int, max: nat)
    requires max > 0
    ensures k >= 1 ==> max * k >= max
    ensures k <= -1 ==> max * k + max <= 0
  {
    if k >= 1 {
      assert max * k == max + max * (k - 1) && max * (k - 1) >= 0;
    } else if k <= -1 {
      assert max * k + max == max * (k + 1) && max * (k + 1) <= 0;
    }
  }

  lemma Remainder(n: int, q: int, r: nat, max: nat)
    requires r < max && n == max * q + r
    ensures n % max == r
  {
    var d, m := n / max, n % max;
    assert n == max * d + m;
    assert max * (d - q) == max * d - max * q;
    Scaled(d - q, max);
  }

  lemma Multiples(i: int, max: nat)
    requires max > 0
    ensures (i + max) % max == i % max
    ensures 0 < i < max ==> i % max != 0
  {
    var d, r := i / max, i % max;
    assert i == max * d + r && max * (d + 1) == max * d + max;
    Remainder(i + max, d + 1, r, max);
  }

  lemma LaterPages(all: seq<Item>, max: nat)
    requires 0 < max < |all| && all[max].Entry?
    ensures PagesStartAtVersions(all, max) <==> PagesStartAtVersions(all[max..], max)
  {
    var rest := all[max..];
    if PagesStartAtVersions(all, max) {
      forall i | 0 < i < |rest| && i % max == 0 ensures rest[i].Entry? {
        Multiples(i, max);
        assert rest[i] == all[i + max];
      }
    }
    if PagesStartAtVersions(rest, max) {
      forall i | 0 < i < |all| && i % max == 0 ensures all[i].Entry? {
        Multiples(i, max);
        if i > max {
          Multiples(i - max, max);
          assert all[i] == rest[i - max];
        }
      }
    }
  }

  /** Nothing is left out exactly when no page would start with a common prefix. */
  lemma {:induction false} SurvivingExact(all: seq<Item>, max: nat)
    requires max > 0
    ensures |Surviving(all, max)| <= |all|
    ensures Surviving(all, max) == all <==> PagesStartAtVersions(all, max)
    decreases |all|
  {
    if |all| <= max {
      forall i | 0 < i < |all| ensures i % max != 0 { Multiples(i, max); }
    } else if all[max].Common? {
      SurvivingExact(all[max + 1..], max);
      assert max % max == 0 by { Multiples(0, max); }
      assert !PagesStartAtVersions(all, max);
    } else {
      SurvivingExact(all[max..], max);
      LaterPages(all, max);
      hide PagesStartAtVersions;
      assert all == all[..max] + all[max..];
      assert Surviving(all, max) == all ==> Surviving(all[max..], max) == all[max..] by {
        assert Surviving(all, max)[max..] == Surviving(all[max..], max);
      }
    }
  }

  lemma {:induction false} WalkSurvives(v: Volume, q: Request, keys: seq<string>, max: nat)
    requires Ascending(keys) && "" !in keys && NamedApart(v, keys) && max > 0
    ensures Items(Walk(v, q, keys, max)) == Surviving(Answer(v, q, keys), max)
    decreases |Answer(v, q, keys)|
  {
    hide Answer;
    var page, pages, all := PageOf(v, q, keys, max), Walk(v, q, keys, max), Answer(v, q, keys);
    if page.truncated {
      Shrinks(v, q, keys, max);
      WalkSurvives(v, page.next, keys, max);
      var rest := Walk(v, page.next, keys, max);
      assert pages == [page] + rest && pages[1..] == rest;
    } else {
      assert pages == [page] && pages[1..] == [];
      assert Items([]) == [];
    }
  }

  /** MAIN THEOREM: following the markers lists the whole answer, page by page, but for the common
      prefixes that would start a page; so every version, delete marker and common prefix comes exactly
      once and in order if and only if the items in places max, 2 * max, 3 * max ... of the answer are
      versions. */
  lemma WalkExact(v: Volume, q: Request, keys: seq<string>, max: nat)
    requires Ascending(keys) && "" !in keys && NamedApart(v, keys) && max > 0
    ensures Items(Walk(v, q, keys, max)) == Surviving(Answer(v, q, keys), max)
    ensures Items(Walk(v, q, keys, max)) == Answer(v, q, keys) <==> PagesStartAtVersions(Answer(v, q, keys), max)
  {
    hide Answer, Walk, PagesStartAtVersions;
    WalkSurvives(v, q, keys, max);
    SurvivingExact(Answer(v, q, keys), max);
  }

  /** Without a delimiter the walk always lists everything. */
  lemma PlainWalk(v: Volume, q: Request, keys: seq<string>, max: nat)
    requires Ascending(keys) && "" !in keys && NamedApart(v, keys) && max > 0 && q.delim == ""
    ensures Items(Walk(v, q, keys, max)) == Answer(v, q, keys)
  {
    var all := Answer(v, q, keys);
    forall x | x in all ensures x.Entry? {
      KeptIn(v, q, All(v, q, keys), x);
      AllFrom(v, q, keys);
      hide All, Kept, ItemsOf;
      var k :| k in keys && x in ItemsOf(v, q, k);
      ItemsShape(v, q, k, x);
    }
    hide Answer, Walk;
    WalkExact(v, q, keys, max);
  }

  /** And the answer without markers is exactly the versions of every key with the prefix, each key's
      newest first, or the key's common prefix. */
  lemma AnswerIsAll(v: Volume, q: Request, keys: seq<string>)
    requires Ascending(keys) && q.keyMarker == ""
    ensures InOrder(Answer(v, q, keys))
    ensures forall x :: x in Answer(v, q, keys) <==> exists k | k in keys :: x in ItemsOf(v, q, k)
  {
    hide ItemsOf;
    KeptSuffix(v, q, All(v, q, keys), 0);
    hide All, Kept;
    AllInOrder(v, q, keys);
    AllFrom(v, q, keys);
    forall k | k in keys ensures forall x | x in ItemsOf(v, q, k) :: x in All(v, q, keys) { HoldsAll(v, q, keys, k); }
  }

  /** The keys of every well-formed bucket have their versions named apart. */
  lemma WellFormedNamedApart(v: Volume, keys: seq<string>)
    requires forall k | k in keys :: Versions(v, k) == [] || WellFormed(Versions(v, k))
    ensures NamedApart(v, keys)
  {
    hide Versions;
    forall k, i | k in keys && 0 <= i < |Versions(v, k)|
      ensures Versions(v, k)[i].versionID != "" && IndexOfID(Versions(v, k), Versions(v, k)[i].versionID) == i
    {
      assert WellPlaced(Versions(v, k)[i], i);
    }
  }

  // ---- the loop ----

  lemma {:induction false} KeptAppend(v: Volume, q: Request, a: seq<Item>, b: seq<Item>)
    ensures Kept(v, q, a + b) == Kept(v, q, a) + Kept(v, q, b)
  {
    if b == [] {
      assert a + b == a;
    } else {
      KeptAppend(v, q, a, b[..|b| - 1]);
      assert (a + b)[..|a + b| - 1] == a + b[..|b| - 1] && (a + b)[|a + b| - 1] == b[|b| - 1];
      hide Keeps;
    }
  }

  lemma {:induction false} KeptMember(v: Volume, q: Request, xs: seq<Item>, x: Item)
    ensures x in Kept(v, q, xs) <==> x in xs && Keeps(v, q, x)
  {
    if xs != [] {
      KeptMember(v, q, xs[..|xs| - 1], x);
      assert xs == xs[..|xs| - 1] + [xs[|xs| - 1]];
    }
  }

  lemma AnswerStep(v: Volume, q: Request, keys: seq<string>, i: nat)
    requires i < |keys|
    ensures var was, more := Answer(v, q, keys[..i]), ItemsOf(v, q, keys[i]);
      Answer(v, q, keys[..i + 1]) ==
      if |more| == 1 && more[0].Common? && more[0] in was then was else was + Kept(v, q, more)
  {
    hide ItemsOf, Keeps;
    assert keys[..i + 1][..i] == keys[..i];
    var all, more := All(v, q, keys[..i]), ItemsOf(v, q, keys[i]);
    KeptAppend(v, q, all, more);
    if |more| == 1 {
      KeptMember(v, q, all, more[0]);
      KeptMember(v, q, more, more[0]);
      assert more == [] + [more[0]];
      KeptAppend(v, q, [], [more[0]]);
    }
  }

  lemma {:induction false} AnswerGrows(v: Volume, q: Request, keys: seq<string>, i: nat)
    requires i <= |keys|
    ensures Answer(v, q, keys[..i]) <= Answer(v, q, keys)
    decreases |keys| - i
  {
    if i < |keys| {
      AnswerStep(v, q, keys, i);
      AnswerGrows(v, q, keys, i + 1);
    } else {
      assert keys[..i] == keys;
    }
  }

  function Commons(xs: seq<Item>): set<string> { set x | x in xs && x.Common? :: x.text }

  lemma CommonSeen(xs: seq<Item>, t: string)
    ensures t in Commons(xs) <==> Common(t) in xs
    ensures Commons(xs + [Common(t)]) == Commons(xs) + {t}
  {
    if Common(t) in xs { assert Common(t).text in Commons(xs); }
  }

  lemma EntriesNotCommon(xs: seq<Item>, ys: seq<Item>)
    requires forall y | y in ys :: y.Entry?
    ensures Commons(xs + ys) == Commons(xs)
  {}

  /** The markers pass over a key before its versions are looked at. */
  predicate PassedOver(q: Request, t: Token, key: string) {
    q.keyMarker != "" &&
    (Less(t.text, q.keyMarker) || (t.text == q.keyMarker && !(q.versionMarker != "" && !t.isPrefix && key == q.keyMarker)))
  }

  lemma PassedOverKeepsNothing(v: Volume, q: Request, key: string, x: Item)
    requires q.prefix <= key && x in ItemsOf(v, q, key)
    ensures var t := DisplayToken(key, q.prefix, q.delim);
      && (PassedOver(q, t, key) ==> !Keeps(v, q, x))
      && (!PassedOver(q, t, key) && t.isPrefix ==> Keeps(v, q, x))
      && (!PassedOver(q, t, key) && q.keyMarker != "" ==>
           Less(q.keyMarker, t.text) || (!t.isPrefix && q.versionMarker != "" && key == q.keyMarker))
  {
    ItemsShape(v, q, key, x);
    var t := DisplayToken(key, q.prefix, q.delim);
    TokenShape(key, q.prefix, q.delim);
    LessTotal(t.text, q.keyMarker);
    LessIrreflexive(q.keyMarker);
    if Less(t.text, q.keyMarker) { LessAsymmetric(t.text, q.keyMarker); }
    hide ItemsOf, DisplayToken, Versions;
  }

  lemma {:induction false} NoneKept(v: Volume, q: Request, xs: seq<Item>)
    requires forall x | x in xs :: !Keeps(v, q, x)
    ensures Kept(v, q, xs) == []
  {
    if xs != [] { NoneKept(v, q, xs[..|xs| - 1]); }
  }

  lemma KeptOneMore(v: Volume, q: Request, xs: seq<Item>, j: nat)
    requires j < |xs|
    ensures Kept(v, q, xs[..j + 1]) == Kept(v, q, xs[..j]) + if Keeps(v, q, xs[j]) then [xs[j]] else []
  {
    assert xs[..j + 1][..j] == xs[..j];
  }

  /** Kept items of a beginning are a beginning of the kept items. */
  lemma {:induction false} KeptGrows(v: Volume, q: Request, xs: seq<Item>, j: nat)
    requires j <= |xs|
    ensures Kept(v, q, xs[..j]) <= Kept(v, q, xs)
  {
    assert xs[..j] + xs[j..] == xs;
    KeptAppend(v, q, xs[..j], xs[j..]);
  }

  /** When an entry of a key that is not passed over is kept, as the flag of the loop over its versions says. */
  lemma ReachedKeeps(v: Volume, q: Request, key: string, j: nat)
    requires j < |Versions(v, key)|
    requires q.keyMarker == "" || Less(q.keyMarker, key) || (q.versionMarker != "" && key == q.keyMarker)
    ensures var resuming := q.keyMarker != "" && q.versionMarker != "" && key == q.keyMarker;
      Keeps(v, q, Entry(key, j, Versions(v, key)[j])) <==> !resuming || IndexOfID(Versions(v, key), q.versionMarker) <= j
  {
    hide Versions;
    LessIrreflexive(key);
  }

  /** The versions of one key that is not passed over, appended until one too many turns up. */
  method ListVersionsOf(v: Volume, q: Request, key: string, before: seq<Item>, max: nat)
    returns (items: seq<Item>, stop: Option<Item>)
    requires |before| <= max
    requires q.keyMarker == "" || Less(q.keyMarker, key) || (q.versionMarker != "" && key == q.keyMarker)
    ensures var all := before + Kept(v, q, EntriesOf(key, Versions(v, key)));
      if |all| <= max then items == all && stop == None else items == all[..max] && stop == Some(all[max])
  {
    hide Keeps, Versions, Kept;
    var vs := Versions(v, key);
    ghost var xs := EntriesOf(key, vs);
    items, stop := before, None;
    var reached := !(q.keyMarker != "" && q.versionMarker != "" && key == q.keyMarker);
    assert xs[..0] == [];
    NoneKept(v, q, []);
    for j := 0 to |vs|
      invariant items == before + Kept(v, q, xs[..j]) && |items| <= max
      invariant reached <==> !(q.keyMarker != "" && q.versionMarker != "" && key == q.keyMarker) || IndexOfID(vs, q.versionMarker) < j
    {
      KeptOneMore(v, q, xs, j);
      KeptGrows(v, q, xs, j + 1);
      ReachedKeeps(v, q, key, j);
      if !reached {
        if vs[j].versionID == q.versionMarker {
          reached := true;
        } else {
          continue;
        }
      }
      if |items| >= max {
        OneTooMany(before, Kept(v, q, xs[..j]), xs[j], Kept(v, q, xs));
        return items, Some(Entry(key, j, vs[j]));
      }
      items := items + [Entry(key, j, vs[j])];
    }
    assert xs[..|vs|] == xs;
  }

  lemma OneTooMany(before: seq<Item>, some: seq<Item>, x: Item, kept: seq<Item>)
    requires some + [x] <= kept
    ensures var all, n := before + kept, |before| + |some|;
      |all| > n && all[..n] == before + some && all[n] == x
  {
    assert kept == some + [x] + kept[|some| + 1..];
  }

  lemma KeptEntries(v: Volume, q: Request, key: string)
    ensures forall x | x in Kept(v, q, EntriesOf(key, Versions(v, key))) :: x.Entry?
  {
    hide Versions, Keeps;
    forall x | x in Kept(v, q, EntriesOf(key, Versions(v, key))) ensures x.Entry? {
      KeptIn(v, q, EntriesOf(key, Versions(v, key)), x);
    }
  }

  /** What a key adds to the answer, case by case as the loop tells them apart. */
  lemma StepCases(v: Volume, q: Request, keys: seq<string>, i: nat)
    requires i < |keys|
    ensures var was, now, key := Answer(v, q, keys[..i]), Answer(v, q, keys[..i + 1]), keys[i];
      if !(q.prefix <= key) then now == was
      else
        var t := DisplayToken(key, q.prefix, q.delim);
        if PassedOver(q, t, key) then now == was
        else if t.isPrefix then now == (if Common(t.text) in was then was else was + [Common(t.text)])
        else
          && now == was + Kept(v, q, EntriesOf(key, Versions(v, key)))
          && (Versions(v, key) == [] || q.keyMarker == "" || Less(q.keyMarker, key) || (q.versionMarker != "" && key == q.keyMarker))
  {
    AnswerStep(v, q, keys, i);
    var key := keys[i];
    var more := ItemsOf(v, q, key);
    hide Answer, Keeps, Versions;
    if q.prefix <= key {
      TokenShape(key, q.prefix, q.delim);
      forall x | x in more
        ensures var t := DisplayToken(key, q.prefix, q.delim);
          && (PassedOver(q, t, key) ==> !Keeps(v, q, x))
          && (!PassedOver(q, t, key) && t.isPrefix ==> Keeps(v, q, x))
      {
        PassedOverKeepsNothing(v, q, key, x);
      }
      var t := DisplayToken(key, q.prefix, q.delim);
      if PassedOver(q, t, key) {
        NoneKept(v, q, more);
      } else if t.isPrefix {
        assert more == [Common(t.text)] && more[..0] == [];
      } else {
        if |more| > 0 { PassedOverKeepsNothing(v, q, key, more[0]); }
      }
    }
  }

  /** One pass over the sorted keys, stopping at the first item too many. */
  method ListItems(v: Volume, q: Request, keys: seq<string>, maxKeys: int) returns (page: VersionPage)
    ensures page == PageOf(v, q, keys, ClampMax(maxKeys))
  {
    hide DisplayToken, Versions, Keeps, Kept, ItemsOf, All, Answer, PassedOver;
    var max := ClampMax(maxKeys);
    var items, seen := [], {};
    assert keys[..0] == [];
    NothingYet(v, q);
    for i := 0 to |keys|
      invariant items == Answer(v, q, keys[..i]) && |items| <= max
      invariant seen == Commons(items)
    {
      var key := keys[i];
      StepCases(v, q, keys, i);
      AnswerGrows(v, q, keys, i + 1);
      if !(q.prefix <= key) {
        continue;
      }
      var t := DisplayToken(key, q.prefix, q.delim);
      if PassedOver(q, t, key) {
        continue;
      }
      if t.isPrefix {
        CommonSeen(items, t.text);
        if t.text in seen {
          continue;
        }
        if |items| >= max {
          return VersionPage(items, true, Mark(q, Common(t.text)));
        }
        seen := seen + {t.text};
        items := items + [Common(t.text)];
        continue;
      }
      if Versions(v, key) == [] {
        NoEntries(v, q, key);
        continue;
      }
      KeptEntries(v, q, key);
      EntriesNotCommon(items, Kept(v, q, EntriesOf(key, Versions(v, key))));
      var more, stop := ListVersionsOf(v, q, key, items, max);
      items := more;
      if stop.Some? {
        return VersionPage(items, true, Mark(q, stop.value));
      }
    }
    assert keys[..|keys|] == keys;
    return VersionPage(items, false, q);
  }

  lemma NothingYet(v: Volume, q: Request)
    ensures Answer(v, q, []) == []
  {}

  lemma NoEntries(v: Volume, q: Request, key: string)
    requires Versions(v, key) == []
    ensures Kept(v, q, EntriesOf(key, Versions(v, key))) == []
  {}

  /** The page holds no more than was asked for, and as much as that when there is more. */
  predicate Fills(page: VersionPage, max: nat) { |page.items| <= max && (page.truncated ==> |page.items| == max) }

  /** The whole request: a missing bucket is refused, and the keys are those of the history walk and of the
      tree walk together. */
  method ListObjectVersions(v: Volume, q: Request, maxKeys: int) returns (page: Option<VersionPage>)
    ensures BucketConfig(v).None? ==> page == None
    ensures BucketConfig(v).Some? ==>
      forall keys | ListsKeys(keys, Keys(v)) :: page == Some(PageOf(v, q, keys, ClampMax(maxKeys)))
    ensures page.Some? && 1 <= maxKeys <= 1000 ==> Fills(page.value, maxKeys)
    ensures page.Some? && !(1 <= maxKeys <= 1000) ==> Fills(page.value, 1000)
  {
    if BucketConfig(v).None? {
      return None;
    }
    var histories := SortKeys(v.history.Keys);
    var files := SortKeys(v.tree.Keys);
    var keys := MergeSortedUnique(histories, files);
    forall other | ListsKeys(other, Keys(v)) ensures other == keys { SortedOnce(other, keys); }
    hide Answer;
    var p := ListItems(v, q, keys, maxKeys);
    return Some(p);
  }
}
