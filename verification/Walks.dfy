/** Whole listings of a bucket: what a client that follows the cursors sees of the version lists. */
module Walks {
  import opened Types
  import opened XMeta
  import opened Store
  import opened Rep
  import opened Displacing
  import opened Deletes
  import opened Order
  import opened Sorting
  import opened Refinement
  import opened Runs
  import L = Listing
  import V = VersionListing
  import Spec

  // ---- objects ----

  /** The key's newest version is not a delete marker. */
  predicate LiveKey(a: Spec.Bucket, k: string) { k in a.objects && a.objects[k] != [] && !a.objects[k][0].marker }

  lemma TreeIsLive(v: Volume, k: string)
    requires Valid(v)
    ensures k in v.tree <==> LiveKey(AbsVol(v), k)
    ensures k in v.tree ==> L.Live(v, k)
  {
    hide Valid, ReadCurrentMeta, AbsVersion;
    Displacing.Listed(v, k);
    AbsHistory(v, k);
    AbsIDs(v, k);
  }

  /** The tokens are, in byte order and each once, the live keys with the prefix in which the delimiter does not
      occur after it, and the common prefixes that the other live keys roll into. */
  ghost predicate ShowsLive(a: Spec.Bucket, prefix: string, delim: string, items: seq<L.Token>) {
    && Ascending(L.Texts(items))
    && (forall k :: L.Token(k, false) in items <==> prefix <= k && LiveKey(a, k) && !L.RollsUp(k, prefix, delim))
    && (forall t :: L.Token(t, true) in items <==> exists k :: LiveKey(a, k) && L.RollsInto(k, prefix, delim, t))
  }

  lemma TokensShow(a: Spec.Bucket, prefix: string, delim: string, items: seq<L.Token>)
    requires Ascending(L.Texts(items))
    requires forall t :: t in items <==> exists k | prefix <= k && LiveKey(a, k) :: L.DisplayToken(k, prefix, delim) == t
    ensures ShowsLive(a, prefix, delim, items)
  {
    hide L.DisplayToken, L.RollsUp, L.RollsInto, LiveKey;
    forall k ensures L.Token(k, false) in items <==> prefix <= k && LiveKey(a, k) && !L.RollsUp(k, prefix, delim) {
      forall k' | prefix <= k'
        ensures L.DisplayToken(k', prefix, delim) == L.Token(k, false) <==> k == k' && !L.RollsUp(k', prefix, delim)
      {
        L.TokenExact(k', prefix, delim, k);
      }
    }
    forall t ensures L.Token(t, true) in items <==> exists k :: LiveKey(a, k) && L.RollsInto(k, prefix, delim, t) {
      forall k ensures L.RollsInto(k, prefix, delim, t) <==> prefix <= k && L.DisplayToken(k, prefix, delim) == L.Token(t, true) {
        RollsBelow(k, prefix, delim, t);
        if prefix <= k { L.TokenExact(k, prefix, delim, t); }
      }
    }
  }

  lemma RollsBelow(k: string, prefix: string, delim: string, t: string)
    ensures L.RollsInto(k, prefix, delim, t) ==> prefix <= k
  {
    if L.RollsInto(k, prefix, delim, t) {
      var a, b :| L.Splits(k, prefix, delim, a, b);
      L.SplitIs(k, prefix, delim, a, b);
    }
  }

  /** In a valid bucket, following the cursors over the keys of the tree lists, in byte order and each
      once, exactly the objects whose newest version is live and the common prefixes they roll into. */
  lemma ListsLive(v: Volume, prefix: string, delim: string, keys: seq<string>, max: nat)
    requires Valid(v) && ListsKeys(keys, v.tree.Keys) && "" !in v.tree && max > 0
    ensures ShowsLive(AbsVol(v), prefix, delim, L.Items(L.Walk(v, L.Query(prefix, delim, ""), keys, max)))
  {
    var q := L.Query(prefix, delim, "");
    L.WalkVisitsAll(v, q, keys, max);
    L.FullIsTheListing(v, q, keys);
    forall k ensures k in keys && L.Listed(v, q, k) <==> prefix <= k && LiveKey(AbsVol(v), k) {
      TreeIsLive(v, k);
    }
    hide Valid, L.Full, L.Listed, L.DisplayToken, L.Walk, LiveKey, ShowsLive;
    TokensShow(AbsVol(v), prefix, delim, L.Items(L.Walk(v, q, keys, max)));
  }

  /** The same after every settled run, in terms of the version lists the run leaves. */
  lemma ListsLiveAfterRun(d: Disk, es: seq<Event>, b: string, prefix: string, delim: string, keys: seq<string>, max: nat)
    requires ValidDisk(d) && SettledRun(AbsDisk(d), es) && max > 0
    requires var v := Vol(Run(d, es).vols, b); ListsKeys(keys, v.tree.Keys) && "" !in v.tree
    ensures ShowsLive(Spec.BucketOf(RunSpec(AbsDisk(d), es).buckets, b), prefix, delim,
                      L.Items(L.Walk(Vol(Run(d, es).vols, b), L.Query(prefix, delim, ""), keys, max)))
  {
    hide ValidDisk, AbsDisk, Valid, AbsVol, SettledRun, ShowsLive, L.Walk;
    RunExact(d, es);
    VolumeOf(Run(d, es), b);
    ListsLive(Vol(Run(d, es).vols, b), prefix, delim, keys, max);
  }

  // ---- versions ----

  /** The listed metadata is that of this version. */
  predicate Stands(m: ObjectMeta, e: Spec.Version) {
    m.versionID == e.id && m.deleteMarker == e.marker && m.size == e.size && m.lastModified == e.mtime && m.attrs == e.attrs
  }

  predicate Shows(a: Spec.Bucket, x: V.Item) {
    x.Entry? && x.key in a.objects && x.index < |a.objects[x.key]| && Stands(x.meta, a.objects[x.key][x.index])
  }

  lemma EntryShows(v: Volume, k: string, i: nat)
    requires Valid(v) && i < |Versions(v, k)|
    ensures Shows(AbsVol(v), V.Entry(k, i, Versions(v, k)[i]))
  {
    hide Valid, Versions, ReadCurrentMeta;
    AbsHistory(v, k);
    Displacing.Listed(v, k);
  }

  lemma KeysAreObjects(v: Volume, k: string)
    requires Valid(v)
    ensures k in Keys(v) <==> k in AbsVol(v).objects
    ensures k in AbsVol(v).objects ==> AbsVol(v).objects[k] == AbsList(v, k) && |AbsList(v, k)| == |Versions(v, k)|
  {
    hide Valid, Versions, ReadCurrentMeta;
  }

  /** In a valid bucket the unpaged answer shows, under each key with the prefix in which the delimiter does not
      occur after it, each of its versions at its place in the version list; of the others, their common prefixes;
      and nothing else. */
  lemma AnswerShows(v: Volume, q: V.Request, keys: seq<string>)
    requires Valid(v) && ListsKeys(keys, Keys(v)) && q.keyMarker == ""
    ensures V.InOrder(V.Answer(v, q, keys))
    ensures forall x | x in V.Answer(v, q, keys) && x.Entry? ::
      Shows(AbsVol(v), x) && q.prefix <= x.key && !L.RollsUp(x.key, q.prefix, q.delim)
    ensures forall k, i | k in AbsVol(v).objects && 0 <= i < |AbsVol(v).objects[k]| && q.prefix <= k
        && !L.RollsUp(k, q.prefix, q.delim) :: V.Entry(k, i, MetaAt(v, k, i)) in V.Answer(v, q, keys)
    ensures forall t :: V.Common(t) in V.Answer(v, q, keys) <==>
      exists k | k in AbsVol(v).objects :: L.RollsInto(k, q.prefix, q.delim, t)
  {
    V.AnswerIsAll(v, q, keys);
    hide Valid, Versions, V.Answer, AbsVol, L.RollsUp, L.RollsInto, Shows, V.InOrder, V.ItemsOf, ListsKeys, Keys;
    forall x | x in V.Answer(v, q, keys) && x.Entry?
      ensures Shows(AbsVol(v), x) && q.prefix <= x.key && !L.RollsUp(x.key, q.prefix, q.delim)
    {
      EntryShown(v, q, keys, x);
    }
    forall k, i | k in AbsVol(v).objects && 0 <= i < |AbsVol(v).objects[k]| && q.prefix <= k && !L.RollsUp(k, q.prefix, q.delim)
      ensures V.Entry(k, i, MetaAt(v, k, i)) in V.Answer(v, q, keys)
    {
      VersionListed(v, q, keys, k, i);
    }
    forall t ensures V.Common(t) in V.Answer(v, q, keys) <==>
      exists k | k in AbsVol(v).objects :: L.RollsInto(k, q.prefix, q.delim, t)
    {
      CommonShown(v, q, keys, t);
    }
  }

  lemma EntryShown(v: Volume, q: V.Request, keys: seq<string>, x: V.Item)
    requires Valid(v) && ListsKeys(keys, Keys(v)) && q.keyMarker == "" && x in V.Answer(v, q, keys) && x.Entry?
    ensures Shows(AbsVol(v), x) && q.prefix <= x.key && !L.RollsUp(x.key, q.prefix, q.delim)
  {
    V.AnswerIsAll(v, q, keys);
    hide Valid, Versions, V.Answer, AbsVol, L.DisplayToken, L.RollsUp, Shows, V.ItemsOf;
    var k :| k in keys && x in V.ItemsOf(v, q, k);
    V.ItemsShape(v, q, k, x);
    EntryShows(v, k, x.index);
    L.TokenExact(k, q.prefix, q.delim, "");
  }

  lemma VersionListed(v: Volume, q: V.Request, keys: seq<string>, k: string, i: int)
    requires Valid(v) && ListsKeys(keys, Keys(v)) && q.keyMarker == ""
    requires k in AbsVol(v).objects && 0 <= i < |AbsVol(v).objects[k]| && q.prefix <= k
    requires !L.RollsUp(k, q.prefix, q.delim)
    ensures V.Entry(k, i, MetaAt(v, k, i)) in V.Answer(v, q, keys)
  {
    V.AnswerIsAll(v, q, keys);
    KeysAreObjects(v, k);
    L.TokenExact(k, q.prefix, q.delim, "");
    hide Valid, Versions, V.Answer, AbsVol, L.DisplayToken, L.RollsUp;
    assert V.ItemsOf(v, q, k)[i] == V.Entry(k, i, MetaAt(v, k, i));
  }

  function MetaAt(v: Volume, k: string, i: int): ObjectMeta {
    if 0 <= i < |Versions(v, k)| then Versions(v, k)[i] else ABSENT
  }

  lemma CommonShown(v: Volume, q: V.Request, keys: seq<string>, t: string)
    requires Valid(v) && ListsKeys(keys, Keys(v)) && q.keyMarker == ""
    ensures V.Common(t) in V.Answer(v, q, keys) <==>
      exists k | k in AbsVol(v).objects :: L.RollsInto(k, q.prefix, q.delim, t)
  {
    V.AnswerIsAll(v, q, keys);
    forall k ensures k in keys <==> k in AbsVol(v).objects { KeysAreObjects(v, k); }
    hide Valid, Versions, V.Answer, AbsVol, L.DisplayToken, L.RollsInto, L.RollsUp;
    forall k ensures V.Common(t) in V.ItemsOf(v, q, k) <==> L.RollsInto(k, q.prefix, q.delim, t) {
      RollsBelow(k, q.prefix, q.delim, t);
      if q.prefix <= k { L.TokenExact(k, q.prefix, q.delim, t); }
    }
  }

  /** In a valid bucket the versions of every key are named apart, so a client that follows the markers sees
      that answer, whole exactly when no page would start with a common prefix. */
  lemma WalkShows(v: Volume, q: V.Request, keys: seq<string>, max: nat)
    requires Valid(v) && ListsKeys(keys, Keys(v)) && "" !in Keys(v) && max > 0
    ensures V.NamedApart(v, keys)
    ensures V.Items(V.Walk(v, q, keys, max)) == V.Answer(v, q, keys) <==> V.PagesStartAtVersions(V.Answer(v, q, keys), max)
    ensures q.delim == "" ==> V.Items(V.Walk(v, q, keys, max)) == V.Answer(v, q, keys)
  {
    hide Versions, ReadCurrentMeta, V.Answer, V.Walk, V.PagesStartAtVersions;
    forall k | k in keys ensures WellFormed(Versions(v, k)) { assert KeyOK(v, k); }
    V.WellFormedNamedApart(v, keys);
    hide Valid;
    V.WalkExact(v, q, keys, max);
    if q.delim == "" { V.PlainWalk(v, q, keys, max); }
  }

  predicate Holds(items: seq<V.Item>, k: string, i: int) { exists x | x in items :: x.Entry? && x.key == k && x.index == i }

  /** The items are every version and delete marker of every key with the prefix, exactly once, in order, and
      nothing else. */
  ghost predicate ShowsAll(a: Spec.Bucket, prefix: string, items: seq<V.Item>) {
    && V.InOrder(items)
    && (forall x | x in items :: Shows(a, x) && prefix <= x.key)
    && (forall k, i | k in a.objects && 0 <= i < |a.objects[k]| && prefix <= k :: Holds(items, k, i))
  }

  lemma PlainWalkShowsAll(v: Volume, prefix: string, keys: seq<string>, max: nat)
    requires Valid(v) && ListsKeys(keys, Keys(v)) && "" !in Keys(v) && max > 0
    ensures V.NamedApart(v, keys)
    ensures ShowsAll(AbsVol(v), prefix, V.Items(V.Walk(v, V.Request(prefix, "", "", ""), keys, max)))
  {
    hide Valid, AbsVol, V.Answer, V.Walk, V.InOrder, Shows, V.NamedApart;
    var q := V.Request(prefix, "", "", "");
    WalkShows(v, q, keys, max);
    AnswerShows(v, q, keys);
    OnlyEntries(v, q, keys);
    var items, a := V.Answer(v, q, keys), AbsVol(v);
    forall k, i | k in a.objects && 0 <= i < |a.objects[k]| && prefix <= k ensures Holds(items, k, i) {
      var x := V.Entry(k, i, MetaAt(v, k, i));
      assert x in items && x.Entry? && x.key == k && x.index == i;
    }
  }

  /** After every settled run, a client that lists versions without a delimiter and follows the markers sees
      exactly the version lists the run leaves. */
  lemma VersionsAfterRun(d: Disk, es: seq<Event>, b: string, prefix: string, keys: seq<string>, max: nat)
    requires ValidDisk(d) && SettledRun(AbsDisk(d), es) && max > 0
    requires var v := Vol(Run(d, es).vols, b); ListsKeys(keys, Keys(v)) && "" !in Keys(v)
    ensures V.NamedApart(Vol(Run(d, es).vols, b), keys)
    ensures ShowsAll(Spec.BucketOf(RunSpec(AbsDisk(d), es).buckets, b), prefix,
                     V.Items(V.Walk(Vol(Run(d, es).vols, b), V.Request(prefix, "", "", ""), keys, max)))
  {
    hide ValidDisk, AbsDisk, SettledRun, Valid, AbsVol, ShowsAll, V.Walk, V.NamedApart;
    RunExact(d, es);
    VolumeOf(Run(d, es), b);
    PlainWalkShowsAll(Vol(Run(d, es).vols, b), prefix, keys, max);
  }

  lemma OnlyEntries(v: Volume, q: V.Request, keys: seq<string>)
    requires q.delim == "" && q.keyMarker == "" && Ascending(keys)
    ensures forall x | x in V.Answer(v, q, keys) :: x.Entry?
  {
    V.AnswerIsAll(v, q, keys);
    hide V.Answer, Versions;
  }

  // ---- a walk that loses a prefix ----

  /** A bucket with an object at the top and one below a directory. */
  const TWO_OBJECTS: Volume :=
    Volume(true, false, None, map["a" := File("x", 1, map[]), "b/c" := File("y", 1, map[])], map[], map[], map[])

  lemma TwoTokens(prefix: string)
    requires prefix == ""
    ensures L.DisplayToken("a", prefix, "/") == L.Token("a", false) && L.DisplayToken("b/c", prefix, "/") == L.Token("b/", true)
  {
    assert "a"[0..] == "a" && "b/c"[0..] == "b/c";
    assert "b/c"[0..1] == "b" && "b/c"[1..2] == "/";
    assert OccursAt("b/c", "/", 1) && !OccursAt("b/c", "/", 0);
    assert "b/c"[..2] == "b/" && "" + "b/" == "b/";
    assert forall j :: !OccursAt("a", "/", j) by {
      forall j ensures !OccursAt("a", "/", j) {
        if j == 0 { assert "a"[0..1] == "a"; }
      }
    }
  }

  lemma TwoItems(v: Volume, q: V.Request, keys: seq<string>)
    requires v == TWO_OBJECTS && q == V.Request("", "/", "", "") && keys == ["a", "b/c"]
    ensures |Versions(v, "a")| == |Versions(v, "b/c")| == 1
    ensures Versions(v, "a")[0].versionID == Versions(v, "b/c")[0].versionID == "null"
    ensures V.All(v, q, keys) == [V.Entry("a", 0, Versions(v, "a")[0]), V.Common("b/")]
  {
    TwoTokens("");
    hide ReadCurrentMeta, L.DisplayToken;
    var x, y := V.Entry("a", 0, Versions(v, "a")[0]), V.Common("b/");
    hide Versions;
    assert V.ItemsOf(v, q, "a") == [x] && V.ItemsOf(v, q, "b/c") == [y];
    hide V.ItemsOf;
    assert keys[..1] == ["a"] && ["a"][..0] == [];
    assert V.All(v, q, ["a"]) == [] + [x];
  }

  lemma TwoApart(v: Volume, keys: seq<string>)
    requires keys == ["a", "b/c"] && |Versions(v, "a")| == |Versions(v, "b/c")| == 1
    requires Versions(v, "a")[0].versionID == Versions(v, "b/c")[0].versionID == "null"
    ensures Ascending(keys) && "" !in keys && V.NamedApart(v, keys)
  {
    hide Versions;
  }

  lemma PageOfOne(x: V.Item, y: V.Item)
    requires y.Common?
    ensures V.Surviving([x, y], 1) == [x]
  {
    assert [x, y][..1] == [x] && [x, y][2..] == [];
    assert V.Surviving([], 1) == [];
  }

  /** One page holds one item, and the second page would start with the common prefix b/: it is never listed. */
  lemma PrefixLost(q: V.Request, keys: seq<string>)
    requires q == V.Request("", "/", "", "") && keys == ["a", "b/c"]
    ensures Ascending(keys) && "" !in keys && V.NamedApart(TWO_OBJECTS, keys)
    ensures V.Common("b/") in V.Answer(TWO_OBJECTS, q, keys)
    ensures V.Common("b/") !in V.Items(V.Walk(TWO_OBJECTS, q, keys, 1))
  {
    var v := TWO_OBJECTS;
    TwoItems(v, q, keys);
    TwoApart(v, keys);
    hide Versions, V.All, V.NamedApart, Ascending;
    var x, y := V.Entry("a", 0, Versions(v, "a")[0]), V.Common("b/");
    V.KeptSuffix(v, q, [x, y], 0);
    assert V.Answer(v, q, keys) == [x, y];
    hide V.Answer, V.Walk, V.Surviving, V.PagesStartAtVersions;
    V.WalkExact(v, q, keys, 1);
    PageOfOne(x, y);
  }
}
