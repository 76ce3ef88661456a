/** When a step leaves the lists its specification asks for, validity of the volume aside. */
module Agreement {
  import opened Types
  import opened XMeta
  import opened Store
  import opened Rep
  import opened Displacing
  import opened Deletes
  import opened Persist
  import opened Mutations
  import opened Topping
  import opened Surfacing
  import Failures
  import Spec
  import Settled
  import Writes

  // ---- one key's list replaced ----

  ghost predicate OthersAgree(v: Volume, w: Volume, k: string) {
    forall k' | k' in Keys(v) && k' != k :: AbsList(w, k') == AbsList(v, k')
  }

  lemma OthersSame(v: Volume, w: Volume, k: string)
    requires Valid(v) && SameElsewhere(v, w, k)
    requires forall id | id in v.blobs :: id in w.blobs && w.blobs[id].bytes == v.blobs[id].bytes
    ensures OthersAgree(v, w, k)
  {
    hide SameElsewhere, Valid;
    forall k' | k' in Keys(v) && k' != k ensures AbsList(w, k') == AbsList(v, k') {
      SameVersions(v, w, k, k');
      OtherSame(v, w, k');
    }
  }

  lemma OtherSame(v: Volume, w: Volume, k: string)
    requires Valid(v) && Versions(w, k) == Versions(v, k)
    requires (k in w.tree <==> k in v.tree) && (k in v.tree ==> w.tree[k] == v.tree[k])
    requires forall id | id in v.blobs :: id in w.blobs && w.blobs[id].bytes == v.blobs[id].bytes
    ensures AbsList(w, k) == AbsList(v, k)
  {
    var vs := Versions(v, k);
    hide Versions, Valid, AbsVersion;
    forall i | 0 <= i < |vs| ensures AbsList(w, k)[i] == AbsList(v, k)[i] {
      Listed(v, k);
      if i > 0 { TailLoose(v, k, i); }
      OtherVersion(v, w, k, vs[i]);
    }
  }

  lemma OtherVersion(v: Volume, w: Volume, k: string, m: ObjectMeta)
    requires m.blobID != "" ==> m.deleteMarker || m.blobID in v.blobs
    requires (k in w.tree <==> k in v.tree) && (k in v.tree ==> w.tree[k] == v.tree[k])
    requires forall id | id in v.blobs :: id in w.blobs && w.blobs[id].bytes == v.blobs[id].bytes
    ensures AbsVersion(w, k, m) == AbsVersion(v, k, m)
  {}

  /** One key's list is replaced and nothing else of the bucket changes its meaning. */
  lemma ListReplaced(v: Volume, w: Volume, k: string, h: seq<Spec.Version>)
    requires SameElsewhere(v, w, k) && OthersAgree(v, w, k) && k in Keys(w) && AbsList(w, k) == h && h != []
    requires w == v.(dir := w.dir, histDirs := w.histDirs, tree := w.tree, blobs := w.blobs, history := w.history)
    requires w.histDirs == (v.histDirs || (Nested(k) && (|h| != 1 || h[0].marker)))
    ensures AbsVol(w) == Spec.SetHistory(AbsVol(v), k, h).(dir := w.dir)
  {
    hide Nested, Versions, AbsList;
    OneReplaced(v, w, k);
    hide SameElsewhere, OthersAgree, Keys;
  }

  lemma OneReplaced(v: Volume, w: Volume, k: string)
    requires SameElsewhere(v, w, k) && OthersAgree(v, w, k) && k in Keys(w)
    ensures AbsVol(w).objects == AbsVol(v).objects[k := AbsList(w, k)]
  {
    hide SameElsewhere, Versions, AbsList;
    forall k' | k' != k ensures k' in Keys(w) <==> k' in Keys(v) { SameVersions(v, w, k, k'); }
    hide Keys;
  }

  // ---- rewriting attributes ----

  /** LISTS, EXACTLY: rewriting one version's attributes leaves the list with them if and only if the key keeps
      a history file, or the version is not a live one with an empty legal hold. */
  lemma RewriteMeansExact(v: Volume, k: string, i: nat, a: Attrs)
    requires Valid(v) && i < |Versions(v, k)|
    ensures var h := AbsList(v, k);
      AbsVol(WriteKeyMeta(v, k, WithAttrs(Versions(v, k), i, a)).vol) == Spec.SetHistory(AbsVol(v), k, h[i := h[i].(attrs := a)])
      <==> |h| > 1 || h[i].marker || a.legalHold != Some("")
  {
    hide Valid, Versions, WriteKeyMeta, AbsVol, AbsVersion, WithAttrs, Spec.SetHistory;
    RewriteExact(v, k, i, a);
    AbsIDs(v, k);
    if !(AbsList(v, k)[i].marker || a.legalHold != Some("")) {
      if |AbsList(v, k)| > 1 {
        HistoryMutated(v, k, i, a);
      } else {
        LoneMutated(v, k, a);
      }
    }
  }

  lemma HistoryMutated(v: Volume, k: string, i: nat, a: Attrs)
    requires Valid(v) && i < |Versions(v, k)| && |Versions(v, k)| > 1
    ensures AbsVol(WriteKeyMeta(v, k, WithAttrs(Versions(v, k), i, a)).vol)
         == Spec.SetHistory(AbsVol(v), k, AbsList(v, k)[i := AbsList(v, k)[i].(attrs := a)])
  {
    var vs, h := Versions(v, k), AbsList(v, k);
    var vs', h' := WithAttrs(vs, i, a), h[i := h[i].(attrs := a)];
    hide Valid, Versions, AbsVol, AbsVersion, Archived, Keys;
    Failures.Placed(v, k, 1);
    NestedDirs(v, k);
    WrittenHistory(v, k, vs');
    var w := WriteKeyMeta(v, k, vs').vol;
    RewrittenFields(v, k, vs');
    OthersSame(v, w, k);
    MutatedMeans(v, k, i, a);
    WrittenMeans(v, w, k, vs', h');
    hide WriteKeyMeta, SameElsewhere, OthersAgree, AbsList, Means, WithAttrs;
    ListReplaced(v, w, k, h');
    assert w.dir == v.dir;
    SameDir(v, k, h');
  }

  lemma SameDir(v: Volume, k: string, h: seq<Spec.Version>)
    ensures Spec.SetHistory(AbsVol(v), k, h).(dir := v.dir) == Spec.SetHistory(AbsVol(v), k, h)
  {
    hide AbsList, Keys;
  }

  lemma RewrittenFields(v: Volume, k: string, vs: seq<ObjectMeta>)
    requires |vs| > 1 && (AtKeyPath(vs) ==> k in v.tree)
    ensures var w := WriteKeyMeta(v, k, vs).vol;
      && w == v.(histDirs := w.histDirs, tree := w.tree, history := w.history) && w.histDirs == (v.histDirs || Nested(k))
      && (k in w.tree <==> k in v.tree) && (k in v.tree ==> w.tree[k].bytes == v.tree[k].bytes)
  {
    hide Encode;
  }

  lemma LoneMutated(v: Volume, k: string, a: Attrs)
    requires Valid(v) && |Versions(v, k)| == 1 && !Versions(v, k)[0].deleteMarker && a.legalHold == Some("")
    ensures AbsVol(WriteKeyMeta(v, k, WithAttrs(Versions(v, k), 0, a)).vol)
         != Spec.SetHistory(AbsVol(v), k, AbsList(v, k)[0 := AbsList(v, k)[0].(attrs := a)])
  {
    Failures.Placed(v, k, 0);
    hide Valid, Versions, AbsVersion;
    var m := Versions(v, k)[0].(attrs := a);
    assert WithAttrs(Versions(v, k), 0, a) == [m];
    LoneWritten(v, k, m);
    var w := WriteKeyMeta(v, k, [m]).vol;
    hide WriteKeyMeta;
    assert Versions(w, k) == [Reread(m, v.tree[k])];
    AbsAttrs(w, k);
    var h := AbsList(v, k)[0 := AbsList(v, k)[0].(attrs := a)];
    assert Spec.SetHistory(AbsVol(v), k, h).objects[k] == h && h[0].attrs.legalHold == Some("");
    if k in AbsVol(w).objects { assert AbsVol(w).objects[k] == AbsList(w, k); }
  }

  lemma AbsAttrs(w: Volume, k: string)
    ensures forall i | 0 <= i < |Versions(w, k)| :: AbsList(w, k)[i].attrs == Versions(w, k)[i].attrs
  {
    hide Versions;
  }

  lemma WrittenMeans(v: Volume, w: Volume, k: string, vs: seq<ObjectMeta>, h: seq<Spec.Version>)
    requires Means(v, k, vs, h) && Versions(w, k) == vs && w.blobs == v.blobs
    requires (k in w.tree <==> k in v.tree) && (k in v.tree ==> w.tree[k].bytes == v.tree[k].bytes)
    ensures AbsList(w, k) == h
  {
    hide Versions, AbsVersion;
    forall i | 0 <= i < |vs| ensures AbsList(w, k)[i] == h[i] { SameBytes(v, w, k, vs[i]); }
  }

  lemma SameBytes(v: Volume, w: Volume, k: string, m: ObjectMeta)
    requires w.blobs == v.blobs && (k in w.tree <==> k in v.tree) && (k in v.tree ==> w.tree[k].bytes == v.tree[k].bytes)
    ensures AbsVersion(w, k, m) == AbsVersion(v, k, m)
  {}

  // ---- writing a version ----

  /** No payload that a write in this mode archives over is of other bytes. */
  predicate Harmless(a: Spec.Bucket, k: string, enabled: bool) {
    var h := Spec.History(a, k);
    Settled.Archives(h, enabled) ==>
      forall k', i | k' in a.objects && 1 <= i < |a.objects[k']| && !a.objects[k'][i].marker && a.objects[k'][i].id == h[0].id ::
        a.objects[k'][i].bytes == h[0].bytes
  }

  /** What displacing leaves, whether or not the archived name was free. */
  lemma DisplacedMeans(v: Volume, k: string, enabled: bool)
    requires Valid(v)
    ensures var dp := Displace(v, k, Versions(v, k), enabled);
      && dp.err == NoError && Means(dp.vol, k, dp.versions, Settled.Remaining(AbsList(v, k), enabled))
      && (forall i | 0 <= i < |dp.versions| :: LooseAt(dp.vol, dp.versions[i]))
      && dp.vol == v.(tree := dp.vol.tree, blobs := dp.vol.blobs) && dp.vol.tree - {k} == v.tree - {k}
      && dp.vol.blobs == if Settled.Archives(AbsList(v, k), enabled) && k in v.tree
                         then v.blobs[AbsList(v, k)[0].id := v.tree[k]] else v.blobs
  {
    hide ReadCurrentMeta, Versions, Valid, KeyOK, Keys;
    var vs := Versions(v, k);
    Listed(v, k);
    if !AtKeyPath(vs) {
      DisplaceNothing(v, k);
    } else if enabled || vs[0].versionID != "null" {
      forall i | 0 <= i < |vs| ensures LooseAt(ArchivedVol(v, k), ArchivedList(vs)[i]) { ArchivedLoose(v, k, i); }
      ArchivedMeans(v, k);
      hide LooseAt;
    } else {
      DisplaceDropped(v, k);
    }
  }

  /** What a write makes of a displaced key. */
  lemma PlacedShape(w: Volume, k: string, rest: seq<ObjectMeta>, f: File, nv: ObjectMeta)
    requires !nv.deleteMarker && nv.blobID == ""
    ensures var o := Place(w, k, rest, f, nv); var u := o.vol;
      && o.err == NoError && k in Keys(u) && k in u.tree && u.tree[k].bytes == f.bytes && SameElsewhere(w, u, k)
      && u == w.(dir := true, histDirs := u.histDirs, tree := u.tree, history := u.history)
      && u.histDirs == (w.histDirs || (Nested(k) && rest != []))
      && Versions(u, k) == if rest == [] then [Reread(nv, f)] else PrependLatest(rest, nv)
  {
    if rest == [] {
      LoneFields(w, k, f, nv);
    } else {
      hide WriteKeyMeta, Versions;
      var w1 := w.(dir := true, tree := w.tree[k := f]);
      WrittenHistory(w1, k, PrependLatest(rest, nv));
      RewrittenFields(w1, k, PrependLatest(rest, nv));
    }
  }

  /** The list a write leaves. */
  function Written(rest: seq<Spec.Version>, f: File, nv: ObjectMeta): seq<Spec.Version> {
    if rest == [] then [Top(Reread(nv, f), f.bytes)] else [Top(nv, f.bytes)] + rest
  }

  lemma WrittenList(w: Volume, k: string, rest: seq<ObjectMeta>, h: seq<Spec.Version>, f: File, nv: ObjectMeta)
    requires !nv.deleteMarker && nv.blobID == ""
    requires Means(w, k, rest, h) && forall i | 0 <= i < |rest| :: LooseAt(w, rest[i])
    ensures AbsList(Place(w, k, rest, f, nv).vol, k) == Written(h, f, nv)
  {
    PlacedShape(w, k, rest, f, nv);
    var u := Place(w, k, rest, f, nv).vol;
    hide Place, Versions, AbsVersion;
    if rest == [] {
      LoneMeans(u, k, Reread(nv, f), f.bytes);
    } else {
      ToppedMeans(w, k, rest, h, nv, u);
      WrittenMeans(u, u, k, PrependLatest(rest, nv), [Top(nv, f.bytes)] + h);
    }
  }

  /** The list a write leaves is the specified one, exactly. */
  lemma WrittenExact(h: seq<Spec.Version>, enabled: bool, f: File, nv: ObjectMeta)
    requires !nv.deleteMarker && (!enabled ==> nv.versionID == "null")
    ensures var rest := Settled.Remaining(h, enabled);
      Written(rest, f, nv) == Spec.Added(h, enabled, Top(nv, f.bytes)) <==>
      (enabled || !Spec.HasID(rest, "null")) && (rest != [] || (nv.versionID != "" && Carried(nv, f)))
  {
    var rest, top := Settled.Remaining(h, enabled), Top(nv, f.bytes);
    if enabled || !Spec.HasID(rest, "null") {
      if !enabled { Writes.AddedIs(h, enabled, top); }
      assert Spec.Added(h, enabled, top) == [top] + rest;
      assert ([top] + rest)[0] == top;
    } else {
      var i :| 0 <= i < |rest| && rest[i].id == "null";
      assert ([top] + rest)[i + 1].id == "null";
      NoneLeft(h, "null");
      assert Spec.Added(h, enabled, top)[1..] == Spec.Drop(h, "null");
    }
  }

  lemma {:induction false} NoneLeft(h: seq<Spec.Version>, id: string)
    ensures !Spec.HasID(Spec.Drop(h, id), id)
  {
    if h != [] { NoneLeft(h[1..], id); }
  }

  lemma InstallShape(v: Volume, k: string, enabled: bool, f: File, nv: ObjectMeta)
    requires Valid(v) && !nv.deleteMarker && nv.blobID == ""
    ensures var o := Install(v, k, enabled, f, nv); var u := o.vol; var h := AbsList(v, k);
      && o.err == NoError && SameElsewhere(v, u, k) && k in Keys(u)
      && AbsList(u, k) == Written(Settled.Remaining(h, enabled), f, nv)
      && u == v.(dir := true, histDirs := u.histDirs, tree := u.tree, blobs := u.blobs, history := u.history)
      && u.histDirs == (v.histDirs || (Nested(k) && Settled.Remaining(h, enabled) != []))
      && u.blobs == if Settled.Archives(h, enabled) && k in v.tree then v.blobs[h[0].id := v.tree[k]] else v.blobs
  {
    DisplacedMeans(v, k, enabled);
    var dp, h := Displace(v, k, Versions(v, k), enabled), AbsList(v, k);
    hide Valid, Versions, Displace, AbsVersion, LooseAt, Keys;
    PlacedShape(dp.vol, k, dp.versions, f, nv);
    WrittenList(dp.vol, k, dp.versions, Settled.Remaining(h, enabled), f, nv);
    hide Place, Written, Settled.Remaining, Settled.Archives, AbsList;
  }

  /** The payload of an archived version, in list terms. */
  lemma ArchivedAt(v: Volume, k: string, i: nat)
    requires Valid(v) && k in Keys(v) && 1 <= i < |Versions(v, k)| && !Versions(v, k)[i].deleteMarker
    ensures var m := Versions(v, k)[i];
      m.blobID == m.versionID && m.blobID != "" && m.blobID in v.blobs && AbsList(v, k)[i].bytes == v.blobs[m.blobID].bytes
  {
    TailLoose(v, k, i);
    hide Versions, Valid, Keys;
  }

  /** The payload of a live newest version. */
  lemma NewestAt(v: Volume, k: string)
    requires Valid(v) && Versions(v, k) != [] && !Versions(v, k)[0].deleteMarker
    ensures k in v.tree && AbsList(v, k)[0].bytes == v.tree[k].bytes
  {
    Listed(v, k);
    hide Versions, Valid, Keys;
  }

  lemma HarmlessKeeps(v: Volume, k: string, enabled: bool)
    requires Valid(v) && Harmless(AbsVol(v), k, enabled) && Settled.Archives(AbsList(v, k), enabled)
    requires AbsList(v, k)[0].id in v.blobs
    ensures k in v.tree && v.tree[k].bytes == v.blobs[AbsList(v, k)[0].id].bytes
  {
    AbsHistory(v, k);
    NewestAt(v, k);
    var id := AbsList(v, k)[0].id;
    assert BlobsOK(v);
    hide Valid, Versions, Keys, AbsVersion;
    var k' :| k' in Keys(v) && id in Archived(Versions(v, k'));
    var vs := Versions(v, k');
    var i :| 1 <= i < |vs| && !vs[i].deleteMarker && vs[i].versionID == id;
    ArchivedAt(v, k', i);
    ObjectIs(v, k');
    AbsIDs(v, k');
  }

  lemma OthersUnharmed(v: Volume, u: Volume, k: string, enabled: bool)
    requires Valid(v) && Harmless(AbsVol(v), k, enabled) && SameElsewhere(v, u, k)
    requires var h := AbsList(v, k);
      u.blobs == if Settled.Archives(h, enabled) && k in v.tree then v.blobs[h[0].id := v.tree[k]] else v.blobs
    ensures OthersAgree(v, u, k)
  {
    hide Valid, Harmless, AbsList, AbsVol, SameElsewhere, OthersAgree;
    if Settled.Archives(AbsList(v, k), enabled) && AbsList(v, k)[0].id in v.blobs { HarmlessKeeps(v, k, enabled); }
    OthersSame(v, u, k);
  }

  lemma HarmlessAgrees(v: Volume, k: string, enabled: bool, f: File, nv: ObjectMeta)
    requires Valid(v) && !nv.deleteMarker && nv.blobID == "" && Harmless(AbsVol(v), k, enabled)
    ensures var u := Install(v, k, enabled, f, nv).vol;
      AbsVol(u) == Spec.SetHistory(AbsVol(v), k, Written(Settled.Remaining(AbsList(v, k), enabled), f, nv)).(dir := true)
  {
    InstallShape(v, k, enabled, f, nv);
    var u, h := Install(v, k, enabled, f, nv).vol, AbsList(v, k);
    WrittenSize(Settled.Remaining(h, enabled), f, nv);
    hide Install, Valid, Harmless, AbsList, AbsVol, SameElsewhere, Keys, Written, Settled.Remaining, Spec.SetHistory;
    OthersUnharmed(v, u, k, enabled);
    hide OthersAgree, Settled.Archives;
    ListReplaced(v, u, k, Written(Settled.Remaining(h, enabled), f, nv));
  }

  lemma WrittenSize(rest: seq<Spec.Version>, f: File, nv: ObjectMeta)
    requires !nv.deleteMarker
    ensures var h := Written(rest, f, nv); h != [] && (|h| != 1 || h[0].marker <==> rest != [])
  {}

  /** A payload of other bytes archived over shows in the list of the key it was of. */
  lemma HarmShows(v: Volume, k: string, enabled: bool, f: File, nv: ObjectMeta, h: seq<Spec.Version>)
    requires Valid(v) && !nv.deleteMarker && nv.blobID == "" && !Harmless(AbsVol(v), k, enabled) && h != []
    ensures AbsVol(Install(v, k, enabled, f, nv).vol) != Spec.SetHistory(AbsVol(v), k, h).(dir := true)
  {
    var a, h0 := AbsVol(v), AbsList(v, k);
    AbsHistory(v, k);
    var k', i :| k' in a.objects && 1 <= i < |a.objects[k']| && !a.objects[k'][i].marker && a.objects[k'][i].id == h0[0].id
      && a.objects[k'][i].bytes != h0[0].bytes;
    InstallShape(v, k, enabled, f, nv);
    var u := Install(v, k, enabled, f, nv).vol;
    hide Install, Valid, Keys, Versions, AbsVersion, Harmless;
    NewestAt(v, k);
    AbsIDs(v, k);
    AbsIDs(v, k');
    assert k' != k;
    ArchivedAt(v, k', i);
    SameVersions(v, u, k, k');
    Overwritten(u, k', i);
    ObjectIs(u, k');
    OtherKept(a, k, h, k');
  }

  lemma Overwritten(u: Volume, k: string, i: nat)
    requires i < |Versions(u, k)| && !Versions(u, k)[i].deleteMarker && Versions(u, k)[i].blobID != ""
    requires Versions(u, k)[i].blobID in u.blobs
    ensures AbsList(u, k)[i].bytes == u.blobs[Versions(u, k)[i].blobID].bytes
  {
    hide Versions;
  }

  lemma OtherKept(a: Spec.Bucket, k: string, h: seq<Spec.Version>, k': string)
    requires h != [] && k' != k && k' in a.objects
    ensures var r := Spec.SetHistory(a, k, h).(dir := true); k' in r.objects && r.objects[k'] == a.objects[k']
  {}

  /** LISTS, EXACTLY: in every mode a write leaves the lists with its version added if and only if no payload of
      other bytes is archived over, no null version stays below a new null version, and either versions stay
      below or the file alone carries what was given. */
  lemma InstallMeansExact(v: Volume, k: string, enabled: bool, f: File, nv: ObjectMeta)
    requires Valid(v) && !nv.deleteMarker && nv.blobID == "" && (!enabled ==> nv.versionID == "null")
    ensures var o, h := Install(v, k, enabled, f, nv), AbsList(v, k);
      var rest := Settled.Remaining(h, enabled);
      (o.err == NoError
       && AbsVol(o.vol) == Spec.SetHistory(AbsVol(v), k, Spec.Added(h, enabled, Top(nv, f.bytes))).(dir := true)) <==>
      (Harmless(AbsVol(v), k, enabled) && (enabled || !Spec.HasID(rest, "null"))
       && (rest != [] || (nv.versionID != "" && Carried(nv, f))))
  {
    var h := AbsList(v, k);
    InstallShape(v, k, enabled, f, nv);
    WrittenExact(h, enabled, f, nv);
    var rest, spec := Settled.Remaining(h, enabled), Spec.Added(h, enabled, Top(nv, f.bytes));
    SetIs(v, k, spec);
    SetIs(v, k, Written(rest, f, nv));
    hide Install, AbsVol, AbsList, Valid, Harmless, Spec.SetHistory, Top, Carried, Written, Settled.Remaining, Keys, SameElsewhere;
    if Harmless(AbsVol(v), k, enabled) {
      HarmlessAgrees(v, k, enabled, f, nv);
    } else {
      HarmShows(v, k, enabled, f, nv, spec);
    }
  }

  lemma SetIs(v: Volume, k: string, h: seq<Spec.Version>)
    requires h != []
    ensures var r := Spec.SetHistory(AbsVol(v), k, h).(dir := true); k in r.objects && r.objects[k] == h
  {
    hide AbsList, Keys;
  }

  lemma ObjectIs(v: Volume, k: string)
    requires k in Keys(v)
    ensures k in AbsVol(v).objects && AbsVol(v).objects[k] == AbsList(v, k)
  {
    hide AbsList, Keys;
  }

  lemma LoneMeans(v: Volume, k: string, m: ObjectMeta, bytes: Bytes)
    requires Versions(v, k) == [m] && !m.deleteMarker && m.blobID == "" && k in v.tree && v.tree[k].bytes == bytes
    ensures AbsList(v, k) == [Top(m, bytes)]
  {
    hide Versions;
  }

  lemma LoneFields(v: Volume, k: string, f: File, nv: ObjectMeta)
    requires !nv.deleteMarker && nv.blobID == ""
    ensures var o := Place(v, k, [], f, nv); var w := o.vol;
      && o.err == NoError && k in Keys(w) && Versions(w, k) == [Reread(nv, f)]
      && k in w.tree && w.tree[k].bytes == f.bytes && w.tree - {k} == v.tree - {k}
      && w == v.(dir := true, tree := w.tree, history := v.history - {k})
  {
    hide ReadCurrentMeta, Encode;
    assert PrependLatest([], nv) == [nv.(isLatest := true)];
    RereadLatest(f, nv, k);
  }

  lemma RereadLatest(f: File, nv: ObjectMeta, k: string)
    ensures ReadCurrentMeta(WriteXattrs(f, nv.(isLatest := true)), k) == Reread(nv, f)
  {
    RereadIs(f, nv.(isLatest := true), k);
  }
}
