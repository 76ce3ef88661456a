/** What an unsettled step damages when the version lists still agree: the damage comes to light later. */
module Surfacing {
  import opened Types
  import opened XMeta
  import opened Store
  import opened Rep
  import opened Displacing
  import opened Deletes
  import opened Finalizing
  import opened Sorting
  import opened Failures
  import L = Listing
  import Spec
  import Settled

  // ---- deleting a newest delete marker ----

  /** The list below a newest delete marker above a live version, once the marker is deleted by its id. */
  lemma MarkerDropped(v: Volume, k: string)
    requires Valid(v) && |Versions(v, k)| >= 2 && Versions(v, k)[0].deleteMarker && !Versions(v, k)[1].deleteMarker
    ensures var vs := Versions(v, k); var kept := MarkLatest(vs[1..]);
      && DeleteVersion(v, k, vs, vs[0].versionID) == FinalizeKey(v, k, kept) && !AtKeyPath(kept)
      && k !in v.tree && k in v.history && |kept| == |vs| - 1 && !kept[0].deleteMarker
  {
    hide ReadCurrentMeta, Valid, Keys;
    Failures.Placed(v, k, 1);
    NewestDoomed(v, k);
    hide Versions;
    assert v.blobs - {} == v.blobs;
  }

  lemma HistoryIs(u: Volume, k: string)
    requires k in u.history
    ensures Versions(u, k) == u.history[k]
  {
    hide ReadCurrentMeta;
  }

  lemma SameMeaning(v: Volume, u: Volume, k: string, m: ObjectMeta)
    requires u.tree == v.tree && u.blobs == v.blobs
    ensures AbsVersion(u, k, m) == AbsVersion(v, k, m)
  {}

  lemma RewrittenList(v: Volume, u: Volume, k: string, vs: seq<ObjectMeta>, h: seq<Spec.Version>)
    requires u.tree == v.tree && u.blobs == v.blobs && k in u.history && u.history[k] == vs
    requires |h| == |vs| && forall i | 0 <= i < |vs| :: AbsVersion(v, k, vs[i]) == h[i]
    ensures AbsList(u, k) == h
  {
    HistoryIs(u, k);
    hide Versions, AbsVersion;
    forall i | 0 <= i < |vs| ensures AbsList(u, k)[i] == h[i] { SameMeaning(v, u, k, vs[i]); }
  }

  lemma OtherVersions(v: Volume, u: Volume, k: string)
    requires u.tree == v.tree && (k in u.history <==> k in v.history) && (k in v.history ==> u.history[k] == v.history[k])
    ensures Versions(u, k) == Versions(v, k)
  {
    hide ReadCurrentMeta;
  }

  lemma OtherList(v: Volume, u: Volume, k: string)
    requires u.tree == v.tree && u.blobs == v.blobs
    requires (k in u.history <==> k in v.history) && (k in v.history ==> u.history[k] == v.history[k])
    ensures AbsList(u, k) == AbsList(v, k)
  {
    OtherVersions(v, u, k);
    hide Versions, AbsVersion;
    forall i | 0 <= i < |Versions(v, k)| ensures AbsList(u, k)[i] == AbsList(v, k)[i] {
      SameMeaning(v, u, k, Versions(v, k)[i]);
    }
  }

  /** Only the history file of one key is rewritten, with versions that mean the same. */
  lemma RewrittenMeans(v: Volume, u: Volume, k: string, vs: seq<ObjectMeta>, h: seq<Spec.Version>)
    requires k in v.history && (Nested(k) ==> v.histDirs) && u == v.(history := v.history[k := vs])
    requires |h| == |vs| > 1 && forall i | 0 <= i < |vs| :: AbsVersion(v, k, vs[i]) == h[i]
    ensures AbsVol(u) == Spec.SetHistory(AbsVol(v), k, h)
  {
    RewrittenList(v, u, k, vs, h);
    hide AbsList, AbsVersion, Versions, Nested;
    assert Keys(u) == Keys(v);
    RewrittenObjects(v, u, k);
  }

  lemma RewrittenObjects(v: Volume, u: Volume, k: string)
    requires k in v.history && k in u.history && u == v.(history := v.history[k := u.history[k]]) && Keys(u) == Keys(v)
    ensures AbsVol(u).objects == AbsVol(v).objects[k := AbsList(u, k)]
  {
    forall k' | k' != k ensures AbsList(u, k') == AbsList(v, k') { OtherList(v, u, k'); }
    assert k in Keys(u);
    hide AbsList, Keys;
  }

  lemma KeptWrites(v: Volume, k: string, kept: seq<ObjectMeta>)
    requires !AtKeyPath(kept) && |kept| > 1 && (Nested(k) ==> v.histDirs)
    ensures FinalizeKey(v, k, kept) == Out(v.(history := v.history[k := kept]), NoError)
  {}

  lemma KeptMeans(v: Volume, k: string, vs: seq<ObjectMeta>)
    requires vs == Versions(v, k) && |vs| >= 2
    ensures var kept := MarkLatest(vs[1..]);
      |kept| == |vs| - 1 && forall i | 0 <= i < |kept| :: AbsVersion(v, k, kept[i]) == AbsList(v, k)[1..][i]
  {
    hide Versions;
    var kept := MarkLatest(vs[1..]);
    forall i | 0 <= i < |kept| ensures AbsVersion(v, k, kept[i]) == AbsList(v, k)[1..][i] {
      assert kept[i] == vs[i + 1] || kept[i] == vs[i + 1].(isLatest := true);
      assert AbsList(v, k)[i + 1] == AbsVersion(v, k, vs[i + 1]);
    }
  }

  lemma NestedDirs(v: Volume, k: string)
    requires Valid(v) && k in v.history
    ensures Nested(k) ==> v.histDirs
  {
    hide Versions, WellFormed;
    assert k in Keys(v) && KeyOK(v, k);
  }

  /** Where three or more versions are listed, the list is rewritten and every version still reads. */
  lemma HistoryKept(v: Volume, k: string)
    requires Valid(v) && |Versions(v, k)| >= 3 && Versions(v, k)[0].deleteMarker && !Versions(v, k)[1].deleteMarker
    ensures var vs := Versions(v, k); var o := DeleteVersion(v, k, vs, vs[0].versionID);
      && o == Out(v.(history := v.history[k := MarkLatest(vs[1..])]), NoError)
      && AbsVol(o.vol) == Spec.SetHistory(AbsVol(v), k, AbsList(v, k)[1..])
  {
    hide Valid, DeleteVersion, Versions, FinalizeKey, MarkLatest, AbsVol, AbsVersion, AtKeyPath, Nested;
    MarkerDropped(v, k);
    NestedDirs(v, k);
    var vs := Versions(v, k);
    var kept := MarkLatest(vs[1..]);
    KeptMeans(v, k, vs);
    KeptWrites(v, k, kept);
    RewrittenMeans(v, v.(history := v.history[k := kept]), k, kept, AbsList(v, k)[1..]);
  }

  /** LISTS, EXACTLY: deleting a version by id leaves the version list without it if and only if it is not a
      newest delete marker above a lone live version; above more versions it is validity that is lost. */
  lemma DropMeansExact(v: Volume, k: string, id: string)
    requires Valid(v)
    ensures var o, h := DeleteVersion(v, k, Versions(v, k), id), AbsList(v, k);
      o.err == NoError && AbsVol(o.vol) == Spec.SetHistory(AbsVol(v), k, Spec.Drop(h, id)) <==>
      !(|h| == 2 && h[0].id == id && h[0].marker && !h[1].marker)
  {
    hide Valid, Versions, DeleteVersion, AbsVol, AbsVersion, Keys;
    var h := AbsList(v, k);
    AbsIDs(v, k);
    DropExact(v, k, id);
    if !Settled.DropSettled(h, id) {
      NewestDoomed(v, k);
      if |h| >= 3 {
        HistoryKept(v, k);
      } else {
        PairLost(v, k);
      }
    }
  }

  lemma PairLost(v: Volume, k: string)
    requires Valid(v) && |Versions(v, k)| == 2 && Versions(v, k)[0].deleteMarker && !Versions(v, k)[1].deleteMarker
    ensures AbsVol(DeleteVersion(v, k, Versions(v, k), Versions(v, k)[0].versionID).vol)
         != Spec.SetHistory(AbsVol(v), k, AbsList(v, k)[1..])
  {
    hide Valid, DeleteVersion, Versions, FinalizeKey, AbsList, MarkLatest, AtKeyPath;
    MarkerDropped(v, k);
    var kept := MarkLatest(Versions(v, k)[1..]);
    LoneDropped(v, k, kept);
    assert AbsList(v, k)[1..] != [];
    assert k in Spec.SetHistory(AbsVol(v), k, AbsList(v, k)[1..]).objects;
  }

  lemma LoneDropped(v: Volume, k: string, kept: seq<ObjectMeta>)
    requires |kept| == 1 && !kept[0].deleteMarker && !AtKeyPath(kept) && k !in v.tree
    ensures k !in AbsVol(FinalizeKey(v, k, kept).vol).objects
  {
    hide AbsList;
  }

  /** HIDDEN: above two or more versions the delete leaves a live key, its newest version readable, that no
      object listing shows, whatever the request: the key has no file in the tree. */
  lemma MarkerDeleteHidesKey(v: Volume, k: string, q: L.Query, keys: seq<string>)
    requires Valid(v) && BucketConfig(v).Some?
    requires |Versions(v, k)| >= 3 && Versions(v, k)[0].deleteMarker && !Versions(v, k)[1].deleteMarker
    requires ListsKeys(keys, v.tree.Keys)
    ensures var vs := Versions(v, k); var w := DeleteVersion(v, k, vs, vs[0].versionID).vol;
      && Versions(w, k) == MarkLatest(vs[1..]) && L.Live(w, k) && w.tree == v.tree && k !in w.tree
      && Get(w, k, "").err == NoError && Get(w, k, "").bytes == AbsList(v, k)[1].bytes
      && L.Token(k, false) !in L.Full(w, q, keys)
  {
    HistoryKept(v, k);
    Failures.Placed(v, k, 1);
    hide DeleteVersion, Valid, AbsVol, L.Full, Versions, MarkLatest, L.Live, Get;
    var vs := Versions(v, k);
    ReadsBelow(v, k, vs);
    Unlisted(v.(history := v.history[k := MarkLatest(vs[1..])]), k, q, keys);
  }

  lemma ReadsBelow(v: Volume, k: string, vs: seq<ObjectMeta>)
    requires vs == Versions(v, k) && |vs| >= 2 && !vs[1].deleteMarker && vs[1].blobID != "" && vs[1].blobID in v.blobs
    requires BucketConfig(v).Some?
    ensures var w := v.(history := v.history[k := MarkLatest(vs[1..])]);
      && Versions(w, k) == MarkLatest(vs[1..]) && L.Live(w, k)
      && Get(w, k, "").err == NoError && Get(w, k, "").bytes == AbsList(v, k)[1].bytes
  {
    var w := v.(history := v.history[k := MarkLatest(vs[1..])]);
    HistoryIs(w, k);
    assert AbsList(v, k)[1] == AbsVersion(v, k, vs[1]);
    hide ReadCurrentMeta;
  }

  lemma Unlisted(w: Volume, k: string, q: L.Query, keys: seq<string>)
    requires k !in keys
    ensures L.Token(k, false) !in L.Full(w, q, keys)
  {
    L.FullMembers(w, q, keys);
    hide L.Full, L.DisplayToken;
    forall t | t in L.Full(w, q, keys) && !t.isPrefix ensures t.text in keys {
      var k' :| k' in keys && L.Listed(w, q, k') && L.DisplayToken(k', q.prefix, q.delim) == t;
      L.TokenShape(k', q.prefix, q.delim);
    }
  }

  // ---- metadata that the attributes cannot carry ----

  /** What is read back of a version once the key file alone describes it. */
  function Reread(m: ObjectMeta, f: File): ObjectMeta {
    ObjectMeta(if m.versionID != "" then m.versionID else "null", "", |f.bytes|,
               if m.lastModified != 0 then m.lastModified else f.mtime, true, false,
               if m.attrs.legalHold == Some("") then m.attrs.(legalHold := None) else m.attrs)
  }

  lemma RereadIs(f: File, m: ObjectMeta, k: string)
    ensures ReadCurrentMeta(WriteXattrs(f, m), k) == Reread(m, f)
  {
    AttrsBack(f, m, k);
    TextBack(m, XVersionID, m.versionID, "null");
  }

  lemma LoneWritten(v: Volume, k: string, m: ObjectMeta)
    requires k in v.tree && AtKeyPath([m])
    ensures Versions(FinalizeKey(v, k, [m]).vol, k) == [Reread(m, v.tree[k])]
  {
    RereadIs(v.tree[k], m, k);
    hide ReadCurrentMeta, WriteXattrs;
  }

  /** A list of two, each under its own id. */
  predicate Pair(v: Volume, k: string, vs: seq<ObjectMeta>) {
    k in v.history && v.history[k] == vs && |vs| == 2 && vs[0].versionID != vs[1].versionID
  }

  lemma PairWithout(vs: seq<ObjectMeta>)
    requires |vs| == 2 && vs[0].versionID != vs[1].versionID
    ensures Without(vs, vs[0].versionID) == [vs[1]] && Without(vs, vs[1].versionID) == [vs[0]]
  {
    assert vs == [vs[0], vs[1]] && vs[1..] == [vs[1]] && vs[1..][1..] == [];
    var a, b := vs[0].versionID, vs[1].versionID;
    assert Without([], a) == [] && Without([], b) == [];
    assert Without([vs[1]], a) == [vs[1]] + [] && Without([vs[1]], b) == [];
  }

  /** Deleting the older of two versions leaves the newer as the key file tells it. */
  lemma DownToCurrent(v: Volume, k: string, vs: seq<ObjectMeta>)
    requires Pair(v, k, vs) && k in v.tree && AtKeyPath(vs) && (vs[1].deleteMarker || vs[1].blobID != "")
    ensures Versions(DeleteVersion(v, k, vs, vs[1].versionID).vol, k) == [Reread(vs[0], v.tree[k])]
  {
    PairWithout(vs);
    var v1 := v.(blobs := v.blobs - Doomed(vs, vs[1].versionID));
    var m := vs[0].(isLatest := true);
    assert !RemovesCurrent(vs, vs[1].versionID);
    hide ReadCurrentMeta, Without, FinalizeKey, Promote, Doomed, RemovesCurrent, Versions;
    assert MarkLatest([vs[0]]) == [m] by { assert [vs[0]][1..] == []; }
    LoneWritten(v1, k, m);
  }

  /** Deleting the newer of two versions leaves the older as its file tells it, once back at the key path. */
  lemma DownToArchived(v: Volume, k: string, vs: seq<ObjectMeta>)
    requires Pair(v, k, vs) && AtKeyPath(vs) && !vs[1].deleteMarker && vs[1].blobID != "" && vs[1].blobID in v.blobs
    ensures Versions(DeleteVersion(v, k, vs, vs[0].versionID).vol, k) == [Reread(vs[1], v.blobs[vs[1].blobID])]
  {
    PairWithout(vs);
    assert Doomed(vs, vs[0].versionID) == {} && v.blobs - {} == v.blobs;
    assert RemovesCurrent(vs, vs[0].versionID) by { assert vs[0] in vs; }
    var m := vs[1].(isLatest := true, blobID := "");
    var v1 := v.(tree := v.tree - {k});
    var u := v1.(dir := true, tree := v1.tree[k := v.blobs[vs[1].blobID]], blobs := v.blobs - {vs[1].blobID});
    assert Promote(v1, k, [vs[1]]) == Displaced(u, [m], NoError) by { assert [m] + [vs[1]][1..] == [m]; }
    hide ReadCurrentMeta, Without, FinalizeKey, Promote, Doomed, RemovesCurrent, Versions;
    assert DeleteVersion(v, k, vs, vs[0].versionID) == FinalizeKey(u, k, [m]);
    LoneWritten(u, k, m);
  }

  /** The metadata that a key file alone can carry. */
  predicate Carried(m: ObjectMeta, f: File) {
    m.attrs.legalHold != Some("") && m.size == |f.bytes| && (m.lastModified != 0 || f.mtime == 0)
  }

  lemma RereadSame(m: ObjectMeta, f: File)
    requires m.versionID != "" && !m.deleteMarker
    ensures Reread(m, f) == m.(isLatest := true, blobID := "") <==> Carried(m, f)
  {}

  lemma InstalledPair(v: Volume, k: string, f: File, nv: ObjectMeta)
    requires Valid(v) && |Versions(v, k)| == 1 && !Versions(v, k)[0].deleteMarker
    requires !nv.deleteMarker && nv.blobID == "" && nv.versionID != Versions(v, k)[0].versionID
    ensures var u, m := Install(v, k, true, f, nv).vol, Versions(v, k)[0];
      && Install(v, k, true, f, nv).err == NoError
      && Pair(u, k, [nv.(isLatest := true), m.(isLatest := false, blobID := m.versionID)])
      && k in u.tree && u.tree[k].bytes == f.bytes && u.tree[k].mtime == (if nv.lastModified != 0 then nv.lastModified else f.mtime)
      && m.versionID != ""
  {
    Failures.Placed(v, k, 0);
    hide Valid, Versions;
    var m := Versions(v, k)[0];
    assert Versions(v, k) == [m];
    DisplacedLone(v, k, m);
    var u := v.(dir := true, tree := (v.tree - {k})[k := f], blobs := v.blobs[m.versionID := v.tree[k]]);
    PairPlaced(u, k, m.(blobID := m.versionID), f, nv);
  }

  lemma DisplacedLone(v: Volume, k: string, m: ObjectMeta)
    requires k in v.tree && AtKeyPath([m])
    ensures Displace(v, k, [m], true)
         == Displaced(v.(tree := v.tree - {k}, blobs := v.blobs[m.versionID := v.tree[k]]), [m.(blobID := m.versionID)], NoError)
  {
    assert [m][1..] == [];
  }

  lemma PairPlaced(u: Volume, k: string, m: ObjectMeta, f: File, nv: ObjectMeta)
    requires k in u.tree && u.tree[k] == f && !nv.deleteMarker && nv.blobID == "" && nv.versionID != m.versionID
    ensures var o := WriteKeyMeta(u, k, PrependLatest([m], nv));
      && o.err == NoError && Pair(o.vol, k, [nv.(isLatest := true), m.(isLatest := false)])
      && k in o.vol.tree && o.vol.tree[k].bytes == f.bytes
      && o.vol.tree[k].mtime == (if nv.lastModified != 0 then nv.lastModified else f.mtime)
  {
    hide Encode;
    assert PrependLatest([m], nv) == [nv.(isLatest := true), m.(isLatest := false)];
  }

  /** SURFACING: with versioning on, a write over a lone version shows in the list exactly as it was given,
      whatever its metadata; but once that older version is deleted the new one reads back as its file tells
      it, and that is what was written if and only if the file alone can carry it. */
  lemma WriteSurfaces(v: Volume, k: string, f: File, nv: ObjectMeta)
    requires Valid(v) && |Versions(v, k)| == 1 && !Versions(v, k)[0].deleteMarker
    requires !nv.deleteMarker && nv.blobID == "" && nv.versionID != "" && nv.versionID != Versions(v, k)[0].versionID
    ensures var u, m := Install(v, k, true, f, nv).vol, Versions(v, k)[0];
      var w := DeleteVersion(u, k, Versions(u, k), m.versionID).vol;
      && Versions(u, k)[0] == nv.(isLatest := true)
      && Versions(w, k) == [Reread(nv, f)]
      && (Versions(w, k)[0] == nv.(isLatest := true) <==> Carried(nv, f))
  {
    hide Valid, Install, DeleteVersion, Reread;
    InstalledPair(v, k, f, nv);
    var u, m := Install(v, k, true, f, nv).vol, Versions(v, k)[0];
    var vs := [nv.(isLatest := true), m.(isLatest := false, blobID := m.versionID)];
    HistoryRead(u, k, vs);
    hide Versions;
    DownToCurrent(u, k, vs);
    RereadStable(nv, f, u.tree[k]);
    RereadSame(nv, f);
  }

  lemma HistoryRead(v: Volume, k: string, vs: seq<ObjectMeta>)
    requires Pair(v, k, vs)
    ensures Versions(v, k) == vs
  {
    hide ReadCurrentMeta;
  }

  lemma RereadStable(m: ObjectMeta, f: File, g: File)
    requires g.bytes == f.bytes && g.mtime == if m.lastModified != 0 then m.lastModified else f.mtime
    ensures Reread(m.(isLatest := true), g) == Reread(m, f)
  {}

  /** SURFACING: an empty legal hold set on either of two versions is listed as set; once the other version is
      deleted it is gone. */
  lemma HoldSurfaces(v: Volume, k: string, vs: seq<ObjectMeta>, i: nat, u: Volume)
    requires Valid(v) && vs == Versions(v, k) && |vs| == 2 && !vs[0].deleteMarker && !vs[1].deleteMarker && i < 2
    requires u == ApplyMutation(v, k, vs[i].versionID, SetLegalHold("")).vol
    ensures Versions(u, k) == vs[i := vs[i].(attrs := vs[i].attrs.(legalHold := Some("")))]
    ensures Versions(DeleteVersion(u, k, Versions(u, k), vs[1 - i].versionID).vol, k)
         == [vs[i].(isLatest := true, blobID := "", attrs := vs[i].attrs.(legalHold := None))]
  {
    hide Valid, ReadCurrentMeta, DeleteVersion, Keys;
    Failures.Placed(v, k, 0);
    Failures.Placed(v, k, 1);
    Sizes(v, k);
    var at := vs[i].attrs.(legalHold := Some(""));
    var vs' := vs[i := vs[i].(attrs := at)];
    Mutates(v, k, i);
    PairRewritten(v, k, vs, vs');
    HistoryRead(u, k, vs');
    hide Versions, ApplyMutation, WriteKeyMeta;
    if i == 0 {
      DownToCurrent(u, k, vs');
    } else {
      DownToArchived(u, k, vs');
    }
  }

  lemma Mutates(v: Volume, k: string, i: nat)
    requires i < |Versions(v, k)| && IndexOfID(Versions(v, k), Versions(v, k)[i].versionID) == i && Versions(v, k)[i].versionID != ""
    ensures var vs := Versions(v, k);
      ApplyMutation(v, k, vs[i].versionID, SetLegalHold(""))
        == WriteKeyMeta(v, k, vs[i := vs[i].(attrs := vs[i].attrs.(legalHold := Some("")))])
  {
    hide ReadCurrentMeta, WriteKeyMeta;
  }

  lemma PairRewritten(v: Volume, k: string, vs: seq<ObjectMeta>, vs': seq<ObjectMeta>)
    requires |vs| == |vs'| == 2 && AtKeyPath(vs) && AtKeyPath(vs') && k in v.tree && vs'[0].versionID != vs'[1].versionID
    ensures var u := WriteKeyMeta(v, k, vs').vol;
      && Pair(u, k, vs') && u.blobs == v.blobs && k in u.tree && u.tree[k].bytes == v.tree[k].bytes
  {
    hide Encode;
  }

  /** What a valid key's live versions record of their files. */
  lemma Sizes(v: Volume, k: string)
    requires Valid(v) && |Versions(v, k)| == 2 && !Versions(v, k)[0].deleteMarker && !Versions(v, k)[1].deleteMarker
    ensures var vs := Versions(v, k);
      && k in v.tree && |v.tree[k].bytes| == vs[0].size && vs[0].lastModified != 0 && vs[1].lastModified != 0
      && vs[1].blobID in v.blobs && |v.blobs[vs[1].blobID].bytes| == vs[1].size && vs[1].blobID != ""
  {
    hide ReadCurrentMeta, Keys;
    KeyBacked(v, k);
    hide Valid;
    var vs := Versions(v, k);
    assert WellPlaced(vs[0], 0) && WellPlaced(vs[1], 1) && Backed(v, k, vs[0]) && Backed(v, k, vs[1]);
  }
}
