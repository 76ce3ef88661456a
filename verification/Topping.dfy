/** Putting a new newest version on a displaced key keeps the volume valid and adds exactly that
    version to the key's history. */
module Topping {
  import opened Types
  import opened XMeta
  import opened Store
  import opened Rep
  import opened Displacing
  import opened Finalizing
  import Spec

  ghost predicate FreshIn(rest: seq<ObjectMeta>, id: string) {
    forall i | 0 <= i < |rest| :: rest[i].versionID != id
  }

  /** A new newest version: at the key path when live, and with an id of its own. */
  ghost predicate TopOK(w1: Volume, k: string, rest: seq<ObjectMeta>, nv: ObjectMeta) {
    && nv.blobID == "" && nv.versionID != "" && FreshIn(rest, nv.versionID)
    && (k in w1.tree <==> !nv.deleteMarker)
    && (!nv.deleteMarker ==> Storable(nv) && |w1.tree[k].bytes| == nv.size)
  }

  lemma ToppedWellFormed(w: Volume, rest: seq<ObjectMeta>, nv: ObjectMeta)
    requires forall i | 0 <= i < |rest| :: LooseAt(w, rest[i])
    requires DistinctIDs(rest) && FreshIn(rest, nv.versionID)
    requires nv.blobID == "" && nv.versionID != "" && (!nv.deleteMarker ==> Storable(nv))
    ensures WellFormed(PrependLatest(rest, nv))
  {
    var vs := PrependLatest(rest, nv);
    forall i | 0 <= i < |vs| ensures WellPlaced(vs[i], i) {
      if i > 0 { assert LooseAt(w, rest[i - 1]); }
    }
    forall i, j | 0 <= i < j < |vs| ensures vs[i].versionID != vs[j].versionID {
      if i > 0 { assert rest[i - 1].versionID != rest[j - 1].versionID; }
      assert vs[j].versionID == rest[j - 1].versionID;
    }
  }

  lemma ToppedNames(rest: seq<ObjectMeta>, nv: ObjectMeta)
    ensures Archived(PrependLatest(rest, nv)) == LiveIDs(rest)
  {
    var vs := PrependLatest(rest, nv);
    forall id | id in LiveIDs(rest) ensures id in Archived(vs) {
      var i :| 0 <= i < |rest| && !rest[i].deleteMarker && rest[i].versionID == id;
      assert vs[i + 1] == rest[i].(isLatest := false);
    }
    forall id | id in Archived(vs) ensures id in LiveIDs(rest) {
      var i :| 1 <= i < |vs| && !vs[i].deleteMarker && vs[i].versionID == id;
      assert vs[i] == rest[i - 1].(isLatest := false);
    }
  }

  function Top(nv: ObjectMeta, bytes: Bytes): Spec.Version {
    Spec.Version(nv.versionID, nv.deleteMarker, bytes, nv.size, nv.lastModified, nv.attrs)
  }

  lemma ToppedPlaced(v: Volume, k: string, w: Volume, rest: seq<ObjectMeta>, w1: Volume, nv: ObjectMeta)
    requires Loose(v, k, w, rest) && TopOK(w1, k, rest, nv)
    requires w1 == w.(dir := w1.dir, tree := w1.tree) && w1.tree - {k} == w.tree - {k}
    requires DirOK(w1)
    ensures Placed(v, k, w1, PrependLatest(rest, nv))
  {
    hide Versions, ReadCurrentMeta;
    var vs := PrependLatest(rest, nv);
    ToppedWellFormed(w, rest, nv);
    ToppedNames(rest, nv);
    hide WellFormed;
    forall i | 0 <= i < |vs| && !vs[i].deleteMarker ensures Backed(w1, k, vs[i]) {
      if i > 0 {
        assert LooseAt(w, rest[i - 1]);
        assert vs[i] == rest[i - 1].(isLatest := false);
      }
    }
  }

  lemma ToppedMeans(w: Volume, k: string, rest: seq<ObjectMeta>, h: seq<Spec.Version>, nv: ObjectMeta, w1: Volume)
    requires forall i | 0 <= i < |rest| :: LooseAt(w, rest[i])
    requires Means(w, k, rest, h) && w1.blobs == w.blobs && nv.blobID == "" && (!nv.deleteMarker ==> k in w1.tree)
    ensures Means(w1, k, PrependLatest(rest, nv), [Top(nv, if nv.deleteMarker then "" else w1.tree[k].bytes)] + h)
  {
    var vs := PrependLatest(rest, nv);
    forall i | 1 <= i < |vs| ensures AbsVersion(w1, k, vs[i]) == h[i - 1] {
      assert LooseAt(w, rest[i - 1]);
      assert vs[i] == rest[i - 1].(isLatest := false);
      assert AbsVersion(w, k, rest[i - 1]) == h[i - 1];
    }
  }

  lemma TopRefines(v: Volume, k: string, w: Volume, rest: seq<ObjectMeta>, h: seq<Spec.Version>, w1: Volume, nv: ObjectMeta)
    requires Valid(v) && Loose(v, k, w, rest) && Means(w, k, rest, h)
    requires w1 == w.(dir := w1.dir, tree := w1.tree) && w1.tree - {k} == w.tree - {k}
    requires DirOK(w1)
    requires TopOK(w1, k, rest, nv)
    ensures Refines(WriteKeyMeta(w1, k, PrependLatest(rest, nv)),
                    Spec.SetHistory(AbsVol(v), k, [Top(nv, if nv.deleteMarker then "" else w1.tree[k].bytes)] + h)
                    .(dir := w1.dir))
  {
    ToppedPlaced(v, k, w, rest, w1, nv);
    ToppedMeans(w, k, rest, h, nv, w1);
    hide Valid, Placed, Means, WriteKeyMeta, AbsVol, Loose, TopOK;
    WriteRefines(v, k, w1, PrependLatest(rest, nv),
                 [Top(nv, if nv.deleteMarker then "" else w1.tree[k].bytes)] + h);
  }
}
