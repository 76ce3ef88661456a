/** How a volume represents a bucket: the representation invariant and the abstraction. */
module Rep {
  import opened Types
  import opened XMeta
  import opened Store
  import Spec

  /** Every key with a history file or an object file. */
  function Keys(v: Volume): set<string> { v.history.Keys + v.tree.Keys }

  /** A version list as the store keeps it: only the newest is at the key path, every older live
      version is archived under its own id, ids are distinct and live metadata is storable. */
  ghost predicate WellFormed(vs: seq<ObjectMeta>) {
    && vs != []
    && (forall i | 0 <= i < |vs| :: WellPlaced(vs[i], i))
    && (forall i, j | 0 <= i < j < |vs| :: vs[i].versionID != vs[j].versionID)
  }

  ghost predicate WellPlaced(m: ObjectMeta, i: nat) {
    && m.versionID != ""
    && (m.isLatest <==> i == 0)
    && m.blobID == (if i == 0 || m.deleteMarker then "" else m.versionID)
    && (!m.deleteMarker ==> Storable(m))
  }

  /** A live version's bytes are where its metadata says, and as long as it says. */
  ghost predicate Backed(v: Volume, k: string, m: ObjectMeta) {
    var f := Payload(v, k, m);
    f.Some? && |f.value.bytes| == m.size
  }

  ghost predicate KeyOK(v: Volume, k: string) {
    var vs := Versions(v, k);
    && WellFormed(vs)
    && (k in v.tree <==> !vs[0].deleteMarker)
    && (forall i | 0 <= i < |vs| && !vs[i].deleteMarker :: Backed(v, k, vs[i]))
    && (k in v.history ==> NeedsHistory(vs) && (Nested(k) ==> v.histDirs))
  }

  /** The ids of the live versions below the newest: the names of a key's archived payloads. */
  function Archived(vs: seq<ObjectMeta>): set<string> {
    set i | 1 <= i < |vs| && !vs[i].deleteMarker :: vs[i].versionID
  }

  /** The archived payloads of all keys together are exactly the stored ones, and none is shared. */
  ghost predicate BlobsOK(v: Volume) {
    && (forall id | id in v.blobs :: exists k | k in Keys(v) :: id in Archived(Versions(v, k)))
    && (forall k, k' | k in Keys(v) && k' in Keys(v) && k != k' ::
          Archived(Versions(v, k)) !! Archived(Versions(v, k')))
  }

  /** A bucket with an object file has its directory. */
  ghost predicate DirOK(v: Volume) { forall k | k in v.tree :: v.dir }

  ghost predicate Valid(v: Volume) {
    && (forall k | k in Keys(v) :: KeyOK(v, k))
    && BlobsOK(v)
    && DirOK(v)
  }

  ghost predicate ValidDisk(d: Disk) { forall b | b in d.vols :: Valid(d.vols[b]) }

  // ---- abstraction ----

  function AbsVersion(v: Volume, k: string, m: ObjectMeta): Spec.Version {
    var f := Payload(v, k, m);
    Spec.Version(m.versionID, m.deleteMarker, if m.deleteMarker || f.None? then "" else f.value.bytes,
                 m.size, m.lastModified, m.attrs)
  }

  function AbsList(v: Volume, k: string): (h: seq<Spec.Version>)
    ensures |h| == |Versions(v, k)|
    ensures forall i | 0 <= i < |h| :: h[i] == AbsVersion(v, k, Versions(v, k)[i])
  {
    var vs := Versions(v, k);
    seq(|vs|, i requires 0 <= i < |vs| => AbsVersion(v, k, vs[i]))
  }

  function AbsVol(v: Volume): Spec.Bucket {
    Spec.Bucket(v.dir, v.histDirs, v.config, map k | k in Keys(v) :: AbsList(v, k), v.uploads)
  }

  function AbsDisk(d: Disk): Spec.State {
    Spec.State(map b | b in d.vols :: AbsVol(d.vols[b]), d.staging, d.parts)
  }

  /** A key without versions has an empty list on both sides. */
  lemma AbsHistory(v: Volume, k: string)
    requires Valid(v)
    ensures Spec.History(AbsVol(v), k) == AbsList(v, k)
    ensures k in Keys(v) <==> Versions(v, k) != []
  {
    if k in Keys(v) {
      assert KeyOK(v, k);
    }
  }

  // ---- changing one key ----

  /** Two volumes that differ only at one key. */
  ghost predicate SameElsewhere(v: Volume, w: Volume, k: string) {
    && w.tree - {k} == v.tree - {k}
    && w.history - {k} == v.history - {k}
    && (v.histDirs ==> w.histDirs)
  }

  /** The archived payloads moved from what `k` owned in `v` to what it owns in `w`. */
  ghost predicate BlobsMoved(v: Volume, w: Volume, k: string) {
    var others := v.blobs.Keys - Archived(Versions(v, k));
    && w.blobs.Keys == others + Archived(Versions(w, k))
    && others !! Archived(Versions(w, k))
    && (forall id | id in others :: w.blobs[id] == v.blobs[id])
  }

  lemma SameVersions(v: Volume, w: Volume, k: string, k': string)
    requires SameElsewhere(v, w, k) && k' != k
    ensures k' in w.tree <==> k' in v.tree
    ensures k' in w.tree ==> w.tree[k'] == v.tree[k']
    ensures k' in w.history <==> k' in v.history
    ensures Versions(w, k') == Versions(v, k')
    ensures k' in Keys(w) <==> k' in Keys(v)
  {
    assert k' in w.tree <==> k' in w.tree - {k};
    assert k' in v.tree <==> k' in v.tree - {k};
    assert k' in w.history <==> k' in w.history - {k};
    assert k' in v.history <==> k' in v.history - {k};
    if k' in v.tree { assert (w.tree - {k})[k'] == (v.tree - {k})[k']; }
    if k' in v.history { assert (w.history - {k})[k'] == (v.history - {k})[k']; }
  }

  /** A version of another key keeps its payload. */
  lemma SamePayload(v: Volume, w: Volume, k: string, k': string, i: nat)
    requires Valid(v) && SameElsewhere(v, w, k) && BlobsMoved(v, w, k)
    requires k' != k && k' in Keys(v) && i < |Versions(v, k')| && !Versions(v, k')[i].deleteMarker
    ensures Payload(w, k', Versions(v, k')[i]) == Payload(v, k', Versions(v, k')[i])
  {
    SameVersions(v, w, k, k');
    var m := Versions(v, k')[i];
    assert KeyOK(v, k');
    assert WellPlaced(m, i) && Backed(v, k', m);
    if i > 0 {
      assert m.versionID in Archived(Versions(v, k'));
      if k in Keys(v) {
        assert Archived(Versions(v, k)) !! Archived(Versions(v, k'));
      }
      assert m.blobID in v.blobs.Keys - Archived(Versions(v, k));
    }
  }

  lemma OtherKeyOK(v: Volume, w: Volume, k: string, k': string)
    requires Valid(v) && SameElsewhere(v, w, k) && BlobsMoved(v, w, k)
    requires k' != k && k' in Keys(v)
    ensures KeyOK(w, k')
    ensures AbsList(w, k') == AbsList(v, k')
  {
    SameVersions(v, w, k, k');
    assert KeyOK(v, k');
    var vs := Versions(v, k');
    hide ReadCurrentMeta, WellFormed, Valid, BlobsMoved;
    forall i | 0 <= i < |vs| && !vs[i].deleteMarker
      ensures Backed(w, k', vs[i]) && AbsVersion(w, k', vs[i]) == AbsVersion(v, k', vs[i])
    {
      assert Backed(v, k', vs[i]);
      SamePayload(v, w, k, k', i);
    }
    forall i | 0 <= i < |vs| ensures AbsList(w, k')[i] == AbsList(v, k')[i] {
    }
  }

  lemma BlobsStayOK(v: Volume, w: Volume, k: string)
    requires Valid(v) && SameElsewhere(v, w, k) && BlobsMoved(v, w, k)
    requires k in Keys(w) ==> KeyOK(w, k)
    ensures BlobsOK(w)
  {
    forall id | id in w.blobs ensures exists k' | k' in Keys(w) :: id in Archived(Versions(w, k')) {
      if id in Archived(Versions(w, k)) {
        assert k in Keys(w);
      } else {
        assert id in v.blobs;
        var k' :| k' in Keys(v) && id in Archived(Versions(v, k'));
        SameVersions(v, w, k, k');
      }
    }
    forall k1, k2 | k1 in Keys(w) && k2 in Keys(w) && k1 != k2
      ensures Archived(Versions(w, k1)) !! Archived(Versions(w, k2))
    {
      if k1 == k {
        ArchivedDisjoint(v, w, k, k2);
      } else if k2 == k {
        ArchivedDisjoint(v, w, k, k1);
      } else {
        SameVersions(v, w, k, k1);
        SameVersions(v, w, k, k2);
      }
    }
  }

  lemma ArchivedDisjoint(v: Volume, w: Volume, k: string, k': string)
    requires Valid(v) && SameElsewhere(v, w, k) && BlobsMoved(v, w, k)
    requires k' != k && k' in Keys(w)
    ensures Archived(Versions(w, k)) !! Archived(Versions(w, k'))
  {
    SameVersions(v, w, k, k');
    var vs := Versions(v, k');
    assert KeyOK(v, k');
    forall id | id in Archived(vs) ensures id !in Archived(Versions(w, k)) {
      var i :| 1 <= i < |vs| && !vs[i].deleteMarker && vs[i].versionID == id;
      assert WellPlaced(vs[i], i) && Backed(v, k', vs[i]);
      if k in Keys(v) {
        assert Archived(Versions(v, k)) !! Archived(vs);
      }
    }
  }

  /** Changing one key consistently keeps the volume valid and changes that key's history alone. */
  lemma ReplaceKey(v: Volume, w: Volume, k: string)
    requires Valid(v) && SameElsewhere(v, w, k) && BlobsMoved(v, w, k)
    requires k in Keys(w) ==> KeyOK(w, k)
    requires DirOK(w)
    ensures Valid(w)
    ensures AbsVol(w).objects == if k in Keys(w) then AbsVol(v).objects[k := AbsList(w, k)] else AbsVol(v).objects - {k}
  {
    forall k' | k' in Keys(w) ensures KeyOK(w, k') {
      if k' != k {
        SameVersions(v, w, k, k');
        OtherKeyOK(v, w, k, k');
      }
    }
    BlobsStayOK(v, w, k);
    ObjectsReplaced(v, w, k);
  }

  lemma ObjectsReplaced(v: Volume, w: Volume, k: string)
    requires Valid(v) && SameElsewhere(v, w, k) && BlobsMoved(v, w, k)
    ensures AbsVol(w).objects == if k in Keys(w) then AbsVol(v).objects[k := AbsList(w, k)] else AbsVol(v).objects - {k}
  {
    hide Valid, BlobsMoved, KeyOK, AbsList, SameElsewhere, Keys, Versions;
    var a, b := AbsVol(v).objects, AbsVol(w).objects;
    var r := if k in Keys(w) then a[k := AbsList(w, k)] else a - {k};
    forall k' ensures k' in b <==> k' in r {
      if k' != k { SameVersions(v, w, k, k'); }
    }
    forall k' | k' in b ensures b[k'] == r[k'] {
      if k' != k {
        SameVersions(v, w, k, k');
        OtherKeyOK(v, w, k, k');
      }
    }
  }
}
