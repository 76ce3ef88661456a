/** What happens on the steps that are not settled: each guard of the refinement is needed. */
module Failures {
  import opened Types
  import opened XMeta
  import opened Store
  import opened Machine
  import opened Rep
  import opened Deletes
  import opened Displacing
  import opened Reads
  import opened Refinement
  import opened Replicas
  import Spec
  import Settled

  /** Deleting the newest delete marker by its id, above a lone live version, makes the key vanish: its
      only version cannot be read any more, and its payload stays behind unowned. */
  lemma MarkerDeleteLosesKey(v: Volume, k: string, mtime: nat)
    requires Valid(v) && BucketConfig(v).Some? && |Versions(v, k)| == 2
    requires Versions(v, k)[0].deleteMarker && !Versions(v, k)[1].deleteMarker
    ensures var vs := Versions(v, k); var o := ApplyDelete(v, k, vs[0].versionID, true, mtime);
      && o.err == NoError && Versions(o.vol, k) == []
      && Get(o.vol, k, "").err == NoSuchKey && Get(o.vol, k, vs[1].versionID).err == NoSuchKey
      && vs[1].versionID in o.vol.blobs
  {
    var vs := Versions(v, k);
    Placed(v, k, 1);
    hide Valid, Versions, ReadCurrentMeta, Get, ApplyDelete;
    DeletesPair(v, k, vs, mtime);
    NoTrace(v.(history := v.history - {k}), k, vs[1].versionID);
  }

  lemma DeletesPair(v: Volume, k: string, vs: seq<ObjectMeta>, mtime: nat)
    requires |vs| == 2 && vs == Versions(v, k) && vs[0].deleteMarker && vs[0].blobID == "" && vs[0].versionID != ""
    requires vs[1].versionID != vs[0].versionID && vs[1].blobID != "" && !vs[1].deleteMarker
    ensures ApplyDelete(v, k, vs[0].versionID, true, mtime) == Out(v.(history := v.history - {k}), NoError)
  {
    PairWithoutFirst(vs);
    assert ApplyDelete(v, k, vs[0].versionID, true, mtime) == DeleteVersion(v, k, vs, vs[0].versionID);
    hide ReadCurrentMeta, Without, Doomed, RemovesCurrent, MarkLatest, Versions;
    assert v.blobs - {} == v.blobs;
  }

  /** A bucket with versioning on after one put of "a" and one delete: a marker above one live version. */
  const MARKED: Volume :=
    Volume(true, false, Some(BucketMeta("Enabled", None)), map[], map["v1" := File("x", 1, map[])],
           map["a" := [ObjectMeta("m", "", 0, 2, true, true, NO_ATTRS), ObjectMeta("v1", "v1", 1, 1, false, false, NO_ATTRS)]],
           map[])

  lemma MarkedValid()
    ensures Valid(MARKED)
  {
    var vs := MARKED.history["a"];
    assert Keys(MARKED) == {"a"} && Versions(MARKED, "a") == vs;
    assert WellPlaced(vs[0], 0) && WellPlaced(vs[1], 1);
    assert vs[1].versionID in Archived(vs);
    assert Backed(MARKED, "a", vs[1]);
  }

  /** A concrete loss: the object written as version v1 is gone after its delete marker is deleted. */
  lemma MarkedLost()
    ensures Get(MARKED, "a", "v1").err == NoError && Get(MARKED, "a", "v1").bytes == "x"
    ensures Get(ApplyDelete(MARKED, "a", "m", true, 3).vol, "a", "v1").err == NoSuchKey
  {
    MarkedValid();
    var vs := MARKED.history["a"];
    assert Versions(MARKED, "a") == vs;
    MarkerDeleteLosesKey(MARKED, "a", 3);
    assert vs[1..][0] == vs[1];
    assert IndexOfID(vs, "v1") == 1;
  }

  lemma NoTrace(w: Volume, k: string, id: string)
    requires k !in w.tree && k !in w.history && BucketConfig(w).Some?
    ensures Versions(w, k) == [] && Get(w, k, "").err == NoSuchKey && Get(w, k, id).err == NoSuchKey
  {}

  /** Where the files of a valid key are. */
  lemma Placed(v: Volume, k: string, i: nat)
    requires Valid(v) && i < |Versions(v, k)|
    ensures var vs := Versions(v, k);
      && (k in v.tree <==> !vs[0].deleteMarker) && vs[0].versionID != "" && vs[0].blobID == ""
      && (i > 0 ==> k in v.history && vs[i].versionID != vs[0].versionID)
      && (i > 0 && !vs[i].deleteMarker ==> vs[i].blobID == vs[i].versionID && vs[i].versionID in v.blobs)
      && vs[i].versionID != "" && IndexOfID(vs, vs[i].versionID) == i
  {
    hide ReadCurrentMeta, Keys;
    KeyBacked(v, k);
    Listed(v, k);
    hide Valid;
    var vs := Versions(v, k);
    assert WellPlaced(vs[i], i) && WellPlaced(vs[0], 0);
    if !vs[i].deleteMarker { assert Backed(v, k, vs[i]); }
  }

  lemma PairWithoutFirst(vs: seq<ObjectMeta>)
    requires |vs| == 2 && vs[0].deleteMarker && vs[0].blobID == "" && vs[1].versionID != vs[0].versionID
    ensures Without(vs, vs[0].versionID) == [vs[1]] && Doomed(vs, vs[0].versionID) == {}
    ensures !RemovesCurrent(vs, vs[0].versionID) && MarkLatest([vs[1]]) == [vs[1].(isLatest := true)]
  {
    assert vs == [vs[0], vs[1]] && vs[1..] == [vs[1]] && vs[1..][1..] == [];
    assert Without([], vs[0].versionID) == [] && [vs[1]] + [] == [vs[1]];
    assert [vs[1]][1..] == [];
  }

  /** Copying a key's own current version onto the key with versioning on fails after the file has been
      moved away: the key's newest version cannot be read afterwards. */
  lemma SelfCopyLosesCurrent(d: Disk, c: Command)
    requires ValidDisk(d) && c.CopyObject? && c.source == Some(ObjectRef(c.bucket, c.key, ""))
    requires var v := Vol(d.vols, c.bucket);
      && BucketConfig(v).Some? && Enabled(BucketConfig(v).value)
      && Versions(v, c.key) != [] && !Versions(v, c.key)[0].deleteMarker
    ensures var st := ApplyCopy(d, c); var w := Vol(st.disk.vols, c.bucket);
      st.err == IOError && c.key !in w.tree && Get(w, c.key, "").err == NoSuchKey
  {
    var v, k := Vol(d.vols, c.bucket), c.key;
    VolumeOf(d, c.bucket);
    KeyBacked(v, k);
    var vs := Versions(v, k);
    assert WellPlaced(vs[0], 0) && Backed(v, k, vs[0]);
    hide Valid, ValidDisk, KeyOK, Versions, ReadCurrentMeta;
    assert ConfigForWrite(v) == BucketConfig(v).value;
    var dp := Displace(v, k, vs, true);
    assert dp.err == NoError && k !in dp.vol.tree;
    SameHistory(v, dp.vol.(dir := true), k);
  }

  lemma SameHistory(v: Volume, w: Volume, k: string)
    requires w.history == v.history && k !in w.tree && BucketConfig(w).Some?
    requires Versions(v, k) != [] && Versions(v, k)[0].blobID == "" && !Versions(v, k)[0].deleteMarker
    ensures Get(w, k, "").err == NoSuchKey
  {
    hide ReadCurrentMeta;
  }

  /** Null versions of two keys share one archive name: archiving the second replaces the first, and
      reading the first key's null version then gives the other key's bytes. */
  lemma NullArchivesCollide(v: Volume, a: string, b: string, i: nat, f: File, nv: ObjectMeta)
    requires Valid(v) && BucketConfig(v).Some? && a != b
    requires 1 <= i < |Versions(v, a)| && Versions(v, a)[i].versionID == "null" && !Versions(v, a)[i].deleteMarker
    requires Versions(v, b) != [] && Versions(v, b)[0].versionID == "null" && !Versions(v, b)[0].deleteMarker
    requires nv.blobID == "" && !nv.deleteMarker
    ensures b in v.tree
    ensures var w := Install(v, b, true, f, nv).vol;
      Get(w, a, "null").err == NoError && Get(w, a, "null").bytes == v.tree[b].bytes
  {
    Placed(v, a, i);
    Placed(v, b, 0);
    hide Valid, Install, Versions, Get, ReadCurrentMeta;
    var w := Install(v, b, true, f, nv).vol;
    InstallArchives(v, b, f, nv);
    assert a in v.history - {b} && (v.history - {b})[a] == v.history[a];
    assert a in w.history - {b} && (w.history - {b})[a] == w.history[a];
    ReadsArchive(v, w, a, i);
  }

  lemma InstallArchives(v: Volume, k: string, f: File, nv: ObjectMeta)
    requires Versions(v, k) != [] && AtKeyPath(Versions(v, k)) && k in v.tree
    ensures var w := Install(v, k, true, f, nv).vol;
      && w.blobs == v.blobs[Versions(v, k)[0].versionID := v.tree[k]] && w.config == v.config && w.dir
      && w.history - {k} == v.history - {k}
  {
    hide Versions, Encode, PrependLatest;
    var dp := Displace(v, k, Versions(v, k), true);
    var u := dp.vol.(dir := true, tree := dp.vol.tree[k := f]);
    WritesOnly(u, k, PrependLatest(dp.versions, nv));
  }

  lemma WritesOnly(v: Volume, k: string, vs: seq<ObjectMeta>)
    ensures var w := WriteKeyMeta(v, k, vs).vol;
      w.blobs == v.blobs && w.config == v.config && w.dir == v.dir && w.history - {k} == v.history - {k}
  {
    hide WriteXattrs, AtKeyPath, NeedsHistory, Nested;
    assert v.history[k := vs] - {k} == v.history - {k};
    assert (v.history - {k}) - {k} == v.history - {k};
  }

  lemma ReadsArchive(v: Volume, w: Volume, k: string, i: nat)
    requires BucketConfig(v).Some? && w.config == v.config && w.dir && k in v.history && k in w.history && w.history[k] == v.history[k]
    requires i < |Versions(v, k)| && !Versions(v, k)[i].deleteMarker && Versions(v, k)[i].blobID == "null"
    requires Versions(v, k)[i].versionID == "null" && IndexOfID(Versions(v, k), "null") == i && "null" in w.blobs
    ensures Get(w, k, "null").err == NoError && Get(w, k, "null").bytes == w.blobs["null"].bytes
  {
    hide ReadCurrentMeta;
    assert Versions(w, k) == Versions(v, k);
  }

  /** With versioning suspended, deleting a key whose newest version is already the null delete marker
      puts a second version with the id null on top of the first. */
  lemma SuspendedDeleteTwice(v: Volume, k: string, id: string, mtime: nat)
    requires ConfigForWrite(v).versioning == "Suspended" && Versions(v, k) != []
    requires Versions(v, k)[0].deleteMarker && Versions(v, k)[0].versionID == "null"
    ensures var vs := Versions(ApplyDelete(v, k, id, false, mtime).vol, k);
      |vs| == |Versions(v, k)| + 1 && vs[0].versionID == vs[1].versionID == "null"
  {
    hide ReadCurrentMeta;
  }

  /** Without versioning a peer answers with its newest bytes: after it has applied a later put of the
      same key, what a lagging node pulls for an earlier put is the later payload. */
  lemma UnversionedPullIsNewest(peer: Disk, mine: Disk, earlier: Command, later: Command)
    requires ValidDisk(peer) && earlier.PutObject? && later.PutObject?
    requires later.bucket == earlier.bucket && later.key == earlier.key && later.token in peer.staging
    requires BucketConfig(Vol(mine.vols, earlier.bucket)).Some? && !Enabled(BucketConfig(Vol(mine.vols, earlier.bucket)).value)
    requires Settled.PutSettled(AbsDisk(peer), later)
    ensures var r := Pulled(ApplyPut(peer, later).disk, mine, earlier);
      r.err == NoError && r.bytes == peer.staging[later.token].bytes
  {
    hide Valid, ValidDisk, AbsVol, Get, Settled.PutSettled, Install;
    PutExact(peer, later);
    var st := ApplyPut(peer, later);
    VolumeOf(st.disk, later.bucket);
    VolumeOf(peer, later.bucket);
    GetAgrees(Vol(st.disk.vols, later.bucket), later.key, "");
    TopIsNew(AbsDisk(peer), later);
  }

  lemma TopIsNew(s: Spec.State, c: Command)
    requires c.PutObject? && c.token in s.staging
    ensures var r := Spec.Readable(Spec.BucketOf(Spec.PutSpec(s, c).state.buckets, c.bucket), c.key, "");
      r.err == NoError && r.version.bytes == s.staging[c.token].bytes
  {
    hide LockDefaults, Spec.Drop;
  }
}
