/** The storage engine as it runs: an object whose methods move files between the key path, the
    version store and the history directory. Each method is proved to have the effect its
    specification function says, whatever state the disk is in. */
module Backend {
  import opened Types
  import opened XMeta
  import opened Store
  import opened Multipart
  import opened Machine
  import opened Shards
  import opened Uploads
  import opened PartsRun
  import opened Rep
  import opened Refinement
  import Spec
  import Snapshot
  import Settled

  /** The same files: a bucket that was never written and an empty one are alike. */
  ghost predicate Same(d: Disk, d': Disk) {
    (forall b :: Vol(d.vols, b) == Vol(d'.vols, b)) && d.staging == d'.staging && d.parts == d'.parts
  }

  /** One bucket's volume is replaced, the others stay. */
  ghost predicate Replaced(vols: map<string, Volume>, vols0: map<string, Volume>, b: string, w: Volume) {
    forall x :: Vol(vols, x) == if x == b then w else Vol(vols0, x)
  }

  /** A valid disk that means this state, bucket by bucket. */
  ghost predicate MeansState(d: Disk, s: Spec.State) {
    && ValidDisk(d) && d.staging == s.staging && d.parts == s.parts
    && forall b :: AbsVol(Vol(d.vols, b)) == Spec.BucketOf(s.buckets, b)
  }

  lemma MeansSame(d: Disk, d': Disk)
    requires ValidDisk(d) && Same(d', d)
    ensures MeansState(d', AbsDisk(d))
  {
    hide Valid, AbsVol;
    forall b ensures Valid(Vol(d'.vols, b)) && AbsVol(Vol(d'.vols, b)) == Spec.BucketOf(AbsDisk(d).buckets, b) {
      VolumeOf(d, b);
      assert Vol(d'.vols, b) == Vol(d.vols, b);
    }
    forall b | b in d'.vols ensures Valid(d'.vols[b]) { assert Vol(d'.vols, b) == d'.vols[b]; }
  }

  /** A step keeps the part lists ordered. */
  lemma StepKeeps(d: Disk, c: Command, d': Disk)
    requires PartsOrdered(d) && Same(d', Apply(d, c).disk)
    ensures PartsOrdered(d')
  {
    hide Apply;
    CommandKeepsOrder(d, c);
    Frame(d, c);
    forall b, x | x in Vol(d'.vols, b).uploads ensures Ascending(Vol(d'.vols, b).uploads[x].parts) {
      assert Vol(d'.vols, b) == Vol(Apply(d, c).disk.vols, b);
      if b != c.bucket { assert x in Vol(d.vols, b).uploads; }
    }
  }

  /** Disks that are the same stay so under every command. */
  lemma ApplySame(d: Disk, d': Disk, c: Command)
    requires Same(d, d')
    ensures Apply(d, c).err == Apply(d', c).err && Same(Apply(d, c).disk, Apply(d', c).disk)
  {
    hide Apply;
    Local(d, d', c);
    Frame(d, c);
    Frame(d', c);
    var e, e' := Apply(d, c).disk, Apply(d', c).disk;
    forall b ensures Vol(e.vols, b) == Vol(e'.vols, b) { assert Vol(d.vols, b) == Vol(d'.vols, b); }
    forall t ensures SameToken(e, e', t) {
      if TokenOf(c) != Some(t) { assert SameToken(e, d, t) && SameToken(e', d', t); }
    }
    assert e.staging == e'.staging by {
      forall t ensures (t in e.staging <==> t in e'.staging) && (t in e.staging ==> e.staging[t] == e'.staging[t]) {
        assert SameToken(e, e', t);
      }
    }
  }

  /** A put, in terms of its bucket's volume. */
  lemma PutIs(d: Disk, c: Command, vols: map<string, Volume>, dp: Displaced, nv: ObjectMeta)
    requires c.PutObject? && c.token in d.staging
    requires var v := Vol(d.vols, c.bucket);
      var bm := ConfigForWrite(v);
      && dp == Displace(v, c.key, Versions(v, c.key), Enabled(bm))
      && nv == NewMeta(VersionIDFor(Enabled(bm), c.versionID), c.size, c.mtime, LockDefaults(bm, c.attrs, c.mtime))
    ensures dp.err != NoError && Replaced(vols, d.vols, c.bucket, dp.vol) ==>
              ApplyPut(d, c).err == dp.err && Same(Disk(vols, d.staging, d.parts), ApplyPut(d, c).disk)
    ensures var o := Place(dp.vol, c.key, dp.versions, d.staging[c.token], nv);
      dp.err == NoError && Replaced(vols, d.vols, c.bucket, o.vol) ==>
        ApplyPut(d, c).err == o.err && Same(Disk(vols, d.staging - {c.token}, d.parts), ApplyPut(d, c).disk)
  {
    hide Displace, Place, Versions, LockDefaults, BucketConfig;
    PlaceSucceeds(dp.vol, c.key, dp.versions, d.staging[c.token], nv);
  }

  /** A completion that is not refused, in terms of its bucket's volume. */
  lemma CompleteIs(d: Disk, c: Command, vols: map<string, Volume>)
    requires c.CompleteMultipart? && c.uploadID in Vol(d.vols, c.bucket).uploads
    requires Chosen(Vol(d.vols, c.bucket).uploads[c.uploadID], c.wanted, d.parts, c.uploadID).err == NoError
    ensures var v := Vol(d.vols, c.bucket);
      var up, bm := v.uploads[c.uploadID], ConfigForWrite(v);
      var ch := Chosen(up, c.wanted, d.parts, c.uploadID);
      var bytes, a := Assemble(d.parts, c.uploadID, ch.parts), up.attrs.(etag := MultipartETag(PartEtags(ch.parts)));
      var nv := NewMeta(VersionIDFor(Enabled(bm), c.versionID), |bytes|, c.mtime, LockDefaults(bm, a, c.mtime));
      var o := Install(v, c.key, Enabled(bm), File(bytes, NOW, map[]), nv);
      var w := if o.err != NoError then o.vol else o.vol.(uploads := o.vol.uploads - {c.uploadID});
      && ApplyComplete(d, c).err == o.err
      && (Replaced(vols, d.vols, c.bucket, w) ==> Same(Disk(vols, d.staging - {c.token}, d.parts), ApplyComplete(d, c).disk))
  {
    hide Chosen, MultipartETag, Install, LockDefaults, BucketConfig, Assemble, PartEtags;
  }

  lemma PlaceSucceeds(v: Volume, k: string, vs: seq<ObjectMeta>, f: File, nv: ObjectMeta)
    ensures Place(v, k, vs, f, nv).err == NoError
  {
    hide WriteXattrs;
  }

  lemma {:induction false} WithoutAppend(vs: seq<ObjectMeta>, m: ObjectMeta, id: string)
    ensures Without(vs + [m], id) == Without(vs, id) + if m.versionID == id then [] else [m]
  {
    if vs == [] {
      assert vs + [m] == [m] && [m][1..] == [];
    } else {
      assert (vs + [m])[1..] == vs[1..] + [m];
      WithoutAppend(vs[1..], m, id);
    }
  }

  class PosixBackend {
    var vols: map<string, Volume>
    var staging: map<string, File>
    var parts: map<(string, int), Bytes>

    ghost function State(): Disk
      reads this
    {
      Disk(vols, staging, parts)
    }

    constructor ()
      ensures Same(State(), Disk(map[], map[], map[]))
    {
      vols, staging, parts := map[], map[], map[];
    }

    // ---- files ----

    /** Moves the current object file into the version store. */
    method ArchiveCurrent(b: string, k: string, vid: string) returns (err: Err)
      modifies this`vols
      ensures var v := old(Vol(vols, b));
        if k in v.tree
        then err == NoError && vols == old(vols)[b := v.(tree := v.tree - {k}, blobs := v.blobs[vid := v.tree[k]])]
        else err == IOError && vols == old(vols)
    {
      var v := Vol(vols, b);
      if k !in v.tree {
        return IOError;
      }
      var f := v.tree[k];
      v := v.(tree := v.tree - {k});
      v := v.(blobs := v.blobs[vid := f]);
      vols := vols[b := v];
      err := NoError;
    }

    /** Moves an archived version back to the key path. */
    method PromoteArchived(b: string, k: string, vid: string) returns (ok: bool)
      modifies this`vols
      ensures var v := old(Vol(vols, b));
        ok == (vid in v.blobs) &&
        vols == old(vols)[b := if ok then v.(dir := true, tree := v.tree[k := v.blobs[vid]], blobs := v.blobs - {vid})
                               else v.(dir := true)]
    {
      var v := Vol(vols, b).(dir := true);
      ok := vid in v.blobs;
      if ok {
        var f := v.blobs[vid];
        v := v.(blobs := v.blobs - {vid});
        v := v.(tree := v.tree[k := f]);
      }
      vols := vols[b := v];
    }

    method RemoveCurrent(b: string, k: string)
      modifies this`vols
      ensures vols == old(vols)[b := old(Vol(vols, b)).(tree := old(Vol(vols, b)).tree - {k})]
    {
      var v := Vol(vols, b);
      vols := vols[b := v.(tree := v.tree - {k})];
    }

    method RemoveArchivedBlob(b: string, blobID: string)
      modifies this`vols
      ensures var v := old(Vol(vols, b));
        Replaced(vols, old(vols), b, if blobID != "" then v.(blobs := v.blobs - {blobID}) else v)
    {
      if blobID != "" {
        var v := Vol(vols, b);
        vols := vols[b := v.(blobs := v.blobs - {blobID})];
      }
    }

    // ---- version lists ----

    method ReadMeta(b: string, k: string) returns (r: Option<seq<ObjectMeta>>)
      ensures r == ReadKeyMeta(Vol(vols, b), k)
    {
      var v := Vol(vols, b);
      if k in v.history {
        return Some(v.history[k]);
      }
      if k in v.tree {
        return Some([ReadCurrentMeta(v.tree[k], k)]);
      }
      r := None;
    }

    /** The current version's metadata goes into attributes on the object file, and the list into a
        history file only when the key has more than a single live version. */
    method WriteMeta(b: string, k: string, vs: seq<ObjectMeta>) returns (err: Err)
      modifies this`vols
      ensures var o := WriteKeyMeta(old(Vol(vols, b)), k, vs);
        err == o.err && Replaced(vols, old(vols), b, o.vol)
    {
      var v := Vol(vols, b);
      if vs != [] && !vs[0].deleteMarker && vs[0].blobID == "" {
        if k !in v.tree {
          return IOError;
        }
        var f := WriteCurrentXattrs(v.tree[k], vs[0]);
        v := v.(tree := v.tree[k := f]);
      }
      if |vs| != 1 || vs[0].deleteMarker {
        v := v.(history := v.history[k := vs], histDirs := v.histDirs || Nested(k));
      } else {
        v := v.(history := v.history - {k});
      }
      vols := vols[b := v];
      err := NoError;
    }

    /** Makes room at the key path: archives the current file, or forgets a null version that is
        about to be overwritten. */
    method DisplaceCurrent(b: string, k: string, versions: seq<ObjectMeta>, enabled: bool)
        returns (vs: seq<ObjectMeta>, err: Err)
      modifies this`vols
      ensures var dp := Displace(old(Vol(vols, b)), k, versions, enabled);
        err == dp.err && vs == dp.versions && Replaced(vols, old(vols), b, dp.vol)
    {
      vs, err := versions, NoError;
      if vs == [] || vs[0].deleteMarker || vs[0].blobID != "" {
        return;
      }
      if enabled || vs[0].versionID != "null" {
        err := ArchiveCurrent(b, k, vs[0].versionID);
        if err == NoError {
          vs := [vs[0].(blobID := vs[0].versionID)] + vs[1..];
        }
        return;
      }
      vs := vs[1..];
    }

    /** Inserts the new latest version, after clearing the flag on every older one. */
    static method Prepend(versions: seq<ObjectMeta>, nv: ObjectMeta) returns (vs: seq<ObjectMeta>)
      ensures vs == PrependLatest(versions, nv)
    {
      vs := versions;
      for i := 0 to |vs|
        invariant |vs| == |versions|
        invariant forall j | 0 <= j < i :: vs[j] == versions[j].(isLatest := false)
        invariant forall j | i <= j < |vs| :: vs[j] == versions[j]
      {
        vs := vs[i := vs[i].(isLatest := false)];
      }
      assert vs == Demoted(versions);
      vs := [nv.(isLatest := true)] + vs;
    }

    method Finalize(b: string, k: string, vs: seq<ObjectMeta>) returns (err: Err)
      modifies this`vols
      ensures var o := FinalizeKey(old(Vol(vols, b)), k, vs);
        err == o.err && Replaced(vols, old(vols), b, o.vol)
    {
      if |vs| == 0 {
        RemoveCurrent(b, k);
        var v := Vol(vols, b);
        vols := vols[b := v.(history := v.history - {k})];
        return NoError;
      }
      err := WriteMeta(b, k, vs);
    }

    /** Installs bytes at the key path and the new version at the head of the list. */
    method InstallCurrent(b: string, k: string, versions: seq<ObjectMeta>, f: File, nv: ObjectMeta) returns (err: Err)
      modifies this`vols
      ensures var o := Place(old(Vol(vols, b)), k, versions, f, nv);
        err == o.err && Replaced(vols, old(vols), b, o.vol)
    {
      var v := Vol(vols, b);
      vols := vols[b := v.(dir := true, tree := v.tree[k := f])];
      var vs := Prepend(versions, nv);
      err := WriteMeta(b, k, vs);
    }

    // ---- writes ----

    method ApplyPutObject(c: Command) returns (err: Err)
      requires c.PutObject?
      modifies this
      ensures var st := ApplyPut(old(State()), c);
        err == st.err && Same(State(), st.disk)
    {
      hide Displace, Place, Versions, LockDefaults, BucketConfig, ApplyPut;
      ghost var d := State();
      var v := Vol(vols, c.bucket);
      var bm := ConfigForWrite(v);
      if c.token !in staging {
        NoPayload(d, c);
        return BlobMissing;
      }
      var km := ReadMeta(c.bucket, c.key);
      VersionsAre(v, c.key);
      var vs := if km.Some? then km.value else [];
      ghost var dp := Displace(v, c.key, vs, Enabled(bm));
      var nv := NewMeta(VersionIDFor(Enabled(bm), c.versionID), c.size, c.mtime, LockDefaults(bm, c.attrs, c.mtime));
      vs, err := DisplaceCurrent(c.bucket, c.key, vs, Enabled(bm));
      if err != NoError {
        PutIs(d, c, vols, dp, nv);
        return;
      }
      var f := staging[c.token];
      staging := staging - {c.token};
      err := InstallCurrent(c.bucket, c.key, vs, f, nv);
      PutIs(d, c, vols, dp, nv);
    }

    static lemma NoPayload(d: Disk, c: Command)
      requires c.PutObject? && c.token !in d.staging
      ensures ApplyPut(d, c) == Step(d, BlobMissing)
    {
    }

    static lemma VersionsAre(v: Volume, k: string)
      ensures Versions(v, k) == if ReadKeyMeta(v, k).Some? then ReadKeyMeta(v, k).value else []
    {
    }

    // ---- deletes ----

    /** Pulls the new newest version up to the key path. */
    method PromoteNewLatest(b: string, k: string, versions: seq<ObjectMeta>) returns (vs: seq<ObjectMeta>)
      modifies this`vols
      ensures var pr := Promote(old(Vol(vols, b)), k, versions);
        vs == pr.versions && Replaced(vols, old(vols), b, pr.vol)
    {
      vs := versions;
      if |vs| == 0 {
        return;
      }
      vs := [vs[0].(isLatest := true)] + vs[1..];
      if !vs[0].deleteMarker && vs[0].blobID != "" {
        var ok := PromoteArchived(b, k, vs[0].blobID);
        if ok {
          vs := [vs[0].(blobID := "")] + vs[1..];
        }
      }
    }

    /** Drops every version with the given id, and its archived payload with it. */
    method DropVersions(b: string, versions: seq<ObjectMeta>, id: string)
        returns (kept: seq<ObjectMeta>, removedCurrent: bool)
      modifies this`vols
      ensures kept == Without(versions, id) && removedCurrent == RemovesCurrent(versions, id)
      ensures var v := old(Vol(vols, b));
        Replaced(vols, old(vols), b, v.(blobs := v.blobs - Doomed(versions, id)))
    {
      hide Without, Doomed, RemovesCurrent;
      kept, removedCurrent := [], false;
      ghost var v0 := Vol(vols, b);
      DropStart(v0, versions[..0], id);
      for i := 0 to |versions|
        invariant kept == Without(versions[..i], id)
        invariant removedCurrent == RemovesCurrent(versions[..i], id)
        invariant Replaced(vols, old(vols), b, v0.(blobs := v0.blobs - Doomed(versions[..i], id)))
      {
        var m := versions[i];
        assert versions[..i + 1] == versions[..i] + [m];
        WithoutAppend(versions[..i], m, id);
        DoomedAppend(versions[..i], m, id);
        DropMore(v0, Doomed(versions[..i], id), m.blobID);
        if m.versionID == id {
          if m.blobID == "" && !m.deleteMarker {
            removedCurrent := true;
          } else {
            RemoveArchivedBlob(b, m.blobID);
          }
        } else {
          kept := kept + [m];
        }
      }
      assert versions[..|versions|] == versions;
    }

    method RemoveVersion(b: string, k: string, versions: seq<ObjectMeta>, id: string) returns (err: Err)
      modifies this`vols
      ensures var o := DeleteVersion(old(Vol(vols, b)), k, versions, id);
        err == o.err && Replaced(vols, old(vols), b, o.vol)
    {
      hide Without, Doomed, RemovesCurrent, Promote, FinalizeKey;
      var kept, removedCurrent := DropVersions(b, versions, id);
      if removedCurrent {
        RemoveCurrent(b, k);
        kept := PromoteNewLatest(b, k, kept);
      } else if |kept| > 0 {
        kept := [kept[0].(isLatest := true)] + kept[1..];
      }
      err := Finalize(b, k, kept);
    }

    static lemma DropStart(v: Volume, vs: seq<ObjectMeta>, id: string)
      requires vs == []
      ensures Without(vs, id) == [] && !RemovesCurrent(vs, id) && v.(blobs := v.blobs - Doomed(vs, id)) == v
    {
      assert Doomed(vs, id) == {} && v.blobs - {} == v.blobs;
    }

    static lemma DropMore(v: Volume, doomed: set<string>, id: string)
      ensures v.(blobs := v.blobs - doomed - {id}) == v.(blobs := v.blobs - (doomed + {id}))
      ensures doomed + {} == doomed
    {
      assert v.blobs - doomed - {id} == v.blobs - (doomed + {id});
    }

    static lemma DoomedAppend(vs: seq<ObjectMeta>, m: ObjectMeta, id: string)
      ensures Doomed(vs + [m], id) == Doomed(vs, id) + if m.versionID == id && m.blobID != "" then {m.blobID} else {}
      ensures RemovesCurrent(vs + [m], id) <==>
              RemovesCurrent(vs, id) || (m.versionID == id && m.blobID == "" && !m.deleteMarker)
    {
      assert m in vs + [m];
      assert forall x | x in vs :: x in vs + [m];
    }

    method ApplyDeleteObject(c: Command) returns (err: Err)
      requires c.DeleteObject?
      modifies this`vols
      ensures var o := ApplyDelete(old(Vol(vols, c.bucket)), c.key, c.versionID, c.explicit, c.mtime);
        err == o.err && Replaced(vols, old(vols), c.bucket, o.vol)
    {
      var bm := ConfigForWrite(Vol(vols, c.bucket));
      var km := ReadMeta(c.bucket, c.key);
      if km.None? && !(Enabled(bm) && c.versionID != "") {
        return NoError;
      }
      var vs := if km.Some? then km.value else [];
      if c.versionID != "" && c.explicit {
        err := RemoveVersion(c.bucket, c.key, vs, c.versionID);
        return;
      }
      if Enabled(bm) {
        vs, err := DisplaceCurrent(c.bucket, c.key, vs, true);
        if err != NoError {
          return;
        }
        vs := Prepend(vs, MarkerMeta(c.versionID, c.mtime));
        err := Finalize(c.bucket, c.key, vs);
        return;
      }
      err := DropCurrent(c.bucket, c.key, vs, bm.versioning == "Suspended", c.mtime);
    }

    method DropCurrent(b: string, k: string, versions: seq<ObjectMeta>, suspended: bool, mtime: nat) returns (err: Err)
      modifies this`vols
      ensures var o := DeleteCurrent(old(Vol(vols, b)), k, versions, suspended, mtime);
        err == o.err && Replaced(vols, old(vols), b, o.vol)
    {
      var vs := versions;
      if |vs| > 0 && !vs[0].deleteMarker {
        if vs[0].blobID == "" {
          RemoveCurrent(b, k);
        } else {
          RemoveArchivedBlob(b, vs[0].blobID);
        }
        if vs[0].versionID == "null" || vs[0].blobID == "" {
          vs := vs[1..];
        }
      }
      if suspended {
        vs := Prepend(vs, MarkerMeta("null", mtime));
      } else if |vs| > 0 {
        vs := [vs[0].(isLatest := true)] + vs[1..];
      }
      err := Finalize(b, k, vs);
    }

    // ---- copies and reads ----

    /** The position of a version id, found by scanning the list. */
    static method FindVersion(vs: seq<ObjectMeta>, id: string) returns (i: nat)
      ensures i == IndexOfID(vs, id)
    {
      i := 0;
      while i < |vs|
        invariant i <= |vs| && forall j | 0 <= j < i :: vs[j].versionID != id
      {
        if vs[i].versionID == id {
          return;
        }
        i := i + 1;
      }
    }

    method ResolveVersion(b: string, k: string, id: string) returns (r: Found)
      ensures r == Resolve(Vol(vols, b), k, id)
    {
      if BucketConfig(Vol(vols, b)).None? {
        return Found(ABSENT, NoSuchBucket);
      }
      var km := ReadMeta(b, k);
      if km.None? {
        return Found(ABSENT, NoSuchKey);
      }
      if id != "" {
        var i := FindVersion(km.value, id);
        return if i < |km.value| then Found(km.value[i], NoError) else Found(ABSENT, NoSuchVersion);
      }
      r := if km.value == [] then Found(ABSENT, NoSuchKey) else Found(km.value[0], NoError);
    }

    method GetObject(b: string, k: string, id: string) returns (r: Read)
      ensures r == Get(Vol(vols, b), k, id)
    {
      var v := ResolveVersion(b, k, id);
      if v.err != NoError {
        return Read(ABSENT, "", v.err);
      }
      if v.meta.deleteMarker {
        return Read(ABSENT, "", if id == "" then NoSuchKey else MethodNotAllowed);
      }
      var f := Payload(Vol(vols, b), k, v.meta);
      r := if f.None? then Read(ABSENT, "", NoSuchKey) else Read(v.meta, f.value.bytes, NoError);
    }

    /** Resolves the source first, then displaces the destination, and opens the source's bytes last. */
    method CopyInto(c: Command) returns (err: Err)
      requires c.CopyObject? && c.source.Some?
      modifies this`vols
      ensures var v, s := old(Vol(vols, c.bucket)), c.source.value;
        var dp := Displace(v, c.key, Versions(v, c.key), Enabled(ConfigForWrite(v)));
        var o := CopyVolume(v, old(Vol(vols, s.bucket)), Vol(old(vols)[c.bucket := dp.vol], s.bucket), c);
        err == o.err && Replaced(vols, old(vols), c.bucket, o.vol)
    {
      hide Displace, Place, Versions, LockDefaults, BucketConfig, CopyAttrs, Resolve, Payload;
      var s, v := c.source.value, Vol(vols, c.bucket);
      var bm := ConfigForWrite(v);
      var src := ResolveVersion(s.bucket, s.key, s.versionID);
      if src.err != NoError {
        return src.err;
      }
      if src.meta.deleteMarker {
        return NoSuchKey;
      }
      var km := ReadMeta(c.bucket, c.key);
      VersionsAre(v, c.key);
      var vs := if km.Some? then km.value else [];
      vs, err := DisplaceCurrent(c.bucket, c.key, vs, Enabled(bm));
      if err != NoError {
        return;
      }
      var f := Payload(Vol(vols, s.bucket), s.key, src.meta);
      if f.None? {
        var w := Vol(vols, c.bucket);
        vols := vols[c.bucket := w.(dir := true)];
        return IOError;
      }
      var nv := NewMeta(VersionIDFor(Enabled(bm), c.versionID), src.meta.size, c.mtime,
                        LockDefaults(bm, CopyAttrs(src.meta.attrs, c), c.mtime));
      err := InstallCurrent(c.bucket, c.key, vs, File(f.value.bytes, NOW, map[]), nv);
    }

    method ApplyCopyObject(c: Command) returns (err: Err)
      requires c.CopyObject?
      modifies this`vols
      ensures var st := ApplyCopy(old(State()), c);
        err == st.err && Same(State(), st.disk)
    {
      if c.source.None? {
        return InvalidKey;
      }
      ghost var d := State();
      err := CopyInto(c);
      CopyVolumeIs(d, c);
      Frame(d, c);
      CopyKeepsStaging(d, c);
      hide ApplyCopy, CopyVolume, Displace, Versions;
    }

    static lemma CopyKeepsStaging(d: Disk, c: Command)
      requires c.CopyObject?
      ensures ApplyCopy(d, c).disk.staging == d.staging
    {
      hide Displace, Place, Versions, LockDefaults, BucketConfig, CopyAttrs, Resolve, Payload;
    }

    // ---- metadata ----

    method ApplyObjectMetaMutation(c: Command) returns (err: Err)
      requires c.MutateMeta?
      modifies this`vols
      ensures var o := ApplyMutation(old(Vol(vols, c.bucket)), c.key, c.versionID, c.mutation);
        err == o.err && Replaced(vols, old(vols), c.bucket, o.vol)
    {
      var km := ReadMeta(c.bucket, c.key);
      if km.None? {
        return NoSuchKey;
      }
      var vs, i := km.value, 0;
      if c.versionID != "" {
        i := FindVersion(vs, c.versionID);
        if i == |vs| {
          return NoSuchVersion;
        }
      } else if vs == [] || vs[0].deleteMarker {
        return NoSuchKey;
      }
      if c.mutation.Malformed? {
        return BadConfig;
      }
      vs := vs[i := vs[i].(attrs := Mutated(vs[i].attrs, c.mutation))];
      err := WriteMeta(c.bucket, c.key, vs);
    }

    // ---- multipart ----

    method ApplyPart(c: Command) returns (err: Err)
      requires c.UploadPart? && PartsOrdered(State())
      modifies this`vols
      ensures var st := ApplyUploadPart(old(State()), c);
        err == st.err && Same(State(), st.disk)
    {
      hide Record;
      if (c.uploadID, c.part) !in parts {
        return BlobMissing;
      }
      var v := Vol(vols, c.bucket);
      if c.uploadID !in v.uploads {
        return NoSuchUpload;
      }
      var up := v.uploads[c.uploadID];
      var ps := RecordPart(up.parts, Part(c.part, c.etag, c.size, c.mtime));
      vols := vols[c.bucket := v.(uploads := v.uploads[c.uploadID := up.(parts := ps)])];
      err := NoError;
    }

    /** The part of a completion that installs the assembled object. */
    method InstallAssembled(c: Command, bytes: Bytes, a: Attrs) returns (err: Err)
      requires c.CompleteMultipart?
      modifies this`vols
      ensures var v := old(Vol(vols, c.bucket));
        var bm := ConfigForWrite(v);
        var nv := NewMeta(VersionIDFor(Enabled(bm), c.versionID), |bytes|, c.mtime, LockDefaults(bm, a, c.mtime));
        var o := Install(v, c.key, Enabled(bm), File(bytes, NOW, map[]), nv);
        err == o.err && Replaced(vols, old(vols), c.bucket, o.vol)
    {
      hide Displace, Place, Versions, LockDefaults, BucketConfig;
      var v := Vol(vols, c.bucket);
      var bm := ConfigForWrite(v);
      var km := ReadMeta(c.bucket, c.key);
      VersionsAre(v, c.key);
      var vs := if km.Some? then km.value else [];
      vs, err := DisplaceCurrent(c.bucket, c.key, vs, Enabled(bm));
      if err != NoError {
        return;
      }
      var nv := NewMeta(VersionIDFor(Enabled(bm), c.versionID), |bytes|, c.mtime, LockDefaults(bm, a, c.mtime));
      err := InstallCurrent(c.bucket, c.key, vs, File(bytes, NOW, map[]), nv);
    }

    method ApplyCompleteMultipart(c: Command) returns (err: Err)
      requires c.CompleteMultipart? && PartsOrdered(State())
      modifies this
      ensures var st := ApplyComplete(old(State()), c);
        err == st.err && Same(State(), st.disk)
    {
      hide Chosen, MultipartETag, Assemble, PartEtags;
      var v := Vol(vols, c.bucket);
      assert forall u | u in v.uploads :: Ascending(v.uploads[u].parts);
      if c.uploadID !in v.uploads {
        return NoSuchUpload;
      }
      var up := v.uploads[c.uploadID];
      var ch := ChooseAll(up, c.wanted, parts, c.uploadID);
      if ch.err != NoError {
        return ch.err;
      }
      var bytes, total, etag := AssembleParts(parts, c.uploadID, ch.parts);
      hide ApplyComplete, Same;
      err := StoreAssembled(c, up, ch.parts, bytes, etag);
    }

    /** The last steps of a completion that was not refused. */
    method StoreAssembled(c: Command, up: Upload, ghost chosen: seq<Part>, bytes: Bytes, etag: string) returns (err: Err)
      requires c.CompleteMultipart? && c.uploadID in Vol(vols, c.bucket).uploads && up == Vol(vols, c.bucket).uploads[c.uploadID]
      requires Chosen(up, c.wanted, parts, c.uploadID) == Choice(chosen, NoError)
      requires AllStaged(parts, c.uploadID, chosen)
      requires bytes == Assemble(parts, c.uploadID, chosen) && etag == MultipartETag(PartEtags(chosen))
      modifies this
      ensures var st := ApplyComplete(old(State()), c);
        err == st.err && Same(State(), st.disk)
    {
      hide Chosen, MultipartETag, Install, LockDefaults, BucketConfig, Assemble, PartEtags;
      ghost var d := State();
      staging := staging - {c.token};
      err := InstallAssembled(c, bytes, up.attrs.(etag := etag));
      if err == NoError {
        var w := Vol(vols, c.bucket);
        vols := vols[c.bucket := w.(uploads := w.uploads - {c.uploadID})];
      }
      CompleteIs(d, c, vols);
      hide ApplyComplete;
    }

    // ---- buckets ----

    method CreateBucket(b: string, objectLock: bool) returns (err: Err)
      modifies this`vols
      ensures var o := ApplyCreateBucket(old(Vol(vols, b)), b, objectLock);
        err == o.err && Replaced(vols, old(vols), b, o.vol)
    {
      if b == "" || '/' in b || '\\' in b {
        return InvalidBucketName;
      }
      var v := Vol(vols, b);
      if v.config.Some? {
        return BucketAlreadyOwned;
      }
      var meta := DEFAULT_BUCKET;
      if objectLock {
        meta := meta.(lock := Some(LockConfig(true, "", 0, 0)));
        meta := meta.(versioning := "Enabled");
      }
      vols := vols[b := v.(dir := true, config := Some(meta))];
      err := NoError;
    }

    method DeleteBucket(b: string) returns (err: Err)
      modifies this`vols
      ensures var o := ApplyDeleteBucket(old(Vol(vols, b)));
        err == o.err && Replaced(vols, old(vols), b, o.vol)
    {
      var v := Vol(vols, b);
      if |v.tree| > 0 || |v.history| > 0 || v.histDirs {
        assert v.tree == map[] && v.history == map[] ==> v.histDirs;
        return BucketNotEmpty;
      }
      assert v.tree == map[] && v.history == map[];
      vols := vols - {b};
      err := NoError;
    }

    method ConfigureBucket(b: string, versioning: Option<string>, lock: Option<LockConfig>) returns (err: Err)
      modifies this`vols
      ensures var o := ApplyBucketConfig(old(Vol(vols, b)), versioning, lock);
        err == o.err && Replaced(vols, old(vols), b, o.vol)
    {
      var v := Vol(vols, b);
      var meta := BucketConfig(v);
      if meta.None? {
        return NoSuchBucket;
      }
      var bm := meta.value;
      if versioning.Some? {
        bm := bm.(versioning := versioning.value);
      }
      if lock.Some? {
        bm := bm.(lock := lock);
      }
      vols := vols[b := v.(config := Some(bm))];
      err := NoError;
    }

    // ---- dispatch ----

    /** Executes one committed command; every replica computes the same result. */
    method ApplyCommand(c: Command) returns (err: Err)
      requires PartsOrdered(State())
      modifies this
      ensures var st := Apply(old(State()), c);
        err == st.err && Same(State(), st.disk)
      ensures PartsOrdered(State())
      ensures Settled.StepSettled(AbsDisk(old(State())), c) && ValidDisk(old(State())) ==>
                MeansState(State(), Spec.ApplySpec(AbsDisk(old(State())), c).state)
                && err == Spec.ApplySpec(AbsDisk(old(State())), c).err
    {
      err := Dispatch(c);
      StepKeeps(old(State()), c, State());
      hide Apply, Settled.StepSettled, Spec.ApplySpec, ValidDisk, AbsDisk;
      if ValidDisk(old(State())) {
        StepExact(old(State()), c);
        if Settled.StepSettled(AbsDisk(old(State())), c) {
          MeansSame(Apply(old(State()), c).disk, State());
        }
      }
    }

    method Dispatch(c: Command) returns (err: Err)
      requires PartsOrdered(State())
      modifies this
      ensures var st := Apply(old(State()), c);
        err == st.err && Same(State(), st.disk)
    {
      hide ApplyPut, ApplyCopy, ApplyComplete, ApplyUploadPart, ApplyDelete, ApplyMutation;
      hide ApplyCreateBucket, ApplyDeleteBucket, ApplyBucketConfig;
      match c
      case CreateBucket(b, objectLock) => err := CreateBucket(b, objectLock);
      case DeleteBucket(b) => err := DeleteBucket(b);
      case PutVersioning(b, mode) => err := ConfigureBucket(b, Some(mode), None);
      case PutLockConfig(b, lock) => err := ConfigureBucket(b, None, Some(lock));
      case PutObject(_, _, _, _, _, _, _) => err := ApplyPutObject(c);
      case DeleteObject(_, _, _, _, _) => err := ApplyDeleteObject(c);
      case CopyObject(_, _, _, _, _, _, _, _) => err := ApplyCopyObject(c);
      case MutateMeta(_, _, _, _) => err := ApplyObjectMetaMutation(c);
      case UploadPart(_, _, _, _, _, _) => err := ApplyPart(c);
      case CompleteMultipart(_, _, _, _, _, _, _) => err := ApplyCompleteMultipart(c);
      case CreateMultipart(b, k, u, mtime, a) =>
        var v := Vol(vols, b);
        vols := vols[b := v.(uploads := v.uploads[u := Upload(k, mtime, UploadAttrs(a), [])])];
        err := NoError;
      case AbortMultipart(b, u) =>
        var v := Vol(vols, b);
        vols := vols[b := v.(uploads := v.uploads - {u})];
        err := NoError;
    }

    // ---- snapshots ----

    /** Deletes the object files of one bucket that were written through the log. */
    method RemoveReplicated(b: string)
      modifies this`vols
      ensures var v := old(Vol(vols, b));
        Replaced(vols, old(vols), b, v.(tree := map k | k in v.tree && !Managed(v.tree[k]) :: v.tree[k]))
    {
      hide Managed;
      ghost var v0 := Vol(vols, b);
      var todo := Vol(vols, b).tree.Keys;
      while todo != {}
        invariant todo <= v0.tree.Keys
        invariant Replaced(vols, old(vols), b, v0.(tree := Kept(v0, v0.tree.Keys - todo)))
        decreases |todo|
      {
        var k :| k in todo;
        ghost var done := v0.tree.Keys - todo;
        assert v0.tree.Keys - (todo - {k}) == done + {k};
        RemoveManaged(b, k, old(vols), v0, done);
        todo := todo - {k};
      }
      KeptAll(v0);
      assert v0.tree.Keys - {} == v0.tree.Keys;
    }

    method RemoveManaged(b: string, k: string, ghost vols0: map<string, Volume>, ghost v0: Volume, ghost done: set<string>)
      requires k in v0.tree && k !in done
      requires Replaced(vols, vols0, b, v0.(tree := Kept(v0, done)))
      modifies this`vols
      ensures Replaced(vols, vols0, b, v0.(tree := Kept(v0, done + {k})))
    {
      KeptMore(v0, done, k);
      hide Kept, Managed;
      if Managed(Vol(vols, b).tree[k]) {
        RemoveCurrent(b, k);
      }
    }

    /** The files left once the keys in `done` have been looked at. */
    static ghost function Kept(v: Volume, done: set<string>): map<string, File> {
      map k | k in v.tree && (k !in done || !Managed(v.tree[k])) :: v.tree[k]
    }

    static lemma KeptMore(v: Volume, done: set<string>, k: string)
      requires k in v.tree && k !in done
      ensures k in Kept(v, done) && Kept(v, done)[k] == v.tree[k]
      ensures Kept(v, done + {k}) == if Managed(v.tree[k]) then Kept(v, done) - {k} else Kept(v, done)
      ensures v.(tree := Kept(v, {})) == v
    {
      assert Kept(v, {}) == v.tree;
    }

    static lemma KeptAll(v: Volume)
      ensures Kept(v, v.tree.Keys) == map k | k in v.tree && !Managed(v.tree[k]) :: v.tree[k]
      ensures Kept(v, {}) == v.tree
    {
    }

    method ClearBucket(b: string)
      modifies this`vols
      ensures Replaced(vols, old(vols), b, Snapshot.Cleared(old(Vol(vols, b))))
    {
      ClearedIs(Vol(vols, b));
      hide Snapshot.Cleared;
      RemoveReplicated(b);
      var v := Vol(vols, b);
      vols := vols[b := Volume(v.dir, false, None, v.tree, map[], map[], map[])];
    }

    /** Drops the replicated files and state of every bucket, and keeps the operator's files. */
    method ClearReplicated()
      modifies this`vols
      ensures forall b :: Vol(vols, b) == Vol(Snapshot.ClearAll(old(vols)), b)
    {
      hide Snapshot.Cleared;
      var todo := vols.Keys;
      ghost var vols0 := vols;
      while todo != {}
        invariant todo <= vols0.Keys
        invariant forall b :: Vol(vols, b) == if b in vols0 && b !in todo then Snapshot.Cleared(vols0[b]) else Vol(vols0, b)
        decreases |todo|
      {
        var b :| b in todo;
        ClearBucket(b);
        todo := todo - {b};
      }
    }

    static lemma ClearedIs(v: Volume)
      ensures Snapshot.Cleared(v)
           == Volume(v.dir, false, None, map k | k in v.tree && !Managed(v.tree[k]) :: v.tree[k], map[], map[], map[])
    {
    }

    static lemma UnpackNone(start: map<string, Volume>, tar: seq<Snapshot.Entry>, now: nat)
      ensures Snapshot.UnpackAll(start, tar[..0], now) == start
    {
    }

    static lemma UnpackMore(start: map<string, Volume>, tar: seq<Snapshot.Entry>, i: nat, now: nat)
      requires i < |tar|
      ensures var rest := Snapshot.UnpackAll(start, tar[..i], now);
        Snapshot.UnpackAll(start, tar[..i + 1], now)
          == rest[tar[i].bucket := Snapshot.Unpack(Vol(rest, tar[i].bucket), tar[i], now)]
    {
      assert tar[..i + 1][..i] == tar[..i] && tar[..i + 1][i] == tar[i];
    }

    /** Applies an archive: replicated files are replaced, and the operator's own survive. */
    method RestoreFrom(tar: seq<Snapshot.Entry>, now: nat)
      modifies this`vols
      ensures forall b :: Vol(vols, b) == Vol(Snapshot.Restore(old(vols), tar, now), b)
    {
      hide Snapshot.Unpack, Snapshot.ClearAll, Snapshot.UnpackAll;
      ghost var start := Snapshot.ClearAll(vols);
      ClearReplicated();
      UnpackNone(start, tar, now);
      for i := 0 to |tar|
        invariant forall b :: Vol(vols, b) == Vol(Snapshot.UnpackAll(start, tar[..i], now), b)
      {
        UnpackMore(start, tar, i, now);
        var e := tar[i];
        ghost var rest, before := Snapshot.UnpackAll(start, tar[..i], now), vols;
        vols := vols[e.bucket := Snapshot.Unpack(Vol(vols, e.bucket), e, now)];
        forall b ensures Vol(vols, b) == Vol(Snapshot.UnpackAll(start, tar[..i + 1], now), b) {
          assert Vol(before, b) == Vol(rest, b) && Vol(before, e.bucket) == Vol(rest, e.bucket);
        }
      }
      assert tar[..|tar|] == tar;
    }
  }
}
