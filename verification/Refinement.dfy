/** Every command, on every valid disk, refines the specification exactly when it is settled. */
module Refinement {
  import opened Types
  import opened XMeta
  import opened Store
  import opened Multipart
  import opened Machine
  import opened Rep
  import opened Displacing
  import opened Topping
  import opened Writes
  import opened Deletes
  import opened Markers
  import opened Mutations
  import opened Reads
  import Spec
  import Settled

  /** The step leaves a valid disk that means the specified state, with the specified error. */
  ghost predicate StepAgrees(st: Step, r: Spec.Result) {
    st.err == r.err && ValidDisk(st.disk) && AbsDisk(st.disk) == r.state
  }

  // ---- one volume of the disk ----

  lemma VolumeOf(d: Disk, b: string)
    requires ValidDisk(d)
    ensures Valid(Vol(d.vols, b)) && AbsVol(Vol(d.vols, b)) == Spec.BucketOf(AbsDisk(d).buckets, b)
  {
    if b !in d.vols { EmptyValid(); }
  }

  lemma EmptyValid()
    ensures Valid(EMPTY_VOLUME) && AbsVol(EMPTY_VOLUME) == Spec.NO_BUCKET
  {
  }

  lemma WithVolume(d: Disk, b: string, w: Volume, staging: map<string, File>)
    requires ValidDisk(d)
    ensures var d' := d.(vols := d.vols[b := w], staging := staging);
      && (ValidDisk(d') <==> Valid(w))
      && AbsDisk(d') == AbsDisk(d).(buckets := AbsDisk(d).buckets[b := AbsVol(w)], staging := staging)
  {
    hide Valid, AbsVol;
    var d' := d.(vols := d.vols[b := w], staging := staging);
    if Valid(w) {
      forall x | x in d'.vols ensures Valid(d'.vols[x]) {}
    }
    if ValidDisk(d') { assert Valid(d'.vols[b]); }
    assert AbsDisk(d').buckets == AbsDisk(d).buckets[b := AbsVol(w)];
  }

  lemma SameBucket(m: map<string, Spec.Bucket>, b: string, x: Spec.Bucket, y: Spec.Bucket)
    ensures m[b := x] == m[b := y] <==> x == y
  {
    if m[b := x] == m[b := y] { assert m[b := x][b] == x && m[b := y][b] == y; }
  }

  /** A command that only changes its bucket's volume agrees when the volume does. */
  lemma VolumeStep(d: Disk, b: string, o: Out, staging: map<string, File>, r: (Spec.Bucket, Err))
    requires ValidDisk(d)
    ensures StepAgrees(Step(d.(vols := d.vols[b := o.vol], staging := staging), o.err),
                       Spec.Result(AbsDisk(d).(buckets := AbsDisk(d).buckets[b := r.0], staging := staging), r.1))
       <==> Agrees(o, r)
  {
    hide Valid, AbsVol, ValidDisk, AbsDisk;
    WithVolume(d, b, o.vol, staging);
    SameBucket(AbsDisk(d).buckets, b, AbsVol(o.vol), r.0);
  }

  // ---- bucket commands ----

  /** The same files, under another configuration. */
  ghost predicate SameFiles(v: Volume, w: Volume) {
    w == v.(dir := w.dir, config := w.config, uploads := w.uploads) && (v.dir ==> w.dir)
  }

  lemma SameKey(v: Volume, w: Volume, k: string)
    requires SameFiles(v, w)
    ensures Versions(w, k) == Versions(v, k) && AbsList(w, k) == AbsList(v, k) && (KeyOK(v, k) ==> KeyOK(w, k))
  {
    hide ReadCurrentMeta;
    assert Versions(w, k) == Versions(v, k);
    hide Versions, WellFormed;
    assert forall m :: Payload(w, k, m) == Payload(v, k, m);
    var vs := Versions(v, k);
    forall i | 0 <= i < |vs| ensures AbsList(w, k)[i] == AbsList(v, k)[i] {
      assert Payload(w, k, vs[i]) == Payload(v, k, vs[i]);
    }
    if KeyOK(v, k) {
      forall i | 0 <= i < |vs| && !vs[i].deleteMarker ensures Backed(w, k, vs[i]) {
        assert Backed(v, k, vs[i]);
      }
    }
  }

  lemma SameObjects(v: Volume, w: Volume)
    requires SameFiles(v, w)
    ensures Valid(v) ==> Valid(w)
    ensures AbsVol(w) == AbsVol(v).(dir := w.dir, config := w.config, uploads := w.uploads)
  {
    hide Versions, AbsList, KeyOK;
    forall k ensures Versions(w, k) == Versions(v, k) && AbsList(w, k) == AbsList(v, k) && (KeyOK(v, k) ==> KeyOK(w, k)) {
      SameKey(v, w, k);
    }
    assert Keys(w) == Keys(v);
    assert AbsVol(w).objects == AbsVol(v).objects;
    hide Keys;
    if Valid(v) {
      assert BlobsOK(w);
    }
  }

  lemma CreateAgrees(v: Volume, b: string, objectLock: bool)
    requires Valid(v)
    ensures Agrees(ApplyCreateBucket(v, b, objectLock), Spec.CreateSpec(AbsVol(v), b, objectLock))
  {
    hide Valid, Keys, AbsList;
    var w := ApplyCreateBucket(v, b, objectLock).vol;
    SameObjects(v, w);
  }

  lemma ConfigAgrees(v: Volume, versioning: Option<string>, lock: Option<LockConfig>)
    requires Valid(v)
    ensures Agrees(ApplyBucketConfig(v, versioning, lock), Spec.ConfigSpec(AbsVol(v), versioning, lock))
  {
    hide Valid, Keys, AbsList;
    SameObjects(v, ApplyBucketConfig(v, versioning, lock).vol);
  }

  lemma UploadsAgree(v: Volume, uploads: map<string, Upload>)
    requires Valid(v)
    ensures Agrees(Out(v.(uploads := uploads), NoError), (AbsVol(v).(uploads := uploads), NoError))
  {
    hide Valid, Keys, AbsList;
    SameObjects(v, v.(uploads := uploads));
  }

  /** A valid bucket without versions has no files at all. */
  lemma NothingStored(v: Volume)
    requires Valid(v)
    ensures AbsVol(v).objects == map[] <==> v.tree == map[] && v.history == map[]
    ensures AbsVol(v).objects == map[] ==> v.blobs == map[]
  {
    hide Versions, KeyOK, AbsList;
    if AbsVol(v).objects == map[] {
      assert Keys(v) == AbsVol(v).objects.Keys == {};
      assert forall k :: k !in v.tree && k !in v.history;
      assert forall id :: id !in v.blobs;
    }
    if v.tree == map[] && v.history == map[] {
      assert forall k :: k !in AbsVol(v).objects;
    }
  }

  /** A delete that succeeds destroys no version; it refuses an empty bucket exactly when a nested
      key's history directory is left behind. */
  lemma RemoveExact(v: Volume)
    requires Valid(v)
    ensures Agrees(ApplyDeleteBucket(v), Spec.RemoveSpec(AbsVol(v)))
       <==> (AbsVol(v).objects == map[] ==> !v.histDirs)
  {
    NothingStored(v);
    hide Valid, Keys;
    EmptyValid();
  }

  // ---- writes ----

  lemma InstallAgrees(v: Volume, k: string, f: File, nv: ObjectMeta)
    requires Valid(v)
    requires nv.blobID == "" && !nv.deleteMarker && (!Enabled(ConfigForWrite(v)) ==> nv.versionID == "null")
    ensures Agrees(Install(v, k, Enabled(ConfigForWrite(v)), f, nv),
                   (Spec.AddVersion(AbsVol(v), k, Top(nv, f.bytes)), NoError))
       <==> Settled.AddSettled(AbsVol(v), k, Top(nv, f.bytes))
  {
    hide Valid, AbsVol, Install;
    InstallExact(v, k, f, nv);
  }

  /** The metadata of a new version, and the version it stands for. */
  lemma NewMetaMeans(v: Volume, id: string, size: nat, mtime: nat, a: Attrs, bytes: Bytes)
    ensures var bm := ConfigForWrite(v);
      var nv := NewMeta(VersionIDFor(Enabled(bm), id), size, mtime, LockDefaults(bm, a, mtime));
      && Top(nv, bytes) == Spec.NewVersion(Spec.WriteConfig(AbsVol(v)), id, bytes, size, mtime, a)
      && nv.blobID == "" && !nv.deleteMarker && (!Enabled(bm) ==> nv.versionID == "null")
  {
    hide AbsList, Keys, LockDefaults;
  }

  lemma PutExact(d: Disk, c: Command)
    requires ValidDisk(d) && c.PutObject?
    ensures StepAgrees(ApplyPut(d, c), Spec.PutSpec(AbsDisk(d), c)) <==> Settled.PutSettled(AbsDisk(d), c)
  {
    hide Valid, ValidDisk, AbsVol, Install, Settled.AddSettled, Spec.AddVersion, LockDefaults;
    VolumeOf(d, c.bucket);
    var v := Vol(d.vols, c.bucket);
    if c.token in d.staging {
      var f := d.staging[c.token];
      var bm := ConfigForWrite(v);
      var nv := NewMeta(VersionIDFor(Enabled(bm), c.versionID), c.size, c.mtime, LockDefaults(bm, c.attrs, c.mtime));
      NewMetaMeans(v, c.versionID, c.size, c.mtime, c.attrs, f.bytes);
      InstallAgrees(v, c.key, f, nv);
      var o := Install(v, c.key, Enabled(bm), f, nv);
      VolumeStep(d, c.bucket, o, d.staging - {c.token}, (Spec.AddVersion(AbsVol(v), c.key, Top(nv, f.bytes)), NoError));
    }
  }

  /** Completing removes the upload besides installing the object. */
  lemma UploadGone(o: Out, a: Spec.Bucket, uploads: map<string, Upload>, u: string)
    requires o.vol.uploads == uploads && a.uploads == uploads
    ensures Agrees(Out(o.vol.(uploads := uploads - {u}), NoError), (a.(uploads := uploads - {u}), NoError))
       <==> Valid(o.vol) && AbsVol(o.vol) == a
  {
    hide Valid, Keys, AbsList;
    var w := o.vol.(uploads := uploads - {u});
    SameObjects(o.vol, w);
    SameObjects(w, o.vol);
    assert AbsVol(w) == AbsVol(o.vol).(uploads := uploads - {u});
    assert AbsVol(o.vol).uploads == uploads;
    if AbsVol(o.vol).(uploads := uploads - {u}) == a.(uploads := uploads - {u}) {
      assert AbsVol(o.vol) == AbsVol(o.vol).(uploads := uploads - {u}).(uploads := uploads);
      assert a == a.(uploads := uploads - {u}).(uploads := uploads);
    }
  }

  lemma InstallKeepsUploads(v: Volume, k: string, enabled: bool, f: File, nv: ObjectMeta)
    ensures Install(v, k, enabled, f, nv).vol.uploads == v.uploads
  {
    hide Versions, WriteXattrs;
  }

  lemma CompleteExact(d: Disk, c: Command)
    requires ValidDisk(d) && c.CompleteMultipart?
    ensures StepAgrees(ApplyComplete(d, c), Spec.CompleteSpec(AbsDisk(d), c)) <==> Settled.CompleteSettled(AbsDisk(d), c)
  {
    hide Valid, ValidDisk, AbsList, Keys, Install, Settled.AddSettled, LockDefaults, Chosen, MultipartETag, Spec.NewVersion;
    VolumeOf(d, c.bucket);
    var v := Vol(d.vols, c.bucket);
    if c.uploadID in v.uploads && Chosen(v.uploads[c.uploadID], c.wanted, d.parts, c.uploadID).err == NoError {
      var up, ch := v.uploads[c.uploadID], Chosen(v.uploads[c.uploadID], c.wanted, d.parts, c.uploadID);
      var f := File(Assemble(d.parts, c.uploadID, ch.parts), NOW, map[]);
      CompleteInstall(d, c, f, up.attrs.(etag := MultipartETag(PartEtags(ch.parts))));
    }
  }

  /** The installing step of a completion. */
  lemma CompleteInstall(d: Disk, c: Command, f: File, a: Attrs)
    requires ValidDisk(d) && c.CompleteMultipart?
    ensures var v, s := Vol(d.vols, c.bucket), AbsDisk(d);
      var bm := ConfigForWrite(v);
      var nv := NewMeta(VersionIDFor(Enabled(bm), c.versionID), |f.bytes|, c.mtime, LockDefaults(bm, a, c.mtime));
      var o := Install(v, c.key, Enabled(bm), f, nv);
      var b := Spec.BucketOf(s.buckets, c.bucket);
      var top := Spec.NewVersion(Spec.WriteConfig(b), c.versionID, f.bytes, |f.bytes|, c.mtime, a);
      var a1 := Spec.AddVersion(b, c.key, top);
      && b == AbsVol(v)
      && (o.err != NoError ==> !Settled.AddSettled(b, c.key, top))
      && (o.err == NoError ==>
           (StepAgrees(WithVol(d.(staging := d.staging - {c.token}), c.bucket,
                               Out(o.vol.(uploads := o.vol.uploads - {c.uploadID}), NoError)),
                       Spec.Result(Spec.WithBucket(s.(staging := s.staging - {c.token}), c.bucket,
                                                   a1.(uploads := a1.uploads - {c.uploadID})), NoError))
            <==> Settled.AddSettled(b, c.key, top)))
  {
    hide Valid, ValidDisk, AbsList, Keys, Install, Settled.AddSettled, LockDefaults, Spec.NewVersion;
    VolumeOf(d, c.bucket);
    var v := Vol(d.vols, c.bucket);
    var bm := ConfigForWrite(v);
    var nv := NewMeta(VersionIDFor(Enabled(bm), c.versionID), |f.bytes|, c.mtime, LockDefaults(bm, a, c.mtime));
    NewMetaMeans(v, c.versionID, |f.bytes|, c.mtime, a, f.bytes);
    InstallAgrees(v, c.key, f, nv);
    InstallKeepsUploads(v, c.key, Enabled(bm), f, nv);
    var o, a1 := Install(v, c.key, Enabled(bm), f, nv), Spec.AddVersion(AbsVol(v), c.key, Top(nv, f.bytes));
    UploadGone(o, a1, v.uploads, c.uploadID);
    VolumeStep(d, c.bucket, Out(o.vol.(uploads := o.vol.uploads - {c.uploadID}), NoError), d.staging - {c.token},
               (a1.(uploads := a1.uploads - {c.uploadID}), NoError));
  }

  // ---- copies ----

  /** The payload a copy reads once its destination has been displaced. */
  function SourceFile(d: Disk, c: Command, src: ObjectMeta): Option<File>
    requires c.CopyObject? && c.source.Some?
  {
    var v, s := Vol(d.vols, c.bucket), c.source.value;
    var dp := Displace(v, c.key, Versions(v, c.key), Enabled(ConfigForWrite(v)));
    Payload(Vol(d.vols[c.bucket := dp.vol], s.bucket), s.key, src)
  }

  /** Displacing under a free name keeps every payload but the displaced key file's. */
  lemma DisplacePayload(v: Volume, k: string, enabled: bool, k': string, i: nat)
    requires Valid(v) && Settled.ArchiveFree(AbsVol(v), k, enabled)
    requires i < |Versions(v, k')| && !Versions(v, k')[i].deleteMarker
    requires k' == k && i == 0 ==> !Settled.Archives(AbsList(v, k), enabled)
    ensures Payload(Displace(v, k, Versions(v, k), enabled).vol, k', Versions(v, k')[i]) == Payload(v, k', Versions(v, k')[i])
  {
    hide Valid, Versions, ReadCurrentMeta, Keys;
    AbsIDs(v, k);
    Listed(v, k);
    Listed(v, k');
    ArchivedIDsAre(v);
    if i > 0 { TailLoose(v, k', i); }
  }

  lemma SourceKept(d: Disk, c: Command)
    requires ValidDisk(d) && c.CopyObject? && c.source.Some?
    requires var s, v := c.source.value, Vol(d.vols, c.bucket);
      var r := Resolve(Vol(d.vols, s.bucket), s.key, s.versionID);
      && r.err == NoError && !r.meta.deleteMarker
      && Settled.ArchiveFree(AbsVol(v), c.key, Enabled(ConfigForWrite(v)))
      && !SelfCopy(d, c)
    ensures var s := c.source.value;
      var f := SourceFile(d, c, Resolve(Vol(d.vols, s.bucket), s.key, s.versionID).meta);
      f.Some? && f.value.bytes == Spec.Lookup(AbsVol(Vol(d.vols, s.bucket)), s.key, s.versionID).version.bytes
  {
    hide Valid, ValidDisk, Versions, Resolve, Spec.Lookup, Displace, Settled.ArchiveFree, AbsList;
    var s, v := c.source.value, Vol(d.vols, c.bucket);
    var sv := Vol(d.vols, s.bucket);
    VolumeOf(d, c.bucket);
    VolumeOf(d, s.bucket);
    ResolveAgrees(sv, s.key, s.versionID);
    var i := Position(Versions(sv, s.key), s.versionID);
    PayloadMeans(sv, s.key, i);
    if s.bucket == c.bucket {
      assert s.key == c.key && i == 0 ==> !Settled.Archives(AbsList(v, c.key), Enabled(ConfigForWrite(v)));
      DisplacePayload(v, c.key, Enabled(ConfigForWrite(v)), s.key, i);
    }
  }

  /** The source is the destination's own current version, about to be archived. */
  predicate SelfCopy(d: Disk, c: Command)
    requires c.CopyObject? && c.source.Some?
  {
    var s, v := c.source.value, Vol(d.vols, c.bucket);
    && s.bucket == c.bucket && s.key == c.key
    && Settled.Archives(AbsList(v, c.key), Enabled(ConfigForWrite(v)))
    && Position(Versions(v, c.key), s.versionID) == 0
  }

  /** The source of a self copy is gone when it is opened. */
  lemma SelfCopyLost(d: Disk, c: Command)
    requires ValidDisk(d) && c.CopyObject? && c.source.Some? && SelfCopy(d, c)
    requires Resolve(Vol(d.vols, c.source.value.bucket), c.source.value.key, c.source.value.versionID).err == NoError
    ensures SourceFile(d, c, Resolve(Vol(d.vols, c.source.value.bucket), c.source.value.key, c.source.value.versionID).meta).None?
  {
    hide Valid, ValidDisk, Versions, Resolve, Spec.Lookup, ReadCurrentMeta, Keys;
    var s, v := c.source.value, Vol(d.vols, c.bucket);
    VolumeOf(d, c.bucket);
    ResolveAgrees(v, s.key, s.versionID);
    AbsIDs(v, c.key);
    Listed(v, c.key);
  }

  /** Reading the copied bytes first, the copy is an ordinary write. */
  lemma CopyIsInstall(d: Disk, c: Command)
    requires c.CopyObject? && c.source.Some?
    ensures var s, v := c.source.value, Vol(d.vols, c.bucket);
      var r, bm := Resolve(Vol(d.vols, s.bucket), s.key, s.versionID), ConfigForWrite(v);
      var f := SourceFile(d, c, r.meta);
      var dp := Displace(v, c.key, Versions(v, c.key), Enabled(bm));
      var nv := NewMeta(VersionIDFor(Enabled(bm), c.versionID), r.meta.size, c.mtime,
                        LockDefaults(bm, CopyAttrs(r.meta.attrs, c), c.mtime));
      r.err == NoError && !r.meta.deleteMarker ==>
        && (dp.err != NoError ==> ApplyCopy(d, c).err != NoError)
        && (dp.err == NoError && f.None? ==> ApplyCopy(d, c).err == IOError)
        && (dp.err == NoError && f.Some? ==>
              ApplyCopy(d, c) == WithVol(d, c.bucket, Install(v, c.key, Enabled(bm), File(f.value.bytes, NOW, map[]), nv)))
  {
    hide Versions, Resolve, Displace, Place, LockDefaults, CopyAttrs;
  }

  lemma SelfCopyIs(d: Disk, c: Command)
    requires ValidDisk(d) && c.CopyObject? && c.source.Some?
    requires Resolve(Vol(d.vols, c.source.value.bucket), c.source.value.key, c.source.value.versionID).err == NoError
    ensures var a, ref := Spec.BucketOf(AbsDisk(d).buckets, c.bucket), c.source.value;
      var h, enabled := Spec.History(a, c.key), Enabled(Spec.WriteConfig(a));
      SelfCopy(d, c) <==> ref.bucket == c.bucket && ref.key == c.key && Settled.Archives(h, enabled)
                          && (ref.versionID == "" || ref.versionID == h[0].id)
  {
    hide Valid, ValidDisk, Versions, Resolve, AbsDisk;
    var v := Vol(d.vols, c.bucket);
    VolumeOf(d, c.bucket);
    ConfigSame(v);
    AbsIDs(v, c.key);
    hide AbsVol;
    ResolveAgrees(v, c.key, c.source.value.versionID);
  }

  /** The copied version's metadata, and the version it becomes. */
  lemma CopyMeans(d: Disk, c: Command)
    requires ValidDisk(d) && c.CopyObject? && c.source.Some?
    ensures var s := c.source.value;
      var sv := Vol(d.vols, s.bucket);
      var r, q := Resolve(sv, s.key, s.versionID), Spec.Lookup(Spec.BucketOf(AbsDisk(d).buckets, s.bucket), s.key, s.versionID);
      && r.err == q.err
      && (r.err == NoError ==>
            && r.meta.deleteMarker == q.version.marker && r.meta.size == q.version.size && r.meta.attrs == q.version.attrs)
  {
    hide Valid, ValidDisk, Versions, Resolve, AbsDisk, Spec.Lookup, AbsVol;
    var s := c.source.value;
    VolumeOf(d, s.bucket);
    ResolveAgrees(Vol(d.vols, s.bucket), s.key, s.versionID);
  }

  /** A copy of a live version, not onto itself. */
  lemma CopyLive(d: Disk, c: Command, bytes: Bytes)
    requires ValidDisk(d) && c.CopyObject? && c.source.Some?
    requires var s := c.source.value;
      var r := Resolve(Vol(d.vols, s.bucket), s.key, s.versionID);
      && r.err == NoError && !r.meta.deleteMarker && !SelfCopy(d, c)
      && bytes == Spec.Lookup(AbsVol(Vol(d.vols, s.bucket)), s.key, s.versionID).version.bytes
    ensures var s, v := c.source.value, Vol(d.vols, c.bucket);
      var r := Resolve(Vol(d.vols, s.bucket), s.key, s.versionID).meta;
      var a := AbsVol(v);
      var top := Spec.NewVersion(Spec.WriteConfig(a), c.versionID, bytes, r.size, c.mtime, CopyAttrs(r.attrs, c));
      StepAgrees(ApplyCopy(d, c), Spec.Result(Spec.WithBucket(AbsDisk(d), c.bucket, Spec.AddVersion(a, c.key, top)), NoError))
      <==> Settled.AddSettled(a, c.key, top)
  {
    hide Valid, ValidDisk, Versions, Resolve, AbsDisk, Spec.Lookup, AbsVol, ApplyCopy, Install, Displace, SourceFile, SelfCopy;
    hide LockDefaults, CopyAttrs, Settled.ArchiveFree, Loose, Means, AbsList, Settled.Remaining, Settled.Writable, Spec.AddVersion;
    var s, v := c.source.value, Vol(d.vols, c.bucket);
    var r := Resolve(Vol(d.vols, s.bucket), s.key, s.versionID).meta;
    var bm := ConfigForWrite(v);
    VolumeOf(d, c.bucket);
    ConfigSame(v);
    CopyIsInstall(d, c);
    var nv := NewMeta(VersionIDFor(Enabled(bm), c.versionID), r.size, c.mtime, LockDefaults(bm, CopyAttrs(r.attrs, c), c.mtime));
    NewMetaMeans(v, c.versionID, r.size, c.mtime, CopyAttrs(r.attrs, c), bytes);
    var f := SourceFile(d, c, r);
    var f' := File(if f.Some? then f.value.bytes else "", NOW, map[]);
    var o := Install(v, c.key, Enabled(bm), f', nv);
    VolumeStep(d, c.bucket, o, d.staging, (Spec.AddVersion(AbsVol(v), c.key, Top(nv, bytes)), NoError));
    StagingSame(d, c.bucket, o.vol, Spec.AddVersion(AbsVol(v), c.key, Top(nv, bytes)));
    if Settled.ArchiveFree(AbsVol(v), c.key, Enabled(bm)) {
      SourceKept(d, c);
      DisplaceKeeps(v, c.key, Enabled(bm));
      InstallAgrees(v, c.key, f', nv);
    } else if Valid(o.vol) {
      ArchivedFree(v, c.key, f', nv, Enabled(bm));
    }
  }

  lemma StagingSame(d: Disk, b: string, w: Volume, a: Spec.Bucket)
    ensures d.(vols := d.vols[b := w], staging := d.staging) == d.(vols := d.vols[b := w])
    ensures AbsDisk(d).(buckets := AbsDisk(d).buckets[b := a], staging := d.staging) == Spec.WithBucket(AbsDisk(d), b, a)
  {
  }

  lemma CopyExact(d: Disk, c: Command)
    requires ValidDisk(d) && c.CopyObject?
    ensures StepAgrees(ApplyCopy(d, c), Spec.CopySpec(AbsDisk(d), c)) <==> Settled.CopySettled(AbsDisk(d), c)
  {
    hide Valid, ValidDisk, Versions, Resolve, AbsDisk, Spec.Lookup, AbsVol, SourceFile, SelfCopy, Spec.NewVersion;
    hide Settled.AddSettled, Spec.AddVersion, CopyAttrs;
    if c.source.Some? {
      var s := c.source.value;
      var r := Resolve(Vol(d.vols, s.bucket), s.key, s.versionID);
      VolumeOf(d, c.bucket);
      VolumeOf(d, s.bucket);
      CopyMeans(d, c);
      if r.err == NoError && !r.meta.deleteMarker {
        SelfCopyIs(d, c);
        if SelfCopy(d, c) {
          SelfCopyLost(d, c);
          CopyIsInstall(d, c);
          hide ApplyCopy;
        } else {
          hide ApplyCopy;
          CopyLive(d, c, Spec.Lookup(AbsVol(Vol(d.vols, s.bucket)), s.key, s.versionID).version.bytes);
        }
      }
    }
  }

  /** MAIN STEP: on every valid disk, a command leaves a valid disk that means the specified state
      and reports the specified error, exactly when the command is settled there. */
  lemma StepExact(d: Disk, c: Command)
    requires ValidDisk(d)
    ensures StepAgrees(Apply(d, c), Spec.ApplySpec(AbsDisk(d), c)) <==> Settled.StepSettled(AbsDisk(d), c)
  {
    hide Valid, ValidDisk, Versions, AbsDisk, AbsVol, ApplyDelete, ApplyMutation, ApplyPut, ApplyCopy, ApplyComplete;
    match c
    case PutObject(_, _, _, _, _, _, _) => PutExact(d, c);
    case CopyObject(_, _, _, _, _, _, _, _) => CopyExact(d, c);
    case CompleteMultipart(_, _, _, _, _, _, _) => CompleteExact(d, c);
    case UploadPart(_, _, _, _, _, _) => PartExact(d, c);
    case _ => BucketStep(d, c);
  }

  lemma PartExact(d: Disk, c: Command)
    requires ValidDisk(d) && c.UploadPart?
    ensures StepAgrees(ApplyUploadPart(d, c), Spec.UploadPartSpec(AbsDisk(d), c))
  {
    hide Valid, ValidDisk, Versions, Record, Keys, AbsList;
    var v := Vol(d.vols, c.bucket);
    VolumeOf(d, c.bucket);
    if c.uploadID in v.uploads {
      var up := v.uploads[c.uploadID];
      var up1 := up.(parts := Record(up.parts, Part(c.part, c.etag, c.size, c.mtime)));
      var w := v.(uploads := v.uploads[c.uploadID := up1]);
      UploadsAgree(v, w.uploads);
      VolumeStep(d, c.bucket, Out(w, NoError), d.staging, (AbsVol(v).(uploads := w.uploads), NoError));
      StagingSame(d, c.bucket, w, AbsVol(v).(uploads := w.uploads));
    }
  }

  /** The commands that are one volume operation. */
  lemma BucketStep(d: Disk, c: Command)
    requires ValidDisk(d)
    requires !c.PutObject? && !c.CopyObject? && !c.CompleteMultipart? && !c.UploadPart?
    ensures StepAgrees(Apply(d, c), Spec.ApplySpec(AbsDisk(d), c)) <==> Settled.StepSettled(AbsDisk(d), c)
  {
    hide Valid, ValidDisk, Versions, AbsDisk, AbsVol, ApplyDelete, ApplyMutation, Spec.DeleteSpec, Spec.MutateSpec;
    hide ApplyCreateBucket, ApplyDeleteBucket, ApplyBucketConfig, Spec.CreateSpec, Spec.RemoveSpec, Spec.ConfigSpec;
    hide Settled.DropSettled, Settled.DeleteSettled, Settled.MutateSettled;
    var v, s := Vol(d.vols, c.bucket), AbsDisk(d);
    VolumeOf(d, c.bucket);
    var o, r := VolumeOp(v, c), VolumeSpec(AbsVol(v), c);
    VolumeOpExact(v, c);
    VolumeStep(d, c.bucket, o, d.staging, r);
    StagingSame(d, c.bucket, o.vol, r.0);
  }

  function VolumeOp(v: Volume, c: Command): Out
    requires !c.PutObject? && !c.CopyObject? && !c.CompleteMultipart? && !c.UploadPart?
  {
    match c
    case CreateBucket(b, objectLock) => ApplyCreateBucket(v, b, objectLock)
    case DeleteBucket(b) => ApplyDeleteBucket(v)
    case PutVersioning(b, mode) => ApplyBucketConfig(v, Some(mode), None)
    case PutLockConfig(b, lock) => ApplyBucketConfig(v, None, Some(lock))
    case DeleteObject(b, k, id, explicit, mtime) => ApplyDelete(v, k, id, explicit, mtime)
    case MutateMeta(b, k, id, mu) => ApplyMutation(v, k, id, mu)
    case CreateMultipart(b, k, u, mtime, a) =>
      Out(v.(uploads := v.uploads[u := Upload(k, mtime, UploadAttrs(a), [])]), NoError)
    case AbortMultipart(b, u) => Out(v.(uploads := v.uploads - {u}), NoError)
  }

  function VolumeSpec(a: Spec.Bucket, c: Command): (Spec.Bucket, Err)
    requires !c.PutObject? && !c.CopyObject? && !c.CompleteMultipart? && !c.UploadPart?
  {
    match c
    case CreateBucket(b, objectLock) => Spec.CreateSpec(a, b, objectLock)
    case DeleteBucket(b) => Spec.RemoveSpec(a)
    case PutVersioning(b, mode) => Spec.ConfigSpec(a, Some(mode), None)
    case PutLockConfig(b, lock) => Spec.ConfigSpec(a, None, Some(lock))
    case DeleteObject(b, k, id, explicit, mtime) => (Spec.DeleteSpec(a, k, id, explicit, mtime), NoError)
    case MutateMeta(b, k, id, mu) => Spec.MutateSpec(a, k, id, mu)
    case CreateMultipart(b, k, u, mtime, at) =>
      (a.(uploads := a.uploads[u := Upload(k, mtime, UploadAttrs(at), [])]), NoError)
    case AbortMultipart(b, u) => (a.(uploads := a.uploads - {u}), NoError)
  }

  lemma VolumeOpExact(v: Volume, c: Command)
    requires Valid(v)
    requires !c.PutObject? && !c.CopyObject? && !c.CompleteMultipart? && !c.UploadPart?
    ensures Agrees(VolumeOp(v, c), VolumeSpec(AbsVol(v), c)) <==> Settled.VolumeSettled(AbsVol(v), c)
  {
    hide Valid, Versions, Keys, AbsList, Spec.MutateSpec, Settled.MutateSettled, Settled.DeleteSettled, Settled.DropSettled;
    match c
    case CreateBucket(b, objectLock) => CreateAgrees(v, b, objectLock);
    case DeleteBucket(b) => RemoveExact(v);
    case PutVersioning(b, mode) => ConfigAgrees(v, Some(mode), None);
    case PutLockConfig(b, lock) => ConfigAgrees(v, None, Some(lock));
    case DeleteObject(b, k, id, explicit, mtime) => DeleteObjectExact(v, k, id, explicit, mtime);
    case MutateMeta(b, k, id, mu) => MutateExact(v, k, id, mu);
    case CreateMultipart(b, k, u, mtime, a) => UploadsAgree(v, v.uploads[u := Upload(k, mtime, UploadAttrs(a), [])]);
    case AbortMultipart(b, u) => UploadsAgree(v, v.uploads - {u});
  }

  lemma DeleteObjectExact(v: Volume, k: string, id: string, explicit: bool, mtime: nat)
    requires Valid(v)
    ensures Agrees(ApplyDelete(v, k, id, explicit, mtime), (Spec.DeleteSpec(AbsVol(v), k, id, explicit, mtime), NoError))
       <==> if id != "" && explicit then Settled.DropSettled(Spec.History(AbsVol(v), k), id)
            else Settled.DeleteSettled(AbsVol(v), k, id)
  {
    hide Valid, Versions, Keys, AbsVersion, AbsVol, DeleteVersion, Settled.DeleteSettled;
    if id != "" && explicit {
      AbsIDs(v, k);
      MissingKey(v, k);
      DropExact(v, k, id);
      if AbsList(v, k) == [] { NothingDeleted(v, k); }
    } else {
      DeleteExact(v, k, id, explicit, mtime);
    }
  }
}
