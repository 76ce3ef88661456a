/** One committed command applied to the whole backend. */
module Machine {
  import opened Types
  import opened Store
  import opened Multipart

  datatype Step = Step(disk: Disk, err: Err)

  function WithVol(d: Disk, b: string, o: Out): Step {
    Step(d.(vols := d.vols[b := o.vol]), o.err)
  }

  function ApplyPut(d: Disk, c: Command): Step
    requires c.PutObject?
  {
    var v := Vol(d.vols, c.bucket);
    var bm := ConfigForWrite(v);
    if c.token !in d.staging then Step(d, BlobMissing)
    else
      var nv := NewMeta(VersionIDFor(Enabled(bm), c.versionID), c.size, c.mtime, LockDefaults(bm, c.attrs, c.mtime));
      var o := Install(v, c.key, Enabled(bm), d.staging[c.token], nv);
      if o.err != NoError then WithVol(d, c.bucket, o)
      else WithVol(d.(staging := d.staging - {c.token}), c.bucket, o)
  }

  /** The attributes of a copy: inherited, or rebuilt from the request. */
  function CopyAttrs(src: Attrs, c: Command): Attrs
    requires c.CopyObject?
  {
    var a := if c.replaceMeta
             then c.attrs.(etag := src.etag, storageClass := src.storageClass, tags := map[],
                           acl := None, retention := None, legalHold := None)
             else src.(acl := None);
    if c.replaceTags then a.(tags := map[]) else a
  }

  function ApplyCopy(d: Disk, c: Command): Step
    requires c.CopyObject?
  {
    if c.source.None? then Step(d, InvalidKey)
    else
      var s := c.source.value;
      var v := Vol(d.vols, c.bucket);
      var bm := ConfigForWrite(v);
      var src := Resolve(Vol(d.vols, s.bucket), s.key, s.versionID);
      if src.err != NoError then Step(d, src.err)
      else if src.meta.deleteMarker then Step(d, NoSuchKey)
      else
        var dp := Displace(v, c.key, Versions(v, c.key), Enabled(bm));
        var d1 := d.(vols := d.vols[c.bucket := dp.vol]);
        if dp.err != NoError then Step(d1, dp.err)
        else
          // the source is opened only now, after the destination's current file may have moved
          var f := Payload(Vol(d1.vols, s.bucket), s.key, src.meta);
          if f.None? then Step(d.(vols := d.vols[c.bucket := dp.vol.(dir := true)]), IOError)
          else
            var nv := NewMeta(VersionIDFor(Enabled(bm), c.versionID), src.meta.size, c.mtime,
                              LockDefaults(bm, CopyAttrs(src.meta.attrs, c), c.mtime));
            WithVol(d, c.bucket, Place(dp.vol, c.key, dp.versions, File(f.value.bytes, NOW, map[]), nv))
  }

  function UploadAttrs(a: Attrs): Attrs {
    NO_ATTRS.(contentType := a.contentType, userMeta := a.userMeta, storageClass := a.storageClass, acl := a.acl)
  }

  function ApplyComplete(d: Disk, c: Command): Step
    requires c.CompleteMultipart?
  {
    var v := Vol(d.vols, c.bucket);
    var bm := ConfigForWrite(v);
    if c.uploadID !in v.uploads then Step(d, NoSuchUpload)
    else
      var up := v.uploads[c.uploadID];
      var ch := Chosen(up, c.wanted, d.parts, c.uploadID);
      if ch.err != NoError then Step(d, ch.err)
      else
        var bytes := Assemble(d.parts, c.uploadID, ch.parts);
        var a := up.attrs.(etag := MultipartETag(PartEtags(ch.parts)));
        var nv := NewMeta(VersionIDFor(Enabled(bm), c.versionID), |bytes|, c.mtime, LockDefaults(bm, a, c.mtime));
        var o := Install(v, c.key, Enabled(bm), File(bytes, NOW, map[]), nv);
        var d1 := d.(staging := d.staging - {c.token});
        if o.err != NoError then WithVol(d1, c.bucket, o)
        else WithVol(d1, c.bucket, Out(o.vol.(uploads := o.vol.uploads - {c.uploadID}), NoError))
  }

  function ApplyUploadPart(d: Disk, c: Command): Step
    requires c.UploadPart?
  {
    var v := Vol(d.vols, c.bucket);
    if (c.uploadID, c.part) !in d.parts then Step(d, BlobMissing)
    else if c.uploadID !in v.uploads then Step(d, NoSuchUpload)
    else
      var up := v.uploads[c.uploadID];
      var up1 := up.(parts := Record(up.parts, Part(c.part, c.etag, c.size, c.mtime)));
      WithVol(d, c.bucket, Out(v.(uploads := v.uploads[c.uploadID := up1]), NoError))
  }

  function Apply(d: Disk, c: Command): Step {
    var v := Vol(d.vols, c.bucket);
    match c
    case CreateBucket(b, objectLock) => WithVol(d, b, ApplyCreateBucket(v, b, objectLock))
    case DeleteBucket(b) => WithVol(d, b, ApplyDeleteBucket(v))
    case PutVersioning(b, mode) => WithVol(d, b, ApplyBucketConfig(v, Some(mode), None))
    case PutLockConfig(b, lock) => WithVol(d, b, ApplyBucketConfig(v, None, Some(lock)))
    case PutObject(_, _, _, _, _, _, _) => ApplyPut(d, c)
    case DeleteObject(b, k, id, explicit, mtime) => WithVol(d, b, ApplyDelete(v, k, id, explicit, mtime))
    case CopyObject(_, _, _, _, _, _, _, _) => ApplyCopy(d, c)
    case MutateMeta(b, k, id, mu) => WithVol(d, b, ApplyMutation(v, k, id, mu))
    case CreateMultipart(b, k, u, mtime, a) =>
      WithVol(d, b, Out(v.(uploads := v.uploads[u := Upload(k, mtime, UploadAttrs(a), [])]), NoError))
    case UploadPart(_, _, _, _, _, _) => ApplyUploadPart(d, c)
    case CompleteMultipart(_, _, _, _, _, _, _) => ApplyComplete(d, c)
    case AbortMultipart(b, u) => WithVol(d, b, Out(v.(uploads := v.uploads - {u}), NoError))
  }
}
