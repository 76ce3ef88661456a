/** What a copy leaves for its readers. */
module Copies {
  import opened Types
  import opened Store
  import opened Machine
  import opened Rep
  import opened Reads
  import opened Refinement
  import opened Attributes
  import Spec
  import Settled

  /** A settled copy of a readable version, as the version lists have it. */
  ghost predicate ReadableCopy(d: Disk, c: Command) {
    && ValidDisk(d) && c.CopyObject? && c.source.Some? && Settled.CopySettled(AbsDisk(d), c)
    && Get(Vol(d.vols, c.source.value.bucket), c.source.value.key, c.source.value.versionID).err == NoError
  }

  lemma CopyMeans(s: Spec.State, c: Command)
    requires c.CopyObject? && c.source.Some?
    requires Spec.Readable(Spec.BucketOf(s.buckets, c.source.value.bucket), c.source.value.key, c.source.value.versionID).err == NoError
    ensures var ref, a, r := c.source.value, Spec.BucketOf(s.buckets, c.bucket), Spec.CopySpec(s, c);
      var src := Spec.Readable(Spec.BucketOf(s.buckets, ref.bucket), ref.key, ref.versionID).version;
      var top := Spec.Readable(Spec.BucketOf(r.state.buckets, c.bucket), c.key, "");
      && r.err == NoError && top.err == NoError && top.version.bytes == src.bytes && top.version.size == src.size
      && top.version.mtime == c.mtime
      && top.version.attrs == LockDefaults(Spec.WriteConfig(a), CopyAttrs(src.attrs, c), c.mtime)
  {
    hide Spec.Lookup, Spec.Drop, LockDefaults, CopyAttrs;
    var a := Spec.BucketOf(s.buckets, c.bucket);
    var ref := c.source.value;
    var src := Spec.Lookup(Spec.BucketOf(s.buckets, ref.bucket), ref.key, ref.versionID).version;
    var nv := Spec.NewVersion(Spec.WriteConfig(a), c.versionID, src.bytes, src.size, c.mtime, CopyAttrs(src.attrs, c));
    NewestReads(a, c.key, nv);
  }

  lemma NewestReads(a: Spec.Bucket, k: string, nv: Spec.Version)
    requires !nv.marker
    ensures Spec.Readable(Spec.AddVersion(a, k, nv), k, "") == Spec.Answer(nv, NoError)
  {
    hide Spec.Drop;
  }

  /** The request's metadata in place of the source's, whose ETag and storage class stay and whose locks go. */
  predicate Replaced(given: Attrs, src: Attrs, found: Attrs) {
    && found.contentType == given.contentType && found.contentEncoding == given.contentEncoding
    && found.contentLanguage == given.contentLanguage && found.contentDisposition == given.contentDisposition
    && found.cacheControl == given.cacheControl && found.expires == given.expires && found.userMeta == given.userMeta
    && found.etag == src.etag && found.storageClass == src.storageClass && found.legalHold == None
  }

  /** COPY THEN READ: after a settled copy the destination reads as the source's bytes, with its size and
      ETag, without its ACL, stamped with the copy's time; with no replacement directive every other attribute
      is the source's too, but for a default retention where the source had none; with one, the metadata is the
      request's or the tags are gone. */
  lemma CopyThenGet(d: Disk, c: Command)
    requires ReadableCopy(d, c)
    ensures var ref, st := c.source.value, ApplyCopy(d, c);
      var src := Get(Vol(d.vols, ref.bucket), ref.key, ref.versionID);
      var dst := Get(Vol(st.disk.vols, c.bucket), c.key, "");
      && st.err == NoError && dst.err == NoError && dst.bytes == src.bytes && dst.meta.size == src.meta.size
      && dst.meta.attrs.etag == src.meta.attrs.etag && dst.meta.attrs.acl == None && dst.meta.lastModified == c.mtime
      && (!c.replaceMeta && !c.replaceTags ==>
            dst.meta.attrs.(retention := None) == src.meta.attrs.(acl := None, retention := None)
            && (src.meta.attrs.retention.Some? ==> dst.meta.attrs.retention == src.meta.attrs.retention))
      && (if c.replaceMeta then Replaced(c.attrs, src.meta.attrs, dst.meta.attrs)
          else dst.meta.attrs.(retention := None, tags := map[]) == src.meta.attrs.(acl := None, retention := None, tags := map[]))
      && Kept(ConfigForWrite(Vol(d.vols, c.bucket)),
              dst.meta.attrs.(retention := if c.replaceMeta then None else src.meta.attrs.retention), c.mtime, dst.meta.attrs)
      && dst.meta.attrs.tags == (if c.replaceMeta || c.replaceTags then map[] else src.meta.attrs.tags)
  {
    hide Valid, ValidDisk, AbsVol, Get, ApplyCopy, Settled.CopySettled, Spec.Readable, Spec.CopySpec, LockDefaults;
    var ref := c.source.value;
    CopyExact(d, c);
    var st := ApplyCopy(d, c);
    VolumeOf(d, ref.bucket);
    VolumeOf(d, c.bucket);
    VolumeOf(st.disk, c.bucket);
    GetAgrees(Vol(d.vols, ref.bucket), ref.key, ref.versionID);
    GetAgrees(Vol(st.disk.vols, c.bucket), c.key, "");
    CopyMeans(AbsDisk(d), c);
    var src := Get(Vol(d.vols, ref.bucket), ref.key, ref.versionID).meta;
    ConfigSame(Vol(d.vols, c.bucket));
    DefaultsKept(Spec.WriteConfig(AbsVol(Vol(d.vols, c.bucket))), CopyAttrs(src.attrs, c), c.mtime);
  }

  // ---- what a copy leaves alone ----

  /** A version that could be read, of another key or, with versioning on, of the same key by its id. */
  predicate Untouched(a: Spec.Bucket, c: Command, b: string, k: string, id: string)
    requires c.CopyObject?
  {
    b != c.bucket || k != c.key || (Enabled(Spec.WriteConfig(a)) && id != "" && id != c.versionID)
  }

  lemma {:induction false} FindBelow(h: seq<Spec.Version>, nv: Spec.Version, id: string)
    requires nv.id != id
    ensures Spec.Find([nv] + h, id) == Spec.Find(h, id) + 1
  {
    assert ([nv] + h)[1..] == h;
  }

  lemma AddKeeps(a: Spec.Bucket, key: string, nv: Spec.Version, k: string, id: string)
    requires Spec.Readable(a, k, id).err == NoError
    requires k != key || (Enabled(Spec.WriteConfig(a)) && id != "" && id != nv.id)
    ensures Spec.Readable(Spec.AddVersion(a, key, nv), k, id) == Spec.Readable(a, k, id)
  {
    hide Spec.Drop;
    var h := Spec.History(a, k);
    if k == key && nv.id != id { FindBelow(h, nv, id); }
  }

  lemma CopyKeeps(s: Spec.State, c: Command, b: string, k: string, id: string)
    requires c.CopyObject? && Spec.Readable(Spec.BucketOf(s.buckets, b), k, id).err == NoError
    requires Untouched(Spec.BucketOf(s.buckets, c.bucket), c, b, k, id)
    ensures Spec.Readable(Spec.BucketOf(Spec.CopySpec(s, c).state.buckets, b), k, id) == Spec.Readable(Spec.BucketOf(s.buckets, b), k, id)
  {
    hide Spec.Lookup, Spec.Readable, Spec.AddVersion, LockDefaults, CopyAttrs;
    var a := Spec.BucketOf(s.buckets, c.bucket);
    if c.source.Some? && b == c.bucket {
      var ref := c.source.value;
      var src := Spec.Lookup(Spec.BucketOf(s.buckets, ref.bucket), ref.key, ref.versionID).version;
      var nv := Spec.NewVersion(Spec.WriteConfig(a), c.versionID, src.bytes, src.size, c.mtime, CopyAttrs(src.attrs, c));
      AddKeeps(a, c.key, nv, k, id);
    }
  }

  /** NOTHING ELSE CHANGES: every version that could be read before a settled copy, of another key or, with
      versioning on, of the destination by its id (the source among them), reads the same afterwards. */
  lemma CopyKeepsReads(d: Disk, c: Command, b: string, k: string, id: string)
    requires ValidDisk(d) && c.CopyObject? && Settled.CopySettled(AbsDisk(d), c)
    requires Get(Vol(d.vols, b), k, id).err == NoError && Untouched(AbsVol(Vol(d.vols, c.bucket)), c, b, k, id)
    ensures var was, now := Get(Vol(d.vols, b), k, id), Get(Vol(ApplyCopy(d, c).disk.vols, b), k, id);
      && now.err == NoError && now.bytes == was.bytes
      && now.meta.(blobID := "", isLatest := false) == was.meta.(blobID := "", isLatest := false)
  {
    hide Valid, ValidDisk, AbsVol, Get, ApplyCopy, Settled.CopySettled, Spec.Readable, Spec.CopySpec, Untouched, Head;
    CopyExact(d, c);
    var e := ApplyCopy(d, c).disk;
    VolumeOf(d, b);
    VolumeOf(d, c.bucket);
    VolumeOf(e, b);
    GetAgrees(Vol(d.vols, b), k, id);
    GetAgrees(Vol(e.vols, b), k, id);
    CopyKeeps(AbsDisk(d), c, b, k, id);
    ReadsLive(Vol(d.vols, b), k, id);
    ReadsLive(Vol(e.vols, b), k, id);
  }

  lemma ReadsLive(v: Volume, k: string, id: string)
    requires Get(v, k, id).err == NoError
    ensures !Get(v, k, id).meta.deleteMarker
  {
    hide Versions;
  }
}
