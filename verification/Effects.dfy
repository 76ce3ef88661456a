/** What a reader finds after a put or a metadata mutation, in terms of the command's own fields. */
module Effects {
  import opened Types
  import opened Store
  import opened Machine
  import opened Rep
  import opened Reads
  import opened Refinement
  import opened Attributes
  import opened Runs
  import opened Multipart
  import opened Uploads
  import opened Shards
  import Copies
  import Spec
  import Settled

  // ---- puts ----

  lemma PutMeans(s: Spec.State, c: Command)
    requires c.PutObject? && c.token in s.staging
    ensures var a, r := Spec.BucketOf(s.buckets, c.bucket), Spec.PutSpec(s, c);
      var top := Spec.Readable(Spec.BucketOf(r.state.buckets, c.bucket), c.key, "");
      r.err == NoError && top == Spec.Answer(Spec.NewVersion(Spec.WriteConfig(a), c.versionID, s.staging[c.token].bytes,
                                                             c.size, c.mtime, c.attrs), NoError)
  {
    hide Spec.Lookup, Spec.Readable, Spec.AddVersion, LockDefaults;
    var a := Spec.BucketOf(s.buckets, c.bucket);
    var nv := Spec.NewVersion(Spec.WriteConfig(a), c.versionID, s.staging[c.token].bytes, c.size, c.mtime, c.attrs);
    Copies.NewestReads(a, c.key, nv);
  }

  /** PUT THEN READ: after a settled put the key reads as the staged bytes, under the id the bucket's mode gives,
      with the size, the time and the attributes the command brings and the bucket's default retention. */
  lemma PutThenGet(d: Disk, c: Command)
    requires ValidDisk(d) && c.PutObject? && c.token in d.staging && Settled.PutSettled(AbsDisk(d), c)
    ensures var st, bm := Apply(d, c), ConfigForWrite(Vol(d.vols, c.bucket));
      var g := Get(Vol(st.disk.vols, c.bucket), c.key, "");
      && st.err == NoError && c.token !in st.disk.staging && g.err == NoError && g.bytes == d.staging[c.token].bytes
      && g.meta.size == c.size && g.meta.lastModified == c.mtime && Kept(bm, c.attrs, c.mtime, g.meta.attrs)
      && g.meta.versionID == (if bm.versioning == "Enabled" then c.versionID else "null")
  {
    hide Valid, ValidDisk, AbsVol, Get, Install, Settled.PutSettled, Spec.Readable, LockDefaults, Kept;
    PutExact(d, c);
    PutMeans(AbsDisk(d), c);
    var st, bm := ApplyPut(d, c), ConfigForWrite(Vol(d.vols, c.bucket));
    VolumeOf(d, c.bucket);
    VolumeOf(st.disk, c.bucket);
    ConfigSame(Vol(d.vols, c.bucket));
    GetAgrees(Vol(st.disk.vols, c.bucket), c.key, "");
    DefaultsKept(bm, c.attrs, c.mtime);
    hide ApplyPut, AbsDisk;
  }

  // ---- metadata mutations ----

  /** Only what the mutation names is changed, to what it says. */
  predicate AsAsked(mu: Mutation, was: Attrs, now: Attrs) {
    && now.acl == (if mu.SetACL? then Some(mu.acl) else was.acl)
    && now.tags == (if mu.SetTags? then mu.tags else if mu.DelTags? then map[] else was.tags)
    && now.retention == (if mu.SetRetention? then Some(mu.ret) else was.retention)
    && now.legalHold == (if mu.SetLegalHold? then Some(mu.status) else was.legalHold)
    && now.(acl := was.acl, tags := was.tags, retention := was.retention, legalHold := was.legalHold) == was
  }

  lemma MutatedAsAsked(a: Attrs, mu: Mutation)
    ensures AsAsked(mu, a, Mutated(a, mu))
  {}

  /** This read is of the version the mutation addresses. */
  predicate Addresses(a: Spec.Bucket, c: Command, b: string, k: string, id: string)
    requires c.MutateMeta?
  {
    b == c.bucket && k == c.key && Addressed(Spec.History(a, k), id) == Addressed(Spec.History(a, k), c.versionID)
  }

  lemma MutateLooks(s: Spec.State, c: Command, b: string, k: string, id: string)
    requires c.MutateMeta? && Spec.ApplySpec(s, c).err == NoError
    ensures var was, now := Spec.Lookup(Spec.BucketOf(s.buckets, b), k, id),
                            Spec.Lookup(Spec.BucketOf(Spec.ApplySpec(s, c).state.buckets, b), k, id);
      && now.err == was.err
      && (was.err == NoError ==>
            && now.version.(attrs := was.version.attrs) == was.version
            && now.version.attrs == if Addresses(Spec.BucketOf(s.buckets, c.bucket), c, b, k, id)
                                    then Mutated(was.version.attrs, c.mutation) else was.version.attrs)
  {
    hide Mutated, Spec.Lookup, Addresses, Spec.MutateSpec;
    if b == c.bucket { MutateLook(Spec.BucketOf(s.buckets, b), c, k, id); }
    assert Addresses(Spec.BucketOf(s.buckets, c.bucket), c, b, k, id) ==> b == c.bucket by { Elsewhere(s, c, b, k, id); }
  }

  lemma Elsewhere(s: Spec.State, c: Command, b: string, k: string, id: string)
    requires c.MutateMeta?
    ensures Addresses(Spec.BucketOf(s.buckets, c.bucket), c, b, k, id) ==> b == c.bucket
  {}

  lemma MutateLook(a: Spec.Bucket, c: Command, k: string, id: string)
    requires c.MutateMeta? && Spec.MutateSpec(a, c.key, c.versionID, c.mutation).1 == NoError
    ensures var was, now := Spec.Lookup(a, k, id), Spec.Lookup(Spec.MutateSpec(a, c.key, c.versionID, c.mutation).0, k, id);
      && now.err == was.err
      && (was.err == NoError ==>
            && now.version.(attrs := was.version.attrs) == was.version
            && now.version.attrs == if Addresses(a, c, c.bucket, k, id)
                                    then Mutated(was.version.attrs, c.mutation) else was.version.attrs)
  {
    hide Mutated;
    MutateIs(a, c.key, c.versionID, c.mutation);
    var h := Spec.History(a, c.key);
    var i := Addressed(h, c.versionID);
    FindStays(h, i, Change(h, i, c.mutation)[i], id);
    hide Spec.MutateSpec;
  }

  /** Two finds of one version, its attributes aside. */
  predicate SameButAttrs(m: ObjectMeta, n: ObjectMeta) {
    m.versionID == n.versionID && m.deleteMarker == n.deleteMarker && m.size == n.size && m.lastModified == n.lastModified
  }

  lemma ResolvedIs(v: Volume, k: string, id: string)
    requires Valid(v) && Resolve(v, k, id).err == NoError
    ensures var m, e := Resolve(v, k, id).meta, Spec.Lookup(AbsVol(v), k, id).version;
      && Spec.Lookup(AbsVol(v), k, id).err == NoError && m.versionID == e.id && m.deleteMarker == e.marker
      && m.size == e.size && m.lastModified == e.mtime && m.attrs == e.attrs
  {
    ResolveAgrees(v, k, id);
    hide Valid, Resolve, Spec.Lookup, Versions;
  }

  /** MUTATE THEN READ: after a settled mutation that is not refused, the addressed version has exactly the
      tags, ACL, retention or legal hold that was asked for and every other attribute as before; every other
      version of every key is as before; and every read returns the bytes it returned. */
  lemma MutateThenRead(d: Disk, c: Command, b: string, k: string, id: string)
    requires ValidDisk(d) && c.MutateMeta? && Settled.StepSettled(AbsDisk(d), c) && Apply(d, c).err == NoError
    ensures var v, w := Vol(d.vols, b), Vol(Apply(d, c).disk.vols, b);
      var was, now := Resolve(v, k, id), Resolve(w, k, id);
      && now.err == was.err && Get(w, k, id).err == Get(v, k, id).err && Get(w, k, id).bytes == Get(v, k, id).bytes
      && (was.err == NoError ==>
            && SameButAttrs(now.meta, was.meta)
            && if Addresses(AbsVol(Vol(d.vols, c.bucket)), c, b, k, id) then AsAsked(c.mutation, was.meta.attrs, now.meta.attrs)
               else now.meta.attrs == was.meta.attrs)
  {
    hide Valid, ValidDisk, AbsVol, AbsDisk, Get, Resolve, Apply, Spec.ApplySpec, Spec.Lookup, Settled.StepSettled, Mutated, AsAsked,
      Addresses;
    StepExact(d, c);
    var e := Apply(d, c).disk;
    VolumeOf(d, b);
    VolumeOf(d, c.bucket);
    VolumeOf(e, b);
    var v, w := Vol(d.vols, b), Vol(e.vols, b);
    MutateLooks(AbsDisk(d), c, b, k, id);
    ResolveAgrees(v, k, id);
    ResolveAgrees(w, k, id);
    if Resolve(v, k, id).err == NoError {
      ResolvedIs(v, k, id);
      ResolvedIs(w, k, id);
      MutatedAsAsked(Resolve(v, k, id).meta.attrs, c.mutation);
    }
    SameReads(v, w, k, id);
  }

  /** The bytes read follow from the versions looked up. */
  lemma SameReads(v: Volume, w: Volume, k: string, id: string)
    requires Valid(v) && Valid(w)
    requires var was, now := Spec.Lookup(AbsVol(v), k, id), Spec.Lookup(AbsVol(w), k, id);
      now.err == was.err && (was.err == NoError ==> now.version.marker == was.version.marker && now.version.bytes == was.version.bytes)
    ensures Get(w, k, id).err == Get(v, k, id).err && Get(w, k, id).bytes == Get(v, k, id).bytes
  {
    GetAgrees(v, k, id);
    GetAgrees(w, k, id);
    hide Valid, AbsVol, Spec.Lookup, Head, Payload;
  }

  // ---- multipart uploads ----

  /** The event leaves this upload open. */
  predicate LeavesOpen(e: Event, b: string, u: string) {
    e.Commit? && e.command.bucket == b ==>
      match e.command
      case DeleteBucket(_) => false
      case CreateMultipart(_, _, x, _, _) => x != u
      case AbortMultipart(_, x) => x != u
      case CompleteMultipart(_, _, _, _, x, _, _) => x != u
      case _ => true
  }

  lemma OpenStep(d: Disk, c: Command, b: string, u: string)
    requires u in Vol(d.vols, b).uploads && LeavesOpen(Commit(c), b, u)
    ensures var was, now := Vol(d.vols, b).uploads, Vol(Apply(d, c).disk.vols, b).uploads;
      u in now && now[u].attrs == was[u].attrs && now[u].key == was[u].key && now[u].initiated == was[u].initiated
  {
    hide Apply;
    if c.bucket != b {
      Frame(d, c);
    } else if c.CompleteMultipart? {
      CompleteUploads(d, c);
    } else if c.CreateMultipart? || c.AbortMultipart? || c.UploadPart? {
      UploadStep(d, c, u);
    } else {
      OnlyUploadCommands(d, c);
    }
  }

  lemma UploadStep(d: Disk, c: Command, u: string)
    requires u in Vol(d.vols, c.bucket).uploads && LeavesOpen(Commit(c), c.bucket, u)
    requires c.CreateMultipart? || c.AbortMultipart? || c.UploadPart?
    ensures var was, now := Vol(d.vols, c.bucket).uploads, Vol(Apply(d, c).disk.vols, c.bucket).uploads;
      u in now && now[u].attrs == was[u].attrs && now[u].key == was[u].key && now[u].initiated == was[u].initiated
  {
    hide Record;
  }

  /** An open upload keeps what it was created with over every run that leaves it open. */
  lemma {:induction false} StaysOpen(d: Disk, es: seq<Event>, b: string, u: string)
    requires u in Vol(d.vols, b).uploads && forall i | 0 <= i < |es| :: LeavesOpen(es[i], b, u)
    ensures var was, now := Vol(d.vols, b).uploads, Vol(Run(d, es).vols, b).uploads;
      u in now && now[u].attrs == was[u].attrs && now[u].key == was[u].key && now[u].initiated == was[u].initiated
  {
    hide Apply;
    if es != [] {
      var init, e := es[..|es| - 1], es[|es| - 1];
      assert forall i | 0 <= i < |init| :: init[i] == es[i];
      StaysOpen(d, init, b, u);
      if e.Commit? { OpenStep(Run(d, init), e.command, b, u); }
    }
  }

  /** What an upload keeps of the request that created it: the content type, the user metadata, the storage class
      and the ACL, and nothing else. */
  predicate FromCreation(given: Attrs, found: Attrs) {
    && found.contentType == given.contentType && found.userMeta == given.userMeta
    && found.storageClass == given.storageClass && found.acl == given.acl
    && found.contentEncoding == "" && found.contentLanguage == "" && found.contentDisposition == ""
    && found.cacheControl == "" && found.expires == "" && found.tags == map[] && found.legalHold == None
  }

  /** CREATE, UPLOAD, COMPLETE, READ: whatever happens between the creation of an upload and its completion, as
      long as the upload stays open, a settled completion leaves an object with the creation's content type, user
      metadata, storage class and ACL, the parts' bytes and the ETag of the request. */
  lemma CreatedThenCompleted(d: Disk, made: Command, es: seq<Event>, c: Command)
    requires made.CreateMultipart? && c.CompleteMultipart? && c.bucket == made.bucket && c.uploadID == made.uploadID
    requires forall i | 0 <= i < |es| :: LeavesOpen(es[i], made.bucket, made.uploadID)
    requires var e := Run(Apply(d, made).disk, es);
      ValidDisk(e) && Settled.CompleteSettled(AbsDisk(e), c) && Apply(e, c).err == NoError
    ensures var e := Run(Apply(d, made).disk, es);
      var g, bm := Get(Vol(Apply(e, c).disk.vols, c.bucket), c.key, ""), ConfigForWrite(Vol(e.vols, c.bucket));
      && g.err == NoError && FromCreation(made.attrs, g.meta.attrs) && g.meta.lastModified == c.mtime
      && g.meta.attrs.etag == MultipartETag(WantedEtags(c.wanted))
      && (if Locks(bm) then g.meta.attrs.retention.Some? && Ends(bm.lock.value, c.mtime, g.meta.attrs.retention.value.until)
          else g.meta.attrs.retention == None)
  {
    hide Run, ValidDisk, AbsDisk, Get, Settled.CompleteSettled, MultipartETag, LeavesOpen, Apply, Chosen;
    Created(d, made);
    var d1 := Apply(d, made).disk;
    var up := Vol(d1.vols, made.bucket).uploads[made.uploadID];
    StaysOpen(d1, es, made.bucket, made.uploadID);
    var e := Run(d1, es);
    AcceptedCompletion(e, c);
    CompleteThenGet(e, c);
    var bm := ConfigForWrite(Vol(e.vols, c.bucket));
    DefaultsKept(bm, up.attrs.(etag := MultipartETag(WantedEtags(c.wanted))), c.mtime);
    hide LockDefaults, Ends;
  }

  lemma Created(d: Disk, made: Command)
    requires made.CreateMultipart?
    ensures var now := Vol(Apply(d, made).disk.vols, made.bucket).uploads;
      && made.uploadID in now && now[made.uploadID].key == made.key && now[made.uploadID].initiated == made.mtime
      && FromCreation(made.attrs, now[made.uploadID].attrs) && now[made.uploadID].attrs.retention == None
      && now[made.uploadID].parts == []
  {}

  lemma AcceptedCompletion(d: Disk, c: Command)
    requires c.CompleteMultipart? && Apply(d, c).err == NoError
    ensures var v := Vol(d.vols, c.bucket);
      c.uploadID in v.uploads && Chosen(v.uploads[c.uploadID], c.wanted, d.parts, c.uploadID).err == NoError
  {
    hide Install, LockDefaults, Chosen, MultipartETag;
  }
}
