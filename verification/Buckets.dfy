/** What creating and deleting buckets, and an operator's own files in them, come to over whole runs. */
module Buckets {
  import opened Types
  import opened XMeta
  import opened Store
  import opened Machine
  import opened Rep
  import opened Refinement
  import opened Runs
  import Spec

  /** A bucket name is refused if and only if it is empty or would leave the directory. */
  lemma NameRefused(d: Disk, c: Command)
    requires c.CreateBucket?
    ensures Apply(d, c).err == InvalidBucketName <==>
      c.bucket == "" || exists i | 0 <= i < |c.bucket| :: c.bucket[i] == '/' || c.bucket[i] == '\\'
  {}

  // ---- an operator's files ----

  /** A file that an operator put into the tree reads as an object: the null version, with its bytes, their MD5 as
      ETag, the content type its name suggests and no other attribute. */
  lemma OperatorFileReads(v: Volume, k: string)
    requires Valid(v) && k in v.tree && XManaged !in v.tree[k].xattrs && k !in v.history
    ensures var g, f := Get(v, k, ""), v.tree[k];
      && g.err == NoError && g.bytes == f.bytes && g.meta.versionID == "null" && g.meta.size == |f.bytes|
      && g.meta.lastModified == f.mtime && g.meta.attrs.etag == Md5Text(f.bytes)
      && g.meta.attrs.contentType == GuessContentType(k)
      && g.meta.attrs.(etag := "", contentType := "") == NO_ATTRS
  {
    hide KeyOK, BlobsOK;
    assert DirOK(v);
  }

  // ---- when an emptied bucket can be deleted ----

  /** The key a command writes or deletes under. */
  function KeyOf(c: Command): string {
    match c
    case PutObject(_, k, _, _, _, _, _) => k
    case DeleteObject(_, k, _, _, _) => k
    case CopyObject(_, k, _, _, _, _, _, _) => k
    case MutateMeta(_, k, _, _) => k
    case CompleteMultipart(_, k, _, _, _, _, _) => k
    case _ => ""
  }

  predicate Flat(k: string) { forall i | 0 <= i < |k| :: k[i] != '/' }

  lemma SetSticks(a: Spec.Bucket, k: string, h: seq<Spec.Version>)
    ensures a.sticky ==> Spec.SetHistory(a, k, h).sticky
    ensures Flat(k) ==> Spec.SetHistory(a, k, h).sticky == a.sticky
  {}

  /** Only deleting a bucket removes its history directories, and only a key with a slash makes one. */
  lemma StickyStep(s: Spec.State, c: Command, b: string)
    ensures var was, now := Spec.BucketOf(s.buckets, b), Spec.BucketOf(Spec.ApplySpec(s, c).state.buckets, b);
      && (was.sticky && c != DeleteBucket(b) ==> now.sticky)
      && (Flat(KeyOf(c)) && now.sticky ==> was.sticky)
  {
    hide Spec.Added, Spec.Deleted, Spec.Drop, Spec.NewVersion, Spec.Lookup, Flat;
    var a := Spec.BucketOf(s.buckets, c.bucket);
    forall h ensures (a.sticky ==> Spec.SetHistory(a, KeyOf(c), h).sticky)
                     && (Flat(KeyOf(c)) ==> Spec.SetHistory(a, KeyOf(c), h).sticky == a.sticky) {
      SetSticks(a, KeyOf(c), h);
    }
    hide Spec.SetHistory;
  }

  lemma {:induction false} StickyRun(s: Spec.State, es: seq<Event>, b: string)
    ensures var was, now := Spec.BucketOf(s.buckets, b).sticky, Spec.BucketOf(RunSpec(s, es).buckets, b).sticky;
      && ((forall e | e in es && e.Commit? :: e.command != DeleteBucket(b)) ==> (was ==> now))
      && ((forall e | e in es && e.Commit? :: Flat(KeyOf(e.command))) ==> (now ==> was))
  {
    hide Spec.ApplySpec, Flat, KeyOf;
    if es != [] {
      var init, e := es[..|es| - 1], es[|es| - 1];
      assert e in es && forall x | x in init :: x in es;
      StickyRun(s, init, b);
      if e.Commit? { StickyStep(RunSpec(s, init), e.command, b); }
    }
  }

  lemma DeleteAnswers(d: Disk, b: string)
    ensures var v := Vol(d.vols, b);
      && (v.tree == map[] && v.history == map[] && !v.histDirs ==>
            Apply(d, DeleteBucket(b)).err == NoError && Vol(Apply(d, DeleteBucket(b)).disk.vols, b) == EMPTY_VOLUME)
      && (v.histDirs ==> Apply(d, DeleteBucket(b)) == Step(d.(vols := d.vols[b := v]), BucketNotEmpty))
  {}

  lemma NoObjects(v: Volume)
    requires Valid(v) && AbsVol(v).objects == map[]
    ensures v.tree == map[] && v.history == map[]
  {
    assert AbsVol(v).objects.Keys == Keys(v);
    assert v.tree.Keys <= Keys(v) && v.history.Keys <= Keys(v);
  }

  /** EMPTIED, DELETED: after every settled run without slashes in its keys, in a bucket that never had any, once no
      version is left the bucket can be deleted, and nothing of it stays. */
  lemma EmptiedDeletes(d: Disk, es: seq<Event>, b: string)
    requires ValidDisk(d) && SettledRun(AbsDisk(d), es) && !Vol(d.vols, b).histDirs
    requires forall e | e in es && e.Commit? :: Flat(KeyOf(e.command))
    requires Spec.BucketOf(RunSpec(AbsDisk(d), es).buckets, b).objects == map[]
    ensures var st := Apply(Run(d, es), DeleteBucket(b)); st.err == NoError && Vol(st.disk.vols, b) == EMPTY_VOLUME
  {
    hide ValidDisk, AbsDisk, Valid, SettledRun, Flat, KeyOf, Apply, RunSpec, Run;
    RunExact(d, es);
    VolumeOf(d, b);
    VolumeOf(Run(d, es), b);
    StickyRun(AbsDisk(d), es, b);
    NoObjects(Vol(Run(d, es).vols, b));
    DeleteAnswers(Run(d, es), b);
  }

  /** STUCK: once a key with a slash has had two versions, the bucket cannot be deleted over any settled run, not even
      when it has been emptied. */
  lemma NestedBlocks(d: Disk, es: seq<Event>, b: string, k: string, i: nat)
    requires ValidDisk(d) && SettledRun(AbsDisk(d), es) && i < |k| && k[i] == '/' && |Versions(Vol(d.vols, b), k)| >= 2
    requires forall e | e in es && e.Commit? :: e.command != DeleteBucket(b)
    ensures Apply(Run(d, es), DeleteBucket(b)).err == BucketNotEmpty
  {
    hide ValidDisk, AbsDisk, Valid, SettledRun, Apply, RunSpec, Run;
    RunExact(d, es);
    VolumeOf(d, b);
    VolumeOf(Run(d, es), b);
    NestedSticks(Vol(d.vols, b), k, i);
    StickyRun(AbsDisk(d), es, b);
    DeleteAnswers(Run(d, es), b);
  }

  lemma NestedSticks(v: Volume, k: string, i: nat)
    requires Valid(v) && i < |k| && k[i] == '/' && |Versions(v, k)| >= 2
    ensures v.histDirs
  {
    hide ReadCurrentMeta, WellFormed, Backed, BlobsOK;
    assert KeyOK(v, k);
  }
}
