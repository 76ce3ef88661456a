/** Taking a snapshot: the walks over the object tree and the state that fill the archive. */
module SnapshotRun {
  import opened Types
  import opened Snapshot
  import Backend

  /** The object tree's entries, with their attributes. */
  method ArchiveTree(b: string, v: Volume) returns (tar: seq<Entry>)
    ensures forall e: Entry :: e in tar <==> e.DataFile? && e.bucket == b && Describes(e, v)
  {
    tar := [];
    var todo := v.tree.Keys;
    while todo != {}
      invariant todo <= v.tree.Keys
      invariant forall e: Entry :: e in tar <==> e.DataFile? && e.bucket == b && Describes(e, v) && e.key !in todo
      decreases |todo|
    {
      var k :| k in todo;
      tar := tar + [DataFile(b, k, v.tree[k].bytes, v.tree[k].xattrs)];
      todo := todo - {k};
    }
  }

  method ArchiveBlobs(b: string, v: Volume) returns (tar: seq<Entry>)
    ensures forall e: Entry :: e in tar <==> e.BlobFile? && e.bucket == b && Describes(e, v)
  {
    tar := [];
    var todo := v.blobs.Keys;
    while todo != {}
      invariant todo <= v.blobs.Keys
      invariant forall e: Entry :: e in tar <==> e.BlobFile? && e.bucket == b && Describes(e, v) && e.id !in todo
      decreases |todo|
    {
      var id :| id in todo;
      tar := tar + [BlobFile(b, id, v.blobs[id].bytes)];
      todo := todo - {id};
    }
  }

  method ArchiveHistories(b: string, v: Volume) returns (tar: seq<Entry>)
    ensures forall e: Entry :: e in tar <==> e.HistoryFile? && e.bucket == b && Describes(e, v)
  {
    tar := [];
    var todo := v.history.Keys;
    while todo != {}
      invariant todo <= v.history.Keys
      invariant forall e: Entry :: e in tar <==> e.HistoryFile? && e.bucket == b && Describes(e, v) && e.key !in todo
      decreases |todo|
    {
      var k :| k in todo;
      tar := tar + [HistoryFile(b, k, v.history[k])];
      todo := todo - {k};
    }
  }

  method ArchiveUploads(b: string, v: Volume) returns (tar: seq<Entry>)
    ensures forall e: Entry :: e in tar <==> e.UploadFile? && e.bucket == b && Describes(e, v)
  {
    tar := [];
    var todo := v.uploads.Keys;
    while todo != {}
      invariant todo <= v.uploads.Keys
      invariant forall e: Entry :: e in tar <==> e.UploadFile? && e.bucket == b && Describes(e, v) && e.id !in todo
      decreases |todo|
    {
      var id :| id in todo;
      tar := tar + [UploadFile(b, id, v.uploads[id])];
      todo := todo - {id};
    }
  }

  method ArchiveBucket(b: string, v: Volume) returns (tar: seq<Entry>)
    ensures forall e: Entry :: e in tar <==> e.bucket == b && Describes(e, v)
  {
    tar := ArchiveTree(b, v);
    var blobs := ArchiveBlobs(b, v);
    var histories := ArchiveHistories(b, v);
    var uploads := ArchiveUploads(b, v);
    var config := if v.config.Some? then [ConfigFile(b, v.config.value)] else [];
    assert forall e: Entry :: e in config <==> e.ConfigFile? && e.bucket == b && Describes(e, v);
    hide Describes;
    tar := tar + blobs + histories + uploads + config;
  }

  /** The archive lists exactly the files of every bucket: what an install needs of it. */
  method SnapshotTo(vols: map<string, Volume>) returns (tar: seq<Entry>)
    ensures Archives(tar, vols)
  {
    tar := [];
    var todo := vols.Keys;
    while todo != {}
      invariant todo <= vols.Keys
      invariant forall e: Entry :: e in tar <==> e.bucket in vols.Keys - todo && Describes(e, Vol(vols, e.bucket))
      decreases |todo|
    {
      var b :| b in todo;
      var more := ArchiveBucket(b, vols[b]);
      hide Describes;
      assert forall e: Entry | e in more :: e.bucket == b && Vol(vols, b) == vols[b];
      tar := tar + more;
      todo := todo - {b};
    }
    NoBucketNoFile(vols);
  }

  lemma NoBucketNoFile(vols: map<string, Volume>)
    ensures forall e: Entry | e.bucket !in vols :: !Describes(e, Vol(vols, e.bucket))
  {}

  /** A snapshot of one node installed on another: in every bucket the source's files and state over
      what the operator of the target owns, whatever the target held before. */
  method Transfer(source: Backend.PosixBackend, target: Backend.PosixBackend, now: nat)
    requires source != target
    modifies target`vols
    ensures forall b :: Installed(old(Vol(target.vols, b)), Vol(source.vols, b), Vol(target.vols, b), now)
  {
    hide Installed, Archives, Restore;
    ghost var before := target.vols;
    var tar := SnapshotTo(source.vols);
    target.RestoreFrom(tar, now);
    forall b ensures Installed(Vol(before, b), Vol(source.vols, b), Vol(target.vols, b), now) {
      InstallResult(before, source.vols, tar, b, now);
    }
  }
}
