/** Snapshots: the archive of a node's files, and its installation on a node that may hold files an
    operator put there. */
module Snapshot {
  import opened Types
  import opened XMeta
  import opened Store
  import opened Rep

  /** One archived file; data entries carry their extended attributes. */
  datatype Entry =
    | DataFile(bucket: string, key: string, bytes: Bytes, xattrs: map<XName, XVal>)
    | BlobFile(bucket: string, id: string, bytes: Bytes)
    | HistoryFile(bucket: string, key: string, versions: seq<ObjectMeta>)
    | ConfigFile(bucket: string, config: BucketMeta)
    | UploadFile(bucket: string, id: string, upload: Upload)

  /** The entry describes a file of this volume. */
  predicate Describes(e: Entry, v: Volume) {
    match e
    case DataFile(_, k, bytes, xattrs) => k in v.tree && v.tree[k].bytes == bytes && v.tree[k].xattrs == xattrs
    case BlobFile(_, id, bytes) => id in v.blobs && v.blobs[id].bytes == bytes
    case HistoryFile(_, k, vs) => k in v.history && v.history[k] == vs
    case ConfigFile(_, bm) => v.config == Some(bm)
    case UploadFile(_, id, up) => id in v.uploads && v.uploads[id] == up
  }

  /** The archive lists exactly the files of the source, in whatever order the walk finds them;
      staging is not archived. */
  ghost predicate Archives(tar: seq<Entry>, src: map<string, Volume>) {
    forall e: Entry :: e in tar <==> Describes(e, Vol(src, e.bucket))
  }

  // ---- installing ----

  /** The volume once its replicated files and its replicated state are gone. */
  function Cleared(v: Volume): Volume {
    Volume(v.dir, false, None, map k | k in v.tree && !Managed(v.tree[k]) :: v.tree[k], map[], map[], map[])
  }

  /** Creating a file over an existing one keeps that one's attributes; the archived ones are then set. */
  function Restored(v: Volume, k: string, bytes: Bytes, xattrs: map<XName, XVal>, now: nat): File {
    File(bytes, now, (if k in v.tree then v.tree[k].xattrs else map[]) + xattrs)
  }

  function Unpack(v: Volume, e: Entry, now: nat): Volume {
    match e
    case DataFile(_, k, bytes, xattrs) => v.(dir := true, tree := v.tree[k := Restored(v, k, bytes, xattrs, now)])
    case BlobFile(_, id, bytes) => v.(blobs := v.blobs[id := File(bytes, now, map[])])
    case HistoryFile(_, k, vs) => v.(history := v.history[k := vs], histDirs := v.histDirs || Nested(k))
    case ConfigFile(_, bm) => v.(config := Some(bm))
    case UploadFile(_, id, up) => v.(uploads := v.uploads[id := up])
  }

  function UnpackAll(vols: map<string, Volume>, tar: seq<Entry>, now: nat): map<string, Volume> {
    if tar == [] then vols
    else
      var rest, e := UnpackAll(vols, tar[..|tar| - 1], now), tar[|tar| - 1];
      rest[e.bucket := Unpack(Vol(rest, e.bucket), e, now)]
  }

  function ClearAll(vols: map<string, Volume>): map<string, Volume> { map b | b in vols :: Cleared(vols[b]) }

  function Restore(vols: map<string, Volume>, tar: seq<Entry>, now: nat): map<string, Volume> {
    UnpackAll(ClearAll(vols), tar, now)
  }

  // ---- what installing leaves ----

  /** What the target keeps of its own at a key: a file that was not written through the store. */
  function OwnFile(t: Volume, k: string): Option<File> {
    if k in t.tree && !Managed(t.tree[k]) then Some(t.tree[k]) else None
  }

  /** The file at a key: the source's, laid over what the target owned, else what the target owned. */
  function FileAfter(t: Volume, s: Volume, k: string, now: nat): Option<File> {
    var own := OwnFile(t, k);
    if k in s.tree then
      Some(File(s.tree[k].bytes, now, (if own.Some? then own.value.xattrs else map[]) + s.tree[k].xattrs))
    else own
  }

  function FileAt(v: Volume, k: string): Option<File> { if k in v.tree then Some(v.tree[k]) else None }

  /** The installed volume `r`, from target `t` and source `s`. */
  ghost predicate Installed(t: Volume, s: Volume, r: Volume, now: nat) {
    && (forall k :: FileAt(r, k) == FileAfter(t, s, k, now))
    && r.blobs == (map id | id in s.blobs :: File(s.blobs[id].bytes, now, map[]))
    && r.history == s.history && r.config == s.config && r.uploads == s.uploads
    && (r.dir <==> t.dir || s.tree != map[])
    && (r.histDirs <==> exists k :: k in s.history && Nested(k))
  }

  predicate HasData(s: Volume, b: string, k: string, done: set<Entry>) {
    k in s.tree && DataFile(b, k, s.tree[k].bytes, s.tree[k].xattrs) in done
  }
  predicate HasBlob(s: Volume, b: string, id: string, done: set<Entry>) {
    id in s.blobs && BlobFile(b, id, s.blobs[id].bytes) in done
  }
  predicate HasHistory(s: Volume, b: string, k: string, done: set<Entry>) {
    k in s.history && HistoryFile(b, k, s.history[k]) in done
  }
  predicate HasUpload(s: Volume, b: string, id: string, done: set<Entry>) {
    id in s.uploads && UploadFile(b, id, s.uploads[id]) in done
  }

  /** After the entries in `done`, each part of the volume is as the source's where its entry is among
      them, and as the cleared target's elsewhere. */
  ghost predicate TreeDone(t: Volume, s: Volume, b: string, done: set<Entry>, r: Volume, now: nat) {
    && (forall k :: FileAt(r, k) == if HasData(s, b, k, done) then FileAfter(t, s, k, now) else OwnFile(t, k))
    && (r.dir <==> t.dir || exists k :: HasData(s, b, k, done))
  }

  ghost predicate BlobsDone(s: Volume, b: string, done: set<Entry>, r: Volume, now: nat) {
    && (forall id :: id in r.blobs <==> HasBlob(s, b, id, done))
    && (forall id | id in r.blobs :: r.blobs[id] == File(s.blobs[id].bytes, now, map[]))
  }

  ghost predicate HistoryDone(s: Volume, b: string, done: set<Entry>, r: Volume) {
    && (forall k :: k in r.history <==> HasHistory(s, b, k, done))
    && (forall k | k in r.history :: r.history[k] == s.history[k])
    && (r.histDirs <==> exists k :: Nested(k) && HasHistory(s, b, k, done))
  }

  ghost predicate UploadsDone(s: Volume, b: string, done: set<Entry>, r: Volume) {
    && (forall id :: id in r.uploads <==> HasUpload(s, b, id, done))
    && (forall id | id in r.uploads :: r.uploads[id] == s.uploads[id])
  }

  ghost predicate ConfigDone(s: Volume, b: string, done: set<Entry>, r: Volume) {
    r.config == if s.config.Some? && ConfigFile(b, s.config.value) in done then s.config else None
  }

  ghost predicate Progress(t: Volume, s: Volume, b: string, done: set<Entry>, r: Volume, now: nat) {
    TreeDone(t, s, b, done, r, now) && BlobsDone(s, b, done, r, now) && HistoryDone(s, b, done, r)
    && UploadsDone(s, b, done, r) && ConfigDone(s, b, done, r)
  }

  lemma Start(t: Volume, s: Volume, b: string, now: nat)
    ensures Progress(t, s, b, {}, Cleared(t), now)
  {
  }

  lemma DataUnpacked(t: Volume, s: Volume, b: string, done: set<Entry>, r: Volume, e: Entry, now: nat)
    requires TreeDone(t, s, b, done, r, now) && Describes(e, s) && e.DataFile? && e.bucket == b
    ensures TreeDone(t, s, b, done + {e}, Unpack(r, e, now), now)
  {
    var r', k := Unpack(r, e, now), e.key;
    assert HasData(s, b, k, done + {e});
    assert FileAt(r, k) == if HasData(s, b, k, done) then FileAfter(t, s, k, now) else OwnFile(t, k);
    OverlayTwice(if OwnFile(t, k).Some? then OwnFile(t, k).value.xattrs else map[], e.xattrs);
    forall x ensures FileAt(r', x) == if HasData(s, b, x, done + {e}) then FileAfter(t, s, x, now) else OwnFile(t, x) {
      if x != k {
        assert FileAt(r', x) == FileAt(r, x) && (HasData(s, b, x, done + {e}) <==> HasData(s, b, x, done));
      }
    }
  }

  /** An entry of another kind leaves a part alone. */
  lemma OthersUnpacked(t: Volume, s: Volume, b: string, done: set<Entry>, r: Volume, e: Entry, now: nat)
    requires Progress(t, s, b, done, r, now)
    ensures var r', more := Unpack(r, e, now), done + {e};
      && (!e.DataFile? ==> TreeDone(t, s, b, more, r', now))
      && (!e.BlobFile? ==> BlobsDone(s, b, more, r', now))
      && (!e.HistoryFile? ==> HistoryDone(s, b, more, r'))
      && (!e.UploadFile? ==> UploadsDone(s, b, more, r'))
      && (!e.ConfigFile? ==> ConfigDone(s, b, more, r'))
  {
    OtherPayloads(t, s, b, done, r, e, now);
    OtherState(s, b, done, r, e, now);
    hide TreeDone, BlobsDone, HistoryDone, UploadsDone, ConfigDone, Unpack;
  }

  lemma OtherPayloads(t: Volume, s: Volume, b: string, done: set<Entry>, r: Volume, e: Entry, now: nat)
    requires TreeDone(t, s, b, done, r, now) && BlobsDone(s, b, done, r, now)
    ensures var r', more := Unpack(r, e, now), done + {e};
      && (!e.DataFile? ==> TreeDone(t, s, b, more, r', now))
      && (!e.BlobFile? ==> BlobsDone(s, b, more, r', now))
  {
    hide FileAfter, OwnFile;
    var r', more := Unpack(r, e, now), done + {e};
    if !e.DataFile? {
      forall k ensures HasData(s, b, k, more) == HasData(s, b, k, done) && FileAt(r', k) == FileAt(r, k) {}
    }
    if !e.BlobFile? { forall id ensures HasBlob(s, b, id, more) == HasBlob(s, b, id, done) {} }
  }

  lemma OtherState(s: Volume, b: string, done: set<Entry>, r: Volume, e: Entry, now: nat)
    requires HistoryDone(s, b, done, r) && UploadsDone(s, b, done, r) && ConfigDone(s, b, done, r)
    ensures var r', more := Unpack(r, e, now), done + {e};
      && (!e.HistoryFile? ==> HistoryDone(s, b, more, r'))
      && (!e.UploadFile? ==> UploadsDone(s, b, more, r'))
      && (!e.ConfigFile? ==> ConfigDone(s, b, more, r'))
  {
    hide FileAfter, OwnFile;
    var r', more := Unpack(r, e, now), done + {e};
    if !e.HistoryFile? { forall k ensures HasHistory(s, b, k, more) == HasHistory(s, b, k, done) {} }
    if !e.UploadFile? { forall id ensures HasUpload(s, b, id, more) == HasUpload(s, b, id, done) {} }
  }

  lemma StateUnpacked(s: Volume, b: string, done: set<Entry>, r: Volume, e: Entry, now: nat)
    requires Describes(e, s) && e.bucket == b
    ensures var r', more := Unpack(r, e, now), done + {e};
      && (e.BlobFile? && BlobsDone(s, b, done, r, now) ==> BlobsDone(s, b, more, r', now))
      && (e.UploadFile? && UploadsDone(s, b, done, r) ==> UploadsDone(s, b, more, r'))
      && (e.ConfigFile? && ConfigDone(s, b, done, r) ==> ConfigDone(s, b, more, r'))
  {
    hide Restored;
  }

  lemma HistoryUnpacked(s: Volume, b: string, done: set<Entry>, r: Volume, e: Entry, now: nat)
    requires HistoryDone(s, b, done, r) && Describes(e, s) && e.HistoryFile? && e.bucket == b
    ensures HistoryDone(s, b, done + {e}, Unpack(r, e, now))
  {
    var more := done + {e};
    assert HasHistory(s, b, e.key, more);
    forall k ensures HasHistory(s, b, k, more) <==> HasHistory(s, b, k, done) || k == e.key {}
  }

  /** Unpacking one more entry of this bucket. */
  lemma UnpackProgress(t: Volume, s: Volume, b: string, done: set<Entry>, r: Volume, e: Entry, now: nat)
    requires Progress(t, s, b, done, r, now) && Describes(e, s) && e.bucket == b
    ensures Progress(t, s, b, done + {e}, Unpack(r, e, now), now)
  {
    hide TreeDone, BlobsDone, HistoryDone, UploadsDone, ConfigDone, Unpack, Describes;
    OthersUnpacked(t, s, b, done, r, e, now);
    if e.DataFile? { DataUnpacked(t, s, b, done, r, e, now); }
    else if e.HistoryFile? { HistoryUnpacked(s, b, done, r, e, now); }
    else { StateUnpacked(s, b, done, r, e, now); }
  }

  /** An entry of another bucket changes nothing here. */
  lemma ElsewhereProgress(t: Volume, s: Volume, b: string, done: set<Entry>, r: Volume, e: Entry, now: nat)
    requires Progress(t, s, b, done, r, now) && e.bucket != b
    ensures Progress(t, s, b, done + {e}, r, now)
  {
    hide FileAfter, OwnFile, FileAt;
    var more := done + {e};
    forall k ensures HasData(s, b, k, more) == HasData(s, b, k, done) && HasHistory(s, b, k, more) == HasHistory(s, b, k, done)
                  && HasBlob(s, b, k, more) == HasBlob(s, b, k, done) && HasUpload(s, b, k, more) == HasUpload(s, b, k, done) {}
  }

  function EntrySet(tar: seq<Entry>): set<Entry> { set e | e in tar }

  lemma {:induction false} UnpackAllProgress(vols: map<string, Volume>, src: map<string, Volume>, tar: seq<Entry>, b: string, now: nat)
    requires forall e | e in tar :: Describes(e, Vol(src, e.bucket))
    ensures Progress(Vol(vols, b), Vol(src, b), b, EntrySet(tar), Vol(Restore(vols, tar, now), b), now)
  {
    hide Progress, Unpack, Describes, Cleared;
    if tar == [] {
      assert EntrySet(tar) == {};
      assert Cleared(EMPTY_VOLUME) == EMPTY_VOLUME by { ClearedEmpty(); }
      Start(Vol(vols, b), Vol(src, b), b, now);
    } else {
      var init, e := tar[..|tar| - 1], tar[|tar| - 1];
      assert forall x | x in init :: x in tar;
      assert e in tar;
      UnpackAllProgress(vols, src, init, b, now);
      assert EntrySet(tar) == EntrySet(init) + {e} by { assert tar == init + [e]; }
      var r := Vol(Restore(vols, init, now), b);
      if e.bucket == b {
        UnpackProgress(Vol(vols, b), Vol(src, b), b, EntrySet(init), r, e, now);
      } else {
        ElsewhereProgress(Vol(vols, b), Vol(src, b), b, EntrySet(init), r, e, now);
      }
    }
  }

  lemma ClearedEmpty()
    ensures Cleared(EMPTY_VOLUME) == EMPTY_VOLUME
  {
  }

  /** Every file of the source has its entry among those done. */
  ghost predicate Complete(s: Volume, b: string, done: set<Entry>) {
    && (forall k :: HasData(s, b, k, done) <==> k in s.tree)
    && (forall id :: HasBlob(s, b, id, done) <==> id in s.blobs)
    && (forall k :: HasHistory(s, b, k, done) <==> k in s.history)
    && (forall id :: HasUpload(s, b, id, done) <==> id in s.uploads)
    && (s.config.Some? ==> ConfigFile(b, s.config.value) in done)
  }

  lemma AllListed(s: Volume, b: string, done: set<Entry>)
    requires forall e: Entry | e.bucket == b :: e in done <==> Describes(e, s)
    ensures Complete(s, b, done)
  {
    forall k ensures HasData(s, b, k, done) <==> k in s.tree {
      if k in s.tree { assert DataFile(b, k, s.tree[k].bytes, s.tree[k].xattrs) in done; }
    }
    forall k ensures HasHistory(s, b, k, done) <==> k in s.history {
      if k in s.history { assert HistoryFile(b, k, s.history[k]) in done; }
    }
    forall id ensures HasBlob(s, b, id, done) <==> id in s.blobs {
      if id in s.blobs { assert BlobFile(b, id, s.blobs[id].bytes) in done; }
    }
    forall id ensures HasUpload(s, b, id, done) <==> id in s.uploads {
      if id in s.uploads { assert UploadFile(b, id, s.uploads[id]) in done; }
    }
    if s.config.Some? { assert ConfigFile(b, s.config.value) in done; }
  }

  lemma AllDone(t: Volume, s: Volume, b: string, done: set<Entry>, r: Volume, now: nat)
    requires Progress(t, s, b, done, r, now) && Complete(s, b, done)
    ensures Installed(t, s, r, now)
  {
    hide FileAt, HasData, HasBlob, HasHistory, HasUpload;
    forall k ensures FileAt(r, k) == FileAfter(t, s, k, now) {
      assert HasData(s, b, k, done) <==> k in s.tree;
      assert FileAt(r, k) == if HasData(s, b, k, done) then FileAfter(t, s, k, now) else OwnFile(t, k);
    }
    hide FileAfter;
    assert r.history == s.history && r.uploads == s.uploads;
  }

  /** MAIN THEOREM: installing an archive leaves, in every bucket, the source's file and attributes at
      each key the source has, the operator's own file elsewhere, nothing else in the tree, and the
      source's payloads, histories, configuration and uploads. */
  lemma InstallResult(vols: map<string, Volume>, src: map<string, Volume>, tar: seq<Entry>, b: string, now: nat)
    requires Archives(tar, src)
    ensures Installed(Vol(vols, b), Vol(src, b), Vol(Restore(vols, tar, now), b), now)
  {
    hide Progress, Restore, Describes, Installed;
    UnpackAllProgress(vols, src, tar, b, now);
    forall e: Entry | e.bucket == b ensures e in EntrySet(tar) <==> Describes(e, Vol(src, b)) {}
    AllListed(Vol(src, b), b, EntrySet(tar));
    hide Complete;
    AllDone(Vol(vols, b), Vol(src, b), b, EntrySet(tar), Vol(Restore(vols, tar, now), b), now);
  }

  /** The installed volume is determined by target and source. */
  lemma InstalledUnique(t: Volume, s: Volume, r: Volume, r': Volume, now: nat)
    requires Installed(t, s, r, now) && Installed(t, s, r', now)
    ensures r == r'
  {
    forall k ensures (k in r.tree <==> k in r'.tree) && (k in r.tree ==> r.tree[k] == r'.tree[k]) {
      assert FileAt(r, k) == FileAt(r', k);
    }
    assert r.tree == r'.tree;
  }

  /** No operator's file lies under a replicated one with attributes of the store's that the
      replicated file lacks. */
  ghost predicate NoStrays(t: Volume, s: Volume) {
    forall k | k in s.tree && Managed(s.tree[k]) && OwnFile(t, k).Some? :: !Stray(t, s, k)
  }

  predicate Stray(t: Volume, s: Volume, k: string)
    requires k in s.tree && OwnFile(t, k).Some?
  {
    !(OwnFile(t, k).value.xattrs.Keys <= s.tree[k].xattrs.Keys)
  }

  lemma OverlayTwice(x: map<XName, XVal>, y: map<XName, XVal>)
    ensures (x + y) + y == x + y
    ensures x + y == y <==> x.Keys <= y.Keys
    ensures map[] + y == y
  {
    if x + y == y {
      assert (x + y).Keys == x.Keys + y.Keys;
    }
  }

  /** The installed file carries exactly the source's attributes, unless a stray lies under it. */
  lemma InstalledAttributes(t: Volume, s: Volume, r: Volume, k: string, now: nat)
    requires Installed(t, s, r, now) && k in s.tree
    ensures k in r.tree && r.tree[k].bytes == s.tree[k].bytes
    ensures r.tree[k].xattrs == s.tree[k].xattrs <==> (OwnFile(t, k).Some? ==> !Stray(t, s, k))
  {
    assert FileAt(r, k) == FileAfter(t, s, k, now);
    OverlayTwice(if OwnFile(t, k).Some? then OwnFile(t, k).value.xattrs else map[], s.tree[k].xattrs);
  }

  lemma SecondFile(t: Volume, s: Volume, r: Volume, k: string, now: nat)
    requires Installed(t, s, r, now)
    ensures FileAt(r, k) == FileAfter(r, s, k, now)
       <==> (k in s.tree && Managed(s.tree[k]) && OwnFile(t, k).Some? ==> !Stray(t, s, k))
  {
    assert FileAt(r, k) == FileAfter(t, s, k, now);
    if k in s.tree {
      OverlayTwice(if OwnFile(t, k).Some? then OwnFile(t, k).value.xattrs else map[], s.tree[k].xattrs);
    }
  }

  /** Installing on the installed volume gives it again exactly when there were no strays. */
  lemma InstalledAgain(t: Volume, s: Volume, r: Volume, now: nat)
    requires Installed(t, s, r, now)
    ensures Installed(r, s, r, now) <==> NoStrays(t, s)
  {
    hide FileAfter, FileAt, Stray, OwnFile;
    forall k ensures FileAt(r, k) == FileAfter(r, s, k, now)
                <==> (k in s.tree && Managed(s.tree[k]) && OwnFile(t, k).Some? ==> !Stray(t, s, k)) {
      SecondFile(t, s, r, k, now);
    }
    if Installed(r, s, r, now) {
      forall k | k in s.tree && Managed(s.tree[k]) && OwnFile(t, k).Some? ensures !Stray(t, s, k) {
        assert FileAt(r, k) == FileAfter(r, s, k, now);
      }
    }
  }

  /** IDEMPOTENCE: installing the same archive twice gives, in every bucket, what installing it once
      gives, exactly when the target held no strays there. */
  lemma InstallTwice(vols: map<string, Volume>, src: map<string, Volume>, tar: seq<Entry>, b: string, now: nat)
    requires Archives(tar, src)
    ensures var once := Restore(vols, tar, now);
      Vol(Restore(once, tar, now), b) == Vol(once, b) <==> NoStrays(Vol(vols, b), Vol(src, b))
  {
    hide Restore, Installed, Archives, NoStrays;
    var once := Restore(vols, tar, now);
    var twice := Restore(once, tar, now);
    var t, s := Vol(vols, b), Vol(src, b);
    InstallResult(vols, src, tar, b, now);
    InstallResult(once, src, tar, b, now);
    InstalledAgain(t, s, Vol(once, b), now);
    if NoStrays(t, s) {
      InstalledUnique(Vol(once, b), s, Vol(twice, b), Vol(once, b), now);
    }
  }

  // ---- what reads see afterwards ----

  /** A key the operator does not own reads, after an install, as it does at the source: the same
      list, but for the modification time of a version kept in attributes alone. */
  lemma InstalledVersions(t: Volume, s: Volume, r: Volume, k: string, now: nat)
    requires Installed(t, s, r, now) && OwnFile(t, k).None?
    ensures Versions(r, k) == if k in s.history || k !in s.tree then Versions(s, k)
                              else [Versions(s, k)[0].(lastModified := now)]
  {
    hide Encode;
    assert FileAt(r, k) == FileAfter(t, s, k, now);
    if k in s.tree { OverlayTwice(map[], s.tree[k].xattrs); }
  }

  /** So an installed snapshot reports the source's metadata exactly when the lone version was last
      modified at the moment of the install. */
  lemma InstalledTime(t: Volume, s: Volume, r: Volume, k: string, now: nat)
    requires Installed(t, s, r, now) && OwnFile(t, k).None?
    ensures Versions(r, k) == Versions(s, k) <==> (k in s.tree && k !in s.history ==> s.tree[k].mtime == now)
  {
    hide Installed, TextOf, PairsOf;
    InstalledVersions(t, s, r, k, now);
    if k in s.tree && k !in s.history {
      assert Versions(s, k)[0].lastModified == s.tree[k].mtime;
    }
  }

  // ---- when the installed volume is valid ----

  /** The installed file takes its version id from an attribute of the operator's file, and that is empty. */
  predicate BlankID(t: Volume, s: Volume, k: string)
    requires k in s.tree
  {
    && Managed(s.tree[k]) && XVersionID !in s.tree[k].xattrs
    && OwnFile(t, k).Some? && XVersionID in OwnFile(t, k).value.xattrs && OwnFile(t, k).value.xattrs[XVersionID] == Text("")
  }

  /** A key that installs well: the source's list is in a history file over a source file, or the source's
      file says it all and is stamped with a time; an operator's file is kept only where the source knows
      nothing of the key. */
  predicate Installable(t: Volume, s: Volume, k: string, now: nat) {
    if k in s.tree then k in s.history || (now != 0 && !BlankID(t, s, k))
    else OwnFile(t, k).Some? ==> k !in s.history && OwnFile(t, k).value.mtime != 0 && (t.dir || s.tree != map[])
  }

  lemma InstalledFile(t: Volume, s: Volume, r: Volume, k: string, now: nat)
    requires Installed(t, s, r, now)
    ensures k in r.tree <==> k in s.tree || OwnFile(t, k).Some?
    ensures k in s.tree ==> r.tree[k].bytes == s.tree[k].bytes
    ensures k in r.history <==> k in s.history
    ensures k in s.history ==> Versions(r, k) == Versions(s, k)
  {
    assert FileAt(r, k) == FileAfter(t, s, k, now);
    hide ReadCurrentMeta;
  }

  lemma InstalledPayload(t: Volume, s: Volume, r: Volume, k: string, m: ObjectMeta, now: nat)
    requires Installed(t, s, r, now) && Backed(s, k, m)
    ensures Backed(r, k, m)
  {
    InstalledFile(t, s, r, k, now);
  }

  /** A key with a history file at the source. */
  lemma HistoryInstalled(t: Volume, s: Volume, r: Volume, k: string, now: nat)
    requires Installed(t, s, r, now) && KeyOK(s, k) && k in s.history
    ensures KeyOK(r, k) <==> (k !in s.tree ==> OwnFile(t, k).None?)
  {
    InstalledFile(t, s, r, k, now);
    hide ReadCurrentMeta, Versions, WellFormed;
    var vs := Versions(s, k);
    forall i | 0 <= i < |vs| && !vs[i].deleteMarker ensures Backed(r, k, vs[i]) {
      assert Backed(s, k, vs[i]);
      InstalledPayload(t, s, r, k, vs[i], now);
    }
  }

  lemma MergedID(t: Volume, s: Volume, k: string, x: map<XName, XVal>)
    requires k in s.tree && x == (if OwnFile(t, k).Some? then OwnFile(t, k).value.xattrs else map[]) + s.tree[k].xattrs
    requires ReadCurrentMeta(s.tree[k], k).versionID != ""
    ensures (XManaged in x <==> Managed(s.tree[k])) && (Managed(s.tree[k]) ==> (TextOf(x, XVersionID, "null") == "" <==> BlankID(t, s, k)))
  {
  }

  /** A key whose file at the source says it all. */
  lemma LoneInstalled(t: Volume, s: Volume, r: Volume, k: string, now: nat)
    requires Installed(t, s, r, now) && KeyOK(s, k) && k in s.tree && k !in s.history
    ensures KeyOK(r, k) <==> now != 0 && !BlankID(t, s, k)
    ensures |Versions(r, k)| == 1
  {
    InstalledFile(t, s, r, k, now);
    assert FileAt(r, k) == FileAfter(t, s, k, now);
    assert WellPlaced(Versions(s, k)[0], 0);
    MergedID(t, s, k, r.tree[k].xattrs);
    LoneOK(r, k);
    assert BlankID(t, s, k) ==> Managed(s.tree[k]);
  }

  /** A key with a file and no history file is in order exactly when the file gives it an id and a time. */
  lemma LoneOK(v: Volume, k: string)
    requires k in v.tree && k !in v.history
    ensures Versions(v, k) == [ReadCurrentMeta(v.tree[k], k)]
    ensures KeyOK(v, k) <==> v.tree[k].mtime != 0 && (Managed(v.tree[k]) ==> TextOf(v.tree[k].xattrs, XVersionID, "null") != "")
  {
    hide TextOf, PairsOf;
    var m := ReadCurrentMeta(v.tree[k], k);
    assert WellPlaced(m, 0) <==> v.tree[k].mtime != 0 && (Managed(v.tree[k]) ==> TextOf(v.tree[k].xattrs, XVersionID, "null") != "");
    assert Backed(v, k, m);
    hide ReadCurrentMeta;
    if KeyOK(v, k) { assert WellPlaced(Versions(v, k)[0], 0); }
  }

  /** A key of which the source knows nothing. */
  lemma OwnInstalled(t: Volume, s: Volume, r: Volume, k: string, now: nat)
    requires Installed(t, s, r, now) && k !in s.tree && k !in s.history && OwnFile(t, k).Some?
    ensures KeyOK(r, k) <==> OwnFile(t, k).value.mtime != 0
    ensures |Versions(r, k)| == 1
  {
    InstalledFile(t, s, r, k, now);
    assert FileAt(r, k) == FileAfter(t, s, k, now);
    LoneOK(r, k);
  }

  lemma InstalledKey(t: Volume, s: Volume, r: Volume, k: string, now: nat)
    requires Installed(t, s, r, now) && (k in Keys(s) ==> KeyOK(s, k)) && k in Keys(r) && DirOK(r)
    ensures KeyOK(r, k) <==> Installable(t, s, k, now)
  {
    InstalledFile(t, s, r, k, now);
    hide KeyOK, Installed, BlankID;
    if k in s.history {
      HistoryInstalled(t, s, r, k, now);
    } else if k in s.tree {
      LoneInstalled(t, s, r, k, now);
    } else {
      OwnInstalled(t, s, r, k, now);
      assert r.dir;
      DirInstalled(t, s, r, now);
    }
  }

  lemma DirInstalled(t: Volume, s: Volume, r: Volume, now: nat)
    requires Installed(t, s, r, now)
    ensures r.dir <==> t.dir || s.tree != map[]
  {}

  lemma ArchivedInstalled(t: Volume, s: Volume, r: Volume, k: string, now: nat)
    requires Installed(t, s, r, now)
    ensures Archived(Versions(r, k)) == Archived(Versions(s, k))
  {
    InstalledFile(t, s, r, k, now);
    hide Installed, ReadCurrentMeta;
  }

  lemma BlobsInstalled(t: Volume, s: Volume, r: Volume, now: nat)
    requires Installed(t, s, r, now) && BlobsOK(s)
    ensures BlobsOK(r)
  {
    forall k ensures Archived(Versions(r, k)) == Archived(Versions(s, k)) && (k in Keys(s) ==> k in Keys(r)) {
      ArchivedInstalled(t, s, r, k, now);
      InstalledFile(t, s, r, k, now);
    }
    NothingArchived(s);
    hide Versions, Archived;
  }

  lemma NothingArchived(s: Volume)
    ensures forall k | k !in Keys(s) :: Archived(Versions(s, k)) == {}
  {
    hide ReadCurrentMeta;
  }

  /** EXACT: on whatever target, a valid source installs as a valid volume, from which the refinement goes on,
      if and only if every key is installable; an operator's file under a key whose source list has a delete
      marker on top is what breaks it. */
  lemma InstalledValid(t: Volume, s: Volume, r: Volume, now: nat)
    requires Installed(t, s, r, now) && Valid(s)
    ensures Valid(r) <==> forall k :: Installable(t, s, k, now)
  {
    hide Versions, Archived, KeyOK, Installed, Installable, BlobsOK;
    BlobsInstalled(t, s, r, now);
    DirExact(t, s, r, now);
    if DirOK(r) {
      forall k ensures k in Keys(r) ==> (KeyOK(r, k) <==> Installable(t, s, k, now)) {
        if k in Keys(r) { InstalledKey(t, s, r, k, now); }
      }
      forall k | k !in Keys(r) ensures Installable(t, s, k, now) { AbsentInstallable(t, s, r, k, now); }
    }
  }

  lemma AbsentInstallable(t: Volume, s: Volume, r: Volume, k: string, now: nat)
    requires Installed(t, s, r, now) && k !in Keys(r)
    ensures Installable(t, s, k, now)
  {
    InstalledFile(t, s, r, k, now);
  }

  lemma DirExact(t: Volume, s: Volume, r: Volume, now: nat)
    requires Installed(t, s, r, now)
    ensures (forall k :: Installable(t, s, k, now)) ==> DirOK(r)
  {
    DirInstalled(t, s, r, now);
    if forall k :: Installable(t, s, k, now) {
      forall k | k in r.tree ensures r.dir {
        InstalledFile(t, s, r, k, now);
        assert Installable(t, s, k, now);
      }
    }
  }
}
