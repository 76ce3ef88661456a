/** The split store of one bucket, operation by operation: what each command does to the key
    file, its attributes, the archived payloads and the history file. */
module Store {
  import opened Types
  import opened XMeta

  datatype Out = Out(vol: Volume, err: Err)

  /** A volume whose key path has been made free, with the version list that results. */
  datatype Displaced = Displaced(vol: Volume, versions: seq<ObjectMeta>, err: Err)

  // ---- the version list of a key ----

  /** The history file when there is one, else the lone version the key file describes. */
  function ReadKeyMeta(v: Volume, k: string): Option<seq<ObjectMeta>> {
    if k in v.history then Some(v.history[k])
    else if k in v.tree then Some([ReadCurrentMeta(v.tree[k], k)])
    else None
  }

  /** The version list, empty for a key that has none. */
  function Versions(v: Volume, k: string): seq<ObjectMeta> {
    if ReadKeyMeta(v, k).Some? then ReadKeyMeta(v, k).value else []
  }

  /** A history file is kept unless the key has exactly one version and that one is live. */
  predicate NeedsHistory(vs: seq<ObjectMeta>) { |vs| != 1 || vs[0].deleteMarker }

  /** A key with a slash gets its history file in a sub-directory. */
  predicate Nested(k: string) { '/' in k }

  /** The newest version's bytes are the file at the key path. */
  predicate AtKeyPath(vs: seq<ObjectMeta>) { vs != [] && !vs[0].deleteMarker && vs[0].blobID == "" }

  function WriteKeyMeta(v: Volume, k: string, vs: seq<ObjectMeta>): Out {
    if AtKeyPath(vs) && k !in v.tree then Out(v, IOError)
    else
      var v1 := if AtKeyPath(vs) then v.(tree := v.tree[k := WriteXattrs(v.tree[k], vs[0])]) else v;
      if NeedsHistory(vs) then
        Out(v1.(history := v1.history[k := vs], histDirs := v1.histDirs || Nested(k)), NoError)
      else
        Out(v1.(history := v1.history - {k}), NoError)
  }

  function FinalizeKey(v: Volume, k: string, vs: seq<ObjectMeta>): Out {
    if vs == [] then Out(v.(tree := v.tree - {k}, history := v.history - {k}), NoError)
    else WriteKeyMeta(v, k, vs)
  }

  function Demoted(vs: seq<ObjectMeta>): (r: seq<ObjectMeta>)
    ensures |r| == |vs|
    ensures forall i | 0 <= i < |vs| :: r[i] == vs[i].(isLatest := false)
  {
    seq(|vs|, i requires 0 <= i < |vs| => vs[i].(isLatest := false))
  }

  function PrependLatest(vs: seq<ObjectMeta>, nv: ObjectMeta): seq<ObjectMeta> {
    [nv.(isLatest := true)] + Demoted(vs)
  }

  function MarkLatest(vs: seq<ObjectMeta>): seq<ObjectMeta> {
    if vs == [] then [] else [vs[0].(isLatest := true)] + vs[1..]
  }

  // ---- making room for a new current version ----

  /** Archive the current file, or drop it when an unversioned write replaces a null version. */
  function Displace(v: Volume, k: string, vs: seq<ObjectMeta>, enabled: bool): Displaced {
    if !AtKeyPath(vs) then Displaced(v, vs, NoError)
    else if enabled || vs[0].versionID != "null" then
      if k !in v.tree then Displaced(v, vs, IOError)
      else Displaced(v.(tree := v.tree - {k}, blobs := v.blobs[vs[0].versionID := v.tree[k]]),
                     [vs[0].(blobID := vs[0].versionID)] + vs[1..], NoError)
    else Displaced(v, vs[1..], NoError)
  }

  /** Install `f` as the key file and `nv` as the newest version. */
  function Place(v: Volume, k: string, vs: seq<ObjectMeta>, f: File, nv: ObjectMeta): Out {
    WriteKeyMeta(v.(dir := true, tree := v.tree[k := f]), k, PrependLatest(vs, nv))
  }

  /** The id a write in this mode gives its version. */
  function VersionIDFor(enabled: bool, id: string): string { if enabled then id else "null" }

  /** The bucket's default retention, for a version that brings none. */
  function LockDefaults(bm: BucketMeta, a: Attrs, mtime: nat): Attrs {
    if bm.lock.None? || !bm.lock.value.enabled || bm.lock.value.mode == "" || a.retention.Some? then a
    else
      var l := bm.lock.value;
      var days := if l.days > 0 then AddDate(mtime, 0, l.days) else mtime;
      var until := if l.years > 0 then AddDate(days, l.years, 0) else days;
      a.(retention := Some(Retention(l.mode, until)))
  }

  function NewMeta(id: string, size: nat, mtime: nat, a: Attrs): ObjectMeta {
    ObjectMeta(id, "", size, mtime, false, false, a)
  }

  function MarkerMeta(id: string, mtime: nat): ObjectMeta {
    ObjectMeta(id, "", 0, mtime, false, true, NO_ATTRS)
  }

  /** Displace the current version and install a new one, as every write does. */
  function Install(v: Volume, k: string, enabled: bool, f: File, nv: ObjectMeta): Out {
    var dp := Displace(v, k, Versions(v, k), enabled);
    if dp.err != NoError then Out(dp.vol, dp.err) else Place(dp.vol, k, dp.versions, f, nv)
  }

  // ---- deletes ----

  function Without(vs: seq<ObjectMeta>, id: string): seq<ObjectMeta> {
    if vs == [] then []
    else if vs[0].versionID == id then Without(vs[1..], id)
    else [vs[0]] + Without(vs[1..], id)
  }

  /** The versions with this id name their archived payloads. */
  function Doomed(vs: seq<ObjectMeta>, id: string): set<string> {
    set m | m in vs && m.versionID == id && m.blobID != "" :: m.blobID
  }

  /** One of the versions with this id is the key file. */
  predicate RemovesCurrent(vs: seq<ObjectMeta>, id: string) {
    exists m | m in vs :: m.versionID == id && m.blobID == "" && !m.deleteMarker
  }

  /** Bring an archived newest version back to the key path. */
  function Promote(v: Volume, k: string, vs: seq<ObjectMeta>): Displaced {
    if vs == [] || vs[0].deleteMarker || vs[0].blobID == "" then Displaced(v, MarkLatest(vs), NoError)
    else if vs[0].blobID !in v.blobs then Displaced(v.(dir := true), MarkLatest(vs), NoError)
    else
      Displaced(v.(dir := true, tree := v.tree[k := v.blobs[vs[0].blobID]], blobs := v.blobs - {vs[0].blobID}),
                [vs[0].(isLatest := true, blobID := "")] + vs[1..], NoError)
  }

  function DeleteVersion(v: Volume, k: string, vs: seq<ObjectMeta>, id: string): Out {
    var v1 := v.(blobs := v.blobs - Doomed(vs, id));
    var kept := Without(vs, id);
    if RemovesCurrent(vs, id) then
      var pr := Promote(v1.(tree := v1.tree - {k}), k, kept);
      FinalizeKey(pr.vol, k, pr.versions)
    else FinalizeKey(v1, k, MarkLatest(kept))
  }

  /** Delete without a version id, in a bucket whose versioning is off or suspended. */
  function DeleteCurrent(v: Volume, k: string, vs: seq<ObjectMeta>, suspended: bool, mtime: nat): Out {
    var live := vs != [] && !vs[0].deleteMarker;
    var v1 := if !live then v
              else if vs[0].blobID == "" then v.(tree := v.tree - {k})
              else v.(blobs := v.blobs - {vs[0].blobID});
    var rest := if live && (vs[0].versionID == "null" || vs[0].blobID == "") then vs[1..] else vs;
    FinalizeKey(v1, k, if suspended then PrependLatest(rest, MarkerMeta("null", mtime)) else MarkLatest(rest))
  }

  function ApplyDelete(v: Volume, k: string, id: string, explicit: bool, mtime: nat): Out {
    var bm := ConfigForWrite(v);
    var vs := Versions(v, k);
    if ReadKeyMeta(v, k).None? && !(Enabled(bm) && id != "") then Out(v, NoError)
    else if id != "" && explicit then DeleteVersion(v, k, vs, id)
    else if Enabled(bm) then
      var dp := Displace(v, k, vs, true);
      if dp.err != NoError then Out(dp.vol, dp.err)
      else FinalizeKey(dp.vol, k, PrependLatest(dp.versions, MarkerMeta(id, mtime)))
    else DeleteCurrent(v, k, vs, bm.versioning == "Suspended", mtime)
  }

  // ---- metadata mutations ----

  /** The first version with this id, or the length of the list. */
  function IndexOfID(vs: seq<ObjectMeta>, id: string): (i: nat)
    ensures i <= |vs|
    ensures i < |vs| ==> vs[i].versionID == id
    ensures forall j | 0 <= j < i :: vs[j].versionID != id
  {
    if vs == [] then 0
    else if vs[0].versionID == id then 0
    else
      var i := IndexOfID(vs[1..], id);
      assert forall j | 0 < j < |vs| :: vs[j] == vs[1..][j - 1];
      i + 1
  }

  function Mutated(a: Attrs, mu: Mutation): Attrs {
    match mu
    case SetACL(acl) => a.(acl := Some(acl))
    case SetTags(tags) => a.(tags := tags)
    case DelTags => a.(tags := map[])
    case SetRetention(ret) => a.(retention := Some(ret))
    case SetLegalHold(status) => a.(legalHold := Some(status))
    case Malformed => a
  }

  function ApplyMutation(v: Volume, k: string, id: string, mu: Mutation): Out {
    var vs := Versions(v, k);
    if ReadKeyMeta(v, k).None? then Out(v, NoSuchKey)
    else if id != "" && IndexOfID(vs, id) == |vs| then Out(v, NoSuchVersion)
    else if id == "" && (vs == [] || vs[0].deleteMarker) then Out(v, NoSuchKey)
    else if mu.Malformed? then Out(v, BadConfig)
    else
      var i := if id == "" then 0 else IndexOfID(vs, id);
      WriteKeyMeta(v, k, vs[i := vs[i].(attrs := Mutated(vs[i].attrs, mu))])
  }

  // ---- buckets ----

  predicate ValidBucketName(b: string) { b != "" && '/' !in b && '\\' !in b }

  function ApplyCreateBucket(v: Volume, b: string, objectLock: bool): Out {
    if !ValidBucketName(b) then Out(v, InvalidBucketName)
    else if v.config.Some? then Out(v, BucketAlreadyOwned)
    else
      var bm := if objectLock then BucketMeta("Enabled", Some(LockConfig(true, "", 0, 0))) else DEFAULT_BUCKET;
      Out(v.(dir := true, config := Some(bm)), NoError)
  }

  function ApplyDeleteBucket(v: Volume): Out {
    if v.tree != map[] || v.history != map[] || v.histDirs then Out(v, BucketNotEmpty)
    else Out(EMPTY_VOLUME, NoError)
  }

  function ApplyBucketConfig(v: Volume, versioning: Option<string>, lock: Option<LockConfig>): Out {
    if BucketConfig(v).None? then Out(v, NoSuchBucket)
    else
      var bm := BucketConfig(v).value;
      var bm1 := if versioning.Some? then bm.(versioning := versioning.value) else bm;
      Out(v.(config := Some(if lock.Some? then bm1.(lock := lock) else bm1)), NoError)
  }

  // ---- reads ----

  datatype Found = Found(meta: ObjectMeta, err: Err)

  const ABSENT: ObjectMeta := ObjectMeta("", "", 0, 0, false, false, NO_ATTRS)

  function Resolve(v: Volume, k: string, id: string): Found {
    if BucketConfig(v).None? then Found(ABSENT, NoSuchBucket)
    else if ReadKeyMeta(v, k).None? then Found(ABSENT, NoSuchKey)
    else
      var vs := Versions(v, k);
      if id != "" then
        if IndexOfID(vs, id) < |vs| then Found(vs[IndexOfID(vs, id)], NoError) else Found(ABSENT, NoSuchVersion)
      else if vs == [] then Found(ABSENT, NoSuchKey)
      else Found(vs[0], NoError)
  }

  /** Where a version's bytes are: the key file, or an archived payload. */
  function Payload(v: Volume, k: string, m: ObjectMeta): Option<File> {
    if m.blobID == "" then if k in v.tree then Some(v.tree[k]) else None
    else if m.blobID in v.blobs then Some(v.blobs[m.blobID]) else None
  }

  datatype Read = Read(meta: ObjectMeta, bytes: Bytes, err: Err)

  /** The metadata of a version that may be read. */
  function Head(v: Volume, k: string, id: string): Found {
    var r := Resolve(v, k, id);
    if r.err != NoError then r
    else if r.meta.deleteMarker then Found(ABSENT, if id == "" then NoSuchKey else MethodNotAllowed)
    else r
  }

  function Get(v: Volume, k: string, id: string): Read {
    var h := Head(v, k, id);
    if h.err != NoError then Read(ABSENT, "", h.err)
    else
      var f := Payload(v, k, h.meta);
      if f.None? then Read(ABSENT, "", NoSuchKey) else Read(h.meta, f.value.bytes, NoError)
  }
}
