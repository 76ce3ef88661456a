/** What the store is for, without files: per key, a newest-first list of versions. */
module Spec {
  import opened Types
  import opened Store
  import opened Multipart
  import opened Machine

  /** One version: its id, whether it is a delete marker, its bytes and its metadata. */
  datatype Version = Version(id: string, marker: bool, bytes: Bytes, size: nat, mtime: nat, attrs: Attrs)

  /** One bucket: its configuration, the version lists of its keys (never empty) and its uploads.
      `sticky` records that a key with a slash once had a history. */
  datatype Bucket = Bucket(
    dir: bool, sticky: bool, config: Option<BucketMeta>,
    objects: map<string, seq<Version>>, uploads: map<string, Upload>)

  datatype State = State(
    buckets: map<string, Bucket>, staging: map<string, File>, parts: map<(string, int), Bytes>)

  datatype Result = Result(state: State, err: Err)

  const NO_BUCKET: Bucket := Bucket(false, false, None, map[], map[])

  function BucketOf(buckets: map<string, Bucket>, b: string): Bucket {
    if b in buckets then buckets[b] else NO_BUCKET
  }

  function History(a: Bucket, k: string): seq<Version> { if k in a.objects then a.objects[k] else [] }

  function ConfigOf(a: Bucket): Option<BucketMeta> {
    if a.config.Some? then a.config else if a.dir then Some(DEFAULT_BUCKET) else None
  }

  function WriteConfig(a: Bucket): BucketMeta {
    if ConfigOf(a).Some? then ConfigOf(a).value else DEFAULT_BUCKET
  }

  predicate HasID(h: seq<Version>, id: string) { exists i | 0 <= i < |h| :: h[i].id == id }

  /** The list without the version of this id. */
  function Drop(h: seq<Version>, id: string): seq<Version> {
    if h == [] then []
    else if h[0].id == id then Drop(h[1..], id)
    else [h[0]] + Drop(h[1..], id)
  }

  /** The same bucket with another history for one key. */
  function SetHistory(a: Bucket, k: string, h: seq<Version>): Bucket {
    if h == [] then a.(objects := a.objects - {k})
    else a.(objects := a.objects[k := h], sticky := a.sticky || (Nested(k) && (|h| != 1 || h[0].marker)))
  }

  /** A new version on top; without versioning it takes the place of the null version. */
  function Added(h: seq<Version>, enabled: bool, nv: Version): seq<Version> {
    [nv] + if enabled then h else Drop(h, "null")
  }

  function Marker(id: string, mtime: nat): Version { Version(id, true, "", 0, mtime, NO_ATTRS) }

  /** A delete without a version id where versioning is off or suspended. */
  function DeletedCurrent(h: seq<Version>, suspended: bool, mtime: nat): seq<Version> {
    if suspended then [Marker("null", mtime)] + Drop(h, "null") else Drop(h, "null")
  }

  /** A delete without a version id. */
  function Deleted(h: seq<Version>, mode: string, id: string, mtime: nat): seq<Version> {
    if mode == "Enabled" then [Marker(id, mtime)] + h
    else if h == [] then []
    else DeletedCurrent(h, mode == "Suspended", mtime)
  }

  /** The first version with this id, or the length of the list. */
  function Find(h: seq<Version>, id: string): (i: nat)
    ensures i <= |h|
    ensures i < |h| ==> h[i].id == id
    ensures forall j | 0 <= j < i :: h[j].id != id
  {
    if h == [] then 0
    else if h[0].id == id then 0
    else
      var i := Find(h[1..], id);
      assert forall j | 0 < j < |h| :: h[j] == h[1..][j - 1];
      i + 1
  }

  // ---- reads ----

  datatype Answer = Answer(version: Version, err: Err)

  const NOTHING: Version := Version("", false, "", 0, 0, NO_ATTRS)

  /** The version a read names: by id, or the newest. */
  function Lookup(a: Bucket, k: string, id: string): Answer {
    var h := History(a, k);
    if ConfigOf(a).None? then Answer(NOTHING, NoSuchBucket)
    else if h == [] then Answer(NOTHING, NoSuchKey)
    else if id == "" then Answer(h[0], NoError)
    else if Find(h, id) < |h| then Answer(h[Find(h, id)], NoError)
    else Answer(NOTHING, NoSuchVersion)
  }

  /** A read of a delete marker fails. */
  function Readable(a: Bucket, k: string, id: string): Answer {
    var r := Lookup(a, k, id);
    if r.err != NoError then r
    else if r.version.marker then Answer(NOTHING, if id == "" then NoSuchKey else MethodNotAllowed)
    else r
  }

  // ---- commands ----

  function WithBucket(s: State, b: string, a: Bucket): State { s.(buckets := s.buckets[b := a]) }

  function NewVersion(bm: BucketMeta, id: string, bytes: Bytes, size: nat, mtime: nat, a: Attrs): Version {
    Version(VersionIDFor(Enabled(bm), id), false, bytes, size, mtime, LockDefaults(bm, a, mtime))
  }

  function AddVersion(a: Bucket, k: string, nv: Version): Bucket {
    SetHistory(a, k, Added(History(a, k), Enabled(WriteConfig(a)), nv)).(dir := true)
  }

  function PutSpec(s: State, c: Command): Result
    requires c.PutObject?
  {
    var a := BucketOf(s.buckets, c.bucket);
    if c.token !in s.staging then Result(s, BlobMissing)
    else
      var nv := NewVersion(WriteConfig(a), c.versionID, s.staging[c.token].bytes, c.size, c.mtime, c.attrs);
      Result(WithBucket(s.(staging := s.staging - {c.token}), c.bucket, AddVersion(a, c.key, nv)), NoError)
  }

  function CopySpec(s: State, c: Command): Result
    requires c.CopyObject?
  {
    if c.source.None? then Result(s, InvalidKey)
    else
      var a := BucketOf(s.buckets, c.bucket);
      var src := Lookup(BucketOf(s.buckets, c.source.value.bucket), c.source.value.key, c.source.value.versionID);
      if src.err != NoError then Result(s, src.err)
      else if src.version.marker then Result(s, NoSuchKey)
      else
        var nv := NewVersion(WriteConfig(a), c.versionID, src.version.bytes, src.version.size, c.mtime,
                             CopyAttrs(src.version.attrs, c));
        Result(WithBucket(s, c.bucket, AddVersion(a, c.key, nv)), NoError)
  }

  function DeleteSpec(a: Bucket, k: string, id: string, explicit: bool, mtime: nat): Bucket {
    var h := History(a, k);
    if id != "" && explicit then SetHistory(a, k, Drop(h, id))
    else SetHistory(a, k, Deleted(h, WriteConfig(a).versioning, id, mtime))
  }

  function MutateSpec(a: Bucket, k: string, id: string, mu: Mutation): (Bucket, Err) {
    var h := History(a, k);
    if h == [] then (a, NoSuchKey)
    else if id != "" && Find(h, id) == |h| then (a, NoSuchVersion)
    else if id == "" && h[0].marker then (a, NoSuchKey)
    else if mu.Malformed? then (a, BadConfig)
    else
      var i := if id == "" then 0 else Find(h, id);
      (SetHistory(a, k, h[i := h[i].(attrs := Mutated(h[i].attrs, mu))]), NoError)
  }

  function CreateSpec(a: Bucket, b: string, objectLock: bool): (Bucket, Err) {
    if !ValidBucketName(b) then (a, InvalidBucketName)
    else if a.config.Some? then (a, BucketAlreadyOwned)
    else
      (a.(dir := true, config := Some(if objectLock then BucketMeta("Enabled", Some(LockConfig(true, "", 0, 0)))
                                      else DEFAULT_BUCKET)), NoError)
  }

  function ConfigSpec(a: Bucket, versioning: Option<string>, lock: Option<LockConfig>): (Bucket, Err) {
    if ConfigOf(a).None? then (a, NoSuchBucket)
    else
      var bm := ConfigOf(a).value;
      var bm1 := if versioning.Some? then bm.(versioning := versioning.value) else bm;
      (a.(config := Some(if lock.Some? then bm1.(lock := lock) else bm1)), NoError)
  }

  function CompleteSpec(s: State, c: Command): Result
    requires c.CompleteMultipart?
  {
    var a := BucketOf(s.buckets, c.bucket);
    if c.uploadID !in a.uploads then Result(s, NoSuchUpload)
    else
      var up := a.uploads[c.uploadID];
      var ch := Chosen(up, c.wanted, s.parts, c.uploadID);
      if ch.err != NoError then Result(s, ch.err)
      else
        var bytes := Assemble(s.parts, c.uploadID, ch.parts);
        var nv := NewVersion(WriteConfig(a), c.versionID, bytes, |bytes|, c.mtime,
                             up.attrs.(etag := MultipartETag(PartEtags(ch.parts))));
        var a1 := AddVersion(a, c.key, nv);
        Result(WithBucket(s.(staging := s.staging - {c.token}), c.bucket, a1.(uploads := a1.uploads - {c.uploadID})),
               NoError)
  }

  function UploadPartSpec(s: State, c: Command): Result
    requires c.UploadPart?
  {
    var a := BucketOf(s.buckets, c.bucket);
    if (c.uploadID, c.part) !in s.parts then Result(s, BlobMissing)
    else if c.uploadID !in a.uploads then Result(s, NoSuchUpload)
    else
      var up := a.uploads[c.uploadID];
      var up1 := up.(parts := Record(up.parts, Part(c.part, c.etag, c.size, c.mtime)));
      Result(WithBucket(s, c.bucket, a.(uploads := a.uploads[c.uploadID := up1])), NoError)
  }

  function Paired(s: State, b: string, r: (Bucket, Err)): Result { Result(WithBucket(s, b, r.0), r.1) }

  /** A bucket can be deleted when it holds no version and no delete marker. */
  function RemoveSpec(a: Bucket): (Bucket, Err) {
    if a.objects != map[] then (a, BucketNotEmpty) else (NO_BUCKET, NoError)
  }

  function ApplySpec(s: State, c: Command): Result {
    var a := BucketOf(s.buckets, c.bucket);
    match c
    case CreateBucket(b, objectLock) => Paired(s, b, CreateSpec(a, b, objectLock))
    case DeleteBucket(b) => Paired(s, b, RemoveSpec(a))
    case PutVersioning(b, mode) => Paired(s, b, ConfigSpec(a, Some(mode), None))
    case PutLockConfig(b, lock) => Paired(s, b, ConfigSpec(a, None, Some(lock)))
    case PutObject(_, _, _, _, _, _, _) => PutSpec(s, c)
    case DeleteObject(b, k, id, explicit, mtime) => Paired(s, b, (DeleteSpec(a, k, id, explicit, mtime), NoError))
    case CopyObject(_, _, _, _, _, _, _, _) => CopySpec(s, c)
    case MutateMeta(b, k, id, mu) => Paired(s, b, MutateSpec(a, k, id, mu))
    case CreateMultipart(b, k, u, mtime, at) =>
      Paired(s, b, (a.(uploads := a.uploads[u := Upload(k, mtime, UploadAttrs(at), [])]), NoError))
    case UploadPart(_, _, _, _, _, _) => UploadPartSpec(s, c)
    case CompleteMultipart(_, _, _, _, _, _, _) => CompleteSpec(s, c)
    case AbortMultipart(b, u) => Paired(s, b, (a.(uploads := a.uploads - {u}), NoError))
  }
}
