/** The data that the storage node keeps on disk, as values: object metadata, files with
    extended attributes, one volume per bucket, and the replicated commands. */
module Types {
  type Bytes = string

  datatype Option<+T> = None | Some(value: T)

  /** Every failure a command or a read can report; NoError is success. */
  datatype Err =
    | NoError | BlobMissing | IOError
    | NoSuchBucket | NoSuchKey | NoSuchVersion | NoSuchUpload
    | BucketNotEmpty | BucketAlreadyOwned | InvalidBucketName | InvalidKey
    | InvalidPart | InvalidPartOrder | EntityTooSmall
    | MethodNotAllowed | InvalidRange | BadConfig

  // ---- library code that stays uninterpreted ----

  /** The quoted MD5 text of a file's bytes. */
  const Md5Text: Bytes -> string
  /** The content type guessed from a key's extension. */
  const GuessContentType: string -> string
  /** `until.AddDate(years, 0, days)` on encoded times. */
  const AddDate: (nat, int, int) -> nat

  /** The 32-bit FNV-1a hash of a bucket name. */
  const Fnv: string -> nat
  /** The clock, when a copy or an assembled upload creates its file. */
  const NOW: nat
  /** The hexadecimal MD5 of some bytes. */
  const Md5Hex: Bytes -> string
  /** Hexadecimal decoding, None on malformed text. */
  const HexDecode: string -> Option<Bytes>

  // ---- object metadata ----

  datatype Retention = Retention(mode: string, until: nat)

  /** The client-visible attributes of one version. Absent maps are empty maps. */
  datatype Attrs = Attrs(
    etag: string, contentType: string, contentEncoding: string, contentLanguage: string,
    contentDisposition: string, cacheControl: string, expires: string, storageClass: string,
    userMeta: map<string, string>, tags: map<string, string>,
    acl: Option<string>, retention: Option<Retention>, legalHold: Option<string>)

  const NO_ATTRS: Attrs :=
    Attrs("", "", "", "", "", "", "", "", map[], map[], None, None, None)

  /** One version's metadata. `blobID == ""` says the bytes are the file at the key path;
      `lastModified == 0` is the zero time. */
  datatype ObjectMeta = ObjectMeta(
    versionID: string, blobID: string, size: nat, lastModified: nat,
    isLatest: bool, deleteMarker: bool, attrs: Attrs)

  // ---- files ----

  /** The extended-attribute names under the store's prefix. */
  datatype XName =
    | XManaged | XVersionID | XETag | XContentType | XContentEnc | XContentLang | XContentDisp
    | XCacheControl | XExpires | XStorageClass | XUserMeta | XTags | XACL | XRetention | XLegalHold

  /** An attribute value, before serialisation. */
  datatype XVal = Text(text: string) | Pairs(pairs: map<string, string>) | Ret(ret: Retention)

  datatype File = File(bytes: Bytes, mtime: nat, xattrs: map<XName, XVal>)

  // ---- buckets ----

  datatype LockConfig = LockConfig(enabled: bool, mode: string, days: int, years: int)

  datatype BucketMeta = BucketMeta(versioning: string, lock: Option<LockConfig>)

  const DEFAULT_BUCKET: BucketMeta := BucketMeta("", None)

  // ---- multipart uploads ----

  datatype Part = Part(number: int, etag: string, size: nat, lastModified: nat)

  datatype Upload = Upload(key: string, initiated: nat, attrs: Attrs, parts: seq<Part>)

  datatype CompletedPart = CompletedPart(number: int, etag: string)

  // ---- the disk ----

  /** Everything stored for one bucket: the browsable tree, the archived payloads, the version
      histories, the configuration and the open uploads. `dir` says the bucket directory exists
      in the data root; `histDirs` says the history directory has a sub-directory, which a key
      containing a slash creates and nothing but deleting the bucket removes. */
  datatype Volume = Volume(
    dir: bool, histDirs: bool, config: Option<BucketMeta>,
    tree: map<string, File>, blobs: map<string, File>,
    history: map<string, seq<ObjectMeta>>, uploads: map<string, Upload>)

  const EMPTY_VOLUME: Volume := Volume(false, false, None, map[], map[], map[], map[])

  /** The whole backend: the volumes, the fan-out staging area and the staged parts. */
  datatype Disk = Disk(
    vols: map<string, Volume>, staging: map<string, File>, parts: map<(string, int), Bytes>)

  function Vol(vols: map<string, Volume>, b: string): Volume {
    if b in vols then vols[b] else EMPTY_VOLUME
  }

  // ---- replicated commands ----

  datatype ObjectRef = ObjectRef(bucket: string, key: string, versionID: string)

  /** The five metadata mutations of one version; Malformed is a configuration that does not parse. */
  datatype Mutation =
    | SetACL(acl: string) | SetTags(tags: map<string, string>) | DelTags
    | SetRetention(ret: Retention) | SetLegalHold(status: string) | Malformed

  datatype Command =
    | CreateBucket(bucket: string, objectLock: bool)
    | DeleteBucket(bucket: string)
    | PutVersioning(bucket: string, mode: string)
    | PutLockConfig(bucket: string, lock: LockConfig)
    | PutObject(bucket: string, key: string, versionID: string, token: string, size: nat, mtime: nat, attrs: Attrs)
    | DeleteObject(bucket: string, key: string, versionID: string, explicit: bool, mtime: nat)
    | CopyObject(bucket: string, key: string, versionID: string, source: Option<ObjectRef>, mtime: nat,
                 replaceMeta: bool, replaceTags: bool, attrs: Attrs)
    | MutateMeta(bucket: string, key: string, versionID: string, mutation: Mutation)
    | CreateMultipart(bucket: string, key: string, uploadID: string, mtime: nat, attrs: Attrs)
    | UploadPart(bucket: string, uploadID: string, part: int, etag: string, size: nat, mtime: nat)
    | CompleteMultipart(bucket: string, key: string, versionID: string, token: string, uploadID: string,
                        wanted: seq<CompletedPart>, mtime: nat)
    | AbortMultipart(bucket: string, uploadID: string)

  /** Versioning is on: new writes create distinct versions. */
  predicate Enabled(bm: BucketMeta) { bm.versioning == "Enabled" }

  /** The configuration a read sees: the stored one, the default for a bare directory, or none. */
  function BucketConfig(v: Volume): Option<BucketMeta> {
    if v.config.Some? then v.config else if v.dir then Some(DEFAULT_BUCKET) else None
  }

  /** The configuration a committed write uses; it never rejects on a missing bucket. */
  function ConfigForWrite(v: Volume): BucketMeta {
    if BucketConfig(v).Some? then BucketConfig(v).value else DEFAULT_BUCKET
  }
}
