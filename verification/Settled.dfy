/** The steps on which the split store keeps its promise, as conditions a caller can check on the
    version lists before the command runs. */
module Settled {
  import opened Types
  import opened Store
  import opened Multipart
  import opened Machine
  import opened Spec

  /** The ids of every key's live versions below the newest: the archived payload names in use. */
  function ArchivedIDs(a: Bucket): set<string> {
    set k, i | k in a.objects && 1 <= i < |a.objects[k]| && !a.objects[k][i].marker :: a.objects[k][i].id
  }

  /** A write in this mode archives the current version rather than replacing it. */
  predicate Archives(h: seq<Version>, enabled: bool) {
    h != [] && !h[0].marker && (enabled || h[0].id != "null")
  }

  /** The versions that stay below a new one: all, but for a current null version being replaced. */
  function Remaining(h: seq<Version>, enabled: bool): seq<Version> {
    if h != [] && !h[0].marker && !Archives(h, enabled) then h[1..] else h
  }

  /** The current version can be archived without overwriting another key's payload. */
  predicate ArchiveFree(a: Bucket, k: string, enabled: bool) {
    var h := History(a, k);
    Archives(h, enabled) ==> h[0].id !in ArchivedIDs(a)
  }

  /** The new version's metadata survives the round trip through the key file. */
  predicate Writable(nv: Version) {
    nv.id != "" && nv.mtime != 0 && nv.attrs.legalHold != Some("") && nv.size == |nv.bytes|
  }

  predicate AddSettled(a: Bucket, k: string, nv: Version) {
    var enabled := Enabled(WriteConfig(a));
    Writable(nv) && !HasID(Remaining(History(a, k), enabled), nv.id) && ArchiveFree(a, k, enabled)
  }

  /** The deleted version is not a newest delete marker above a live version. */
  predicate DropSettled(h: seq<Version>, id: string) {
    !(|h| > 1 && h[0].id == id && h[0].marker && !h[1].marker)
  }

  /** A delete without a version id where versioning is off or suspended. */
  predicate CurrentSettled(h: seq<Version>, suspended: bool) {
    if h == [] then true
    else if h[0].marker then !HasID(h, "null")
    else h[0].id == "null" && (suspended || |h| == 1 || h[1].marker)
  }

  predicate DeleteSettled(a: Bucket, k: string, id: string) {
    var h, mode := History(a, k), WriteConfig(a).versioning;
    if mode == "Enabled" then id != "" && !HasID(h, id) && ArchiveFree(a, k, true)
    else CurrentSettled(h, mode == "Suspended")
  }

  /** The mutation does not give a live version a legal hold with an empty status. */
  predicate MutateSettled(a: Bucket, k: string, id: string, mu: Mutation) {
    var h := History(a, k);
    var i := if id == "" then 0 else Spec.Find(h, id);
    mu == SetLegalHold("") && i < |h| ==> h[i].marker
  }

  /** The copied version is not the destination's own current file about to be archived. */
  predicate CopySettled(s: State, c: Command)
    requires c.CopyObject?
  {
    if c.source.None? then true
    else
      var a, ref := BucketOf(s.buckets, c.bucket), c.source.value;
      var src := Lookup(BucketOf(s.buckets, ref.bucket), ref.key, ref.versionID);
      var h, enabled := History(a, c.key), Enabled(WriteConfig(a));
      if src.err != NoError || src.version.marker then true
      else
        && AddSettled(a, c.key, NewVersion(WriteConfig(a), c.versionID, src.version.bytes, src.version.size, c.mtime,
                                           CopyAttrs(src.version.attrs, c)))
        && !(ref.bucket == c.bucket && ref.key == c.key && Archives(h, enabled)
             && (ref.versionID == "" || ref.versionID == h[0].id))
  }

  predicate CompleteSettled(s: State, c: Command)
    requires c.CompleteMultipart?
  {
    var a := BucketOf(s.buckets, c.bucket);
    if c.uploadID !in a.uploads then true
    else
      var up := a.uploads[c.uploadID];
      var ch := Chosen(up, c.wanted, s.parts, c.uploadID);
      if ch.err != NoError then true
      else
        var bytes := Assemble(s.parts, c.uploadID, ch.parts);
        AddSettled(a, c.key, NewVersion(WriteConfig(a), c.versionID, bytes, |bytes|, c.mtime,
                                        up.attrs.(etag := MultipartETag(PartEtags(ch.parts)))))
  }

  predicate PutSettled(s: State, c: Command)
    requires c.PutObject?
  {
    var a := BucketOf(s.buckets, c.bucket);
    c.token in s.staging ==>
      AddSettled(a, c.key, NewVersion(WriteConfig(a), c.versionID, s.staging[c.token].bytes, c.size, c.mtime, c.attrs))
  }

  /** The commands that change one bucket and read no payload. */
  predicate VolumeSettled(a: Bucket, c: Command) {
    match c
    case DeleteObject(_, k, id, explicit, _) =>
      if id != "" && explicit then DropSettled(History(a, k), id) else DeleteSettled(a, k, id)
    case MutateMeta(_, k, id, mu) => MutateSettled(a, k, id, mu)
    case DeleteBucket(_) => a.objects == map[] ==> !a.sticky
    case _ => true
  }

  /** The command is settled in this state. */
  predicate StepSettled(s: State, c: Command) {
    match c
    case PutObject(_, _, _, _, _, _, _) => PutSettled(s, c)
    case CopyObject(_, _, _, _, _, _, _, _) => CopySettled(s, c)
    case CompleteMultipart(_, _, _, _, _, _, _) => CompleteSettled(s, c)
    case _ => VolumeSettled(BucketOf(s.buckets, c.bucket), c)
  }
}
