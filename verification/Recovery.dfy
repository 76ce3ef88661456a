/** Replication: every node applies one committed log to its own disk, payloads arrive by fan-out,
    are reclaimed by the sweeper, and a node that misses one pulls it from a peer. */
module Recovery {
  import opened Types
  import opened Store
  import opened Machine
  import opened Rep
  import opened Refinement
  import Spec
  import Settled

  // ---- canonical replay ----

  /** The commands this protocol carries: everything but multipart, whose parts are not recoverable. */
  predicate Replicable(c: Command) {
    !c.CreateMultipart? && !c.UploadPart? && !c.CompleteMultipart? && !c.AbortMultipart?
  }

  /** Staging that holds just the payload a command refers to. */
  function Staged(payload: map<string, Bytes>, c: Command): map<string, File> {
    if c.PutObject? && c.token in payload then map[c.token := File(payload[c.token], NOW, map[])] else map[]
  }

  function CanonDisk(vols: map<string, Volume>, payload: map<string, Bytes>, c: Command): Disk {
    Disk(vols, Staged(payload, c), map[])
  }

  /** The volumes after a log, when every payload is at hand. */
  function Replay(v0: map<string, Volume>, payload: map<string, Bytes>, log: seq<Command>): map<string, Volume> {
    if log == [] then v0
    else
      var c := log[|log| - 1];
      Apply(CanonDisk(Replay(v0, payload, log[..|log| - 1]), payload, c), c).disk.vols
  }

  ghost predicate ValidVols(vols: map<string, Volume>) { forall b | b in vols :: Valid(vols[b]) }

  function Buckets(vols: map<string, Volume>): map<string, Spec.Bucket> { map b | b in vols :: AbsVol(vols[b]) }

  /** The id of the version a command creates, if it creates one. */
  function CreatedID(c: Command): Option<string> {
    if c.PutObject? || c.CopyObject? || (c.DeleteObject? && !(c.versionID != "" && c.explicit)) then Some(c.versionID)
    else None
  }

  /** A command that can meet its place in the log: replicable, settled, and a put goes to a bucket
      with versioning enabled with its payload known. */
  ghost predicate EntryOK(vols: map<string, Volume>, payload: map<string, Bytes>, c: Command) {
    && Replicable(c)
    && Settled.StepSettled(AbsDisk(CanonDisk(vols, payload, c)), c)
    && (c.PutObject? ==> c.token in payload && Enabled(ConfigForWrite(Vol(vols, c.bucket))))
  }

  ghost predicate LogOK(v0: map<string, Volume>, payload: map<string, Bytes>, log: seq<Command>) {
    if log == [] then true
    else
      var last := |log| - 1;
      LogOK(v0, payload, log[..last]) && EntryOK(Replay(v0, payload, log[..last]), payload, log[last])
  }

  /** The ids of puts are unique: no other entry for the same key creates that id, and the key did
      not start with it. */
  ghost predicate FreshIDs(v0: map<string, Volume>, log: seq<Command>) {
    forall i | 0 <= i < |log| && log[i].PutObject? :: FreshAt(v0, log, i)
  }

  ghost predicate FreshAt(v0: map<string, Volume>, log: seq<Command>, i: nat)
    requires i < |log| && log[i].PutObject?
  {
    && log[i].versionID != "null"
    && !Spec.HasID(Spec.History(Spec.BucketOf(Buckets(v0), log[i].bucket), log[i].key), log[i].versionID)
    && (forall j | 0 <= j < |log| && j != i :: SameID(log[j], log[i]) ==> log[j].bucket != log[i].bucket || log[j].key != log[i].key)
  }

  predicate SameID(c: Command, p: Command)
    requires p.PutObject?
  {
    CreatedID(c) == Some(p.versionID)
  }

  lemma {:induction false} ReplayValid(v0: map<string, Volume>, payload: map<string, Bytes>, log: seq<Command>)
    requires ValidVols(v0) && LogOK(v0, payload, log)
    ensures ValidVols(Replay(v0, payload, log))
  {
    if log != [] {
      hide Apply, Valid, Settled.StepSettled, AbsDisk;
      var c := log[|log| - 1];
      ReplayValid(v0, payload, log[..|log| - 1]);
      StepExact(CanonDisk(Replay(v0, payload, log[..|log| - 1]), payload, c), c);
    }
  }

  // ---- provenance: where a version with a given id comes from ----

  /** `e` was in `h` already, with the same id, kind and bytes. */
  predicate Inherited(h: seq<Spec.Version>, e: Spec.Version) {
    exists i | 0 <= i < |h| :: h[i].id == e.id && h[i].marker == e.marker && h[i].bytes == e.bytes
  }

  /** `e` is the version the command creates. */
  predicate CreatedBy(s: Spec.State, c: Command, e: Spec.Version) {
    && (CreatedID(c) == Some(e.id) || e.id == "null")
    && (c.PutObject? ==> c.token in s.staging && e.bytes == s.staging[c.token].bytes && !e.marker)
  }

  /** Every version of a key after a step was there before or is the one created. */
  ghost predicate Traced(s: Spec.State, c: Command, h: seq<Spec.Version>, h': seq<Spec.Version>) {
    forall i | 0 <= i < |h'| :: Inherited(h, h'[i]) || CreatedBy(s, c, h'[i])
  }

  lemma {:induction false} DropInherits(h: seq<Spec.Version>, id: string)
    ensures forall e | e in Spec.Drop(h, id) :: e in h
  {
    if h != [] {
      DropInherits(h[1..], id);
      assert forall e | e in h[1..] :: e in h;
    }
  }

  lemma MemberInherits(h: seq<Spec.Version>, e: Spec.Version)
    requires e in h
    ensures Inherited(h, e)
  {
    var i :| 0 <= i < |h| && h[i] == e;
  }

  /** A list whose members are old or created is traced. */
  lemma MembersTraced(s: Spec.State, c: Command, h: seq<Spec.Version>, h': seq<Spec.Version>)
    requires forall e | e in h' :: e in h || CreatedBy(s, c, e)
    ensures Traced(s, c, h, h')
  {
    forall i | 0 <= i < |h'| ensures Inherited(h, h'[i]) || CreatedBy(s, c, h'[i]) {
      assert h'[i] in h';
      if h'[i] in h { MemberInherits(h, h'[i]); }
    }
  }

  lemma AddTraced(s: Spec.State, c: Command, h: seq<Spec.Version>, enabled: bool, nv: Spec.Version)
    requires CreatedBy(s, c, nv)
    ensures Traced(s, c, h, Spec.Added(h, enabled, nv))
  {
    DropInherits(h, "null");
    MembersTraced(s, c, h, Spec.Added(h, enabled, nv));
  }

  lemma DeleteTraced(s: Spec.State, c: Command, a: Spec.Bucket)
    requires c.DeleteObject?
    ensures Traced(s, c, Spec.History(a, c.key),
                   Spec.History(Spec.DeleteSpec(a, c.key, c.versionID, c.explicit, c.mtime), c.key))
  {
    var h := Spec.History(a, c.key);
    DropInherits(h, c.versionID);
    DropInherits(h, "null");
    var h' := Spec.History(Spec.DeleteSpec(a, c.key, c.versionID, c.explicit, c.mtime), c.key);
    MembersTraced(s, c, h, h');
  }

  lemma MutateTraced(s: Spec.State, c: Command, a: Spec.Bucket)
    requires c.MutateMeta?
    ensures Traced(s, c, Spec.History(a, c.key), Spec.History(Spec.MutateSpec(a, c.key, c.versionID, c.mutation).0, c.key))
  {
    var h, h' := Spec.History(a, c.key), Spec.History(Spec.MutateSpec(a, c.key, c.versionID, c.mutation).0, c.key);
    forall i | 0 <= i < |h'| ensures Inherited(h, h'[i]) {
      assert h[i].id == h'[i].id && h[i].marker == h'[i].marker && h[i].bytes == h'[i].bytes;
    }
  }

  /** Other keys of the bucket keep their history. */
  lemma OtherKeysKept(a: Spec.Bucket, k: string, h: seq<Spec.Version>, k': string)
    requires k' != k
    ensures Spec.History(Spec.SetHistory(a, k, h), k') == Spec.History(a, k')
  {
  }

  lemma ItselfTraced(s: Spec.State, c: Command, h: seq<Spec.Version>)
    ensures Traced(s, c, h, h) && Traced(s, c, h, [])
  {
  }

  /** Adding a version to a key, seen from any key of the bucket. */
  lemma AddVersionTraced(s: Spec.State, c: Command, a: Spec.Bucket, key: string, nv: Spec.Version, k: string)
    requires CreatedBy(s, c, nv)
    ensures Traced(s, c, Spec.History(a, k), Spec.History(Spec.AddVersion(a, key, nv), k))
    ensures key != k ==> Spec.History(Spec.AddVersion(a, key, nv), k) == Spec.History(a, k)
  {
    hide Traced, CreatedBy;
    var h := Spec.History(a, key);
    assert Spec.Added(h, Enabled(Spec.WriteConfig(a)), nv) != [];
    hide Spec.Added;
    ItselfTraced(s, c, Spec.History(a, k));
    AddTraced(s, c, h, Enabled(Spec.WriteConfig(a)), nv);
    if key != k { OtherKeysKept(a, key, Spec.Added(h, Enabled(Spec.WriteConfig(a)), nv), k); }
  }

  lemma PutTraced(s: Spec.State, c: Command, k: string)
    requires c.PutObject?
    ensures var a, a' := Spec.BucketOf(s.buckets, c.bucket), Spec.BucketOf(Spec.PutSpec(s, c).state.buckets, c.bucket);
      Traced(s, c, Spec.History(a, k), Spec.History(a', k)) && (c.key != k ==> Spec.History(a', k) == Spec.History(a, k))
  {
    hide Traced, LockDefaults, Spec.AddVersion, Spec.History;
    var a := Spec.BucketOf(s.buckets, c.bucket);
    ItselfTraced(s, c, Spec.History(a, k));
    if c.token in s.staging {
      var nv := Spec.NewVersion(Spec.WriteConfig(a), c.versionID, s.staging[c.token].bytes, c.size, c.mtime, c.attrs);
      AddVersionTraced(s, c, a, c.key, nv, k);
    }
  }

  lemma CopyTraced(s: Spec.State, c: Command, k: string)
    requires c.CopyObject?
    ensures var a, a' := Spec.BucketOf(s.buckets, c.bucket), Spec.BucketOf(Spec.CopySpec(s, c).state.buckets, c.bucket);
      Traced(s, c, Spec.History(a, k), Spec.History(a', k)) && (c.key != k ==> Spec.History(a', k) == Spec.History(a, k))
  {
    hide Traced, LockDefaults, CopyAttrs, Spec.Lookup, Spec.AddVersion, Spec.History;
    var a := Spec.BucketOf(s.buckets, c.bucket);
    ItselfTraced(s, c, Spec.History(a, k));
    if c.source.Some? {
      var src := Spec.Lookup(Spec.BucketOf(s.buckets, c.source.value.bucket), c.source.value.key, c.source.value.versionID);
      var nv := Spec.NewVersion(Spec.WriteConfig(a), c.versionID, src.version.bytes, src.version.size, c.mtime,
                                CopyAttrs(src.version.attrs, c));
      AddVersionTraced(s, c, a, c.key, nv, k);
    }
  }

  /** The commands that set one key's history. */
  lemma KeyTraced(s: Spec.State, c: Command, k: string)
    requires c.DeleteObject? || c.MutateMeta?
    ensures var a, a' := Spec.BucketOf(s.buckets, c.bucket), Spec.BucketOf(Spec.ApplySpec(s, c).state.buckets, c.bucket);
      Traced(s, c, Spec.History(a, k), Spec.History(a', k)) && (c.key != k ==> Spec.History(a', k) == Spec.History(a, k))
  {
    hide Traced, Spec.Deleted, Mutated;
    var a := Spec.BucketOf(s.buckets, c.bucket);
    ItselfTraced(s, c, Spec.History(a, k));
    if c.DeleteObject? { DeleteTraced(s, c, a); } else { MutateTraced(s, c, a); }
  }

  lemma ConfigTraced(s: Spec.State, c: Command, k: string)
    requires c.CreateBucket? || c.DeleteBucket? || c.PutVersioning? || c.PutLockConfig?
    ensures var a, a' := Spec.BucketOf(s.buckets, c.bucket), Spec.BucketOf(Spec.ApplySpec(s, c).state.buckets, c.bucket);
      Spec.History(a', k) == Spec.History(a, k) || Spec.History(a', k) == []
  {
  }

  /** One command, seen from one key of its bucket. */
  lemma BucketTraced(s: Spec.State, c: Command, k: string)
    requires Replicable(c)
    ensures var a, a' := Spec.BucketOf(s.buckets, c.bucket), Spec.BucketOf(Spec.ApplySpec(s, c).state.buckets, c.bucket);
      && Traced(s, c, Spec.History(a, k), Spec.History(a', k))
      && (Targets(c) != Some(k) ==> Spec.History(a', k) == Spec.History(a, k) || Spec.History(a', k) == [])
  {
    hide Traced, Spec.History, Spec.CopySpec, Spec.PutSpec;
    ItselfTraced(s, c, Spec.History(Spec.BucketOf(s.buckets, c.bucket), k));
    if c.PutObject? {
      PutTraced(s, c, k);
    } else if c.CopyObject? {
      CopyTraced(s, c, k);
    } else {
      hide Spec.ApplySpec;
      if c.DeleteObject? || c.MutateMeta? { KeyTraced(s, c, k); } else { ConfigTraced(s, c, k); }
    }
  }

  /** The key a command changes, if it changes one. */
  function Targets(c: Command): Option<string> {
    if c.PutObject? || c.CopyObject? || c.DeleteObject? || c.MutateMeta? then Some(c.key) else None
  }

  /** Other buckets are untouched. */
  lemma OtherBucketsKept(s: Spec.State, c: Command, b: string)
    requires b != c.bucket
    ensures Spec.BucketOf(Spec.ApplySpec(s, c).state.buckets, b) == Spec.BucketOf(s.buckets, b)
  {
    hide Spec.AddVersion, Spec.NewVersion, Spec.Lookup, Spec.MutateSpec, Spec.DeleteSpec;
  }

  // ---- the payload behind an id ----

  lemma {:induction false} PrefixOK(v0: map<string, Volume>, payload: map<string, Bytes>, log: seq<Command>, j: nat)
    requires j <= |log| && LogOK(v0, payload, log)
    ensures LogOK(v0, payload, log[..j])
    ensures j < |log| ==> EntryOK(Replay(v0, payload, log[..j]), payload, log[j])
    decreases |log|
  {
    hide EntryOK, Replay;
    if j < |log| {
      var last := |log| - 1;
      if j < last {
        PrefixOK(v0, payload, log[..last], j);
        assert log[..last][..j] == log[..j] && log[..last][j] == log[j];
      }
    } else {
      assert log[..j] == log;
    }
  }

  /** What the replayed volumes say of one key. */
  function KeyHistory(vols: map<string, Volume>, b: string, k: string): seq<Spec.Version> {
    Spec.History(Spec.BucketOf(Buckets(vols), b), k)
  }

  /** Every version of `h` with the put's id is live and holds the put's payload. */
  ghost predicate HoldsPayload(h: seq<Spec.Version>, p: Command, payload: map<string, Bytes>)
    requires p.PutObject? && p.token in payload
  {
    forall e | 0 <= e < |h| && h[e].id == p.versionID :: !h[e].marker && h[e].bytes == payload[p.token]
  }

  /** One replayed step keeps the payload behind the id. */
  lemma PayloadStep(vols: map<string, Volume>, payload: map<string, Bytes>, c: Command, p: Command)
    requires ValidVols(vols) && EntryOK(vols, payload, c)
    requires p.PutObject? && p.token in payload && p.versionID != "null"
    requires SameID(c, p) ==> c == p || c.bucket != p.bucket || c.key != p.key
    requires HoldsPayload(KeyHistory(vols, p.bucket, p.key), p, payload)
    ensures HoldsPayload(KeyHistory(Apply(CanonDisk(vols, payload, c), c).disk.vols, p.bucket, p.key), p, payload)
  {
    hide Apply, Valid, Settled.StepSettled, Spec.ApplySpec, AbsVol, Spec.History;
    var d := CanonDisk(vols, payload, c);
    var s := AbsDisk(d);
    StepExact(d, c);
    assert s.buckets == Buckets(vols) && s.staging == Staged(payload, c);
    var vols' := Apply(d, c).disk.vols;
    assert Buckets(vols') == Spec.ApplySpec(s, c).state.buckets;
    var h, h' := KeyHistory(vols, p.bucket, p.key), KeyHistory(vols', p.bucket, p.key);
    if c.bucket != p.bucket {
      OtherBucketsKept(s, c, p.bucket);
    } else {
      BucketTraced(s, c, p.key);
      hide Buckets, ValidVols;
      forall e | 0 <= e < |h'| && h'[e].id == p.versionID ensures !h'[e].marker && h'[e].bytes == payload[p.token] {
        if !Inherited(h, h'[e]) {
          assert CreatedBy(s, c, h'[e]);
          assert SameID(c, p);
        }
      }
    }
  }

  /** PROVENANCE: in every replayed prefix, a version that carries a put's id carries its payload. */
  lemma {:induction false} Provenance(v0: map<string, Volume>, payload: map<string, Bytes>, log: seq<Command>, i: nat, j: nat)
    requires ValidVols(v0) && LogOK(v0, payload, log) && FreshIDs(v0, log)
    requires i < |log| && log[i].PutObject? && j <= |log|
    ensures log[i].token in payload
    ensures HoldsPayload(KeyHistory(Replay(v0, payload, log[..j]), log[i].bucket, log[i].key), log[i], payload)
    decreases j
  {
    hide ValidVols, LogOK, KeyHistory;
    PrefixOK(v0, payload, log, i);
    assert FreshAt(v0, log, i);
    if j == 0 {
      NothingYet(v0, payload, log, i);
    } else {
      Provenance(v0, payload, log, i, j - 1);
      PrefixOK(v0, payload, log, j - 1);
      var vols, c := Replay(v0, payload, log[..j - 1]), log[j - 1];
      ReplayValid(v0, payload, log[..j - 1]);
      assert log[..j][..j - 1] == log[..j - 1] && log[..j][j - 1] == c;
      hide EntryOK, HoldsPayload;
      PayloadStep(vols, payload, c, log[i]);
    }
  }

  lemma NothingYet(v0: map<string, Volume>, payload: map<string, Bytes>, log: seq<Command>, i: nat)
    requires i < |log| && log[i].PutObject? && log[i].token in payload && FreshAt(v0, log, i)
    ensures HoldsPayload(KeyHistory(Replay(v0, payload, log[..0]), log[i].bucket, log[i].key), log[i], payload)
  {
    hide Spec.History, Buckets;
    assert Replay(v0, payload, log[..0]) == v0;
  }
}
