/** Where settled runs come from: in buckets with versioning on, ids that are never used twice are
    enough to settle every write; in buckets that never had it, nothing more is needed. */
module Fresh {
  import opened Types
  import opened Store
  import opened Multipart
  import opened Machine
  import opened Spec
  import opened Settled
  import opened Rep
  import opened Runs

  // ---- orderly buckets ----

  predicate Holds(a: Bucket, k: string, i: int) { k in a.objects && 0 <= i < |a.objects[k]| }

  /** No id occurs twice in the bucket, under whatever keys. */
  ghost predicate Distinct(a: Bucket) {
    forall k, i, k', j | Holds(a, k, i) && Holds(a, k', j) && a.objects[k][i].id == a.objects[k'][j].id ::
      k == k' && i == j
  }

  predicate VersionOK(e: Version, used: set<string>) {
    && e.id != "" && e.id in used
    && (!e.marker ==> e.size == |e.bytes| && e.attrs.legalHold != Some(""))
  }

  /** A bucket with versioning on since before its first version, all of whose ids are distinct and
      among those used. */
  ghost predicate Versioned(a: Bucket, used: set<string>) {
    && Distinct(a)
    && (forall k, i | Holds(a, k, i) :: VersionOK(a.objects[k][i], used))
    && (forall k | k in a.objects :: a.objects[k] != [] && Enabled(WriteConfig(a)))
    && (forall u | u in a.uploads :: a.uploads[u].attrs.legalHold != Some(""))
  }

  /** Versioning was never set. */
  predicate Unversioned(mode: string) { mode != "Enabled" && mode != "Suspended" }

  predicate PlainList(h: seq<Version>) {
    |h| == 1 && h[0].id == "null" && !h[0].marker && h[0].size == |h[0].bytes| && h[0].attrs.legalHold != Some("")
  }

  /** A bucket without versioning: every key has one live version, the null version. */
  predicate Plain(a: Bucket) {
    && Unversioned(WriteConfig(a).versioning)
    && (forall k | k in a.objects :: PlainList(a.objects[k]))
    && (forall u | u in a.uploads :: a.uploads[u].attrs.legalHold != Some(""))
  }

  ghost predicate Orderly(a: Bucket, used: set<string>) { Versioned(a, used) || Plain(a) }

  /** Every bucket is of one of the two kinds. */
  ghost predicate OrderlyState(s: State, used: set<string>) {
    forall b | b in s.buckets :: Orderly(s.buckets[b], used)
  }

  // ---- sane commands ----

  /** The ids a command gives to new versions. */
  function Created(c: Command): set<string> {
    match c
    case PutObject(_, _, id, _, _, _, _) => {id}
    case CopyObject(_, _, id, _, _, _, _, _) => {id}
    case CompleteMultipart(_, _, id, _, _, _, _) => {id}
    case DeleteObject(_, _, id, explicit, _) => if id != "" && explicit then {} else {id}
    case _ => {}
  }

  /** A write to a bucket with versioning on, under an id never used before. */
  predicate FreshWrite(a: Bucket, id: string, used: set<string>) {
    Enabled(WriteConfig(a)) && id != "" && id !in used
  }

  /** A write to a bucket of either kind. */
  predicate SaneWrite(a: Bucket, id: string, used: set<string>) {
    Unversioned(WriteConfig(a).versioning) || FreshWrite(a, id, used)
  }

  /** The copied version is the destination's own live newest one, and versioning is on. */
  predicate CopiesItself(a: Bucket, c: Command)
    requires c.CopyObject? && c.source.Some?
  {
    var h, ref := History(a, c.key), c.source.value;
    && Enabled(WriteConfig(a)) && ref.bucket == c.bucket && ref.key == c.key && h != [] && !h[0].marker
    && (ref.versionID == "" || ref.versionID == h[0].id)
  }

  /** What a careful gateway sends: with versioning on, an id never used before on every write and no copy
      of a key's newest version onto itself; times and sizes on every write; no delete of a newest delete
      marker above a live version, no empty legal hold, and versioning switched only while a bucket has no
      objects. */
  predicate Sane(s: State, c: Command, used: set<string>) {
    var a := BucketOf(s.buckets, c.bucket);
    match c
    case PutObject(_, _, id, token, size, mtime, attrs) =>
      && SaneWrite(a, id, used) && mtime != 0 && attrs.legalHold != Some("")
      && (token in s.staging ==> size == |s.staging[token].bytes|)
    case CopyObject(_, _, id, source, mtime, _, _, _) =>
      SaneWrite(a, id, used) && mtime != 0 && (source.Some? ==> !CopiesItself(a, c))
    case CompleteMultipart(_, _, id, _, _, _, mtime) => SaneWrite(a, id, used) && mtime != 0
    case DeleteObject(_, k, id, explicit, _) =>
      if id != "" && explicit then DropSettled(History(a, k), id) else SaneWrite(a, id, used)
    case MutateMeta(_, _, _, mu) => mu != SetLegalHold("")
    case DeleteBucket(_) => a.objects == map[] ==> !a.sticky
    case CreateBucket(_, objectLock) => objectLock && a.config.None? ==> a.objects == map[]
    case PutVersioning(_, mode) =>
      a.objects == map[] || (if Enabled(WriteConfig(a)) then mode == "Enabled" else Unversioned(mode))
    case _ => true
  }

  // ---- one key's history replaced ----

  /** The new list of a key: its own versions again, with other attributes perhaps, and at most one new
      version. */
  ghost predicate Succeeds(h: seq<Version>, h': seq<Version>, added: set<string>, used: set<string>) {
    && (forall i, j | 0 <= i < |h'| && 0 <= j < |h'| && h'[i].id == h'[j].id :: i == j)
    && (forall i | 0 <= i < |h'| :: VersionOK(h'[i], used + added) && (HasID(h, h'[i].id) || h'[i].id in added))
  }

  lemma OtherIDs(a: Bucket, used: set<string>, k: string, k': string, j: int, id: string)
    requires Versioned(a, used) && k' != k && Holds(a, k', j) && HasID(History(a, k), id)
    ensures a.objects[k'][j].id != id
  {
    var i :| 0 <= i < |History(a, k)| && History(a, k)[i].id == id;
    assert Holds(a, k, i);
  }

  /** Replacing a history by a successor keeps the bucket orderly. */
  lemma SetOrderly(a: Bucket, used: set<string>, k: string, h': seq<Version>, added: set<string>)
    requires Versioned(a, used) && added !! used && Succeeds(History(a, k), h', added, used)
    requires h' != [] ==> Enabled(WriteConfig(a))
    ensures Versioned(SetHistory(a, k, h'), used + added)
  {
    var b := SetHistory(a, k, h');
    forall k1, i | Holds(b, k1, i) ensures VersionOK(b.objects[k1][i], used + added) && (k1 != k ==> Holds(a, k1, i)) {
      if k1 != k { assert Holds(a, k1, i) && VersionOK(a.objects[k1][i], used); }
    }
    forall k1, i, k2, j | Holds(b, k1, i) && Holds(b, k2, j) && b.objects[k1][i].id == b.objects[k2][j].id
      ensures k1 == k2 && i == j
    {
      if k1 == k && k2 != k {
        Apart(a, used, k, h', added, i, k2, j);
      } else if k2 == k && k1 != k {
        Apart(a, used, k, h', added, j, k1, i);
      } else if k1 != k {
        assert Holds(a, k1, i) && Holds(a, k2, j);
      }
    }
  }

  lemma Apart(a: Bucket, used: set<string>, k: string, h': seq<Version>, added: set<string>, i: nat, k': string, j: int)
    requires Versioned(a, used) && added !! used && Succeeds(History(a, k), h', added, used)
    requires i < |h'| && k' != k && Holds(a, k', j)
    ensures a.objects[k'][j].id != h'[i].id
  {
    assert VersionOK(a.objects[k'][j], used);
    if HasID(History(a, k), h'[i].id) { OtherIDs(a, used, k, k', j, h'[i].id); }
  }

  // ---- the histories that commands leave ----

  lemma HistoryOK(a: Bucket, used: set<string>, k: string)
    requires Versioned(a, used)
    ensures Succeeds(History(a, k), History(a, k), {}, used)
    ensures k in a.objects ==> Enabled(WriteConfig(a))
  {
    var h := History(a, k);
    forall i | 0 <= i < |h| ensures VersionOK(h[i], used + {}) && HasID(h, h[i].id) {
      assert Holds(a, k, i);
      assert used + {} == used;
    }
    forall i, j | 0 <= i < |h| && 0 <= j < |h| && h[i].id == h[j].id ensures i == j {
      assert Holds(a, k, i) && Holds(a, k, j);
    }
  }

  lemma TopSucceeds(h: seq<Version>, nv: Version, used: set<string>)
    requires Succeeds(h, h, {}, used) && nv.id !in used && VersionOK(nv, used + {nv.id})
    ensures Succeeds(h, [nv] + h, {nv.id}, used)
  {
    var h' := [nv] + h;
    forall i | 0 <= i < |h'| ensures VersionOK(h'[i], used + {nv.id}) && (HasID(h, h'[i].id) || h'[i].id in {nv.id}) {
      if i > 0 { assert h'[i] == h[i - 1] && VersionOK(h[i - 1], used + {}); }
    }
    forall i, j | 0 <= i < |h'| && 0 <= j < |h'| && h'[i].id == h'[j].id ensures i == j {
      if i > 0 { assert h'[i] == h[i - 1] && VersionOK(h[i - 1], used + {}); }
      if j > 0 { assert h'[j] == h[j - 1] && VersionOK(h[j - 1], used + {}); }
    }
  }

  /** What is left after dropping an id is a successor. */
  lemma {:induction false} DropSucceeds(h: seq<Version>, id: string, used: set<string>)
    requires Succeeds(h, h, {}, used)
    ensures Succeeds(h, Drop(h, id), {}, used)
    ensures forall i | 0 <= i < |Drop(h, id)| :: HasID(h, Drop(h, id)[i].id)
  {
    if h != [] {
      var t := h[1..];
      TailSucceeds(h, used);
      DropSucceeds(t, id, used);
      var d := Drop(t, id);
      forall i | 0 <= i < |d| ensures VersionOK(d[i], used + {}) && HasID(h, d[i].id) && d[i].id != h[0].id {
        assert HasID(t, d[i].id);
        var j :| 0 <= j < |t| && t[j].id == d[i].id;
        assert h[j + 1].id == d[i].id;
      }
      if h[0].id != id {
        var h' := [h[0]] + d;
        assert VersionOK(h[0], used + {}) && HasID(h, h[0].id);
        forall i, j | 0 <= i < |h'| && 0 <= j < |h'| && h'[i].id == h'[j].id ensures i == j {
          if i > 0 { assert h'[i] == d[i - 1]; }
          if j > 0 { assert h'[j] == d[j - 1]; }
        }
      }
    }
  }

  lemma TailSucceeds(h: seq<Version>, used: set<string>)
    requires h != [] && Succeeds(h, h, {}, used)
    ensures Succeeds(h[1..], h[1..], {}, used)
  {
    var t := h[1..];
    forall i | 0 <= i < |t| ensures VersionOK(t[i], used + {}) && HasID(t, t[i].id) {
      assert t[i] == h[i + 1] && VersionOK(h[i + 1], used + {});
    }
    forall i, j | 0 <= i < |t| && 0 <= j < |t| && t[i].id == t[j].id ensures i == j {
      assert h[i + 1].id == h[j + 1].id;
    }
  }

  lemma MutateSucceeds(h: seq<Version>, i: nat, at: Attrs, used: set<string>)
    requires Succeeds(h, h, {}, used) && i < |h| && (at.legalHold != Some("") || h[i].marker)
    ensures Succeeds(h, h[i := h[i].(attrs := at)], {}, used)
  {
    var h' := h[i := h[i].(attrs := at)];
    forall j | 0 <= j < |h'| ensures VersionOK(h'[j], used + {}) && HasID(h, h'[j].id) {
      assert h'[j].id == h[j].id && VersionOK(h[j], used + {});
    }
    forall j, n | 0 <= j < |h'| && 0 <= n < |h'| && h'[j].id == h'[n].id ensures j == n {
      assert h[j].id == h[n].id;
    }
  }

  // ---- sane commands are settled ----

  /** With versioning on, a version under a new id is settled and keeps the bucket orderly. */
  lemma WriteSettled(a: Bucket, used: set<string>, k: string, nv: Version)
    requires Versioned(a, used) && FreshWrite(a, nv.id, used) && nv.mtime != 0
    requires VersionOK(nv, used + {nv.id}) && !nv.marker
    ensures AddSettled(a, k, nv) && Versioned(AddVersion(a, k, nv), used + {nv.id})
  {
    var h := History(a, k);
    HistoryOK(a, used, k);
    forall i | 0 <= i < |h| ensures h[i].id != nv.id { assert VersionOK(h[i], used + {}); }
    NameFree(a, used, k);
    TopSucceeds(h, nv, used);
    SetOrderly(a, used, k, [nv] + h, {nv.id});
    DirOrderly(SetHistory(a, k, [nv] + h), used + {nv.id});
  }

  /** The newest version's id is not the name of another key's archived payload. */
  lemma NameFree(a: Bucket, used: set<string>, k: string)
    requires Versioned(a, used)
    ensures ArchiveFree(a, k, true)
  {
    assert History(a, k) != [] ==> Holds(a, k, 0);
    assert forall k', i | k' in a.objects && 1 <= i < |a.objects[k']| :: Holds(a, k', i);
  }

  lemma DirOrderly(a: Bucket, used: set<string>)
    requires Versioned(a, used)
    ensures Versioned(a.(dir := true), used)
  {
    var b := a.(dir := true);
    forall k, i | Holds(b, k, i) ensures VersionOK(b.objects[k][i], used) { assert Holds(a, k, i); }
    forall k, i, k', j | Holds(b, k, i) && Holds(b, k', j) && b.objects[k][i].id == b.objects[k'][j].id ensures k == k' && i == j {
      assert Holds(a, k, i) && Holds(a, k', j);
    }
  }

  /** Other configuration and uploads, the same objects. */
  lemma SameObjectsOrderly(a: Bucket, b: Bucket, used: set<string>)
    requires Versioned(a, used) && b.objects == a.objects
    requires a.objects != map[] ==> Enabled(WriteConfig(b))
    requires forall u | u in b.uploads :: b.uploads[u].attrs.legalHold != Some("")
    ensures Versioned(b, used)
  {
    forall k, i | Holds(b, k, i) ensures VersionOK(b.objects[k][i], used) { assert Holds(a, k, i); }
    forall k, i, k', j | Holds(b, k, i) && Holds(b, k', j) && b.objects[k][i].id == b.objects[k'][j].id ensures k == k' && i == j {
      assert Holds(a, k, i) && Holds(a, k', j);
    }
  }

  // ---- buckets without versioning ----

  lemma {:induction false} DropPlain(h: seq<Version>, id: string)
    requires h == [] || PlainList(h)
    ensures Drop(h, id) == if id == "null" then [] else h
  {
    if h != [] {
      assert h[1..] == [] && Drop(h[1..], id) == [];
    }
  }

  lemma SetPlain(a: Bucket, k: string, h: seq<Version>)
    requires Plain(a) && (h == [] || PlainList(h))
    ensures Plain(SetHistory(a, k, h)) && Plain(SetHistory(a, k, h).(dir := true))
  {
  }

  /** The new null version takes the place of the old one. */
  lemma PlainWrite(a: Bucket, k: string, nv: Version)
    requires Plain(a) && PlainList([nv]) && nv.mtime != 0
    ensures AddSettled(a, k, nv) && Plain(AddVersion(a, k, nv))
  {
    var h := History(a, k);
    DropPlain(h, "null");
    SetPlain(a, k, [nv]);
    assert Added(h, false, nv) == [nv];
  }

  lemma PlainDelete(a: Bucket, k: string, id: string, explicit: bool, mtime: nat)
    requires Plain(a)
    ensures id != "" && explicit ==> DropSettled(History(a, k), id)
    ensures !(id != "" && explicit) ==> DeleteSettled(a, k, id)
    ensures Plain(DeleteSpec(a, k, id, explicit, mtime))
  {
    var h := History(a, k);
    DropPlain(h, id);
    DropPlain(h, "null");
    SetPlain(a, k, []);
    SetPlain(a, k, h);
  }

  lemma PlainMutate(a: Bucket, k: string, id: string, mu: Mutation)
    requires Plain(a) && mu != SetLegalHold("")
    ensures MutateSettled(a, k, id, mu) && Plain(MutateSpec(a, k, id, mu).0)
  {
    hide SetHistory;
    var h := History(a, k);
    var r := MutateSpec(a, k, id, mu);
    if r.1 == NoError {
      var i := if id == "" then 0 else Spec.Find(h, id);
      SetPlain(a, k, h[i := h[i].(attrs := Mutated(h[i].attrs, mu))]);
    }
  }

  /** Where versioning was never set, an orderly bucket is plain; where it is on, it is versioned. */
  lemma Kind(a: Bucket, used: set<string>)
    requires Orderly(a, used)
    ensures Unversioned(WriteConfig(a).versioning) ==> Plain(a)
    ensures Enabled(WriteConfig(a)) ==> Versioned(a, used)
  {
    if Versioned(a, used) && Unversioned(WriteConfig(a).versioning) {
      forall k ensures k !in a.objects {}
    }
  }

  // ---- both kinds ----

  lemma MoreUsed(a: Bucket, used: set<string>, more: set<string>)
    requires Orderly(a, used) && used <= more
    ensures Orderly(a, more)
  {
    if Versioned(a, used) {
      forall k, i | Holds(a, k, i) ensures VersionOK(a.objects[k][i], more) { assert VersionOK(a.objects[k][i], used); }
    }
  }

  lemma BucketOrderly(s: State, used: set<string>, b: string)
    requires OrderlyState(s, used)
    ensures Orderly(BucketOf(s.buckets, b), used)
  {}

  /** A step that replaces one bucket by an orderly one. */
  lemma StateOrderly(s: State, used: set<string>, b: string, a: Bucket, staging: map<string, File>, more: set<string>)
    requires OrderlyState(s, used) && Orderly(a, more) && used <= more
    ensures OrderlyState(WithBucket(s.(staging := staging), b, a), more)
  {
    hide Orderly;
    var t := WithBucket(s.(staging := staging), b, a);
    forall x | x in t.buckets ensures Orderly(t.buckets[x], more) {
      if x != b { MoreUsed(s.buckets[x], used, more); }
    }
  }

  lemma StillOrderly(s: State, used: set<string>, more: set<string>)
    requires OrderlyState(s, used) && used <= more
    ensures OrderlyState(s, more)
  {
    hide Orderly;
    forall b | b in s.buckets ensures Orderly(s.buckets[b], more) { MoreUsed(s.buckets[b], used, more); }
  }

  lemma NewOK(bm: BucketMeta, id: string, bytes: Bytes, size: nat, mtime: nat, at: Attrs, used: set<string>)
    requires size == |bytes| && at.legalHold != Some("")
    ensures var nv := NewVersion(bm, id, bytes, size, mtime, at);
      && nv.mtime == mtime && !nv.marker
      && (Enabled(bm) && id != "" ==> nv.id == id && VersionOK(nv, used + {id}))
      && (!Enabled(bm) ==> PlainList([nv]))
  {}

  /** A sane write of a well-described version is settled and keeps the bucket orderly. */
  lemma WriteSane(a: Bucket, used: set<string>, k: string, id: string, bytes: Bytes, size: nat, mtime: nat, at: Attrs)
    requires Orderly(a, used) && SaneWrite(a, id, used) && mtime != 0 && size == |bytes| && at.legalHold != Some("")
    ensures var nv := NewVersion(WriteConfig(a), id, bytes, size, mtime, at);
      AddSettled(a, k, nv) && Orderly(AddVersion(a, k, nv), used + {id})
  {
    hide Versioned, Plain, AddVersion, AddSettled, NewVersion, PlainList;
    var nv := NewVersion(WriteConfig(a), id, bytes, size, mtime, at);
    NewOK(WriteConfig(a), id, bytes, size, mtime, at, used);
    Kind(a, used);
    if Enabled(WriteConfig(a)) {
      WriteSettled(a, used, k, nv);
    } else {
      PlainWrite(a, k, nv);
    }
  }

  lemma PutSane(s: State, used: set<string>, c: Command)
    requires OrderlyState(s, used) && c.PutObject? && Sane(s, c, used)
    ensures PutSettled(s, c) && OrderlyState(PutSpec(s, c).state, used + Created(c))
  {
    hide Orderly, AddVersion, AddSettled, LockDefaults;
    var a := BucketOf(s.buckets, c.bucket);
    BucketOrderly(s, used, c.bucket);
    if c.token in s.staging {
      var bytes := s.staging[c.token].bytes;
      WriteSane(a, used, c.key, c.versionID, bytes, c.size, c.mtime, c.attrs);
      var nv := NewVersion(WriteConfig(a), c.versionID, bytes, c.size, c.mtime, c.attrs);
      StateOrderly(s, used, c.bucket, AddVersion(a, c.key, nv), s.staging - {c.token}, used + {c.versionID});
    } else {
      StillOrderly(s, used, used + Created(c));
    }
  }

  lemma CopySane(s: State, used: set<string>, c: Command)
    requires OrderlyState(s, used) && c.CopyObject? && Sane(s, c, used)
    ensures CopySettled(s, c) && OrderlyState(CopySpec(s, c).state, used + Created(c))
  {
    hide Orderly, AddVersion, AddSettled, LockDefaults, Lookup;
    var a := BucketOf(s.buckets, c.bucket);
    BucketOrderly(s, used, c.bucket);
    StillOrderly(s, used, used + Created(c));
    if c.source.Some? {
      var ref := c.source.value;
      var src := Lookup(BucketOf(s.buckets, ref.bucket), ref.key, ref.versionID);
      if src.err == NoError && !src.version.marker {
        BucketOrderly(s, used, ref.bucket);
        LookupOK(BucketOf(s.buckets, ref.bucket), used, ref.key, ref.versionID);
        var at := CopyAttrs(src.version.attrs, c);
        WriteSane(a, used, c.key, c.versionID, src.version.bytes, src.version.size, c.mtime, at);
        var nv := NewVersion(WriteConfig(a), c.versionID, src.version.bytes, src.version.size, c.mtime, at);
        StateOrderly(s, used, c.bucket, AddVersion(a, c.key, nv), s.staging, used + {c.versionID});
        SelfCopySettled(a, used, c);
      }
    }
  }

  /** Only with versioning on is a copied file archived before it is read. */
  lemma SelfCopySettled(a: Bucket, used: set<string>, c: Command)
    requires Orderly(a, used) && c.CopyObject? && c.source.Some? && !CopiesItself(a, c) && SaneWrite(a, c.versionID, used)
    ensures var h, ref := History(a, c.key), c.source.value;
      !(ref.bucket == c.bucket && ref.key == c.key && Archives(h, Enabled(WriteConfig(a)))
        && (ref.versionID == "" || ref.versionID == h[0].id))
  {
    Kind(a, used);
  }

  lemma LookupOK(a: Bucket, used: set<string>, k: string, id: string)
    requires Orderly(a, used) && Lookup(a, k, id).err == NoError && !Lookup(a, k, id).version.marker
    ensures var e := Lookup(a, k, id).version; e.size == |e.bytes| && e.attrs.legalHold != Some("")
  {
    var h := History(a, k);
    var i := if id == "" then 0 else Spec.Find(h, id);
    assert Holds(a, k, i);
  }

  lemma CompleteSane(s: State, used: set<string>, c: Command)
    requires OrderlyState(s, used) && c.CompleteMultipart? && Sane(s, c, used)
    ensures CompleteSettled(s, c) && OrderlyState(CompleteSpec(s, c).state, used + Created(c))
  {
    hide Orderly, AddVersion, AddSettled, LockDefaults, Chosen, Assemble, MultipartETag;
    var a := BucketOf(s.buckets, c.bucket);
    BucketOrderly(s, used, c.bucket);
    StillOrderly(s, used, used + Created(c));
    if c.uploadID in a.uploads {
      var up := a.uploads[c.uploadID];
      var ch := Chosen(up, c.wanted, s.parts, c.uploadID);
      if ch.err == NoError {
        var bytes := Assemble(s.parts, c.uploadID, ch.parts);
        var at := up.attrs.(etag := MultipartETag(PartEtags(ch.parts)));
        UploadOK(a, used, c.uploadID);
        WriteSane(a, used, c.key, c.versionID, bytes, |bytes|, c.mtime, at);
        var nv := NewVersion(WriteConfig(a), c.versionID, bytes, |bytes|, c.mtime, at);
        var a1 := AddVersion(a, c.key, nv);
        var a2 := a1.(uploads := a1.uploads - {c.uploadID});
        UploadGone(a1, used + {c.versionID}, c.uploadID);
        StateOrderly(s, used, c.bucket, a2, s.staging - {c.token}, used + {c.versionID});
      }
    }
  }

  lemma UploadOK(a: Bucket, used: set<string>, u: string)
    requires Orderly(a, used) && u in a.uploads
    ensures a.uploads[u].attrs.legalHold != Some("")
  {}

  lemma UploadGone(a: Bucket, used: set<string>, u: string)
    requires Orderly(a, used)
    ensures Orderly(a.(uploads := a.uploads - {u}), used)
  {
    UploadsOrderly(a, used, a.uploads - {u});
  }

  lemma KeptEnabled(a: Bucket, used: set<string>)
    requires Versioned(a, used)
    ensures a.objects != map[] ==> Enabled(WriteConfig(a))
  {
    if a.objects != map[] { var k :| k in a.objects; }
  }

  lemma VersionedDelete(a: Bucket, used: set<string>, c: Command)
    requires Versioned(a, used) && c.DeleteObject?
    requires (c.versionID != "" && c.explicit) || FreshWrite(a, c.versionID, used)
    ensures !(c.versionID != "" && c.explicit) ==> DeleteSettled(a, c.key, c.versionID)
    ensures Versioned(DeleteSpec(a, c.key, c.versionID, c.explicit, c.mtime), used + Created(c))
  {
    hide Versioned, SetHistory;
    var h := History(a, c.key);
    HistoryOK(a, used, c.key);
    if c.versionID != "" && c.explicit {
      DropSucceeds(h, c.versionID, used);
      assert {} !! used && used + {} == used;
      SetOrderly(a, used, c.key, Drop(h, c.versionID), {});
    } else {
      MarkSettled(a, used, c.key, c.versionID, c.mtime);
    }
  }

  lemma DeleteSane(s: State, used: set<string>, c: Command)
    requires OrderlyState(s, used) && c.DeleteObject? && Sane(s, c, used)
    ensures StepSettled(s, c) && OrderlyState(ApplySpec(s, c).state, used + Created(c))
  {
    var a := BucketOf(s.buckets, c.bucket);
    BucketOrderly(s, used, c.bucket);
    hide Versioned, Plain, DeleteSpec, DropSettled, DeleteSettled;
    Kind(a, used);
    if Plain(a) {
      PlainDelete(a, c.key, c.versionID, c.explicit, c.mtime);
    } else {
      assert (c.versionID != "" && c.explicit) || FreshWrite(a, c.versionID, used);
      VersionedDelete(a, used, c);
    }
    StateOrderly(s, used, c.bucket, DeleteSpec(a, c.key, c.versionID, c.explicit, c.mtime), s.staging, used + Created(c));
  }

  /** With versioning on, a delete marker under a new id is settled. */
  lemma MarkSettled(a: Bucket, used: set<string>, k: string, id: string, mtime: nat)
    requires Versioned(a, used) && FreshWrite(a, id, used)
    ensures DeleteSettled(a, k, id)
    ensures Versioned(SetHistory(a, k, Deleted(History(a, k), WriteConfig(a).versioning, id, mtime)), used + {id})
  {
    var h := History(a, k);
    HistoryOK(a, used, k);
    forall i | 0 <= i < |h| ensures h[i].id != id { assert VersionOK(h[i], used + {}); }
    NameFree(a, used, k);
    TopSucceeds(h, Marker(id, mtime), used);
    SetOrderly(a, used, k, [Marker(id, mtime)] + h, {id});
  }

  lemma VersionedMutate(a: Bucket, used: set<string>, c: Command)
    requires Versioned(a, used) && c.MutateMeta? && c.mutation != SetLegalHold("")
    ensures Versioned(MutateSpec(a, c.key, c.versionID, c.mutation).0, used)
  {
    hide Versioned, SetHistory;
    var h := History(a, c.key);
    HistoryOK(a, used, c.key);
    var r := MutateSpec(a, c.key, c.versionID, c.mutation);
    assert used + {} == used;
    if r.1 == NoError {
      var i := if c.versionID == "" then 0 else Spec.Find(h, c.versionID);
      var at := Mutated(h[i].attrs, c.mutation);
      assert VersionOK(h[i], used + {});
      MutateSucceeds(h, i, at, used);
      SetOrderly(a, used, c.key, h[i := h[i].(attrs := at)], {});
    }
  }

  lemma MutateSane(s: State, used: set<string>, c: Command)
    requires OrderlyState(s, used) && c.MutateMeta? && Sane(s, c, used)
    ensures StepSettled(s, c) && OrderlyState(ApplySpec(s, c).state, used + Created(c))
  {
    var a := BucketOf(s.buckets, c.bucket);
    BucketOrderly(s, used, c.bucket);
    hide Versioned, Plain, MutateSpec;
    if Plain(a) {
      PlainMutate(a, c.key, c.versionID, c.mutation);
    } else {
      VersionedMutate(a, used, c);
    }
    assert used + {} == used;
    StateOrderly(s, used, c.bucket, MutateSpec(a, c.key, c.versionID, c.mutation).0, s.staging, used);
  }

  predicate TouchesNoVersion(c: Command) {
    c.CreateBucket? || c.DeleteBucket? || c.PutVersioning? || c.PutLockConfig? || c.CreateMultipart? || c.UploadPart? || c.AbortMultipart?
  }

  lemma SameElsewhere(s: State, c: Command)
    requires TouchesNoVersion(c)
    ensures var t := ApplySpec(s, c).state;
      forall b | b in t.buckets && b != c.bucket :: b in s.buckets && t.buckets[b] == s.buckets[b]
  {
    hide CreateSpec, ConfigSpec, RemoveSpec, Record;
  }

  /** Other configuration and uploads, the same objects, of the same kind. */
  lemma SameKind(a: Bucket, b: Bucket, used: set<string>)
    requires Orderly(a, used) && b.objects == a.objects
    requires a.objects != map[] ==>
      (if Enabled(WriteConfig(a)) then Enabled(WriteConfig(b)) else Unversioned(WriteConfig(b).versioning))
    requires forall u | u in b.uploads :: b.uploads[u].attrs.legalHold != Some("")
    ensures Orderly(b, used)
  {
    if a.objects == map[] {
      NoObjects(b, used);
    } else if Versioned(a, used) {
      KeptEnabled(a, used);
      SameObjectsOrderly(a, b, used);
    }
  }

  lemma NoObjects(b: Bucket, used: set<string>)
    requires b.objects == map[] && forall u | u in b.uploads :: b.uploads[u].attrs.legalHold != Some("")
    ensures Versioned(b, used)
  {}

  lemma UploadsFine(a: Bucket, used: set<string>)
    requires Orderly(a, used)
    ensures forall u | u in a.uploads :: a.uploads[u].attrs.legalHold != Some("")
    ensures a.objects != map[] ==> Enabled(WriteConfig(a)) || Unversioned(WriteConfig(a).versioning)
  {
    if Versioned(a, used) { KeptEnabled(a, used); }
  }

  lemma ConfigOrderly(a: Bucket, used: set<string>, c: Command)
    requires Orderly(a, used) && (c.CreateBucket? || c.PutVersioning? || c.PutLockConfig?)
    requires c.CreateBucket? ==> c.objectLock && a.config.None? ==> a.objects == map[]
    requires c.PutVersioning? ==>
      a.objects == map[] || (if Enabled(WriteConfig(a)) then c.mode == "Enabled" else Unversioned(c.mode))
    ensures c.CreateBucket? ==> Orderly(CreateSpec(a, c.bucket, c.objectLock).0, used)
    ensures c.PutVersioning? ==> Orderly(ConfigSpec(a, Some(c.mode), None).0, used)
    ensures c.PutLockConfig? ==> Orderly(ConfigSpec(a, None, Some(c.lock)).0, used)
  {
    hide Orderly;
    UploadsFine(a, used);
    var b := match c
      case CreateBucket(b, lock) => CreateSpec(a, b, lock).0
      case PutVersioning(_, mode) => ConfigSpec(a, Some(mode), None).0
      case PutLockConfig(_, lock) => ConfigSpec(a, None, Some(lock)).0;
    SameKind(a, b, used);
  }

  lemma UploadsOrderly(a: Bucket, used: set<string>, uploads: map<string, Upload>)
    requires Orderly(a, used) && forall u | u in uploads :: uploads[u].attrs.legalHold != Some("")
    ensures Orderly(a.(uploads := uploads), used)
  {
    hide Orderly;
    UploadsFine(a, used);
    SameKind(a, a.(uploads := uploads), used);
  }

  /** The bucket after a command that touches no version. */
  lemma BucketStaysOrderly(s: State, used: set<string>, c: Command)
    requires Orderly(BucketOf(s.buckets, c.bucket), used) && TouchesNoVersion(c) && Sane(s, c, used)
    ensures Orderly(BucketOf(ApplySpec(s, c).state.buckets, c.bucket), used)
  {
    var a := BucketOf(s.buckets, c.bucket);
    UploadsFine(a, used);
    NoObjects(NO_BUCKET, used);
    hide Orderly, CreateSpec, ConfigSpec, Record;
    match c
    case CreateMultipart(_, k, u, mtime, at) =>
      UploadsOrderly(a, used, a.uploads[u := Upload(k, mtime, UploadAttrs(at), [])]);
    case AbortMultipart(_, u) => UploadsOrderly(a, used, a.uploads - {u});
    case UploadPart(_, u, part, etag, size, mtime) =>
      if u in a.uploads {
        var up := a.uploads[u];
        UploadsOrderly(a, used, a.uploads[u := up.(parts := Record(up.parts, Part(part, etag, size, mtime)))]);
      }
    case DeleteBucket(_) =>
    case _ => ConfigOrderly(a, used, c);
  }

  /** The commands that touch no version. */
  lemma ConfigSane(s: State, used: set<string>, c: Command)
    requires OrderlyState(s, used) && TouchesNoVersion(c) && Sane(s, c, used)
    ensures StepSettled(s, c) && OrderlyState(ApplySpec(s, c).state, used)
  {
    BucketOrderly(s, used, c.bucket);
    hide Orderly, ApplySpec;
    BucketStaysOrderly(s, used, c);
    SameElsewhere(s, c);
    var t := ApplySpec(s, c).state;
    forall b | b in t.buckets ensures Orderly(t.buckets[b], used) {
      if b == c.bucket { assert t.buckets[b] == BucketOf(t.buckets, b); }
    }
  }

  /** STEP: in an orderly state a sane command is settled, and the state stays orderly. */
  lemma SaneStep(s: State, used: set<string>, c: Command)
    requires OrderlyState(s, used) && Sane(s, c, used)
    ensures StepSettled(s, c) && OrderlyState(ApplySpec(s, c).state, used + Created(c))
  {
    hide OrderlyState;
    match c
    case PutObject(_, _, _, _, _, _, _) => PutSane(s, used, c);
    case CopyObject(_, _, _, _, _, _, _, _) => CopySane(s, used, c);
    case CompleteMultipart(_, _, _, _, _, _, _) => CompleteSane(s, used, c);
    case DeleteObject(_, _, _, _, _) => DeleteSane(s, used, c);
    case MutateMeta(_, _, _, _) => MutateSane(s, used, c);
    case _ =>
      ConfigSane(s, used, c);
      assert used + Created(c) == used;
  }

  // ---- runs ----

  function UsedBy(used: set<string>, es: seq<Event>): set<string> {
    if es == [] then used
    else
      var last := |es| - 1;
      UsedBy(used, es[..last]) + if es[last].Commit? then Created(es[last].command) else {}
  }

  /** Every command of the run is sane where it runs. */
  predicate SaneRun(s: State, used: set<string>, es: seq<Event>) {
    if es == [] then true
    else
      var last := |es| - 1;
      && SaneRun(s, used, es[..last])
      && (es[last].Commit? ==> Sane(RunSpec(s, es[..last]), es[last].command, UsedBy(used, es[..last])))
  }

  lemma {:induction false} SaneRunSettled(s: State, used: set<string>, es: seq<Event>)
    requires OrderlyState(s, used) && SaneRun(s, used, es)
    ensures SettledRun(s, es) && OrderlyState(RunSpec(s, es), UsedBy(used, es))
  {
    if es != [] {
      hide Sane, StepSettled, ApplySpec, Created;
      var last := |es| - 1;
      SaneRunSettled(s, used, es[..last]);
      hide OrderlyState;
      var t, now := RunSpec(s, es[..last]), UsedBy(used, es[..last]);
      if es[last].Commit? {
        SaneStep(t, now, es[last].command);
      } else {
        StagingOrderly(t, now, es[last]);
        assert now + {} == now;
      }
    }
  }

  lemma StagingOrderly(s: State, used: set<string>, e: Event)
    requires OrderlyState(s, used) && !e.Commit?
    ensures OrderlyState(HappenSpec(s, e), used)
  {}

  /** MAIN THEOREM: from an orderly disk, every run of sane commands, with payloads staged and swept at
      will, refines the version lists at every step. */
  lemma SaneRunAgrees(d: Disk, used: set<string>, es: seq<Event>)
    requires ValidDisk(d) && OrderlyState(AbsDisk(d), used) && SaneRun(AbsDisk(d), used, es)
    ensures RunAgrees(d, es) && ValidDisk(Run(d, es)) && AbsDisk(Run(d, es)) == RunSpec(AbsDisk(d), es)
  {
    hide ValidDisk, AbsDisk, OrderlyState, SaneRun, RunAgrees, SettledRun;
    SaneRunSettled(AbsDisk(d), used, es);
    RunExact(d, es);
  }

  /** The empty disk is orderly, so nothing but the commands decides. */
  lemma EmptyOrderly()
    ensures ValidDisk(Disk(map[], map[], map[])) && OrderlyState(AbsDisk(Disk(map[], map[], map[])), {})
  {}
}
