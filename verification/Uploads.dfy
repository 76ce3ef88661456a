/** What multipart uploads promise: an ordered part list in which the last upload of a number wins,
    and a completion that stores the chosen parts under the ETag the gateway announced. */
module Uploads {
  import opened Types
  import opened Store
  import opened Multipart
  import opened Machine
  import opened Rep
  import opened Reads
  import opened Refinement
  import opened Runs
  import opened Shards
  import XMeta
  import Spec
  import Settled

  // ---- the part list ----

  /** The recorded part with this number, if any. */
  function PartOf(parts: seq<Part>, n: int): Option<Part> {
    var i := Find(parts, n);
    if i < |parts| then Some(parts[i]) else None
  }

  lemma {:induction false} RecordMembers(parts: seq<Part>, p: Part)
    ensures p in Record(parts, p)
    ensures forall q | q in Record(parts, p) :: q == p || q in parts
  {
    if parts != [] && parts[0].number < p.number {
      RecordMembers(parts[1..], p);
      var r := Record(parts[1..], p);
      assert Record(parts, p) == [parts[0]] + r;
      forall q | q in [parts[0]] + r ensures q == p || q in parts {
        if q != parts[0] { assert q in r; if q != p { assert q in parts[1..]; } }
      }
      assert p in r && p in [parts[0]] + r;
    } else {
      assert p == Record(parts, p)[0];
    }
  }

  lemma {:induction false} RecordAscending(parts: seq<Part>, p: Part)
    requires Ascending(parts)
    ensures Ascending(Record(parts, p))
  {
    if parts != [] && parts[0].number < p.number {
      var rest := parts[1..];
      assert forall i | 0 <= i < |rest| :: rest[i] == parts[i + 1];
      RecordAscending(rest, p);
      RecordMembers(rest, p);
      var r := Record(rest, p);
      forall j | 0 <= j < |r| ensures parts[0].number < r[j].number {
        assert r[j] in r;
      }
      AscendingCons(parts[0], r);
    } else if parts != [] && p.number < parts[0].number {
      AscendingCons(p, parts);
    } else if parts != [] {
      var rest := parts[1..];
      assert forall i | 0 <= i < |rest| :: rest[i] == parts[i + 1];
      AscendingCons(p, rest);
    }
  }

  lemma AscendingCons(p: Part, rest: seq<Part>)
    requires Ascending(rest) && forall j | 0 <= j < |rest| :: p.number < rest[j].number
    ensures Ascending([p] + rest)
  {
    var r := [p] + rest;
    forall i, j | 0 <= i < j < |r| ensures r[i].number < r[j].number {
      assert r[j] == rest[j - 1];
    }
  }

  /** In an ascending list a part is found under its number. */
  lemma FindIs(parts: seq<Part>, i: nat)
    requires Ascending(parts) && i < |parts|
    ensures Find(parts, parts[i].number) == i
  {
    var j := Find(parts, parts[i].number);
    if j < i {} else if i < j {}
  }

  /** Recording a part changes what is found under its number, and nothing else. */
  lemma {:induction false} RecordFinds(parts: seq<Part>, p: Part, n: int)
    requires Ascending(parts)
    ensures PartOf(Record(parts, p), n) == if n == p.number then Some(p) else PartOf(parts, n)
  {
    if parts != [] {
      var rest := parts[1..];
      assert forall i | 0 <= i < |rest| :: rest[i] == parts[i + 1];
      if parts[0].number < p.number {
        RecordFinds(rest, p, n);
        assert Record(parts, p)[1..] == Record(rest, p);
      } else if parts[0].number == p.number {
        assert Record(parts, p)[1..] == rest;
      } else {
        assert Record(parts, p)[1..] == parts;
      }
    }
  }

  /** The list after a sequence of uploads. */
  function AfterUploads(ups: seq<Part>): seq<Part> {
    if ups == [] then [] else Record(AfterUploads(ups[..|ups| - 1]), ups[|ups| - 1])
  }

  /** The last upload of a number. */
  function LastUpload(ups: seq<Part>, n: int): Option<Part> {
    if ups == [] then None
    else if ups[|ups| - 1].number == n then Some(ups[|ups| - 1])
    else LastUpload(ups[..|ups| - 1], n)
  }

  /** After any sequence of uploads the list is strictly ascending and holds, for every number, the
      last part uploaded under it. */
  lemma {:induction false} LastUploadWins(ups: seq<Part>, n: int)
    ensures Ascending(AfterUploads(ups))
    ensures PartOf(AfterUploads(ups), n) == LastUpload(ups, n)
  {
    if ups != [] {
      var init := ups[..|ups| - 1];
      LastUploadWins(init, n);
      RecordAscending(AfterUploads(init), ups[|ups| - 1]);
      RecordFinds(AfterUploads(init), ups[|ups| - 1], n);
    }
  }

  // ---- ETags ----

  function Quotes(n: nat): string { if n == 0 then "" else "\"" + Quotes(n - 1) }

  /** No quote at either end. */
  predicate Bare(s: string) { s == "" || (s[0] != '"' && s[|s| - 1] != '"') }

  /** `s` is `x` between so many quotes. */
  predicate Wraps(s: string, x: string, i: nat, j: nat) { s == Quotes(i) + x + Quotes(j) }

  /** One bare text, quoted in whatever way on either side. */
  ghost predicate SameButQuotes(a: string, b: string) {
    exists x, i, j, m, n :: Bare(x) && Wraps(a, x, i, j) && Wraps(b, x, m, n)
  }

  lemma {:induction false} QuotesEnd(n: nat)
    requires n > 0
    ensures Quotes(n) == Quotes(n - 1) + "\""
  {
    if n > 1 { QuotesEnd(n - 1); }
  }

  lemma TrimFront(s: string)
    ensures TrimQuotes("\"" + s) == TrimQuotes(s)
  {
    assert ("\"" + s)[1..] == s;
  }

  lemma {:induction false} TrimBack(s: string)
    ensures TrimQuotes(s + "\"") == TrimQuotes(s)
  {
    var t := s + "\"";
    if s == "" {
      assert t[1..] == "";
    } else if s[0] == '"' {
      TrimBack(s[1..]);
      assert t[1..] == s[1..] + "\"";
    } else {
      assert t[..|t| - 1] == s;
    }
  }

  lemma {:induction false} TrimWrapped(s: string, x: string, i: nat, j: nat)
    requires Wraps(s, x, i, j) && Bare(x)
    ensures TrimQuotes(s) == x
    decreases i + j
  {
    if i > 0 {
      var rest := Quotes(i - 1) + x + Quotes(j);
      assert s == "\"" + rest;
      TrimFront(rest);
      TrimWrapped(rest, x, i - 1, j);
    } else if j > 0 {
      var rest := Quotes(0) + x + Quotes(j - 1);
      QuotesEnd(j);
      assert s == rest + "\"";
      TrimBack(rest);
      TrimWrapped(rest, x, 0, j - 1);
    } else {
      assert s == x;
    }
  }

  lemma {:induction false} Unwrapped(s: string) returns (i: nat, j: nat)
    ensures Bare(TrimQuotes(s)) && Wraps(s, TrimQuotes(s), i, j)
  {
    if s != "" && s[0] == '"' {
      i, j := Unwrapped(s[1..]);
      assert s == "\"" + s[1..];
      i := i + 1;
    } else if s != "" && s[|s| - 1] == '"' {
      var init := s[..|s| - 1];
      i, j := Unwrapped(init);
      QuotesEnd(j + 1);
      assert s == init + "\"";
      j := j + 1;
    } else {
      i, j := 0, 0;
    }
  }

  lemma EtagBare(a: string, b: string)
    requires Bare(a) && Bare(b)
    ensures EtagEqual(a, b) <==> a == b
  {
    assert Wraps(a, a, 0, 0) && Wraps(b, b, 0, 0);
    TrimWrapped(a, a, 0, 0);
    TrimWrapped(b, b, 0, 0);
    hide TrimQuotes, Quotes;
  }

  /** EXACT: two ETags are equal if and only if they are one text up to quotes around it. */
  lemma EtagExact(a: string, b: string)
    ensures EtagEqual(a, b) <==> SameButQuotes(a, b)
    ensures Bare(a) && Bare(b) ==> (EtagEqual(a, b) <==> a == b)
  {
    hide TrimQuotes, Quotes, Wraps;
    if SameButQuotes(a, b) {
      var x, i, j, m, n :| Bare(x) && Wraps(a, x, i, j) && Wraps(b, x, m, n);
      TrimWrapped(a, x, i, j);
      TrimWrapped(b, x, m, n);
    }
    var i, j := Unwrapped(a);
    var m, n := Unwrapped(b);
    if EtagEqual(a, b) { assert Wraps(a, TrimQuotes(a), i, j) && Wraps(b, TrimQuotes(a), m, n); }
    if Bare(a) && Bare(b) { EtagBare(a, b); }
  }

  // ---- completion ----

  function Before(wanted: seq<CompletedPart>, prev: int, i: nat): int
    requires i <= |wanted|
  {
    if i == 0 then prev else wanted[i - 1].number
  }

  /** What a completion asks for is acceptable at position `i`. */
  ghost predicate Acceptable(uploaded: seq<Part>, wanted: seq<CompletedPart>, prev: int, i: nat)
    requires i < |wanted|
  {
    && Before(wanted, prev, i) < wanted[i].number
    && PartOf(uploaded, wanted[i].number).Some?
    && SameButQuotes(PartOf(uploaded, wanted[i].number).value.etag, wanted[i].etag)
  }

  lemma AcceptableIs(uploaded: seq<Part>, wanted: seq<CompletedPart>, prev: int, i: nat)
    requires i < |wanted|
    ensures var found := PartOf(uploaded, wanted[i].number);
      Acceptable(uploaded, wanted, prev, i) <==>
      Before(wanted, prev, i) < wanted[i].number && found.Some? && EtagEqual(found.value.etag, wanted[i].etag)
  {
    var found := PartOf(uploaded, wanted[i].number);
    if found.Some? { EtagExact(found.value.etag, wanted[i].etag); }
  }

  /** Choosing succeeds exactly when the numbers ascend and every part was uploaded with that ETag;
      the chosen parts are then the uploaded ones. */
  lemma {:induction false} ChooseExact(uploaded: seq<Part>, wanted: seq<CompletedPart>, prev: int)
    ensures var ch := Choose(uploaded, wanted, prev);
      && (ch.err == NoError <==> forall i | 0 <= i < |wanted| :: Acceptable(uploaded, wanted, prev, i))
      && (ch.err == NoError ==> |ch.parts| == |wanted|)
      && (ch.err == NoError ==> forall i | 0 <= i < |wanted| :: Some(ch.parts[i]) == PartOf(uploaded, wanted[i].number))
  {
    hide SameButQuotes, EtagEqual;
    if wanted != [] {
      AcceptableIs(uploaded, wanted, prev, 0);
      var rest := wanted[1..];
      ChooseExact(uploaded, rest, wanted[0].number);
      forall i | 0 <= i < |rest|
        ensures Acceptable(uploaded, rest, wanted[0].number, i) <==> Acceptable(uploaded, wanted, prev, i + 1)
      {
        assert rest[i] == wanted[i + 1];
        if i > 0 { assert rest[i - 1] == wanted[i]; }
      }
      var ch := Choose(uploaded, wanted, prev);
      if ch.err == NoError {
        forall i | 0 <= i < |wanted| ensures Acceptable(uploaded, wanted, prev, i) {
          if i > 0 { assert Acceptable(uploaded, rest, wanted[0].number, i - 1); }
        }
      }
      if forall i | 0 <= i < |wanted| :: Acceptable(uploaded, wanted, prev, i) {
        assert Acceptable(uploaded, wanted, prev, 0);
      }
    }
  }

  /** A refusal is that of the first bad part: out of order, or else not uploaded with that ETag. */
  lemma {:induction false} FirstRefusal(uploaded: seq<Part>, wanted: seq<CompletedPart>, prev: int) returns (i: nat)
    requires Choose(uploaded, wanted, prev).err != NoError
    ensures i < |wanted| && !Acceptable(uploaded, wanted, prev, i)
    ensures forall j | 0 <= j < i :: Acceptable(uploaded, wanted, prev, j)
    ensures Choose(uploaded, wanted, prev).err ==
      if wanted[i].number <= Before(wanted, prev, i) then InvalidPartOrder else InvalidPart
  {
    hide SameButQuotes, EtagEqual;
    AcceptableIs(uploaded, wanted, prev, 0);
    if Acceptable(uploaded, wanted, prev, 0) {
      var rest := wanted[1..];
      var n := FirstRefusal(uploaded, rest, wanted[0].number);
      i := n + 1;
      forall j | 0 <= j < |rest|
        ensures Acceptable(uploaded, rest, wanted[0].number, j) <==> Acceptable(uploaded, wanted, prev, j + 1)
      {
        assert rest[j] == wanted[j + 1];
        if j > 0 { assert rest[j - 1] == wanted[j]; }
      }
      assert rest[n] == wanted[i] && Before(rest, wanted[0].number, n) == Before(wanted, prev, i);
      forall j | 0 <= j < i ensures Acceptable(uploaded, wanted, prev, j) {
        if j > 0 { assert Acceptable(uploaded, rest, wanted[0].number, j - 1); }
      }
    } else {
      i := 0;
    }
  }

  /** A part named in order, after acceptable ones, under a text that differs by more than quotes from the one
      it was uploaded with is refused. */
  lemma WrongETagRefused(uploaded: seq<Part>, wanted: seq<CompletedPart>, prev: int, i: nat)
    requires i < |wanted| && forall j | 0 <= j < i :: Acceptable(uploaded, wanted, prev, j)
    requires Before(wanted, prev, i) < wanted[i].number && PartOf(uploaded, wanted[i].number).Some?
    requires !SameButQuotes(PartOf(uploaded, wanted[i].number).value.etag, wanted[i].etag)
    ensures Choose(uploaded, wanted, prev).err == InvalidPart
  {
    hide SameButQuotes, Choose;
    ChooseExact(uploaded, wanted, prev);
    assert !Acceptable(uploaded, wanted, prev, i);
    var n := FirstRefusal(uploaded, wanted, prev);
  }

  predicate LargeEnough(p: Option<Part>) { p.Some? && p.value.size >= 5 * 1024 * 1024 }

  /** A completion is accepted exactly when it names at least one part, in ascending order and with the
      uploaded ETags, every part but the last is large enough, and every part is at hand. */
  lemma ChosenExact(up: Upload, wanted: seq<CompletedPart>, staged: map<(string, int), Bytes>, u: string)
    ensures Chosen(up, wanted, staged, u).err == NoError <==>
      && wanted != []
      && (forall i | 0 <= i < |wanted| :: Acceptable(up.parts, wanted, 0, i))
      && (forall i | 0 <= i < |wanted| - 1 :: LargeEnough(PartOf(up.parts, wanted[i].number)))
      && (forall i | 0 <= i < |wanted| :: (u, wanted[i].number) in staged)
  {
    ChooseExact(up.parts, wanted, 0);
    var ch := Choose(up.parts, wanted, 0);
    hide Choose, EtagEqual, SameButQuotes;
    if ch.err == NoError {
      forall i | 0 <= i < |wanted|
        ensures ch.parts[i] == PartOf(up.parts, wanted[i].number).value && ch.parts[i].number == wanted[i].number
      {
        assert Some(ch.parts[i]) == PartOf(up.parts, wanted[i].number);
      }
      assert AllStaged(staged, u, ch.parts) <==> forall i | 0 <= i < |wanted| :: (u, wanted[i].number) in staged by {
        assert forall i | 0 <= i < |ch.parts| :: ch.parts[i] in ch.parts;
      }
    }
  }

  lemma {:induction false} SameDigests(a: seq<string>, b: seq<string>)
    requires |a| == |b| && forall i | 0 <= i < |a| :: EtagEqual(a[i], b[i])
    ensures RawDigests(a) == RawDigests(b)
  {
    if a != [] {
      assert forall i | 0 <= i < |a[1..]| :: a[1..][i] == a[i + 1] && b[1..][i] == b[i + 1];
      SameDigests(a[1..], b[1..]);
      assert EtagEqual(a[0], b[0]);
    }
  }

  /** The ETag stored by every replica is the one the gateway computes from the request alone. */
  lemma SameETag(up: Upload, wanted: seq<CompletedPart>, staged: map<(string, int), Bytes>, u: string)
    requires Chosen(up, wanted, staged, u).err == NoError
    ensures MultipartETag(PartEtags(Chosen(up, wanted, staged, u).parts)) == MultipartETag(WantedEtags(wanted))
  {
    ChooseExact(up.parts, wanted, 0);
    var ch := Chosen(up, wanted, staged, u);
    forall i | 0 <= i < |wanted| ensures EtagEqual(PartEtags(ch.parts)[i], WantedEtags(wanted)[i]) {
      assert Acceptable(up.parts, wanted, 0, i);
      AcceptableIs(up.parts, wanted, 0, i);
    }
    SameDigests(PartEtags(ch.parts), WantedEtags(wanted));
  }

  /** A completion that is refused, for whatever reason, leaves the disk as it was. */
  lemma RefusalChangesNothing(d: Disk, c: Command)
    requires c.CompleteMultipart?
    requires var v := Vol(d.vols, c.bucket);
      c.uploadID !in v.uploads || Chosen(v.uploads[c.uploadID], c.wanted, d.parts, c.uploadID).err != NoError
    ensures ApplyComplete(d, c).disk == d && ApplyComplete(d, c).err != NoError
  {
  }

  /** A settled completion makes the concatenation of the chosen parts the newest version, with its
      length and the gateway's ETag, and closes the upload. */
  lemma CompleteThenGet(d: Disk, c: Command)
    requires ValidDisk(d) && c.CompleteMultipart? && Settled.CompleteSettled(AbsDisk(d), c)
    requires var v := Vol(d.vols, c.bucket);
      c.uploadID in v.uploads && Chosen(v.uploads[c.uploadID], c.wanted, d.parts, c.uploadID).err == NoError
    ensures var v, v' := Vol(d.vols, c.bucket), Vol(Apply(d, c).disk.vols, c.bucket);
      var ch := Chosen(v.uploads[c.uploadID], c.wanted, d.parts, c.uploadID);
      var g := Get(v', c.key, "");
      && Apply(d, c).err == NoError && g.err == NoError
      && g.bytes == Assemble(d.parts, c.uploadID, ch.parts) && g.meta.size == |g.bytes|
      && g.meta.attrs.etag == MultipartETag(WantedEtags(c.wanted))
      && g.meta.attrs == LockDefaults(ConfigForWrite(v), v.uploads[c.uploadID].attrs.(etag := g.meta.attrs.etag), c.mtime)
      && g.meta.lastModified == c.mtime && c.uploadID !in v'.uploads
  {
    hide ValidDisk, AbsDisk, Valid, AbsVol, Get, Install, Chosen, MultipartETag, Settled.CompleteSettled, LockDefaults;
    var v := Vol(d.vols, c.bucket);
    var up := v.uploads[c.uploadID];
    CompleteExact(d, c);
    var d' := Apply(d, c).disk;
    VolumeOf(d, c.bucket);
    VolumeOf(d', c.bucket);
    GetAgrees(Vol(d'.vols, c.bucket), c.key, "");
    SameETag(up, c.wanted, d.parts, c.uploadID);
    CompleteMeans(d, c);
  }

  /** The same on the version lists. */
  lemma CompleteMeans(d: Disk, c: Command)
    requires ValidDisk(d) && c.CompleteMultipart?
    requires var v := Vol(d.vols, c.bucket);
      c.uploadID in v.uploads && Chosen(v.uploads[c.uploadID], c.wanted, d.parts, c.uploadID).err == NoError
    ensures var v, r := Vol(d.vols, c.bucket), Spec.CompleteSpec(AbsDisk(d), c);
      var a' := Spec.BucketOf(r.state.buckets, c.bucket);
      var ch := Chosen(v.uploads[c.uploadID], c.wanted, d.parts, c.uploadID);
      var q := Spec.Readable(a', c.key, "");
      && r.err == NoError && q.err == NoError
      && q.version.bytes == Assemble(d.parts, c.uploadID, ch.parts)
      && q.version.attrs.etag == MultipartETag(PartEtags(ch.parts)) && q.version.mtime == c.mtime
      && q.version.attrs == LockDefaults(ConfigForWrite(v), v.uploads[c.uploadID].attrs.(etag := q.version.attrs.etag), c.mtime)
      && c.uploadID !in a'.uploads
  {
    hide ValidDisk, Valid, Chosen, MultipartETag, AbsList, Keys;
    VolumeOf(d, c.bucket);
  }

  // ---- over whole runs ----

  ghost predicate PartsOrdered(d: Disk) {
    forall b, u | u in Vol(d.vols, b).uploads :: Ascending(Vol(d.vols, b).uploads[u].parts)
  }

  lemma WriteKeepsUploads(v: Volume, k: string, vs: seq<ObjectMeta>)
    ensures WriteKeyMeta(v, k, vs).vol.uploads == v.uploads && FinalizeKey(v, k, vs).vol.uploads == v.uploads
  {
    hide XMeta.WriteXattrs, AtKeyPath, NeedsHistory, Nested;
  }

  lemma DeleteKeepsUploads(v: Volume, k: string, id: string, explicit: bool, mtime: nat)
    ensures ApplyDelete(v, k, id, explicit, mtime).vol.uploads == v.uploads
  {
    hide Versions, FinalizeKey, ReadKeyMeta, DeleteVersion, DeleteCurrent, Displace, PrependLatest, BucketConfig;
    var vs := Versions(v, k);
    var dp := Displace(v, k, vs, true);
    DeleteVersionUploads(v, k, vs, id);
    DeleteCurrentUploads(v, k, vs, ConfigForWrite(v).versioning == "Suspended", mtime);
    DisplaceKeepsUploads(v, k, vs, true);
    WriteKeepsUploads(dp.vol, k, PrependLatest(dp.versions, MarkerMeta(id, mtime)));
  }

  lemma DeleteVersionUploads(v: Volume, k: string, vs: seq<ObjectMeta>, id: string)
    ensures DeleteVersion(v, k, vs, id).vol.uploads == v.uploads
  {
    hide FinalizeKey, Without, Doomed, RemovesCurrent;
    var v1, kept := v.(blobs := v.blobs - Doomed(vs, id)), Without(vs, id);
    var pr := Promote(v1.(tree := v1.tree - {k}), k, kept);
    WriteKeepsUploads(pr.vol, k, pr.versions);
    WriteKeepsUploads(v1, k, MarkLatest(kept));
  }

  lemma DeleteCurrentUploads(v: Volume, k: string, vs: seq<ObjectMeta>, suspended: bool, mtime: nat)
    ensures DeleteCurrent(v, k, vs, suspended, mtime).vol.uploads == v.uploads
  {
    hide FinalizeKey, PrependLatest, MarkLatest;
    forall w: Volume, ws | w.uploads == v.uploads ensures FinalizeKey(w, k, ws).vol.uploads == v.uploads {
      WriteKeepsUploads(w, k, ws);
    }
  }

  lemma MutateKeepsUploads(v: Volume, k: string, id: string, mu: Mutation)
    ensures ApplyMutation(v, k, id, mu).vol.uploads == v.uploads
  {
    hide Versions, WriteKeyMeta, Mutated;
    forall vs ensures WriteKeyMeta(v, k, vs).vol.uploads == v.uploads { WriteKeepsUploads(v, k, vs); }
  }

  lemma CopyKeepsUploads(d: Disk, c: Command)
    requires c.CopyObject?
    ensures Vol(ApplyCopy(d, c).disk.vols, c.bucket).uploads == Vol(d.vols, c.bucket).uploads
  {
    if c.source.Some? {
      hide ApplyCopy, CopyVolume, Displace, Versions;
      var s, v := c.source.value, Vol(d.vols, c.bucket);
      CopyVolumeIs(d, c);
      var dp := Displace(v, c.key, Versions(v, c.key), Enabled(ConfigForWrite(v)));
      CopyVolumeUploads(v, Vol(d.vols, s.bucket), Vol(d.vols[c.bucket := dp.vol], s.bucket), c);
    }
  }

  lemma CopyVolumeUploads(v: Volume, sv: Volume, sv1: Volume, c: Command)
    requires c.CopyObject? && c.source.Some?
    ensures CopyVolume(v, sv, sv1, c).vol.uploads == v.uploads
  {
    hide Versions, WriteKeyMeta, Resolve, LockDefaults, CopyAttrs, Payload, Displace, Place, BucketConfig;
    var dp := Displace(v, c.key, Versions(v, c.key), Enabled(ConfigForWrite(v)));
    DisplaceKeepsUploads(v, c.key, Versions(v, c.key), Enabled(ConfigForWrite(v)));
    forall f, nv ensures Place(dp.vol, c.key, dp.versions, f, nv).vol.uploads == v.uploads {
      PlaceKeepsUploads(dp.vol, c.key, dp.versions, f, nv);
    }
  }

  lemma DisplaceKeepsUploads(v: Volume, k: string, vs: seq<ObjectMeta>, enabled: bool)
    ensures Displace(v, k, vs, enabled).vol.uploads == v.uploads
  {}

  lemma PlaceKeepsUploads(v: Volume, k: string, vs: seq<ObjectMeta>, f: File, nv: ObjectMeta)
    ensures Place(v, k, vs, f, nv).vol.uploads == v.uploads
  {
    hide WriteKeyMeta, PrependLatest;
    WriteKeepsUploads(v.(dir := true, tree := v.tree[k := f]), k, PrependLatest(vs, nv));
  }

  /** The uploads of a bucket change only by the multipart commands and with the bucket itself. */
  lemma OnlyUploadCommands(d: Disk, c: Command)
    requires !c.CreateMultipart? && !c.UploadPart? && !c.CompleteMultipart? && !c.AbortMultipart? && !c.DeleteBucket?
    ensures Vol(Apply(d, c).disk.vols, c.bucket).uploads == Vol(d.vols, c.bucket).uploads
  {
    hide ApplyDelete, ApplyMutation, Install, LockDefaults, ApplyCopy;
    var v := Vol(d.vols, c.bucket);
    if c.DeleteObject? { DeleteKeepsUploads(v, c.key, c.versionID, c.explicit, c.mtime); }
    else if c.MutateMeta? { MutateKeepsUploads(v, c.key, c.versionID, c.mutation); }
    else if c.CopyObject? { CopyKeepsUploads(d, c); }
    else if c.PutObject? && c.token in d.staging {
      var bm := ConfigForWrite(v);
      InstallKeepsUploads(v, c.key, Enabled(bm), d.staging[c.token],
        NewMeta(VersionIDFor(Enabled(bm), c.versionID), c.size, c.mtime, LockDefaults(bm, c.attrs, c.mtime)));
    }
  }

  /** One command keeps every part list of its bucket ordered. */
  lemma CommandKeepsOrder(d: Disk, c: Command)
    requires forall u | u in Vol(d.vols, c.bucket).uploads :: Ascending(Vol(d.vols, c.bucket).uploads[u].parts)
    ensures var v' := Vol(Apply(d, c).disk.vols, c.bucket);
      forall u | u in v'.uploads :: Ascending(v'.uploads[u].parts)
  {
    hide Record, Install, LockDefaults, Chosen, MultipartETag;
    var v := Vol(d.vols, c.bucket);
    if c.UploadPart? {
      if c.uploadID in v.uploads {
        RecordAscending(v.uploads[c.uploadID].parts, Part(c.part, c.etag, c.size, c.mtime));
      }
    } else if c.CompleteMultipart? {
      CompleteUploads(d, c);
      hide Apply;
    } else if !c.CreateMultipart? && !c.AbortMultipart? && !c.DeleteBucket? {
      OnlyUploadCommands(d, c);
      hide Apply;
    }
  }

  lemma CompleteUploads(d: Disk, c: Command)
    requires c.CompleteMultipart?
    ensures var v, v' := Vol(d.vols, c.bucket), Vol(Apply(d, c).disk.vols, c.bucket);
      v'.uploads == v.uploads || v'.uploads == v.uploads - {c.uploadID}
  {
    hide Install, LockDefaults, Chosen, MultipartETag;
    var v := Vol(d.vols, c.bucket);
    var bm := ConfigForWrite(v);
    forall f, nv ensures Install(v, c.key, Enabled(bm), f, nv).vol.uploads == v.uploads {
      InstallKeepsUploads(v, c.key, Enabled(bm), f, nv);
    }
  }

  /** Over every run, settled or not, from a disk with ordered part lists, they stay ordered. */
  lemma {:induction false} PartsStayOrdered(d: Disk, es: seq<Event>)
    requires PartsOrdered(d)
    ensures PartsOrdered(Run(d, es))
  {
    hide Apply;
    if es != [] {
      var u, e := Run(d, es[..|es| - 1]), es[|es| - 1];
      PartsStayOrdered(d, es[..|es| - 1]);
      if e.Commit? {
        CommandKeepsOrder(u, e.command);
        Frame(u, e.command);
        forall b, x | x in Vol(Run(d, es).vols, b).uploads ensures Ascending(Vol(Run(d, es).vols, b).uploads[x].parts) {
          if b != e.command.bucket { assert x in Vol(u.vols, b).uploads; }
        }
      }
    }
  }
}
