/** Several Raft shards apply their own logs to one shared backend, in any interleaving. */
module Shards {
  import opened Types
  import opened Store
  import opened Multipart
  import opened Machine

  /** The shard that owns a bucket; cluster-wide commands have no bucket and go to the root shard. */
  function ShardOf(b: string, shards: nat): (s: nat)
    requires shards > 0
    ensures s < shards
  {
    if b == "" || shards == 1 then 0 else Fnv(b) % shards
  }

  /** Two named buckets share one of several shards if and only if their hashes do; a request without a bucket goes
      to the first shard. */
  lemma SameShard(b: string, b': string, shards: nat)
    requires shards > 1 && b != "" && b' != ""
    ensures ShardOf(b, shards) == ShardOf(b', shards) <==> Fnv(b) % shards == Fnv(b') % shards
    ensures ShardOf("", shards) == 0
  {}

  function ApplyLog(d: Disk, log: seq<Command>): Disk {
    if log == [] then d else Apply(ApplyLog(d, log[..|log| - 1]), log[|log| - 1]).disk
  }

  /** The commands of one shard, in order. */
  function ShardLog(mix: seq<Command>, s: nat, shards: nat): (r: seq<Command>)
    requires shards > 0
    ensures forall c | c in r :: c in mix && ShardOf(c.bucket, shards) == s
    ensures forall c | c in mix && ShardOf(c.bucket, shards) == s :: c in r
  {
    if mix == [] then []
    else
      var c, rest := mix[|mix| - 1], ShardLog(mix[..|mix| - 1], s, shards);
      assert forall x | x in mix :: x in mix[..|mix| - 1] || x == c;
      if ShardOf(c.bucket, shards) == s then rest + [c] else rest
  }

  /** The staging token a command may consume. */
  function TokenOf(c: Command): Option<string> {
    if c.PutObject? || c.CompleteMultipart? then Some(c.token) else None
  }

  /** Copies stay within their shard. */
  predicate LocalCopy(c: Command, shards: nat)
    requires shards > 0
  {
    c.CopyObject? && c.source.Some? ==> ShardOf(c.source.value.bucket, shards) == ShardOf(c.bucket, shards)
  }

  /** No token is used by two shards, and copies stay within a shard. */
  ghost predicate Independent(mix: seq<Command>, shards: nat)
    requires shards > 0
  {
    && (forall c | c in mix :: LocalCopy(c, shards))
    && (forall c, c' | c in mix && c' in mix && ShardOf(c.bucket, shards) != ShardOf(c'.bucket, shards) ::
          TokenOf(c).None? || TokenOf(c) != TokenOf(c'))
  }

  /** The tokens a log uses. */
  function Tokens(log: seq<Command>): set<string> {
    set c | c in log && TokenOf(c).Some? :: TokenOf(c).value
  }

  /** Two disks agree on a shard: on its volumes, on these tokens and on the staged parts. */
  ghost predicate AgreeOn(d: Disk, d': Disk, s: nat, shards: nat, own: set<string>)
    requires shards > 0
  {
    && (forall b | ShardOf(b, shards) == s :: Vol(d.vols, b) == Vol(d'.vols, b))
    && (forall t | t in own :: SameToken(d, d', t))
    && d.parts == d'.parts
  }

  ghost predicate SameToken(d: Disk, d': Disk, t: string) {
    (t in d.staging <==> t in d'.staging) && (t in d.staging ==> d.staging[t] == d'.staging[t])
  }

  // ---- a command touches its own bucket and its own token ----

  /** The effect of a command, in terms of the volumes and the token it reads. */
  ghost predicate Touches(d: Disk, c: Command, w: Volume) {
    var st := Apply(d, c);
    && (forall b :: Vol(st.disk.vols, b) == if b == c.bucket then w else Vol(d.vols, b))
    && st.disk.parts == d.parts
    && (forall t | TokenOf(c) != Some(t) :: SameToken(st.disk, d, t))
  }

  /** A step replaces its bucket's volume, and at most takes its own token out of staging. */
  ghost predicate Shaped(d: Disk, c: Command, e: Disk) {
    && e.parts == d.parts
    && (e.vols == d.vols || e.vols == d.vols[c.bucket := Vol(e.vols, c.bucket)])
    && (e.staging == d.staging || (TokenOf(c).Some? && e.staging == d.staging - {TokenOf(c).value}))
  }

  lemma CopyShaped(d: Disk, c: Command)
    requires c.CopyObject?
    ensures Shaped(d, c, ApplyCopy(d, c).disk)
  {
    hide Displace, Resolve, Place, LockDefaults, CopyAttrs, Versions, Payload;
  }

  lemma PutShaped(d: Disk, c: Command)
    requires c.PutObject?
    ensures Shaped(d, c, ApplyPut(d, c).disk)
  {
    hide Install, LockDefaults;
  }

  lemma CompleteShaped(d: Disk, c: Command)
    requires c.CompleteMultipart?
    ensures Shaped(d, c, ApplyComplete(d, c).disk)
  {
    hide Install, LockDefaults, Chosen, MultipartETag;
  }

  lemma StepShaped(d: Disk, c: Command)
    ensures Shaped(d, c, Apply(d, c).disk)
  {
    hide ApplyDelete, ApplyMutation, ApplyCreateBucket, ApplyDeleteBucket, ApplyBucketConfig, Record;
    hide ApplyPut, ApplyCopy, ApplyComplete;
    if c.PutObject? {
      PutShaped(d, c);
    } else if c.CopyObject? {
      CopyShaped(d, c);
    } else if c.CompleteMultipart? {
      CompleteShaped(d, c);
    }
  }

  lemma Frame(d: Disk, c: Command)
    ensures Touches(d, c, Vol(Apply(d, c).disk.vols, c.bucket))
  {
    hide Apply;
    StepShaped(d, c);
    var e := Apply(d, c).disk;
    forall b ensures Vol(e.vols, b) == if b == c.bucket then Vol(e.vols, c.bucket) else Vol(d.vols, b) {
    }
    forall t | TokenOf(c) != Some(t) ensures SameToken(e, d, t) {
    }
  }

  lemma FrameAgrees(d: Disk, c: Command, s: nat, shards: nat, own: set<string>)
    requires shards > 0 && ShardOf(c.bucket, shards) != s && (TokenOf(c).Some? ==> TokenOf(c).value !in own)
    ensures AgreeOn(Apply(d, c).disk, d, s, shards, own)
  {
    hide Apply, ShardOf;
    Frame(d, c);
  }

  /** Two disks that agree on what a command reads agree on what it leaves. */
  ghost predicate SameInputs(d: Disk, d': Disk, c: Command) {
    && Vol(d.vols, c.bucket) == Vol(d'.vols, c.bucket)
    && (c.CopyObject? && c.source.Some? ==> Vol(d.vols, c.source.value.bucket) == Vol(d'.vols, c.source.value.bucket))
    && (TokenOf(c).Some? ==> SameToken(d, d', TokenOf(c).value))
    && d.parts == d'.parts
  }

  ghost predicate SameEffect(d: Disk, d': Disk, c: Command) {
    var st, st' := Apply(d, c), Apply(d', c);
    && st.err == st'.err
    && Vol(st.disk.vols, c.bucket) == Vol(st'.disk.vols, c.bucket)
    && (TokenOf(c).Some? ==> SameToken(st.disk, st'.disk, TokenOf(c).value))
  }

  lemma CopyLocal(d: Disk, d': Disk, c: Command)
    requires c.CopyObject? && SameInputs(d, d', c)
    ensures SameEffect(d, d', c)
  {
    hide Displace, Resolve, Place, LockDefaults, CopyAttrs, Versions, Payload, BucketConfig;
    if c.source.Some? {
      var s, v := c.source.value, Vol(d.vols, c.bucket);
      var dp := Displace(v, c.key, Versions(v, c.key), Enabled(ConfigForWrite(v)));
      SameSource(d, d', c.bucket, dp.vol, s.bucket);
      CopyVolumeIs(d, c);
      CopyVolumeIs(d', c);
      hide ApplyCopy;
    }
  }

  lemma SameSource(d: Disk, d': Disk, b: string, w: Volume, sb: string)
    requires Vol(d.vols, sb) == Vol(d'.vols, sb)
    ensures Vol(d.vols[b := w], sb) == Vol(d'.vols[b := w], sb)
  {
  }

  /** A copy's outcome, in terms of the two volumes it reads. */
  function CopyVolume(v: Volume, sv: Volume, sv1: Volume, c: Command): Out
    requires c.CopyObject? && c.source.Some?
  {
    var s, bm := c.source.value, ConfigForWrite(v);
    var src := Resolve(sv, s.key, s.versionID);
    if src.err != NoError then Out(v, src.err)
    else if src.meta.deleteMarker then Out(v, NoSuchKey)
    else
      var dp := Displace(v, c.key, Versions(v, c.key), Enabled(bm));
      if dp.err != NoError then Out(dp.vol, dp.err)
      else
        var f := Payload(sv1, s.key, src.meta);
        if f.None? then Out(dp.vol.(dir := true), IOError)
        else
          var nv := NewMeta(VersionIDFor(Enabled(bm), c.versionID), src.meta.size, c.mtime,
                            LockDefaults(bm, CopyAttrs(src.meta.attrs, c), c.mtime));
          Place(dp.vol, c.key, dp.versions, File(f.value.bytes, NOW, map[]), nv)
  }

  lemma CopyVolumeIs(d: Disk, c: Command)
    requires c.CopyObject? && c.source.Some?
    ensures var s, v := c.source.value, Vol(d.vols, c.bucket);
      var dp := Displace(v, c.key, Versions(v, c.key), Enabled(ConfigForWrite(v)));
      var o := CopyVolume(v, Vol(d.vols, s.bucket), Vol(d.vols[c.bucket := dp.vol], s.bucket), c);
      Vol(ApplyCopy(d, c).disk.vols, c.bucket) == o.vol && ApplyCopy(d, c).err == o.err
  {
    hide Displace, Resolve, Place, LockDefaults, CopyAttrs, Versions, Payload, BucketConfig;
  }

  lemma CompleteLocal(d: Disk, d': Disk, c: Command)
    requires c.CompleteMultipart? && SameInputs(d, d', c)
    ensures SameEffect(d, d', c)
  {
    hide Install, LockDefaults, Chosen, MultipartETag, PartEtags, Assemble, BucketConfig, ApplyPut, ApplyCopy, ApplyDelete;
    hide ApplyMutation, ApplyCreateBucket, ApplyDeleteBucket, ApplyBucketConfig, ApplyUploadPart;
  }

  lemma PutLocal(d: Disk, d': Disk, c: Command)
    requires c.PutObject? && SameInputs(d, d', c)
    ensures SameEffect(d, d', c)
  {
    hide Install, LockDefaults, BucketConfig, ApplyCopy, ApplyDelete, ApplyComplete;
    hide ApplyMutation, ApplyCreateBucket, ApplyDeleteBucket, ApplyBucketConfig, ApplyUploadPart;
  }

  lemma PartLocal(d: Disk, d': Disk, c: Command)
    requires c.UploadPart? && SameInputs(d, d', c)
    ensures SameEffect(d, d', c)
  {
    hide Record;
  }

  lemma Local(d: Disk, d': Disk, c: Command)
    requires SameInputs(d, d', c)
    ensures SameEffect(d, d', c)
  {
    if c.CopyObject? {
      CopyLocal(d, d', c);
    } else if c.CompleteMultipart? {
      CompleteLocal(d, d', c);
    } else if c.PutObject? {
      PutLocal(d, d', c);
    } else if c.UploadPart? {
      PartLocal(d, d', c);
    } else {
      hide ApplyDelete, ApplyMutation, ApplyCreateBucket, ApplyDeleteBucket, ApplyBucketConfig;
      hide ApplyCopy, ApplyComplete, ApplyPut, ApplyUploadPart;
    }
  }

  lemma LocalAgrees(d: Disk, d': Disk, c: Command, s: nat, shards: nat, own: set<string>)
    requires shards > 0 && ShardOf(c.bucket, shards) == s && LocalCopy(c, shards)
    requires TokenOf(c).Some? ==> TokenOf(c).value in own
    requires AgreeOn(d, d', s, shards, own)
    ensures AgreeOn(Apply(d, c).disk, Apply(d', c).disk, s, shards, own)
  {
    hide Apply, ShardOf;
    Local(d, d', c);
    Frame(d, c);
    Frame(d', c);
    var e, e' := Apply(d, c).disk, Apply(d', c).disk;
    forall t | t in own ensures SameToken(e, e', t) {
      assert SameToken(d, d', t);
      if TokenOf(c) != Some(t) { assert SameToken(e, d, t) && SameToken(e', d', t); }
    }
  }

  /** The shared backend, seen from one shard, is the replay of that shard's log alone. */
  lemma {:induction false} Projection(d: Disk, mix: seq<Command>, s: nat, shards: nat, own: set<string>)
    requires shards > 0 && (forall c | c in mix :: LocalCopy(c, shards))
    requires forall c | c in mix && TokenOf(c).Some? :: TokenOf(c).value in own <==> ShardOf(c.bucket, shards) == s
    ensures AgreeOn(ApplyLog(d, mix), ApplyLog(d, ShardLog(mix, s, shards)), s, shards, own)
  {
    hide Apply, ShardOf;
    if mix != [] {
      var init, c := mix[..|mix| - 1], mix[|mix| - 1];
      assert c in mix && forall x | x in init :: x in mix;
      Projection(d, init, s, shards, own);
      var e, e', r := ApplyLog(d, init), ApplyLog(d, ShardLog(init, s, shards)), ShardLog(init, s, shards);
      hide AgreeOn, LocalCopy;
      if ShardOf(c.bucket, shards) == s {
        LocalAgrees(e, e', c, s, shards, own);
        assert (r + [c])[..|r|] == r;
      } else {
        FrameAgrees(e, c, s, shards, own);
        AgreeTrans(Apply(e, c).disk, e, e', s, shards, own);
      }
    }
  }

  lemma AgreeTrans(d: Disk, e: Disk, f: Disk, s: nat, shards: nat, own: set<string>)
    requires shards > 0 && AgreeOn(d, e, s, shards, own) && AgreeOn(e, f, s, shards, own)
    ensures AgreeOn(d, f, s, shards, own)
  {
    hide ShardOf;
    forall t | t in own ensures SameToken(d, f, t) {
      assert SameToken(d, e, t) && SameToken(e, f, t);
    }
  }

  /** A token no command uses stays where it is. */
  lemma {:induction false} UnusedToken(d: Disk, mix: seq<Command>, t: string)
    requires t !in Tokens(mix)
    ensures SameToken(ApplyLog(d, mix), d, t)
    ensures ApplyLog(d, mix).parts == d.parts
  {
    hide Apply;
    if mix != [] {
      var init, c := mix[..|mix| - 1], mix[|mix| - 1];
      assert c in mix && forall x | x in init :: x in mix;
      UnusedToken(d, init, t);
      Frame(ApplyLog(d, init), c);
      assert SameToken(Apply(ApplyLog(d, init), c).disk, ApplyLog(d, init), t);
    }
  }

  /** Two interleavings use the same tokens in each shard. */
  lemma TokenHome(mix: seq<Command>, mix': seq<Command>, shards: nat, t: string) returns (s: nat)
    requires shards > 0 && Independent(mix, shards) && Independent(mix', shards)
    requires forall s | 0 <= s < shards :: ShardLog(mix, s, shards) == ShardLog(mix', s, shards)
    requires t in Tokens(mix)
    ensures s < shards && t in Tokens(ShardLog(mix, s, shards)) && OwnTokens(mix, s, shards) && OwnTokens(mix', s, shards)
  {
    hide ShardOf;
    var c :| c in mix && TokenOf(c) == Some(t);
    s := ShardOf(c.bucket, shards);
    assert c in ShardLog(mix, s, shards);
    OwnTokensHold(mix, s, shards);
    OwnTokensHold(mix', s, shards);
  }

  /** The tokens of a shard's log are used by that shard only. */
  ghost predicate OwnTokens(mix: seq<Command>, s: nat, shards: nat)
    requires shards > 0
  {
    forall c | c in mix && TokenOf(c).Some? ::
      TokenOf(c).value in Tokens(ShardLog(mix, s, shards)) <==> ShardOf(c.bucket, shards) == s
  }

  lemma OwnTokensHold(mix: seq<Command>, s: nat, shards: nat)
    requires shards > 0 && Independent(mix, shards)
    ensures OwnTokens(mix, s, shards)
  {
    hide ShardOf;
    var own := Tokens(ShardLog(mix, s, shards));
    forall c | c in mix && TokenOf(c).Some? ensures TokenOf(c).value in own <==> ShardOf(c.bucket, shards) == s {
      if TokenOf(c).value in own {
        var c' :| c' in ShardLog(mix, s, shards) && TokenOf(c') == TokenOf(c);
      }
    }
  }

  lemma ShardAgrees(d: Disk, mix: seq<Command>, mix': seq<Command>, s: nat, shards: nat)
    requires shards > 0 && Independent(mix, shards) && Independent(mix', shards)
    requires ShardLog(mix, s, shards) == ShardLog(mix', s, shards)
    ensures AgreeOn(ApplyLog(d, mix), ApplyLog(d, mix'), s, shards, Tokens(ShardLog(mix, s, shards)))
  {
    hide ShardOf, ApplyLog, ShardLog, LocalCopy;
    var own := Tokens(ShardLog(mix, s, shards));
    OwnTokensHold(mix, s, shards);
    OwnTokensHold(mix', s, shards);
    Projection(d, mix, s, shards, own);
    Projection(d, mix', s, shards, own);
    var e := ApplyLog(d, ShardLog(mix, s, shards));
    AgreeTrans(ApplyLog(d, mix), e, ApplyLog(d, mix'), s, shards, own);
  }

  /** MAIN THEOREM: interleavings of the same per-shard logs leave the same backend: the same volume
      for every bucket, the same staging and the same parts. */
  lemma Confluence(d: Disk, mix: seq<Command>, mix': seq<Command>, shards: nat)
    requires shards > 0 && Independent(mix, shards) && Independent(mix', shards)
    requires forall s | 0 <= s < shards :: ShardLog(mix, s, shards) == ShardLog(mix', s, shards)
    ensures var e, e' := ApplyLog(d, mix), ApplyLog(d, mix');
      && (forall b :: Vol(e.vols, b) == Vol(e'.vols, b)) && e.staging == e'.staging && e.parts == e'.parts
  {
    hide ShardOf, ApplyLog, ShardLog, Vol, Independent;
    var e, e' := ApplyLog(d, mix), ApplyLog(d, mix');
    forall b ensures Vol(e.vols, b) == Vol(e'.vols, b) {
      ShardAgrees(d, mix, mix', ShardOf(b, shards), shards);
    }
    forall t ensures SameToken(e, e', t) {
      TokenAgrees(d, mix, mix', shards, t);
    }
    assert e.staging == e'.staging by {
      forall t ensures (t in e.staging <==> t in e'.staging) && (t in e.staging ==> e.staging[t] == e'.staging[t]) {
        assert SameToken(e, e', t);
      }
    }
    ShardAgrees(d, mix, mix', 0, shards);
  }

  lemma TokenAgrees(d: Disk, mix: seq<Command>, mix': seq<Command>, shards: nat, t: string)
    requires shards > 0 && Independent(mix, shards) && Independent(mix', shards)
    requires forall s | 0 <= s < shards :: ShardLog(mix, s, shards) == ShardLog(mix', s, shards)
    ensures SameToken(ApplyLog(d, mix), ApplyLog(d, mix'), t)
  {
    hide ShardOf, ApplyLog, ShardLog, Vol, Independent, Tokens;
    if t in Tokens(mix) {
      var s := TokenHome(mix, mix', shards, t);
      ShardAgrees(d, mix, mix', s, shards);
    } else if t in Tokens(mix') {
      var s := TokenHome(mix', mix, shards, t);
      ShardAgrees(d, mix', mix, s, shards);
    } else {
      UnusedToken(d, mix, t);
      UnusedToken(d, mix', t);
    }
  }
}
