/** What a recovered command stores: the bytes that the fetches brought. */
module Recovered {
  import opened Types
  import opened Store
  import opened Multipart
  import opened Machine
  import opened Rep
  import opened Uploads
  import opened Fsm
  import Attributes
  import Effects
  import Settled
  import Replicas
  import Recovery

  /** The staged payload after these fetches: the last one fetched under the token, else what was there. */
  function StagedAfter(d: Disk, fetches: seq<Fetch>, token: string): Option<File> {
    if fetches == [] then if token in d.staging then Some(d.staging[token]) else None
    else
      var f := fetches[|fetches| - 1];
      if f.Fetched? && token in f.staging then Some(f.staging[token]) else StagedAfter(d, fetches[..|fetches| - 1], token)
  }

  /** The same of a part. */
  function PartAfter(d: Disk, fetches: seq<Fetch>, p: (string, int)): Option<Bytes> {
    if fetches == [] then if p in d.parts then Some(d.parts[p]) else None
    else
      var f := fetches[|fetches| - 1];
      if f.Fetched? && p in f.parts then Some(f.parts[p]) else PartAfter(d, fetches[..|fetches| - 1], p)
  }

  lemma {:induction false} MergedBytes(d: Disk, fetches: seq<Fetch>, token: string, p: (string, int))
    ensures var m := MergeAll(d, fetches);
      && m.vols == d.vols
      && StagedAfter(d, fetches, token) == (if token in m.staging then Some(m.staging[token]) else None)
      && PartAfter(d, fetches, p) == (if p in m.parts then Some(m.parts[p]) else None)
  {
    if fetches != [] { MergedBytes(d, fetches[..|fetches| - 1], token, p); }
  }

  /** The fetch brings the token, and none before it did. */
  predicate Brings(fetches: seq<Fetch>, n: nat, token: string) {
    && n < |fetches| && fetches[n].Fetched? && token in fetches[n].staging
    && forall i | 0 <= i < n :: fetches[i].FetchFailed? || token !in fetches[i].staging
  }

  lemma BroughtDecides(d: Disk, c: Command, fetches: seq<Fetch>, n: nat)
    requires c.PutObject? && c.token != "" && c.token !in d.staging && Brings(fetches, n, c.token)
    ensures Recover(d, c, fetches) == Apply(MergeAll(d, fetches[..n + 1]), c)
  {
    hide Apply, Recover, MergeAll;
    forall i | 0 <= i <= n ensures Supplies(d, c, fetches, i) <==> i == n {
      SuppliesExact(d, c, fetches, i);
      var first := fetches[..i + 1];
      assert forall j | 0 <= j <= i :: first[j] == fetches[j];
      if i == n { assert first[n].Fetched? && c.token in first[n].staging; }
    }
    hide Supplies;
    FirstFetchDecides(d, c, fetches, n);
  }

  /** RECOVERED PUT: a put whose payload never arrived stores, once a fetch brings it, exactly the bytes that
      fetch brought: that is what the key reads as, whatever the earlier fetches failed to bring. */
  lemma RecoveredPutReads(d: Disk, c: Command, fetches: seq<Fetch>, n: nat)
    requires ValidDisk(d) && c.PutObject? && c.token != "" && c.token !in d.staging && Brings(fetches, n, c.token)
    requires Settled.PutSettled(AbsDisk(d.(staging := map[c.token := fetches[n].staging[c.token]])), c)
    ensures var st, bm := ApplyOrRecover(d, c, fetches), ConfigForWrite(Vol(d.vols, c.bucket));
      var g := Get(Vol(st.disk.vols, c.bucket), c.key, "");
      && st.err == NoError && g.err == NoError && g.bytes == fetches[n].staging[c.token].bytes && g.meta.size == c.size
      && g.meta.lastModified == c.mtime && Attributes.Kept(bm, c.attrs, c.mtime, g.meta.attrs)
  {
    var alone := d.(staging := map[c.token := fetches[n].staging[c.token]]);
    SameVolumes(d, alone);
    hide ValidDisk, AbsDisk, Get, Settled.PutSettled, Attributes.Kept, Apply, ApplyOrRecover;
    RecoversAlone(d, c, fetches, n);
    Effects.PutThenGet(alone, c);
  }

  lemma SameVolumes(d: Disk, e: Disk)
    requires ValidDisk(d) && e.vols == d.vols
    ensures ValidDisk(e)
  {}

  /** The fetch succeeds, and with it all the command needs has come. */
  predicate Arrives(d: Disk, c: Command, fetches: seq<Fetch>, n: nat)
    requires Recoverable(c)
  {
    n < |fetches| && fetches[n].Fetched? && PayloadCame(d, c, fetches[..n + 1])
  }

  /** RECOVERED COMPLETION: a completion that misses parts assembles, at the first fetch after which all are there,
      of each part the bytes last fetched, else those it had. */
  lemma RecoveredCompletionReads(d: Disk, c: Command, fetches: seq<Fetch>, n: nat, parts: map<(string, int), Bytes>)
    requires ValidDisk(d) && c.CompleteMultipart? && c.token != "" && Apply(d, c).err == BlobMissing
    requires Arrives(d, c, fetches, n) && forall i | 0 <= i < n :: !Arrives(d, c, fetches, i)
    requires forall p :: PartAfter(d, fetches[..n + 1], p) == if p in parts then Some(parts[p]) else None
    requires Settled.CompleteSettled(AbsDisk(d.(parts := parts)), c)
    ensures var v, st := Vol(d.vols, c.bucket), ApplyOrRecover(d, c, fetches);
      && c.uploadID in v.uploads
      && var ch := Chosen(v.uploads[c.uploadID], c.wanted, parts, c.uploadID);
         var g := Get(Vol(st.disk.vols, c.bucket), c.key, "");
         && ch.err == NoError && st.err == NoError && g.err == NoError && g.bytes == Assemble(parts, c.uploadID, ch.parts)
  {
    hide ValidDisk, AbsDisk, Get, Recover, MergeAll, Settled.CompleteSettled, Apply, Supplies, PartAfter;
    var first := fetches[..n + 1];
    forall i | 0 <= i <= n ensures Supplies(d, c, fetches, i) <==> Arrives(d, c, fetches, i) { SuppliesExact(d, c, fetches, i); }
    hide Arrives;
    FirstFetchDecides(d, c, fetches, n);
    MissingChangesNothing(d, c);
    var m := MergeAll(d, first);
    forall p ensures (p in m.parts <==> p in parts) && (p in parts ==> m.parts[p] == parts[p]) { MergedBytes(d, first, "", p); }
    assert m.parts == parts;
    MergedBytes(d, first, "", ("", 0));
    SuppliedCompletes(d, m, c);
    assert Apply(m, c).err != BlobMissing by { SuppliesIs(d, c, fetches, n); }
    SameVolumes(d, m);
    CompletionReadsParts(d.(parts := parts), m, c);
    CompleteThenGet(m, c);
  }

  lemma SuppliesIs(d: Disk, c: Command, fetches: seq<Fetch>, n: nat)
    requires n < |fetches| && Supplies(d, c, fetches, n)
    ensures Apply(MergeAll(d, fetches[..n + 1]), c).err != BlobMissing
  {
    hide Apply, MergeAll;
  }

  /** A completion that only missed parts is accepted once it misses none. */
  lemma SuppliedCompletes(d: Disk, m: Disk, c: Command)
    requires c.CompleteMultipart? && Apply(d, c).err == BlobMissing && m.vols == d.vols
    ensures var v := Vol(d.vols, c.bucket);
      c.uploadID in v.uploads
      && (Apply(m, c).err != BlobMissing ==> Chosen(v.uploads[c.uploadID], c.wanted, m.parts, c.uploadID).err == NoError)
  {
    InstallNeverMissing(d, c);
    hide Install, LockDefaults, MultipartETag;
  }

  lemma CompletionReadsParts(d: Disk, e: Disk, c: Command)
    requires c.CompleteMultipart? && e.vols == d.vols && e.parts == d.parts
    ensures Settled.CompleteSettled(AbsDisk(d), c) <==> Settled.CompleteSettled(AbsDisk(e), c)
  {
    hide AbsVol, Settled.AddSettled, MultipartETag, Chosen;
  }

  // ---- recovery in the cluster ----

  /** A put leaves the same volumes whatever else is staged. */
  lemma PutVolumes(d: Disk, e: Disk, c: Command)
    requires c.PutObject? && c.token in d.staging && c.token in e.staging
    requires e.vols == d.vols && e.staging[c.token] == d.staging[c.token]
    ensures Apply(e, c).err == Apply(d, c).err && Apply(e, c).disk.vols == Apply(d, c).disk.vols
  {
    hide Install, LockDefaults;
  }

  /** RECOVERED IS COMMITTED: in every state of every run of the cluster, a node that misses the payload of its next
      put and fetches it from a peer, at whatever attempt, ends with the canonical replay of one entry more. */
  lemma RecoveredIsCommitted(g: Replicas.Setting, s: Replicas.Cluster, n: nat, p: nat, fetches: seq<Fetch>, a: nat)
    requires Replicas.SettingOK(g) && Replicas.Inv(g, s) && n < |s.nodes| && p < |s.nodes| && s.nodes[n].applied < |s.log|
    requires var c, mine := s.log[s.nodes[n].applied], s.nodes[n].disk;
      && c.PutObject? && c.token != "" && c.token !in mine.staging && Brings(fetches, a, c.token)
      && Replicas.Pulled(s.nodes[p].disk, mine, c).err == NoError
      && fetches[a].staging[c.token].bytes == Replicas.Pulled(s.nodes[p].disk, mine, c).bytes
    ensures var i := s.nodes[n].applied;
      var st := ApplyOrRecover(s.nodes[n].disk, s.log[i], fetches);
      st.err != BlobMissing && st.disk.vols == Recovery.Replay(g.v0, g.payload, s.log[..i + 1])
  {
    var i, mine, peer := s.nodes[n].applied, s.nodes[n].disk, s.nodes[p].disk;
    var c := s.log[i];
    var alone := mine.(staging := map[c.token := fetches[a].staging[c.token]]);
    hide Replicas.Pulled, Recovery.LogOK, Recovery.FreshIDs, Recovery.EntryOK, Apply, ApplyOrRecover, Recovery.Replay,
      Recovery.ValidVols;
    RecoversAlone(mine, c, fetches, a);
    hide Brings;
    assert Replicas.NodeOK(g, s.log, s.nodes[n]) && Replicas.NodeOK(g, s.log, s.nodes[p]);
    Replicas.PulledIsCommitted(g, s.log, i, s.nodes[p].applied, mine, peer);
    hide Replicas.Inv, Replicas.NodeOK;
    CommittedAlone(g, s.log, i, alone);
  }

  lemma CommittedAlone(g: Replicas.Setting, log: seq<Command>, i: nat, d: Disk)
    requires Replicas.SettingOK(g) && Recovery.LogOK(g.v0, g.payload, log) && i < |log| && log[i].PutObject?
    requires d.vols == Recovery.Replay(g.v0, g.payload, log[..i]) && log[i].token in d.staging && Replicas.StagedOK(g, d.staging)
    ensures Apply(d, log[i]).err != BlobMissing && Apply(d, log[i]).disk.vols == Recovery.Replay(g.v0, g.payload, log[..i + 1])
  {
    hide Recovery.LogOK, Recovery.EntryOK, Apply, Recovery.Replay, Recovery.ValidVols, Replicas.StagedOK;
    Recovery.PrefixOK(g.v0, g.payload, log, i);
    Recovery.ReplayValid(g.v0, g.payload, log[..i]);
    Replicas.HasPayload(d, log[i]);
    Replicas.ApplyCanonical(g, d, log[i]);
    ReplayOneMore(g, log, i);
  }

  /** A recovered put has the effect of a put with just what was brought. */
  lemma RecoversAlone(d: Disk, c: Command, fetches: seq<Fetch>, a: nat)
    requires c.PutObject? && c.token != "" && c.token !in d.staging && Brings(fetches, a, c.token)
    ensures var st, alone := ApplyOrRecover(d, c, fetches), Apply(d.(staging := map[c.token := fetches[a].staging[c.token]]), c);
      st.err == alone.err && st.disk.vols == alone.disk.vols
  {
    hide MergeAll, Recover, Install, LockDefaults;
    var first := fetches[..a + 1];
    BroughtDecides(d, c, fetches, a);
    assert Apply(d, c) == Step(d, BlobMissing);
    MergedBytes(d, first, c.token, ("", 0));
    assert first[|first| - 1] == fetches[a];
    var m, alone := MergeAll(d, first), d.(staging := map[c.token := fetches[a].staging[c.token]]);
    hide Apply, Brings, StagedAfter;
    PutVolumes(alone, m, c);
  }

  lemma ReplayOneMore(g: Replicas.Setting, log: seq<Command>, i: nat)
    requires i < |log|
    ensures var vols := Recovery.Replay(g.v0, g.payload, log[..i]);
      Recovery.Replay(g.v0, g.payload, log[..i + 1]) == Apply(Recovery.CanonDisk(vols, g.payload, log[i]), log[i]).disk.vols
  {
    hide Apply;
    assert log[..i + 1][..i] == log[..i] && log[..i + 1][i] == log[i];
  }
}
