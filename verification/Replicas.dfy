/** The cluster as a state machine: nodes with their own disks and progress over one committed log. */
module Replicas {
  import opened Types
  import opened XMeta
  import opened Store
  import opened Machine
  import opened Rep
  import opened Reads
  import opened Refinement
  import opened Recovery
  import Spec
  import Settled

  datatype Node = Node(disk: Disk, applied: nat)

  datatype Cluster = Cluster(log: seq<Command>, nodes: seq<Node>)

  /** The fixed surroundings of a run: where every node starts, and what the gateway sends out under
      each blob token. */
  datatype Setting = Setting(v0: map<string, Volume>, payload: map<string, Bytes>)

  datatype Move =
    | FanOut(node: nat, token: string, mtime: nat)
    | Commit(command: Command)
    | ApplyNext(node: nat)
    | Collect(node: nat, tokens: set<string>)
    | Pull(node: nat, peer: nat, mtime: nat)

  ghost predicate SettingOK(g: Setting) { ValidVols(g.v0) }

  ghost predicate Init(g: Setting, s: Cluster) {
    s.log == [] && forall n | 0 <= n < |s.nodes| :: s.nodes[n] == Node(Disk(g.v0, map[], map[]), 0)
  }

  /** The version a node asks its peers for: the command's own when versioning is on. */
  function PullVersion(vols: map<string, Volume>, c: Command): string
    requires c.PutObject?
  {
    var bm := BucketConfig(Vol(vols, c.bucket));
    if bm.Some? && Enabled(bm.value) then c.versionID else ""
  }

  /** What the peer answers. */
  function Pulled(peer: Disk, mine: Disk, c: Command): Read
    requires c.PutObject?
  {
    Get(Vol(peer.vols, c.bucket), c.key, PullVersion(mine.vols, c))
  }

  ghost predicate Next(g: Setting, s: Cluster, m: Move, s': Cluster) {
    match m
    case FanOut(n, t, mtime) =>
      && n < |s.nodes| && t in g.payload
      && s' == s.(nodes := s.nodes[n := StageAt(s.nodes[n], t, File(g.payload[t], mtime, map[]))])
    case Commit(c) =>
      && s' == s.(log := s.log + [c])
      && LogOK(g.v0, g.payload, s'.log) && FreshIDs(g.v0, s'.log)
    case ApplyNext(n) =>
      && n < |s.nodes| && s.nodes[n].applied < |s.log|
      && var st := Apply(s.nodes[n].disk, s.log[s.nodes[n].applied]);
         // a missing payload is retried, not skipped
         st.err != BlobMissing && s' == s.(nodes := s.nodes[n := Node(st.disk, s.nodes[n].applied + 1)])
    case Collect(n, ts) =>
      && n < |s.nodes|
      && s' == s.(nodes := s.nodes[n := s.nodes[n].(disk := s.nodes[n].disk.(staging := s.nodes[n].disk.staging - ts))])
    case Pull(n, p, mtime) =>
      && n < |s.nodes| && p < |s.nodes| && s.nodes[n].applied < |s.log|
      && var c := s.log[s.nodes[n].applied];
         && c.PutObject? && c.token !in s.nodes[n].disk.staging
         && var r := Pulled(s.nodes[p].disk, s.nodes[n].disk, c);
            r.err == NoError && s' == s.(nodes := s.nodes[n := StageAt(s.nodes[n], c.token, File(r.bytes, mtime, map[]))])
  }

  function StageAt(n: Node, token: string, f: File): Node {
    n.(disk := n.disk.(staging := n.disk.staging[token := f]))
  }

  // ---- the invariant ----

  /** Staging only ever holds what the gateway sent out. */
  ghost predicate StagedOK(g: Setting, staging: map<string, File>) {
    forall t | t in staging :: t in g.payload && staging[t].bytes == g.payload[t]
  }

  ghost predicate NodeOK(g: Setting, log: seq<Command>, n: Node) {
    && n.applied <= |log|
    && n.disk.vols == Replay(g.v0, g.payload, log[..n.applied])
    && StagedOK(g, n.disk.staging)
  }

  ghost predicate Inv(g: Setting, s: Cluster) {
    && LogOK(g.v0, g.payload, s.log) && FreshIDs(g.v0, s.log)
    && (forall n | 0 <= n < |s.nodes| :: NodeOK(g, s.log, s.nodes[n]))
  }

  /** The installed object depends on the staged bytes only, not on the staged file's attributes. */
  lemma InstallSameBytes(v: Volume, k: string, enabled: bool, f: File, f': File, nv: ObjectMeta)
    requires f.bytes == f'.bytes && nv.lastModified != 0 && nv.blobID == "" && !nv.deleteMarker
    ensures Install(v, k, enabled, f, nv) == Install(v, k, enabled, f', nv)
  {
    hide Versions, Displace, Encode, Demoted;
    var dp := Displace(v, k, Versions(v, k), enabled);
    var w, w' := dp.vol.(dir := true, tree := dp.vol.tree[k := f]), dp.vol.(dir := true, tree := dp.vol.tree[k := f']);
    var vs := PrependLatest(dp.versions, nv);
    assert AtKeyPath(vs) && vs[0].lastModified != 0;
    assert WriteXattrs(f, vs[0]) == WriteXattrs(f', vs[0]);
    assert w.tree[k := WriteXattrs(f, vs[0])] == w'.tree[k := WriteXattrs(f', vs[0])];
  }

  /** A copy reads no staged payload. */
  lemma CopyBodiless(d: Disk, d': Disk, c: Command)
    requires c.CopyObject? && d.vols == d'.vols
    ensures ApplyCopy(d, c).disk.vols == ApplyCopy(d', c).disk.vols && ApplyCopy(d, c).disk.staging == d.staging
  {
    hide Displace, Resolve, Place, LockDefaults, CopyAttrs, Versions, Payload;
  }

  /** Nor does any other command but a put. */
  lemma Bodiless(d: Disk, d': Disk, c: Command)
    requires Replicable(c) && !c.PutObject? && d.vols == d'.vols
    ensures Apply(d, c).disk.vols == Apply(d', c).disk.vols && Apply(d, c).disk.staging == d.staging
  {
    hide ApplyCopy, ApplyPut, ApplyDelete, ApplyMutation, ApplyCreateBucket, ApplyDeleteBucket, ApplyBucketConfig;
    if c.CopyObject? { CopyBodiless(d, d', c); }
  }

  /** A command that does not miss its payload has the canonical effect. */
  lemma ApplyCanonical(g: Setting, d: Disk, c: Command)
    requires ValidVols(d.vols) && EntryOK(d.vols, g.payload, c) && StagedOK(g, d.staging)
    requires Apply(d, c).err != BlobMissing
    ensures Apply(d, c).disk.vols == Apply(CanonDisk(d.vols, g.payload, c), c).disk.vols
    ensures StagedOK(g, Apply(d, c).disk.staging)
  {
    hide Apply, Settled.StepSettled, ValidVols, AbsDisk;
    if c.PutObject? {
      PutCanonical(g, d, c);
    } else {
      Bodiless(d, CanonDisk(d.vols, g.payload, c), c);
    }
  }

  lemma PutCanonical(g: Setting, d: Disk, c: Command)
    requires ValidVols(d.vols) && c.PutObject? && EntryOK(d.vols, g.payload, c) && StagedOK(g, d.staging)
    requires Apply(d, c).err != BlobMissing
    ensures Apply(d, c).disk.vols == Apply(CanonDisk(d.vols, g.payload, c), c).disk.vols
    ensures StagedOK(g, Apply(d, c).disk.staging)
  {
    PutTime(d.vols, g.payload, c);
    hide Valid, Settled.StepSettled, Install, LockDefaults, AbsDisk;
    var v := Vol(d.vols, c.bucket);
    var bm := ConfigForWrite(v);
    var nv := NewMeta(VersionIDFor(Enabled(bm), c.versionID), c.size, c.mtime, LockDefaults(bm, c.attrs, c.mtime));
    InstallSameBytes(v, c.key, Enabled(bm), d.staging[c.token], CanonDisk(d.vols, g.payload, c).staging[c.token], nv);
  }

  /** A settled put carries its modification time and a version id. */
  lemma PutTime(vols: map<string, Volume>, payload: map<string, Bytes>, c: Command)
    requires ValidVols(vols) && c.PutObject? && EntryOK(vols, payload, c)
    ensures c.mtime != 0 && c.versionID != ""
    ensures PullVersion(vols, c) == c.versionID
  {
    hide Valid, AbsVol, LockDefaults;
    var d := CanonDisk(vols, payload, c);
    VolumeOf(d, c.bucket);
    ConfigSame(Vol(vols, c.bucket));
    assert Settled.PutSettled(AbsDisk(d), c);
  }

  /** PULL IS COMMITTED: whatever prefix of the log the peer has applied, the payload it returns is
      the one committed under the command's token. */
  lemma PulledIsCommitted(g: Setting, log: seq<Command>, i: nat, j: nat, mine: Disk, peer: Disk)
    requires SettingOK(g) && LogOK(g.v0, g.payload, log) && FreshIDs(g.v0, log)
    requires i < |log| && j <= |log| && log[i].PutObject?
    requires mine.vols == Replay(g.v0, g.payload, log[..i]) && peer.vols == Replay(g.v0, g.payload, log[..j])
    requires Pulled(peer, mine, log[i]).err == NoError
    ensures log[i].token in g.payload && Pulled(peer, mine, log[i]).bytes == g.payload[log[i].token]
  {
    hide Replay, LogOK, EntryOK, Valid, AbsVol, Get, Settled.StepSettled, FreshIDs;
    var c := log[i];
    PrefixOK(g.v0, g.payload, log, i);
    PrefixOK(g.v0, g.payload, log, j);
    ReplayValid(g.v0, g.payload, log[..i]);
    ReplayValid(g.v0, g.payload, log[..j]);
    PutTime(mine.vols, g.payload, c);
    VolumeOf(CanonDisk(peer.vols, g.payload, c), c.bucket);
    GetAgrees(Vol(peer.vols, c.bucket), c.key, c.versionID);
    Provenance(g.v0, g.payload, log, i, j);
    hide ValidVols;
    assert Spec.BucketOf(Buckets(peer.vols), c.bucket) == AbsVol(Vol(peer.vols, c.bucket));
  }

  // ---- preservation ----

  lemma CommitKeeps(g: Setting, s: Cluster, c: Command, s': Cluster)
    requires Inv(g, s) && Next(g, s, Commit(c), s')
    ensures Inv(g, s')
  {
    hide Replay, LogOK, FreshIDs, StagedOK;
    forall n | 0 <= n < |s'.nodes| ensures NodeOK(g, s'.log, s'.nodes[n]) {
      assert NodeOK(g, s.log, s.nodes[n]);
      assert s'.log[..s.nodes[n].applied] == s.log[..s.nodes[n].applied];
    }
  }

  lemma ApplyKeeps(g: Setting, s: Cluster, n: nat, s': Cluster)
    requires SettingOK(g) && Inv(g, s) && Next(g, s, ApplyNext(n), s')
    ensures Inv(g, s')
  {
    hide LogOK, FreshIDs, StagedOK, EntryOK, Apply, ValidVols;
    var i, d := s.nodes[n].applied, s.nodes[n].disk;
    assert NodeOK(g, s.log, s.nodes[n]);
    PrefixOK(g.v0, g.payload, s.log, i);
    ReplayValid(g.v0, g.payload, s.log[..i]);
    ApplyCanonical(g, d, s.log[i]);
    assert s.log[..i + 1][..i] == s.log[..i] && s.log[..i + 1][i] == s.log[i];
    assert NodeOK(g, s.log, s'.nodes[n]);
  }

  lemma PullKeeps(g: Setting, s: Cluster, n: nat, p: nat, mtime: nat, s': Cluster)
    requires SettingOK(g) && Inv(g, s) && Next(g, s, Pull(n, p, mtime), s')
    ensures Inv(g, s')
  {
    hide Replay, LogOK, FreshIDs, ValidVols, Pulled;
    assert NodeOK(g, s.log, s.nodes[n]) && NodeOK(g, s.log, s.nodes[p]);
    PulledIsCommitted(g, s.log, s.nodes[n].applied, s.nodes[p].applied, s.nodes[n].disk, s.nodes[p].disk);
    assert NodeOK(g, s.log, s'.nodes[n]);
  }

  lemma MoveKeeps(g: Setting, s: Cluster, m: Move, s': Cluster)
    requires SettingOK(g) && Inv(g, s) && Next(g, s, m, s')
    ensures Inv(g, s')
  {
    match m
    case Commit(c) => CommitKeeps(g, s, c, s');
    case ApplyNext(n) => ApplyKeeps(g, s, n, s');
    case Pull(n, p, mtime) => PullKeeps(g, s, n, p, mtime, s');
    case FanOut(n, t, mtime) =>
      hide Replay, LogOK, FreshIDs;
      assert NodeOK(g, s.log, s.nodes[n]) && NodeOK(g, s.log, s'.nodes[n]);
    case Collect(n, ts) =>
      hide Replay, LogOK, FreshIDs;
      assert NodeOK(g, s.log, s.nodes[n]) && NodeOK(g, s.log, s'.nodes[n]);
  }

  /** A run of the cluster: its states, and the moves between them. */
  ghost predicate Execution(g: Setting, states: seq<Cluster>, moves: seq<Move>) {
    && |states| == |moves| + 1
    && Init(g, states[0])
    && forall i | 0 <= i < |moves| :: Next(g, states[i], moves[i], states[i + 1])
  }

  lemma {:induction false} InvAlways(g: Setting, states: seq<Cluster>, moves: seq<Move>, i: nat)
    requires SettingOK(g) && Execution(g, states, moves) && i < |states|
    ensures Inv(g, states[i])
  {
    hide Next, SettingOK;
    if i == 0 {
      hide Replay;
      forall n | 0 <= n < |states[0].nodes| ensures NodeOK(g, states[0].log, states[0].nodes[n]) {
        ReplayNothing(g);
      }
    } else {
      InvAlways(g, states, moves, i - 1);
      hide Inv;
      assert Next(g, states[i - 1], moves[i - 1], states[i]);
      MoveKeeps(g, states[i - 1], moves[i - 1], states[i]);
    }
  }

  lemma ReplayNothing(g: Setting)
    ensures Replay(g.v0, g.payload, []) == g.v0
  {
  }

  /** MAIN THEOREM: over every interleaving of fan-out, commit, apply, staging collection and peer
      pull, each node's committed state is the canonical replay of the log prefix it has applied; so
      two nodes that have applied as much are the same. */
  lemma RecoveryConverges(g: Setting, states: seq<Cluster>, moves: seq<Move>, i: nat, n: nat, n': nat)
    requires SettingOK(g) && Execution(g, states, moves) && i < |states|
    requires n < |states[i].nodes| && n' < |states[i].nodes|
    ensures var s := states[i];
      && s.nodes[n].applied <= |s.log|
      && s.nodes[n].disk.vols == Replay(g.v0, g.payload, s.log[..s.nodes[n].applied])
      && (s.nodes[n].applied == s.nodes[n'].applied ==> s.nodes[n].disk.vols == s.nodes[n'].disk.vols)
  {
    hide Next, Replay, SettingOK;
    InvAlways(g, states, moves, i);
    assert NodeOK(g, states[i].log, states[i].nodes[n]) && NodeOK(g, states[i].log, states[i].nodes[n']);
  }

  /** PROGRESS: a node that misses the payload of its next entry, and a peer that can serve it, are two moves from
      the node having applied that entry: pull, then apply; nothing else in the cluster changes. */
  lemma CatchesUp(g: Setting, s: Cluster, n: nat, p: nat, mtime: nat) returns (s1: Cluster, s2: Cluster)
    requires SettingOK(g) && Inv(g, s) && n < |s.nodes| && p < |s.nodes| && s.nodes[n].applied < |s.log|
    requires var c := s.log[s.nodes[n].applied];
      c.PutObject? && c.token !in s.nodes[n].disk.staging && Pulled(s.nodes[p].disk, s.nodes[n].disk, c).err == NoError
    ensures Next(g, s, Pull(n, p, mtime), s1) && Next(g, s1, ApplyNext(n), s2)
    ensures s2.log == s.log && |s2.nodes| == |s.nodes| && s2.nodes[n].applied == s.nodes[n].applied + 1
    ensures s2.nodes[n].disk.vols == Replay(g.v0, g.payload, s.log[..s.nodes[n].applied + 1])
    ensures forall m | 0 <= m < |s.nodes| && m != n :: s2.nodes[m] == s.nodes[m]
  {
    hide Inv, Replay, LogOK, FreshIDs, SettingOK, Apply, Pulled, Next;
    s1 := PullMove(g, s, n, p, mtime);
    PullKeeps(g, s, n, p, mtime, s1);
    s2 := ApplyMove(g, s1, n);
    ApplyKeeps(g, s1, n, s2);
    Replayed(g, s2, n);
  }

  lemma PullMove(g: Setting, s: Cluster, n: nat, p: nat, mtime: nat) returns (s1: Cluster)
    requires n < |s.nodes| && p < |s.nodes| && s.nodes[n].applied < |s.log|
    requires var c := s.log[s.nodes[n].applied];
      c.PutObject? && c.token !in s.nodes[n].disk.staging && Pulled(s.nodes[p].disk, s.nodes[n].disk, c).err == NoError
    ensures Next(g, s, Pull(n, p, mtime), s1) && s1.log == s.log && |s1.nodes| == |s.nodes|
    ensures s1.nodes[n].applied == s.nodes[n].applied && s.log[s.nodes[n].applied].token in s1.nodes[n].disk.staging
    ensures forall m | 0 <= m < |s.nodes| && m != n :: s1.nodes[m] == s.nodes[m]
  {
    hide Pulled;
    var c := s.log[s.nodes[n].applied];
    var f := File(Pulled(s.nodes[p].disk, s.nodes[n].disk, c).bytes, mtime, map[]);
    Staging(s.nodes[n], c.token, f);
    s1 := s.(nodes := s.nodes[n := StageAt(s.nodes[n], c.token, f)]);
  }

  lemma ApplyMove(g: Setting, s: Cluster, n: nat) returns (s1: Cluster)
    requires n < |s.nodes| && s.nodes[n].applied < |s.log|
    requires var c := s.log[s.nodes[n].applied]; c.PutObject? && c.token in s.nodes[n].disk.staging
    ensures Next(g, s, ApplyNext(n), s1) && s1.log == s.log && |s1.nodes| == |s.nodes|
    ensures s1.nodes[n].applied == s.nodes[n].applied + 1
    ensures forall m | 0 <= m < |s.nodes| && m != n :: s1.nodes[m] == s.nodes[m]
  {
    hide Apply;
    var c := s.log[s.nodes[n].applied];
    HasPayload(s.nodes[n].disk, c);
    s1 := s.(nodes := s.nodes[n := Node(Apply(s.nodes[n].disk, c).disk, s.nodes[n].applied + 1)]);
  }

  lemma Staging(n: Node, token: string, f: File)
    ensures StageAt(n, token, f).applied == n.applied && token in StageAt(n, token, f).disk.staging
  {}

  lemma Replayed(g: Setting, s: Cluster, n: nat)
    requires Inv(g, s) && n < |s.nodes|
    ensures s.nodes[n].applied <= |s.log| && s.nodes[n].disk.vols == Replay(g.v0, g.payload, s.log[..s.nodes[n].applied])
  {
    hide Replay, LogOK, FreshIDs, StagedOK;
    assert NodeOK(g, s.log, s.nodes[n]);
  }

  lemma HasPayload(d: Disk, c: Command)
    requires c.PutObject? && c.token in d.staging
    ensures Apply(d, c).err != BlobMissing
  {
    hide Versions, WriteXattrs, LockDefaults;
  }
}
