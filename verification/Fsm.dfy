/** The replicated state machine around the backend: applying a log entry, with recovery of a payload
    this node never received. */
module Fsm {
  import opened Types
  import opened Machine
  import opened Uploads
  import opened Backend
  import Store
  import Multipart
  import XMeta

  const RECOVERY_ATTEMPTS: nat := 120

  /** The outcome of one attempt to fetch a command's payload from the peers. */
  datatype Fetch = FetchFailed | Fetched(staging: map<string, File>, parts: map<(string, int), Bytes>)

  function Merge(d: Disk, f: Fetch): Disk
    requires f.Fetched?
  {
    d.(staging := d.staging + f.staging, parts := d.parts + f.parts)
  }

  /** Applying after each successful fetch until the payload is there, or the attempts run out. */
  function Recover(d: Disk, c: Command, fetches: seq<Fetch>): Step
    decreases |fetches|
  {
    if fetches == [] then Step(d, BlobMissing)
    else if fetches[0].FetchFailed? then Recover(d, c, fetches[1..])
    else
      var st := Apply(Merge(d, fetches[0]), c);
      if st.err != BlobMissing then st else Recover(st.disk, c, fetches[1..])
  }

  /** The command can be retried: it names a payload to fetch. */
  predicate Recoverable(c: Command) {
    (c.PutObject? || c.CompleteMultipart?) && c.token != ""
  }

  function ApplyOrRecover(d: Disk, c: Command, fetches: seq<Fetch>): Step {
    var st := Apply(d, c);
    if st.err != BlobMissing || !Recoverable(c) then st else Recover(st.disk, c, fetches)
  }

  /** Recovery is over the same files whichever way they are recorded. */
  lemma {:induction false} RecoverSame(d: Disk, d': Disk, c: Command, fetches: seq<Fetch>)
    requires Same(d, d')
    ensures Recover(d, c, fetches).err == Recover(d', c, fetches).err
    ensures Same(Recover(d, c, fetches).disk, Recover(d', c, fetches).disk)
    decreases |fetches|
  {
    hide Apply;
    if fetches != [] {
      if fetches[0].FetchFailed? {
        RecoverSame(d, d', c, fetches[1..]);
      } else {
        ApplySame(Merge(d, fetches[0]), Merge(d', fetches[0]), c);
        RecoverSame(Apply(Merge(d, fetches[0]), c).disk, Apply(Merge(d', fetches[0]), c).disk, c, fetches[1..]);
      }
    }
  }

  lemma RecoverStep(d: Disk, c: Command, fetches: seq<Fetch>)
    requires fetches != []
    ensures fetches[0].FetchFailed? ==> Recover(d, c, fetches) == Recover(d, c, fetches[1..])
    ensures fetches[0].Fetched? ==>
      var st := Apply(Merge(d, fetches[0]), c);
      Recover(d, c, fetches) == if st.err != BlobMissing then st else Recover(st.disk, c, fetches[1..])
  {
    hide Apply;
  }

  lemma RecoverEnd(d: Disk, c: Command)
    ensures Recover(d, c, []) == Step(d, BlobMissing)
  {}

  lemma SameTransitive(a: Disk, b: Disk, c: Disk)
    requires Same(a, b) && Same(b, c)
    ensures Same(a, c)
  {}

  /** A missing payload leaves the disk as it was. */
  lemma MissingChangesNothing(d: Disk, c: Command)
    requires Apply(d, c).err == BlobMissing && Recoverable(c)
    ensures Apply(d, c).disk == d
  {
    InstallNeverMissing(d, c);
    hide Store.Install, Store.LockDefaults, Multipart.Chosen, Multipart.MultipartETag;
  }

  lemma InstallNeverMissing(d: Disk, c: Command)
    ensures forall v: Volume, k, e, f, nv :: Store.Install(v, k, e, f, nv).err != BlobMissing
  {
    hide Store.Versions, XMeta.WriteXattrs;
  }

  /** The disk with everything that was fetched. */
  function MergeAll(d: Disk, fetches: seq<Fetch>): Disk {
    if fetches == [] then d
    else
      var rest, f := MergeAll(d, fetches[..|fetches| - 1]), fetches[|fetches| - 1];
      if f.Fetched? then Merge(rest, f) else rest
  }

  /** The attempt brought something, and what has been brought so far is enough. */
  predicate Supplies(d: Disk, c: Command, fetches: seq<Fetch>, n: nat)
    requires n < |fetches|
  {
    fetches[n].Fetched? && Apply(MergeAll(d, fetches[..n + 1]), c).err != BlobMissing
  }

  /** The parts a completion would assemble; none when it is refused before it looks for them. */
  function NeededParts(d: Disk, c: Command): set<(string, int)>
    requires c.CompleteMultipart?
  {
    var v := Vol(d.vols, c.bucket);
    if c.uploadID !in v.uploads then {}
    else
      var ch := Multipart.Choose(v.uploads[c.uploadID].parts, c.wanted, 0);
      if ch.err != NoError || Multipart.TooSmall(ch.parts) then {}
      else set p | p in ch.parts :: (c.uploadID, p.number)
  }

  /** A staged payload was there or came with one of the fetches. */
  predicate BlobCame(d: Disk, fetches: seq<Fetch>, token: string) {
    token in d.staging || exists i | 0 <= i < |fetches| :: fetches[i].Fetched? && token in fetches[i].staging
  }

  predicate PartCame(d: Disk, fetches: seq<Fetch>, part: (string, int)) {
    part in d.parts || exists i | 0 <= i < |fetches| :: fetches[i].Fetched? && part in fetches[i].parts
  }

  /** All that a put or a completion reads besides the volume. */
  predicate PayloadCame(d: Disk, c: Command, fetches: seq<Fetch>)
    requires Recoverable(c)
  {
    if c.PutObject? then BlobCame(d, fetches, c.token)
    else forall p | p in NeededParts(d, c) :: PartCame(d, fetches, p)
  }

  /** Merging loses nothing, adds what was fetched and touches no volume. */
  lemma {:induction false} MergedHolds(d: Disk, fetches: seq<Fetch>)
    ensures var m := MergeAll(d, fetches);
      && m.vols == d.vols
      && (forall t :: t in m.staging <==> BlobCame(d, fetches, t))
      && (forall p :: p in m.parts <==> PartCame(d, fetches, p))
  {
    if fetches != [] {
      var n := |fetches| - 1;
      var init := fetches[..n];
      MergedHolds(d, init);
      forall t ensures BlobCame(d, fetches, t) <==> BlobCame(d, init, t) || (fetches[n].Fetched? && t in fetches[n].staging) {
        BlobCameLast(d, fetches, t);
      }
      forall p ensures PartCame(d, fetches, p) <==> PartCame(d, init, p) || (fetches[n].Fetched? && p in fetches[n].parts) {
        PartCameLast(d, fetches, p);
      }
      hide BlobCame, PartCame;
    }
  }

  lemma BlobCameLast(d: Disk, fetches: seq<Fetch>, t: string)
    requires fetches != []
    ensures var n := |fetches| - 1;
      BlobCame(d, fetches, t) <==> BlobCame(d, fetches[..n], t) || (fetches[n].Fetched? && t in fetches[n].staging)
  {
    var init := fetches[..|fetches| - 1];
    assert forall i | 0 <= i < |init| :: init[i] == fetches[i];
  }

  lemma PartCameLast(d: Disk, fetches: seq<Fetch>, p: (string, int))
    requires fetches != []
    ensures var n := |fetches| - 1;
      PartCame(d, fetches, p) <==> PartCame(d, fetches[..n], p) || (fetches[n].Fetched? && p in fetches[n].parts)
  {
    var init := fetches[..|fetches| - 1];
    assert forall i | 0 <= i < |init| :: init[i] == fetches[i];
  }

  /** When a command misses its payload. */
  lemma MissingExact(d: Disk, c: Command)
    requires Recoverable(c)
    ensures Apply(d, c).err == BlobMissing <==>
      if c.PutObject? then c.token !in d.staging else !(NeededParts(d, c) <= d.parts.Keys)
  {
    InstallNeverMissing(d, c);
    hide Store.Install, Store.LockDefaults, Multipart.MultipartETag;
    if c.CompleteMultipart? && c.uploadID in Vol(d.vols, c.bucket).uploads {
      ChooseNeverMissing(Vol(d.vols, c.bucket).uploads[c.uploadID].parts, c.wanted, 0);
    }
  }

  lemma {:induction false} ChooseNeverMissing(uploaded: seq<Part>, wanted: seq<CompletedPart>, prev: int)
    ensures Multipart.Choose(uploaded, wanted, prev).err != BlobMissing
  {
    if wanted != [] { ChooseNeverMissing(uploaded, wanted[1..], wanted[0].number); }
  }

  /** PAYLOADS: an attempt supplies a command if and only if it succeeded and the put's staged payload, or every
      part the completion would assemble, was there before or came with it or an earlier attempt. */
  lemma SuppliesExact(d: Disk, c: Command, fetches: seq<Fetch>, n: nat)
    requires Recoverable(c) && n < |fetches|
    ensures Supplies(d, c, fetches, n) <==> fetches[n].Fetched? && PayloadCame(d, c, fetches[..n + 1])
  {
    var m := MergeAll(d, fetches[..n + 1]);
    MergedHolds(d, fetches[..n + 1]);
    MissingExact(m, c);
    hide Apply, MergeAll, BlobCame, PartCame;
    if c.CompleteMultipart? { assert NeededParts(m, c) == NeededParts(d, c); }
  }

  lemma {:induction false} MergeFirst(d: Disk, fetches: seq<Fetch>)
    requires fetches != []
    ensures MergeAll(d, fetches) == MergeAll(if fetches[0].Fetched? then Merge(d, fetches[0]) else d, fetches[1..])
  {
    var n := |fetches| - 1;
    if n > 0 {
      MergeFirst(d, fetches[..n]);
      assert fetches[..n][1..] == fetches[1..][..n - 1] && fetches[1..][n - 1] == fetches[n];
    } else {
      assert fetches[..0] == [] && fetches[1..] == [];
    }
  }

  /** What later attempts supply, seen from the disk after the first. */
  lemma SuppliesLater(d: Disk, c: Command, fetches: seq<Fetch>, n: nat)
    requires 0 < n < |fetches|
    ensures Supplies(d, c, fetches, n) <==>
      Supplies(if fetches[0].Fetched? then Merge(d, fetches[0]) else d, c, fetches[1..], n - 1)
  {
    hide Apply;
    MergeFirst(d, fetches[..n + 1]);
    assert fetches[..n + 1][1..] == fetches[1..][..n];
  }

  lemma MergeOne(d: Disk, fetches: seq<Fetch>)
    requires fetches != []
    ensures MergeAll(d, fetches[..0 + 1]) == if fetches[0].Fetched? then Merge(d, fetches[0]) else d
  {
    assert fetches[..0 + 1][..0] == [];
  }

  /** An attempt that does not supply the payload leaves just what it fetched. */
  lemma NotYet(d: Disk, c: Command, fetches: seq<Fetch>)
    requires Recoverable(c) && fetches != [] && !Supplies(d, c, fetches, 0)
    ensures Recover(d, c, fetches) == Recover(if fetches[0].Fetched? then Merge(d, fetches[0]) else d, c, fetches[1..])
  {
    hide Apply;
    MergeOne(d, fetches);
    RecoverStep(d, c, fetches);
    if fetches[0].Fetched? { MissingChangesNothing(Merge(d, fetches[0]), c); }
  }

  /** The first attempt after which all the command needs has been brought decides the outcome, whatever
      the attempts before it brought or failed to bring. */
  lemma {:induction false} FirstFetchDecides(d: Disk, c: Command, fetches: seq<Fetch>, n: nat)
    requires Recoverable(c) && n < |fetches| && Supplies(d, c, fetches, n)
    requires forall i | 0 <= i < n :: !Supplies(d, c, fetches, i)
    ensures Recover(d, c, fetches) == Apply(MergeAll(d, fetches[..n + 1]), c)
    decreases n
  {
    hide Apply;
    if n == 0 {
      MergeOne(d, fetches);
      RecoverStep(d, c, fetches);
    } else {
      var d', rest := if fetches[0].Fetched? then Merge(d, fetches[0]) else d, fetches[1..];
      NotYet(d, c, fetches);
      forall i | 0 < i <= n ensures Supplies(d, c, fetches, i) <==> Supplies(d', c, rest, i - 1) {
        SuppliesLater(d, c, fetches, i);
      }
      hide Supplies, MergeAll, Recover;
      forall i | 0 <= i < n - 1 ensures !Supplies(d', c, rest, i) { assert !Supplies(d, c, fetches, i + 1); }
      FirstFetchDecides(d', c, rest, n - 1);
      MergeFirst(d, fetches[..n + 1]);
      assert fetches[..n + 1][1..] == rest[..n];
    }
  }

  /** With no such attempt the entry is given up, the disk having gained what was fetched and no more. */
  lemma {:induction false} NoneSupplies(d: Disk, c: Command, fetches: seq<Fetch>)
    requires Recoverable(c) && forall i | 0 <= i < |fetches| :: !Supplies(d, c, fetches, i)
    ensures Recover(d, c, fetches) == Step(MergeAll(d, fetches), BlobMissing)
    decreases |fetches|
  {
    hide Apply;
    if fetches != [] {
      var d', rest := if fetches[0].Fetched? then Merge(d, fetches[0]) else d, fetches[1..];
      NotYet(d, c, fetches);
      forall i | 0 <= i < |rest| ensures !Supplies(d', c, rest, i) {
        SuppliesLater(d, c, fetches, i + 1);
        assert !Supplies(d, c, fetches, i + 1);
      }
      hide Supplies, MergeAll, Recover;
      NoneSupplies(d', c, rest);
      MergeFirst(d, fetches);
    }
  }

  /** EXACT: an entry is given up if and only if no attempt supplies what it needs, that is at no successful
      attempt the whole payload has come; and its effect is then what was fetched and no more. */
  lemma GivesUp(d: Disk, c: Command, fetches: seq<Fetch>)
    requires Recoverable(c)
    ensures Recover(d, c, fetches).err == BlobMissing <==> forall i | 0 <= i < |fetches| :: !Supplies(d, c, fetches, i)
    ensures Recover(d, c, fetches).err == BlobMissing <==>
      forall i | 0 <= i < |fetches| && fetches[i].Fetched? :: !PayloadCame(d, c, fetches[..i + 1])
    ensures Recover(d, c, fetches).err == BlobMissing ==> Recover(d, c, fetches).disk == MergeAll(d, fetches)
  {
    forall i | 0 <= i < |fetches|
      ensures Supplies(d, c, fetches, i) <==> fetches[i].Fetched? && PayloadCame(d, c, fetches[..i + 1])
    {
      SuppliesExact(d, c, fetches, i);
    }
    hide PayloadCame;
    if i :| 0 <= i < |fetches| && Supplies(d, c, fetches, i) {
      var n := FirstSupply(d, c, fetches, i);
      FirstFetchDecides(d, c, fetches, n);
      hide Apply, MergeAll, Recover;
    } else {
      NoneSupplies(d, c, fetches);
    }
  }

  lemma {:induction false} FirstSupply(d: Disk, c: Command, fetches: seq<Fetch>, i: nat) returns (n: nat)
    requires i < |fetches| && Supplies(d, c, fetches, i)
    ensures n <= i && Supplies(d, c, fetches, n) && forall j | 0 <= j < n :: !Supplies(d, c, fetches, j)
  {
    hide Apply;
    if j :| 0 <= j < i && Supplies(d, c, fetches, j) {
      n := FirstSupply(d, c, fetches, j);
    } else {
      n := i;
    }
  }

  class StateMachine {
    const backend: PosixBackend
    var applied: nat

    constructor (b: PosixBackend)
      ensures backend == b && applied == 0
    {
      backend, applied := b, 0;
    }

    /** Applies a command, retrying with fetched payloads while its own is missing. */
    method ApplyWithRecovery(c: Command, fetches: seq<Fetch>) returns (err: Err)
      requires PartsOrdered(backend.State()) && |fetches| == 120
      modifies backend
      ensures PartsOrdered(backend.State())
      ensures var st := ApplyOrRecover(old(backend.State()), c, fetches);
        err == st.err && Same(backend.State(), st.disk)
    {
      hide Apply, PartsOrdered, Same, Recover, Merge;
      err := backend.ApplyCommand(c);
      ghost var d0 := old(backend.State());
      if err != BlobMissing || !Recoverable(c) {
        return;
      }
      RecoverSame(backend.State(), Apply(d0, c).disk, c, fetches);
      ghost var goal := Recover(Apply(d0, c).disk, c, fetches);
      assert fetches[0..] == fetches;
      for attempt := 0 to RECOVERY_ATTEMPTS
        invariant PartsOrdered(backend.State()) && err == BlobMissing
        invariant Recover(backend.State(), c, fetches[attempt..]).err == goal.err
        invariant Same(Recover(backend.State(), c, fetches[attempt..]).disk, goal.disk)
      {
        ghost var rest := fetches[attempt..];
        assert rest[0] == fetches[attempt] && rest[1..] == fetches[attempt + 1..];
        RecoverStep(backend.State(), c, rest);
        if fetches[attempt].Fetched? {
          ghost var d := backend.State();
          err := Retry(c, fetches[attempt]);
          ghost var e := Apply(Merge(d, fetches[attempt]), c).disk;
          if err != BlobMissing {
            SameTransitive(backend.State(), e, goal.disk);
            return;
          }
          RecoverSame(backend.State(), e, c, rest[1..]);
          SameTransitive(Recover(backend.State(), c, rest[1..]).disk, Recover(e, c, rest[1..]).disk, goal.disk);
        }
      }
      assert fetches[RECOVERY_ATTEMPTS..] == [];
      RecoverEnd(backend.State(), c);
    }

    /** Stages what was fetched and applies the command again. */
    method Retry(c: Command, f: Fetch) returns (err: Err)
      requires PartsOrdered(backend.State()) && f.Fetched?
      modifies backend
      ensures PartsOrdered(backend.State())
      ensures var st := Apply(Merge(old(backend.State()), f), c);
        err == st.err && Same(backend.State(), st.disk)
    {
      hide Apply, PartsOrdered;
      Merging(backend.State(), f);
      backend.staging := backend.staging + f.staging;
      backend.parts := backend.parts + f.parts;
      err := backend.ApplyCommand(c);
    }

    static lemma Merging(d: Disk, f: Fetch)
      requires PartsOrdered(d) && f.Fetched?
      ensures PartsOrdered(Merge(d, f))
    {
    }

    /** Executes one log entry; the applied index advances whatever the outcome. */
    method ApplyEntry(index: nat, c: Command, fetches: seq<Fetch>) returns (err: Err)
      requires PartsOrdered(backend.State()) && |fetches| == 120
      modifies this, backend
      ensures PartsOrdered(backend.State()) && applied == index
      ensures var st := ApplyOrRecover(old(backend.State()), c, fetches);
        err == st.err && Same(backend.State(), st.disk)
    {
      err := ApplyWithRecovery(c, fetches);
      applied := index;
    }
  }
}
