/** Whole runs: committed commands interleaved with payloads arriving in, and leaving, staging. */
module Runs {
  import opened Types
  import opened XMeta
  import opened Store
  import opened Machine
  import opened Rep
  import opened Displacing
  import opened Deletes
  import opened Reads
  import opened Refinement
  import Spec
  import Settled

  /** What happens on a node: a command is applied, a payload or a part is fanned out to staging,
      or the sweeper reclaims staged payloads. */
  datatype Event =
    | Commit(command: Command)
    | Stage(token: string, file: File)
    | StagePart(uploadID: string, part: int, bytes: Bytes)
    | Sweep(tokens: set<string>, parts: set<(string, int)>)

  function Happen(d: Disk, e: Event): Disk {
    match e
    case Commit(c) => Apply(d, c).disk
    case Stage(t, f) => d.(staging := d.staging[t := f])
    case StagePart(u, p, bytes) => d.(parts := d.parts[(u, p) := bytes])
    case Sweep(ts, ps) => d.(staging := d.staging - ts, parts := d.parts - ps)
  }

  function HappenSpec(s: Spec.State, e: Event): Spec.State {
    match e
    case Commit(c) => Spec.ApplySpec(s, c).state
    case Stage(t, f) => s.(staging := s.staging[t := f])
    case StagePart(u, p, bytes) => s.(parts := s.parts[(u, p) := bytes])
    case Sweep(ts, ps) => s.(staging := s.staging - ts, parts := s.parts - ps)
  }

  function Run(d: Disk, es: seq<Event>): Disk {
    if es == [] then d else Happen(Run(d, es[..|es| - 1]), es[|es| - 1])
  }

  function RunSpec(s: Spec.State, es: seq<Event>): Spec.State {
    if es == [] then s else HappenSpec(RunSpec(s, es[..|es| - 1]), es[|es| - 1])
  }

  /** Every command of the run is settled where it runs, judged on the version lists alone. */
  predicate SettledRun(s: Spec.State, es: seq<Event>) {
    if es == [] then true
    else
      var last := |es| - 1;
      && SettledRun(s, es[..last])
      && (es[last].Commit? ==> Settled.StepSettled(RunSpec(s, es[..last]), es[last].command))
  }

  /** Every command reports the specified error, and every state on the way is valid and means the
      specified state. */
  ghost predicate RunAgrees(d: Disk, es: seq<Event>) {
    if es == [] then true
    else
      var last := |es| - 1;
      && RunAgrees(d, es[..last])
      && ValidDisk(Run(d, es)) && AbsDisk(Run(d, es)) == RunSpec(AbsDisk(d), es)
      && (es[last].Commit? ==>
            Apply(Run(d, es[..last]), es[last].command).err
              == Spec.ApplySpec(RunSpec(AbsDisk(d), es[..last]), es[last].command).err)
  }

  lemma StagingStep(d: Disk, e: Event)
    requires ValidDisk(d) && !e.Commit?
    ensures ValidDisk(Happen(d, e)) && AbsDisk(Happen(d, e)) == HappenSpec(AbsDisk(d), e)
  {
    hide Valid, AbsVol;
  }

  /** MAIN THEOREM: a run refines the version lists at every step exactly when it is settled. */
  lemma {:induction false} RunExact(d: Disk, es: seq<Event>)
    requires ValidDisk(d)
    ensures RunAgrees(d, es) <==> SettledRun(AbsDisk(d), es)
    ensures SettledRun(AbsDisk(d), es) ==> ValidDisk(Run(d, es)) && AbsDisk(Run(d, es)) == RunSpec(AbsDisk(d), es)
  {
    if es != [] {
      hide ValidDisk, AbsDisk, Apply, Spec.ApplySpec, Settled.StepSettled;
      var last := |es| - 1;
      RunExact(d, es[..last]);
      if SettledRun(AbsDisk(d), es[..last]) {
        var u := Run(d, es[..last]);
        if es[last].Commit? {
          StepExact(u, es[last].command);
        } else {
          StagingStep(u, es[last]);
        }
      }
    }
  }

  /** After every settled run, a read of any version of any key returns exactly the bytes and the
      metadata of that version, or the error the version list calls for. */
  lemma ReadsAfterRun(d: Disk, es: seq<Event>, b: string, k: string, id: string)
    requires ValidDisk(d) && SettledRun(AbsDisk(d), es)
    ensures var v := Vol(Run(d, es).vols, b);
      var g, q := Get(v, k, id), Spec.Readable(Spec.BucketOf(RunSpec(AbsDisk(d), es).buckets, b), k, id);
      && g.err == q.err && Head(v, k, id).err == q.err
      && (g.err == NoError ==>
            && Head(v, k, id).meta == g.meta
            && q.version == Spec.Version(g.meta.versionID, false, g.bytes, g.meta.size, g.meta.lastModified, g.meta.attrs))
  {
    hide ValidDisk, AbsDisk, Valid, AbsVol, SettledRun, Get, Spec.Readable, Head;
    RunExact(d, es);
    VolumeOf(Run(d, es), b);
    GetAgrees(Vol(Run(d, es).vols, b), k, id);
  }

  // ---- payload conservation ----

  /** The live versions of a volume, as key and position. */
  ghost function LiveVersions(v: Volume): set<(string, int)> {
    set k, i | k in Keys(v) && 0 <= i < |Versions(v, k)| && !Versions(v, k)[i].deleteMarker :: (k, i)
  }

  /** Where a payload can be: the file of a key, or an archived blob. */
  datatype Location = KeyFile(key: string) | Blob(id: string)

  ghost function Locations(v: Volume): set<Location> {
    (set k | k in v.tree :: KeyFile(k)) + (set id | id in v.blobs :: Blob(id))
  }

  function LocationOf(v: Volume, p: (string, int)): Location
    requires 0 <= p.1 < |Versions(v, p.0)|
  {
    if p.1 == 0 then KeyFile(p.0) else Blob(Versions(v, p.0)[p.1].versionID)
  }

  /** A live version's payload is at its location. */
  lemma LocationHolds(v: Volume, p: (string, int))
    requires Valid(v) && p in LiveVersions(v)
    ensures 0 <= p.1 < |Versions(v, p.0)| && LocationOf(v, p) in Locations(v)
    ensures p.1 > 0 ==> Versions(v, p.0)[p.1].versionID in Archived(Versions(v, p.0))
  {
    hide Valid, Versions, ReadCurrentMeta, Keys;
    Listed(v, p.0);
    if p.1 > 0 { TailLoose(v, p.0, p.1); }
  }

  lemma LocationUnique(v: Volume, p: (string, int), q: (string, int))
    requires Valid(v) && p in LiveVersions(v) && q in LiveVersions(v)
    requires 0 <= p.1 < |Versions(v, p.0)| && 0 <= q.1 < |Versions(v, q.0)|
    requires LocationOf(v, p) == LocationOf(v, q)
    ensures p == q
  {
    hide Versions, ReadCurrentMeta, KeyOK;
    LocationHolds(v, p);
    LocationHolds(v, q);
    if p.1 > 0 {
      assert BlobsOK(v);
      if p.0 == q.0 { Listed(v, p.0); }
    }
  }

  lemma LocationOwned(v: Volume, l: Location) returns (p: (string, int))
    requires Valid(v) && l in Locations(v)
    ensures p in LiveVersions(v) && 0 <= p.1 < |Versions(v, p.0)| && LocationOf(v, p) == l
  {
    hide Versions, ReadCurrentMeta, KeyOK;
    match l
    case KeyFile(k) =>
      Listed(v, k);
      p := (k, 0);
    case Blob(id) =>
      assert BlobsOK(v);
      var k :| k in Keys(v) && id in Archived(Versions(v, k));
      var vs := Versions(v, k);
      var i :| 1 <= i < |vs| && !vs[i].deleteMarker && vs[i].versionID == id;
      p := (k, i);
  }

  lemma {:induction false} Bijection<A, B>(s: set<A>, t: set<B>, f: map<A, B>)
    requires f.Keys == s
    requires forall a | a in s :: f[a] in t
    requires forall a, a' | a in s && a' in s && f[a] == f[a'] :: a == a'
    requires forall b | b in t :: exists a | a in s :: f[a] == b
    ensures |s| == |t|
  {
    if s == {} {
      assert forall b :: b !in t;
    } else {
      var a :| a in s;
      forall b | b in t - {f[a]} ensures exists x | x in s - {a} :: (f - {a})[x] == b {
        var x :| x in s && f[x] == b;
        assert (f - {a})[x] == b;
      }
      Bijection(s - {a}, t - {f[a]}, f - {a});
    }
  }

  /** The live versions and the stored payloads correspond one to one: none is lost, none is shared
      and none is left over. */
  lemma PayloadsConserved(v: Volume)
    requires Valid(v)
    ensures forall p | p in LiveVersions(v) :: 0 <= p.1 < |Versions(v, p.0)| && LocationOf(v, p) in Locations(v)
    ensures forall p, q | p in LiveVersions(v) && q in LiveVersions(v) && LocationOf(v, p) == LocationOf(v, q) :: p == q
    ensures forall l | l in Locations(v) :: exists p | p in LiveVersions(v) :: LocationOf(v, p) == l
    ensures |LiveVersions(v)| == |v.tree| + |v.blobs|
  {
    hide Valid, Versions, Keys;
    forall p | p in LiveVersions(v) ensures 0 <= p.1 < |Versions(v, p.0)| && LocationOf(v, p) in Locations(v) {
      LocationHolds(v, p);
    }
    forall p, q | p in LiveVersions(v) && q in LiveVersions(v) && LocationOf(v, p) == LocationOf(v, q) ensures p == q {
      LocationUnique(v, p, q);
    }
    forall l | l in Locations(v) ensures exists p | p in LiveVersions(v) :: LocationOf(v, p) == l {
      var p := LocationOwned(v, l);
    }
    hide LiveVersions, Locations;
    var f := map p | p in LiveVersions(v) :: LocationOf(v, p);
    Bijection(LiveVersions(v), Locations(v), f);
    LocationCount(v);
  }

  lemma LocationCount(v: Volume)
    ensures |Locations(v)| == |v.tree| + |v.blobs|
  {
    var t, b := set k | k in v.tree :: KeyFile(k), set id | id in v.blobs :: Blob(id);
    Bijection(v.tree.Keys, t, map k | k in v.tree :: KeyFile(k));
    Bijection(v.blobs.Keys, b, map id | id in v.blobs :: Blob(id));
    assert t !! b;
  }

  /** Over every settled run, in every bucket, the payloads stay in one-to-one correspondence with
      the live versions. */
  lemma PayloadsAfterRun(d: Disk, es: seq<Event>, b: string)
    requires ValidDisk(d) && SettledRun(AbsDisk(d), es)
    ensures var v := Vol(Run(d, es).vols, b);
      && (forall p, q | p in LiveVersions(v) && q in LiveVersions(v) && LocationOf(v, p) == LocationOf(v, q) :: p == q)
      && (set p | p in LiveVersions(v) :: LocationOf(v, p)) == Locations(v)
      && |LiveVersions(v)| == |v.tree| + |v.blobs|
  {
    hide ValidDisk, AbsDisk, Valid, AbsVol, SettledRun, LiveVersions, Locations, LocationOf;
    RunExact(d, es);
    VolumeOf(Run(d, es), b);
    PayloadsConserved(Vol(Run(d, es).vols, b));
  }

  // ---- index agreement ----

  /** A key has an object file exactly when its newest version is live, and the keys found by walking
      the histories and the tree are exactly the keys with some version. */
  lemma IndexAgrees(v: Volume, k: string)
    requires Valid(v)
    ensures k in v.tree <==> Spec.History(AbsVol(v), k) != [] && !Spec.History(AbsVol(v), k)[0].marker
    ensures k in Keys(v) <==> Spec.History(AbsVol(v), k) != []
  {
    hide Valid, Versions, Keys, ReadCurrentMeta;
    AbsIDs(v, k);
    Listed(v, k);
  }

  /** A bucket delete that succeeds in a valid state destroys no version and no delete marker. */
  lemma DeleteDestroysNothing(v: Volume)
    requires Valid(v) && ApplyDeleteBucket(v).err == NoError
    ensures forall k :: Versions(v, k) == []
    ensures v.blobs == map[]
  {
    NothingStored(v);
    hide Valid;
  }
}
