/** Installing a new version refines adding it to the history, exactly on settled writes. */
module Writes {
  import opened Types
  import opened XMeta
  import opened Store
  import opened Rep
  import opened Persist
  import opened Displacing
  import opened Finalizing
  import opened Topping
  import Spec
  import Settled

  // ---- the remaining versions ----

  lemma {:induction false} DropFresh(h: seq<Spec.Version>, id: string)
    requires !Spec.HasID(h, id)
    ensures Spec.Drop(h, id) == h
  {
    if h != [] {
      assert h[0].id != id;
      forall i | 0 <= i < |h[1..]| ensures h[1..][i].id != id { assert h[i + 1].id != id; }
      DropFresh(h[1..], id);
    }
  }

  /** What displacing leaves is what the specification keeps. */
  lemma AddedIs(h: seq<Spec.Version>, enabled: bool, nv: Spec.Version)
    requires !enabled ==> nv.id == "null"
    requires !Spec.HasID(Settled.Remaining(h, enabled), nv.id)
    ensures Spec.Added(h, enabled, nv) == [nv] + Settled.Remaining(h, enabled)
  {
    if !enabled {
      DropFresh(Settled.Remaining(h, enabled), "null");
    }
  }

  lemma FreshMeans(w: Volume, k: string, rest: seq<ObjectMeta>, h: seq<Spec.Version>, id: string)
    requires Means(w, k, rest, h)
    ensures FreshIn(rest, id) <==> !Spec.HasID(h, id)
  {
    forall i | 0 <= i < |rest| ensures rest[i].versionID == h[i].id {
      assert AbsVersion(w, k, rest[i]) == h[i];
    }
  }

  // ---- settled writes refine ----

  /** Placing a file on a displaced key. */
  lemma PlaceKeeps(v: Volume, k: string, w: Volume, rest: seq<ObjectMeta>, h: seq<Spec.Version>, f: File, nv: ObjectMeta)
    requires Valid(v) && Loose(v, k, w, rest) && Means(w, k, rest, h)
    requires nv.blobID == "" && !nv.deleteMarker && Storable(nv) && nv.size == |f.bytes| && !Spec.HasID(h, nv.versionID)
    ensures Refines(Place(w, k, rest, f, nv), Spec.SetHistory(AbsVol(v), k, [Top(nv, f.bytes)] + h).(dir := true))
  {
    hide Loose, Means, Valid, WriteKeyMeta, AbsVol, ReadCurrentMeta;
    var w1 := w.(dir := true, tree := w.tree[k := f]);
    FreshMeans(w, k, rest, h, nv.versionID);
    assert w1.tree - {k} == w.tree - {k};
    TopRefines(v, k, w, rest, h, w1, nv);
  }

  lemma InstallRefines(v: Volume, k: string, f: File, nv: ObjectMeta)
    requires Valid(v)
    requires nv.blobID == "" && !nv.deleteMarker && (!Enabled(ConfigForWrite(v)) ==> nv.versionID == "null")
    requires Settled.AddSettled(AbsVol(v), k, Top(nv, f.bytes))
    ensures Refines(Install(v, k, Enabled(ConfigForWrite(v)), f, nv), Spec.AddVersion(AbsVol(v), k, Top(nv, f.bytes)))
  {
    hide Loose, Means, Valid, WriteKeyMeta, ReadCurrentMeta, Keys, Versions, Displace;
    var enabled := Enabled(ConfigForWrite(v));
    AbsHistory(v, k);
    DisplaceKeeps(v, k, enabled);
    var dp := Displace(v, k, Versions(v, k), enabled);
    var h := Settled.Remaining(AbsList(v, k), enabled);
    AddedIs(AbsList(v, k), enabled, Top(nv, f.bytes));
    hide AbsVol;
    PlaceKeeps(v, k, dp.vol, dp.versions, h, f, nv);
  }

  // ---- and only those ----

  /** The volume a write that archives puts its metadata on. */
  function Archiving(v: Volume, k: string, f: File): Volume
    requires k in v.tree && Versions(v, k) != []
  {
    ArchivedVol(v, k).(dir := true, tree := v.tree[k := f])
  }

  lemma ArchivingInstall(v: Volume, k: string, f: File, nv: ObjectMeta, enabled: bool)
    requires k in v.tree && AtKeyPath(Versions(v, k)) && (enabled || Versions(v, k)[0].versionID != "null")
    ensures Install(v, k, enabled, f, nv)
         == WriteKeyMeta(Archiving(v, k, f), k, PrependLatest(ArchivedList(Versions(v, k)), nv))
  {
    hide WriteKeyMeta, Versions;
    assert (v.tree - {k})[k := f] == v.tree[k := f];
  }

  /** After a write that archives, the list is the history file and other keys are as before. */
  lemma ArchivingResult(v: Volume, k: string, f: File, nv: ObjectMeta)
    requires k in v.tree && Versions(v, k) != []
    ensures var u := WriteKeyMeta(Archiving(v, k, f), k, PrependLatest(ArchivedList(Versions(v, k)), nv)).vol;
      && k in Keys(u) && Versions(u, k) == PrependLatest(ArchivedList(Versions(v, k)), nv)
      && SameElsewhere(v, u, k)
  {
    hide WriteKeyMeta, Versions, Keys;
    var w := Archiving(v, k, f);
    assert SameElsewhere(v, w, k);
    WrittenHistory(w, k, PrependLatest(ArchivedList(Versions(v, k)), nv));
  }

  /** A valid result that holds the old current version as an archived one shows its name was free. */
  lemma OwnerFree(v: Volume, u: Volume, k: string, x: ObjectMeta)
    requires Valid(v) && Valid(u) && SameElsewhere(v, u, k) && k in Keys(u)
    requires AtKeyPath(Versions(v, k)) && Versions(u, k) == PrependLatest(ArchivedList(Versions(v, k)), x)
    ensures Versions(v, k)[0].versionID !in v.blobs
  {
    hide ReadCurrentMeta, Keys, KeyOK, Versions;
    var vs := Versions(v, k);
    var vs' := PrependLatest(ArchivedList(vs), x);
    assert vs'[1].versionID == vs[0].versionID && vs[0].versionID in Archived(vs');
    NotOwn(v, k);
    forall k' | k' in Keys(v) ensures vs[0].versionID !in Archived(Versions(v, k')) {
      if k' != k {
        SameVersions(v, u, k, k');
        assert Archived(Versions(u, k)) !! Archived(Versions(u, k'));
      }
    }
  }

  /** A write that keeps the volume valid archives under a name no key uses. */
  lemma ArchivedFree(v: Volume, k: string, f: File, nv: ObjectMeta, enabled: bool)
    requires Valid(v) && Valid(Install(v, k, enabled, f, nv).vol)
    ensures Settled.ArchiveFree(AbsVol(v), k, enabled)
  {
    hide ReadCurrentMeta, Keys, Valid, Versions, Install;
    var vs := Versions(v, k);
    AbsHistory(v, k);
    ArchivedIDsAre(v);
    Listed(v, k);
    if AtKeyPath(vs) && (enabled || vs[0].versionID != "null") {
      ArchivingInstall(v, k, f, nv, enabled);
      ArchivingResult(v, k, f, nv);
      OwnerFree(v, Install(v, k, enabled, f, nv).vol, k, nv);
    }
  }

  lemma NotOwn(v: Volume, k: string)
    requires Valid(v) && Versions(v, k) != []
    ensures Versions(v, k)[0].versionID !in Archived(Versions(v, k))
  {
    hide ReadCurrentMeta, Versions, Valid;
    Listed(v, k);
  }

  /** A valid result has a new id. */
  lemma PlacedFresh(w: Volume, k: string, rest: seq<ObjectMeta>, f: File, nv: ObjectMeta)
    requires Valid(Place(w, k, rest, f, nv).vol)
    ensures FreshIn(rest, nv.versionID)
  {
    hide ReadCurrentMeta, Encode;
    var u, vs := Place(w, k, rest, f, nv).vol, PrependLatest(rest, nv);
    if rest != [] {
      assert KeyOK(u, k) && Versions(u, k) == vs;
      forall i | 0 <= i < |rest| ensures rest[i].versionID != nv.versionID {
        assert vs[0].versionID != vs[i + 1].versionID;
      }
    }
  }

  /** Every live version of a valid volume is writable. */
  lemma LiveWritable(u: Volume, k: string, i: nat)
    requires Valid(u) && i < |Spec.History(AbsVol(u), k)| && !Spec.History(AbsVol(u), k)[i].marker
    ensures Settled.Writable(Spec.History(AbsVol(u), k)[i])
  {
    hide ReadCurrentMeta, Versions, Keys;
    AbsHistory(u, k);
    assert KeyOK(u, k);
    var m := Versions(u, k)[i];
    assert AbsList(u, k)[i] == AbsVersion(u, k, m);
    assert WellPlaced(m, i) && Backed(u, k, m);
  }

  lemma OnlySettledInstall(v: Volume, k: string, f: File, nv: ObjectMeta)
    requires Valid(v)
    requires nv.blobID == "" && !nv.deleteMarker && (!Enabled(ConfigForWrite(v)) ==> nv.versionID == "null")
    requires Refines(Install(v, k, Enabled(ConfigForWrite(v)), f, nv), Spec.AddVersion(AbsVol(v), k, Top(nv, f.bytes)))
    ensures Settled.AddSettled(AbsVol(v), k, Top(nv, f.bytes))
  {
    hide Loose, Means, Valid, ReadCurrentMeta, Keys, Versions, Displace, Place;
    var enabled := Enabled(ConfigForWrite(v));
    var top := Top(nv, f.bytes);
    ArchivedFree(v, k, f, nv, enabled);
    AbsHistory(v, k);
    DisplaceKeeps(v, k, enabled);
    var dp := Displace(v, k, Versions(v, k), enabled);
    var h := Settled.Remaining(AbsList(v, k), enabled);
    PlacedFresh(dp.vol, k, dp.versions, f, nv);
    FreshMeans(dp.vol, k, dp.versions, h, nv.versionID);
    AddedIs(AbsList(v, k), enabled, top);
    LiveWritable(Install(v, k, enabled, f, nv).vol, k, 0);
  }

  /** A write refines the specification exactly when it is settled. */
  lemma InstallExact(v: Volume, k: string, f: File, nv: ObjectMeta)
    requires Valid(v)
    requires nv.blobID == "" && !nv.deleteMarker && (!Enabled(ConfigForWrite(v)) ==> nv.versionID == "null")
    ensures Refines(Install(v, k, Enabled(ConfigForWrite(v)), f, nv), Spec.AddVersion(AbsVol(v), k, Top(nv, f.bytes)))
       <==> Settled.AddSettled(AbsVol(v), k, Top(nv, f.bytes))
  {
    hide Refines, Valid, Install;
    if Settled.AddSettled(AbsVol(v), k, Top(nv, f.bytes)) {
      InstallRefines(v, k, f, nv);
    }
    if Refines(Install(v, k, Enabled(ConfigForWrite(v)), f, nv), Spec.AddVersion(AbsVol(v), k, Top(nv, f.bytes))) {
      OnlySettledInstall(v, k, f, nv);
    }
  }
}
