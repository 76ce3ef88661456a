/** Deletes without a version id: delete markers, and the loss of the null version. */
module Markers {
  import opened Types
  import opened XMeta
  import opened Store
  import opened Rep
  import opened Persist
  import opened Displacing
  import opened Finalizing
  import opened Topping
  import opened Writes
  import opened Deletes
  import Spec
  import Settled

  /** A newest delete marker is kept in a history file. */
  lemma MarkerWritten(w: Volume, k: string, rest: seq<ObjectMeta>, id: string, mtime: nat)
    ensures var vs := PrependLatest(rest, MarkerMeta(id, mtime));
      var o := FinalizeKey(w, k, vs);
      && o == WriteKeyMeta(w, k, vs) && Versions(o.vol, k) == vs && k in Keys(o.vol) && SameElsewhere(w, o.vol, k)
  {
    hide Versions, Keys, ReadCurrentMeta;
    WrittenHistory(w, k, PrependLatest(rest, MarkerMeta(id, mtime)));
  }

  lemma MarkerTops(v: Volume, k: string, w: Volume, rest: seq<ObjectMeta>, h: seq<Spec.Version>, w1: Volume, id: string, mtime: nat)
    requires Valid(v) && Loose(v, k, w, rest) && Means(w, k, rest, h)
    requires w1 == w.(tree := w1.tree) && w1.tree - {k} == w.tree - {k} && k !in w1.tree
    requires id != "" && FreshIn(rest, id)
    ensures Refines(FinalizeKey(w1, k, PrependLatest(rest, MarkerMeta(id, mtime))),
                    Spec.SetHistory(AbsVol(v), k, [Spec.Marker(id, mtime)] + h))
  {
    hide Valid, WriteKeyMeta, Means, Versions, ReadCurrentMeta, Archived;
    HasDir(v);
    assert DirOK(w1) by {
      forall x | x in w1.tree ensures w1.dir {
        assert x in w1.tree - {k}; assert x in v.tree - {k};
      }
    }
    TopRefines(v, k, w, rest, h, w1, MarkerMeta(id, mtime));
  }

  /** A valid result has a marker id of its own. */
  lemma MarkedFresh(u: Volume, k: string, rest: seq<ObjectMeta>, m: ObjectMeta)
    requires Valid(u) && Versions(u, k) == PrependLatest(rest, m)
    ensures m.versionID != "" && FreshIn(rest, m.versionID)
  {
    hide Valid, Versions, ReadCurrentMeta;
    Listed(u, k);
    var vs := PrependLatest(rest, m);
    forall i | 0 <= i < |rest| ensures rest[i].versionID != m.versionID {
      assert vs[0].versionID != vs[i + 1].versionID;
    }
  }

  // ---- versioning enabled ----

  function MarkEnabled(v: Volume, k: string, id: string, mtime: nat): Out {
    var dp := Displace(v, k, Versions(v, k), true);
    if dp.err != NoError then Out(dp.vol, dp.err)
    else FinalizeKey(dp.vol, k, PrependLatest(dp.versions, MarkerMeta(id, mtime)))
  }

  lemma MarkRefines(v: Volume, k: string, id: string, mtime: nat)
    requires Valid(v) && id != "" && !Spec.HasID(AbsList(v, k), id) && Settled.ArchiveFree(AbsVol(v), k, true)
    ensures Refines(MarkEnabled(v, k, id, mtime), Spec.SetHistory(AbsVol(v), k, [Spec.Marker(id, mtime)] + AbsList(v, k)))
  {
    hide Valid, Means, Versions, ReadCurrentMeta, Displace, AbsVol, FinalizeKey, Refines;
    DisplaceKeeps(v, k, true);
    var dp, h := Displace(v, k, Versions(v, k), true), AbsList(v, k);
    assert Settled.Remaining(h, true) == h;
    FreshMeans(dp.vol, k, dp.versions, h, id);
    MarkerTops(v, k, dp.vol, dp.versions, h, dp.vol, id, mtime);
  }

  lemma MarkFree(v: Volume, k: string, id: string, mtime: nat)
    requires Valid(v) && Valid(MarkEnabled(v, k, id, mtime).vol)
    ensures Settled.ArchiveFree(AbsVol(v), k, true)
  {
    hide ReadCurrentMeta, Keys, Valid, Versions, FinalizeKey, PrependLatest;
    var vs := Versions(v, k);
    AbsHistory(v, k);
    ArchivedIDsAre(v);
    Listed(v, k);
    if AtKeyPath(vs) {
      var w := ArchivedVol(v, k);
      MarkerWritten(w, k, ArchivedList(vs), id, mtime);
      assert SameElsewhere(v, w, k);
      OwnerFree(v, MarkEnabled(v, k, id, mtime).vol, k, MarkerMeta(id, mtime));
    }
  }

  lemma OnlySettledMark(v: Volume, k: string, id: string, mtime: nat)
    requires Valid(v) && Valid(MarkEnabled(v, k, id, mtime).vol)
    ensures id != "" && !Spec.HasID(AbsList(v, k), id) && Settled.ArchiveFree(AbsVol(v), k, true)
  {
    hide Valid, Loose, Means, Versions, ReadCurrentMeta, Displace, AbsVol, FinalizeKey, Keys;
    MarkFree(v, k, id, mtime);
    DisplaceKeeps(v, k, true);
    var dp, h := Displace(v, k, Versions(v, k), true), AbsList(v, k);
    assert Settled.Remaining(h, true) == h;
    MarkerWritten(dp.vol, k, dp.versions, id, mtime);
    MarkedFresh(MarkEnabled(v, k, id, mtime).vol, k, dp.versions, MarkerMeta(id, mtime));
    FreshMeans(dp.vol, k, dp.versions, h, id);
  }

  // ---- versioning suspended or never set ----

  lemma {:induction false} DropLength(h: seq<Spec.Version>, id: string)
    ensures |Spec.Drop(h, id)| <= |h|
    ensures Spec.HasID(h, id) ==> |Spec.Drop(h, id)| < |h|
  {
    if h != [] {
      DropLength(h[1..], id);
      if Spec.HasID(h, id) && h[0].id != id {
        var i :| 0 <= i < |h| && h[i].id == id;
        assert h[1..][i - 1].id == id;
      }
    }
  }

  /** A delete marker is newest: nothing is removed. */
  lemma AboveMarker(v: Volume, k: string, suspended: bool, mtime: nat)
    requires Valid(v) && Versions(v, k) != [] && Versions(v, k)[0].deleteMarker
    ensures Refines(DeleteCurrent(v, k, Versions(v, k), suspended, mtime),
                    Spec.SetHistory(AbsVol(v), k, Spec.DeletedCurrent(AbsList(v, k), suspended, mtime)))
       <==> !Spec.HasID(AbsList(v, k), "null")
  {
    hide Valid, Versions, ReadCurrentMeta, Keys, WriteKeyMeta, AbsVersion, Placed, Means, Loose;
    var vs, h := Versions(v, k), AbsList(v, k);
    AbsIDs(v, k);
    Listed(v, k);
    if suspended {
      MarkerWritten(v, k, vs, "null", mtime);
      DisplaceNothing(v, k);
      if FreshIn(vs, "null") {
        DropFresh(h, "null");
        MeansItself(v, k);
        MarkerTops(v, k, v, vs, h, v, "null", mtime);
      }
      var u := DeleteCurrent(v, k, vs, suspended, mtime).vol;
      if Valid(u) {
        MarkedFresh(u, k, vs, MarkerMeta("null", mtime));
      }
    } else {
      StillPlaced(v, k);
      WriteRefines(v, k, v, vs, h);
      if !Spec.HasID(h, "null") { DropFresh(h, "null"); }
      DropLength(h, "null");
      SetHistoryInjective(AbsVol(v), k, h, Spec.Drop(h, "null"));
    }
  }

  lemma MeansItself(v: Volume, k: string)
    ensures Means(v, k, Versions(v, k), AbsList(v, k))
  {
    hide Versions;
  }

  lemma SetHistoryInjective(a: Spec.Bucket, k: string, h: seq<Spec.Version>, h': seq<Spec.Version>)
    ensures Spec.SetHistory(a, k, h) == Spec.SetHistory(a, k, h') ==> h == h'
  {
    if Spec.SetHistory(a, k, h) == Spec.SetHistory(a, k, h') {
      assert Spec.History(Spec.SetHistory(a, k, h), k) == h;
      assert Spec.History(Spec.SetHistory(a, k, h'), k) == h';
    }
  }

  /** The list below a live newest version is loose once the key file is gone. */
  lemma LooseBelow(v: Volume, k: string)
    requires Valid(v) && Versions(v, k) != [] && !Versions(v, k)[0].deleteMarker
    ensures Loose(v, k, v, Versions(v, k)[1..]) && Means(v, k, Versions(v, k)[1..], AbsList(v, k)[1..])
    ensures k in v.tree
  {
    hide Valid, Versions, ReadCurrentMeta, Keys, Loose, AbsVersion;
    Listed(v, k);
    DisplaceDropped(v, k);
  }

  /** Suspended, with a live newest version: it goes whatever its id, and a null marker comes. */
  lemma SuspendedAboveLive(v: Volume, k: string, mtime: nat)
    requires Valid(v) && Versions(v, k) != [] && !Versions(v, k)[0].deleteMarker
    ensures Refines(DeleteCurrent(v, k, Versions(v, k), true, mtime),
                    Spec.SetHistory(AbsVol(v), k, Spec.DeletedCurrent(AbsList(v, k), true, mtime)))
       <==> AbsList(v, k)[0].id == "null"
  {
    hide Valid, Versions, ReadCurrentMeta, Keys, WriteKeyMeta, AbsVersion, Means, Loose, FinalizeKey, PrependLatest, Archived;
    var vs, h := Versions(v, k), AbsList(v, k);
    var o := DeleteCurrent(v, k, vs, true, mtime);
    AbsIDs(v, k);
    Listed(v, k);
    LooseBelow(v, k);
    MarkerWritten(Bare(v, k), k, vs[1..], "null", mtime);
    assert o == FinalizeKey(Bare(v, k), k, PrependLatest(vs[1..], MarkerMeta("null", mtime)));
    if h[0].id == "null" {
      NewestDoomed(v, k);
      FreshBelow(vs);
      assert Bare(v, k).tree - {k} == v.tree - {k};
      MarkerTops(v, k, v, vs[1..], h[1..], Bare(v, k), "null", mtime);
    }
    if Refines(o, Spec.SetHistory(AbsVol(v), k, Spec.DeletedCurrent(h, true, mtime))) {
      MarkedFresh(o.vol, k, vs[1..], MarkerMeta("null", mtime));
      AbsHistory(o.vol, k);
      assert Spec.History(AbsVol(o.vol), k) == Spec.DeletedCurrent(h, true, mtime);
      LengthTells(vs, h, mtime);
    }
  }

  lemma FreshBelow(vs: seq<ObjectMeta>)
    requires vs != [] && DistinctIDs(vs)
    ensures FreshIn(vs[1..], vs[0].versionID)
  {
    assert forall i | 0 <= i < |vs[1..]| :: vs[1..][i] == vs[i + 1];
  }

  /** A null id at the top only: otherwise the specification keeps one version more. */
  lemma LengthTells(vs: seq<ObjectMeta>, h: seq<Spec.Version>, mtime: nat)
    requires |vs| == |h| && vs != [] && FreshIn(vs[1..], "null")
    requires forall i | 0 <= i < |h| :: h[i].id == vs[i].versionID
    requires |PrependLatest(vs[1..], MarkerMeta("null", mtime))| == |Spec.DeletedCurrent(h, true, mtime)|
    ensures h[0].id == "null"
  {
    if h[0].id != "null" {
      forall i | 0 <= i < |h| ensures h[i].id != "null" {
        if i > 0 { assert vs[1..][i - 1] == vs[i]; }
      }
      DropFresh(h, "null");
    }
  }

  /** Never versioned, with a live newest version: what is below it is not promoted. */
  lemma UnversionedAboveLive(v: Volume, k: string, mtime: nat)
    requires Valid(v) && Versions(v, k) != [] && !Versions(v, k)[0].deleteMarker
    ensures Refines(DeleteCurrent(v, k, Versions(v, k), false, mtime),
                    Spec.SetHistory(AbsVol(v), k, Spec.DeletedCurrent(AbsList(v, k), false, mtime)))
       <==> AbsList(v, k)[0].id == "null" && (|AbsList(v, k)| == 1 || AbsList(v, k)[1].marker)
  {
    hide Valid, Versions, ReadCurrentMeta, Keys, WriteKeyMeta, AbsVersion, Means, Loose, FinalizeKey, Archived;
    var vs, h := Versions(v, k), AbsList(v, k);
    var o := DeleteCurrent(v, k, vs, false, mtime);
    AbsIDs(v, k);
    Listed(v, k);
    assert o == FinalizeKey(Bare(v, k), k, MarkLatest(vs[1..]));
    if h[0].id == "null" { NewestDoomed(v, k); }
    if |vs| == 1 {
      LastEmptied(v, k);
      EmptyRefines(v, k, Bare(v, k));
      assert h[1..] == [];
      SetHistoryInjective(AbsVol(v), k, [], Spec.Drop(h, "null"));
    } else if vs[1].deleteMarker {
      MarkerNextRefines(v, k);
      SetHistoryInjective(AbsVol(v), k, h[1..], Spec.Drop(h, "null"));
      assert h[0].id != "null" ==> Spec.Drop(h, "null")[0] == h[0];
    } else {
      TailLoose(v, k, 1);
      if Refines(o, Spec.SetHistory(AbsVol(v), k, Spec.Drop(h, "null"))) {
        Stranded(Bare(v, k), k, MarkLatest(vs[1..]));
        DropTwo(h);
        assert false;
      }
    }
  }

  lemma DropTwo(h: seq<Spec.Version>)
    requires |h| > 1 && h[0].id != h[1].id
    ensures Spec.Drop(h, "null") != []
  {
    assert h[1..] != [] && h[1..][0] == h[1];
  }

  lemma CurrentExact(v: Volume, k: string, suspended: bool, mtime: nat)
    requires Valid(v) && Versions(v, k) != []
    ensures Refines(DeleteCurrent(v, k, Versions(v, k), suspended, mtime),
                    Spec.SetHistory(AbsVol(v), k, Spec.DeletedCurrent(AbsList(v, k), suspended, mtime)))
       <==> Settled.CurrentSettled(AbsList(v, k), suspended)
  {
    hide Valid, Versions, AbsVol, Refines, DeleteCurrent, AbsVersion, Keys;
    AbsIDs(v, k);
    if Versions(v, k)[0].deleteMarker {
      AboveMarker(v, k, suspended, mtime);
    } else if suspended {
      SuspendedAboveLive(v, k, mtime);
    } else {
      UnversionedAboveLive(v, k, mtime);
    }
  }

  /** A delete without a version id refines the specification exactly when it is settled. */
  lemma DeleteExact(v: Volume, k: string, id: string, explicit: bool, mtime: nat)
    requires Valid(v) && !(id != "" && explicit)
    ensures Refines(ApplyDelete(v, k, id, explicit, mtime), Spec.DeleteSpec(AbsVol(v), k, id, explicit, mtime))
       <==> Settled.DeleteSettled(AbsVol(v), k, id)
  {
    hide Valid, Versions, Refines, DeleteCurrent, FinalizeKey, Displace, Keys, AbsVersion, Settled.ArchiveFree;
    var a, bm, vs, h := AbsVol(v), ConfigForWrite(v), Versions(v, k), AbsList(v, k);
    AbsIDs(v, k);
    MissingKey(v, k);
    if Enabled(bm) {
      if vs == [] && id == "" {
        NoMarker(v, k, mtime);
      } else {
        assert ApplyDelete(v, k, id, explicit, mtime) == MarkEnabled(v, k, id, mtime);
        EnabledExact(v, k, id, mtime);
      }
    } else if vs == [] {
      NothingDeleted(v, k);
    } else {
      CurrentExact(v, k, bm.versioning == "Suspended", mtime);
    }
  }

  lemma MissingKey(v: Volume, k: string)
    requires Valid(v)
    ensures ReadKeyMeta(v, k).None? <==> Versions(v, k) == []
  {
    hide ReadCurrentMeta;
    if k in Keys(v) { assert KeyOK(v, k); }
  }

  lemma NothingDeleted(v: Volume, k: string)
    requires Valid(v) && AbsList(v, k) == []
    ensures Refines(Out(v, NoError), Spec.SetHistory(AbsVol(v), k, []))
  {
    hide Valid, ReadCurrentMeta;
    AbsHistory(v, k);
    assert k !in AbsVol(v).objects;
    assert AbsVol(v).objects - {k} == AbsVol(v).objects;
  }

  lemma NoMarker(v: Volume, k: string, mtime: nat)
    requires AbsList(v, k) == [] && Valid(v)
    ensures !Refines(Out(v, NoError), Spec.SetHistory(AbsVol(v), k, [Spec.Marker("", mtime)] + AbsList(v, k)))
  {
    hide Valid;
    AbsHistory(v, k);
  }

  lemma EnabledExact(v: Volume, k: string, id: string, mtime: nat)
    requires Valid(v)
    ensures Refines(MarkEnabled(v, k, id, mtime), Spec.SetHistory(AbsVol(v), k, [Spec.Marker(id, mtime)] + AbsList(v, k)))
       <==> id != "" && !Spec.HasID(AbsList(v, k), id) && Settled.ArchiveFree(AbsVol(v), k, true)
  {
    hide Valid, MarkEnabled, AbsVol, AbsList, Settled.ArchiveFree;
    var o := MarkEnabled(v, k, id, mtime);
    if id != "" && !Spec.HasID(AbsList(v, k), id) && Settled.ArchiveFree(AbsVol(v), k, true) {
      MarkRefines(v, k, id, mtime);
    }
    if Refines(o, Spec.SetHistory(AbsVol(v), k, [Spec.Marker(id, mtime)] + AbsList(v, k))) {
      OnlySettledMark(v, k, id, mtime);
    }
  }
}
