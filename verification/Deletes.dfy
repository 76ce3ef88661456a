/** Deletes refine dropping a version or adding a delete marker, exactly on settled deletes. */
module Deletes {
  import opened Types
  import opened XMeta
  import opened Store
  import opened Rep
  import opened Displacing
  import opened Finalizing
  import opened Topping
  import opened Writes
  import Spec
  import Settled

  // ---- lists without one version ----

  lemma {:induction false} WithoutFresh(vs: seq<ObjectMeta>, id: string)
    requires FreshIn(vs, id)
    ensures Without(vs, id) == vs
  {
    if vs != [] {
      assert FreshIn(vs[1..], id) by { assert forall i | 0 <= i < |vs[1..]| :: vs[1..][i] == vs[i + 1]; }
      WithoutFresh(vs[1..], id);
    }
  }

  lemma {:induction false} WithoutAt(vs: seq<ObjectMeta>, i: nat)
    requires i < |vs| && DistinctIDs(vs)
    ensures Without(vs, vs[i].versionID) == vs[..i] + vs[i + 1..]
  {
    var id := vs[i].versionID;
    if i == 0 {
      assert FreshIn(vs[1..], id) by { assert forall j | 0 <= j < |vs[1..]| :: vs[1..][j] == vs[j + 1]; }
      WithoutFresh(vs[1..], id);
    } else {
      assert forall j | 0 <= j < |vs[1..]| :: vs[1..][j] == vs[j + 1];
      WithoutAt(vs[1..], i - 1);
    }
  }

  lemma {:induction false} DropAt(h: seq<Spec.Version>, i: nat)
    requires i < |h| && forall p, q | 0 <= p < q < |h| :: h[p].id != h[q].id
    ensures Spec.Drop(h, h[i].id) == h[..i] + h[i + 1..]
  {
    var id := h[i].id;
    if i == 0 {
      assert !Spec.HasID(h[1..], id) by { assert forall j | 0 <= j < |h[1..]| :: h[1..][j] == h[j + 1]; }
      DropFresh(h[1..], id);
    } else {
      assert forall j | 0 <= j < |h[1..]| :: h[1..][j] == h[j + 1];
      DropAt(h[1..], i - 1);
    }
  }

  /** The ids of a valid key's list, on both sides. */
  lemma AbsIDs(v: Volume, k: string)
    requires Valid(v)
    ensures Spec.History(AbsVol(v), k) == AbsList(v, k) && |AbsList(v, k)| == |Versions(v, k)|
    ensures forall i | 0 <= i < |AbsList(v, k)| ::
              AbsList(v, k)[i].id == Versions(v, k)[i].versionID && AbsList(v, k)[i].marker == Versions(v, k)[i].deleteMarker
    ensures forall p, q | 0 <= p < q < |AbsList(v, k)| :: AbsList(v, k)[p].id != AbsList(v, k)[q].id
    ensures forall id :: FreshIn(Versions(v, k), id) <==> !Spec.HasID(AbsList(v, k), id)
  {
    hide Valid, Versions, ReadCurrentMeta, Keys;
    AbsHistory(v, k);
    Listed(v, k);
  }

  // ---- deleting an older version, or one that is not there ----

  /** A valid key is placed as it is. */
  lemma StillPlaced(v: Volume, k: string)
    requires Valid(v) && Versions(v, k) != []
    ensures Placed(v, k, v, Versions(v, k)) && Means(v, k, Versions(v, k), AbsList(v, k))
    ensures MarkLatest(Versions(v, k)) == Versions(v, k)
  {
    hide ReadCurrentMeta, Versions, Keys, WellFormed, Valid, AbsVersion, Archived;
    ArchivedStored(v, k);
    HasDir(v);
    Listed(v, k);
    KeyBacked(v, k);
    assert MarkLatest(Versions(v, k)) == Versions(v, k) by {
      assert Versions(v, k)[0].(isLatest := true) == Versions(v, k)[0];
    }
  }

  lemma KeyBacked(v: Volume, k: string)
    requires Valid(v) && Versions(v, k) != []
    ensures WellFormed(Versions(v, k))
    ensures forall i | 0 <= i < |Versions(v, k)| && !Versions(v, k)[i].deleteMarker :: Backed(v, k, Versions(v, k)[i])
  {
    hide ReadCurrentMeta, Versions, Keys, WellFormed;
    Listed(v, k);
    assert KeyOK(v, k);
  }

  lemma AbsentRefines(v: Volume, k: string, id: string)
    requires Valid(v) && FreshIn(Versions(v, k), id)
    ensures Refines(DeleteVersion(v, k, Versions(v, k), id), Spec.SetHistory(AbsVol(v), k, Spec.Drop(AbsList(v, k), id)))
  {
    hide Valid, Versions, ReadCurrentMeta, Keys, Placed, Means, WriteKeyMeta, AbsVol;
    var vs := Versions(v, k);
    WithoutFresh(vs, id);
    AbsIDs(v, k);
    DropFresh(AbsList(v, k), id);
    assert Doomed(vs, id) == {} && !RemovesCurrent(vs, id);
    assert v.blobs - {} == v.blobs;
    if vs == [] {
      NoKeyEmptied(v, k);
      EmptyRefines(v, k, v);
    } else {
      StillPlaced(v, k);
      WriteRefines(v, k, v, vs, AbsList(v, k));
    }
  }

  lemma NoKeyEmptied(v: Volume, k: string)
    requires Valid(v) && Versions(v, k) == []
    ensures Emptied(v, k, v)
  {
    hide Versions, ReadCurrentMeta;
  }

  lemma RemovedWellFormed(vs: seq<ObjectMeta>, i: nat)
    requires WellFormed(vs) && 0 < i < |vs|
    ensures var kept := vs[..i] + vs[i + 1..];
      WellFormed(kept) && kept[0] == vs[0] && MarkLatest(kept) == kept
  {
    var kept := vs[..i] + vs[i + 1..];
    hide WellPlaced;
    forall j | 0 <= j < |kept| ensures WellPlaced(kept[j], j) {
      var p := if j < i then j else j + 1;
      assert kept[j] == vs[p] && WellPlaced(vs[p], p);
      SamePlace(vs[p], p, j);
    }
    forall p, q | 0 <= p < q < |kept| ensures kept[p].versionID != kept[q].versionID {
      assert kept[p] == vs[if p < i then p else p + 1] && kept[q] == vs[if q < i then q else q + 1];
    }
    HeadLatest(vs);
    assert [kept[0]] + kept[1..] == kept;
  }

  lemma HeadLatest(vs: seq<ObjectMeta>)
    requires WellFormed(vs)
    ensures vs[0].(isLatest := true) == vs[0]
  {
    assert WellPlaced(vs[0], 0);
  }

  lemma SamePlace(m: ObjectMeta, p: nat, j: nat)
    requires WellPlaced(m, p) && (p == 0 <==> j == 0)
    ensures WellPlaced(m, j)
  {
  }

  lemma RemovedNames(vs: seq<ObjectMeta>, i: nat)
    requires DistinctIDs(vs) && 0 < i < |vs|
    ensures Archived(vs[..i] + vs[i + 1..]) == Archived(vs) - (if vs[i].deleteMarker then {} else {vs[i].versionID})
  {
    var kept := vs[..i] + vs[i + 1..];
    forall id | id in Archived(kept) ensures id in Archived(vs) && id != vs[i].versionID {
      var j :| 1 <= j < |kept| && !kept[j].deleteMarker && kept[j].versionID == id;
      assert kept[j] == vs[if j < i then j else j + 1];
    }
    forall id | id in Archived(vs) && (vs[i].deleteMarker || id != vs[i].versionID) ensures id in Archived(kept) {
      var j :| 1 <= j < |vs| && !vs[j].deleteMarker && vs[j].versionID == id;
      assert kept[if j < i then j else j - 1] == vs[j];
    }
  }

  /** The volume without the payload of an older version. */
  function Unarchived(v: Volume, m: ObjectMeta): Volume {
    if m.deleteMarker then v else v.(blobs := v.blobs - {m.versionID})
  }

  lemma OlderMoved(v: Volume, k: string, i: nat)
    requires Valid(v) && 0 < i < |Versions(v, k)|
    ensures var vs := Versions(v, k);
      var kept, w := vs[..i] + vs[i + 1..], Unarchived(v, vs[i]);
      && Moved(v, k, w)
      && w.blobs.Keys == Others(v, k) + Archived(kept) && Others(v, k) !! Archived(kept)
  {
    hide Valid, Versions, ReadCurrentMeta, Keys, Archived;
    HasDir(v);
    OlderNames(v, k, i);
    OwnOnly(v, k, i);
  }

  lemma OlderNames(v: Volume, k: string, i: nat)
    requires Valid(v) && 0 < i < |Versions(v, k)|
    ensures var vs := Versions(v, k);
      Archived(vs[..i] + vs[i + 1..]) == Archived(vs) - (if vs[i].deleteMarker then {} else {vs[i].versionID})
  {
    hide Valid, Versions, ReadCurrentMeta, Keys;
    Listed(v, k);
    RemovedNames(Versions(v, k), i);
  }

  lemma HasDir(v: Volume)
    requires Valid(v)
    ensures DirOK(v)
  {
  }

  lemma OlderPlaced(v: Volume, k: string, i: nat)
    requires Valid(v) && 0 < i < |Versions(v, k)|
    ensures var vs := Versions(v, k);
      Placed(v, k, Unarchived(v, vs[i]), vs[..i] + vs[i + 1..]) && MarkLatest(vs[..i] + vs[i + 1..]) == vs[..i] + vs[i + 1..]
  {
    hide Valid, Versions, ReadCurrentMeta, Keys, Backed, Moved, Others;
    var vs := Versions(v, k);
    var kept, w := vs[..i] + vs[i + 1..], Unarchived(v, vs[i]);
    OlderMoved(v, k, i);
    hide Archived;
    KeyBacked(v, k);
    RemovedWellFormed(vs, i);
    hide WellFormed, MarkLatest;
    Listed(v, k);
    forall j | 0 <= j < |kept| && !kept[j].deleteMarker ensures Backed(w, k, kept[j]) {
      var p := if j < i then j else j + 1;
      assert kept[j] == vs[p];
      KeptBacked(v, k, i, p);
    }
  }

  lemma OlderMeans(v: Volume, k: string, i: nat)
    requires Valid(v) && 0 < i < |Versions(v, k)|
    ensures var vs := Versions(v, k);
      Means(Unarchived(v, vs[i]), k, vs[..i] + vs[i + 1..], AbsList(v, k)[..i] + AbsList(v, k)[i + 1..])
  {
    hide Valid, Versions, ReadCurrentMeta, Keys, AbsVersion;
    var vs, h := Versions(v, k), AbsList(v, k);
    var kept, w := vs[..i] + vs[i + 1..], Unarchived(v, vs[i]);
    forall j | 0 <= j < |kept| ensures AbsVersion(w, k, kept[j]) == (h[..i] + h[i + 1..])[j] {
      var p := if j < i then j else j + 1;
      assert kept[j] == vs[p] && (h[..i] + h[i + 1..])[j] == h[p];
      KeptBacked(v, k, i, p);
    }
  }

  lemma OwnOnly(v: Volume, k: string, i: nat)
    requires Valid(v) && 0 < i < |Versions(v, k)|
    ensures !Versions(v, k)[i].deleteMarker ==> Versions(v, k)[i].versionID in Archived(Versions(v, k))
    ensures Archived(Versions(v, k)) <= v.blobs.Keys
  {
    hide Versions, Valid;
    ArchivedStored(v, k);
  }

  lemma KeptBacked(v: Volume, k: string, i: nat, p: nat)
    requires Valid(v) && 0 < i < |Versions(v, k)| && p < |Versions(v, k)| && p != i
    ensures var m, w := Versions(v, k)[p], Unarchived(v, Versions(v, k)[i]);
      && (!m.deleteMarker ==> Backed(w, k, m)) && AbsVersion(w, k, m) == AbsVersion(v, k, m)
  {
    hide Valid, Versions, Keys, Storable;
    var vs := Versions(v, k);
    Listed(v, k);
    if p > 0 || vs[p].deleteMarker { TailLoose(v, k, p); }
    assert vs[p].versionID != vs[i].versionID by { if p < i {} else {} }
  }

  lemma OlderRefines(v: Volume, k: string, i: nat)
    requires Valid(v) && 0 < i < |Versions(v, k)|
    ensures Refines(DeleteVersion(v, k, Versions(v, k), Versions(v, k)[i].versionID),
                    Spec.SetHistory(AbsVol(v), k, Spec.Drop(AbsList(v, k), Versions(v, k)[i].versionID)))
  {
    hide Valid, Versions, ReadCurrentMeta, Keys, Placed, Means, WriteKeyMeta, AbsVol;
    var vs := Versions(v, k);
    var kept, w := vs[..i] + vs[i + 1..], Unarchived(v, vs[i]);
    var id := vs[i].versionID;
    AbsIDs(v, k);
    Listed(v, k);
    WithoutAt(vs, i);
    DropAt(AbsList(v, k), i);
    OlderPlaced(v, k, i);
    OlderMeans(v, k, i);
    DoomedAt(v, k, i);
    WriteRefines(v, k, w, kept, AbsList(v, k)[..i] + AbsList(v, k)[i + 1..]);
  }

  lemma DoomedAt(v: Volume, k: string, i: nat)
    requires Valid(v) && 0 < i < |Versions(v, k)|
    ensures var vs := Versions(v, k);
      var id := vs[i].versionID;
      !RemovesCurrent(vs, id) && v.(blobs := v.blobs - Doomed(vs, id)) == Unarchived(v, vs[i])
  {
    hide Valid, Versions, Keys, Storable;
    var vs := Versions(v, k);
    Listed(v, k);
    TailLoose(v, k, i);
    SoleDoomed(vs, i);
    assert v.blobs - {} == v.blobs;
  }

  lemma SoleDoomed(vs: seq<ObjectMeta>, i: nat)
    requires DistinctIDs(vs) && i < |vs|
    ensures Doomed(vs, vs[i].versionID) == if vs[i].blobID == "" then {} else {vs[i].blobID}
    ensures RemovesCurrent(vs, vs[i].versionID) <==> vs[i].blobID == "" && !vs[i].deleteMarker
  {
    forall m | m in vs && m.versionID == vs[i].versionID ensures m == vs[i] {
      var j :| 0 <= j < |vs| && vs[j] == m;
      if j < i {} else if i < j {}
    }
    assert vs[i] in vs;
  }

  // ---- deleting the newest version ----

  lemma NewestDoomed(v: Volume, k: string)
    requires Valid(v) && Versions(v, k) != []
    ensures var vs := Versions(v, k);
      && v.(blobs := v.blobs - Doomed(vs, vs[0].versionID)) == v
      && (RemovesCurrent(vs, vs[0].versionID) <==> !vs[0].deleteMarker)
      && Without(vs, vs[0].versionID) == vs[1..]
      && Spec.Drop(AbsList(v, k), vs[0].versionID) == AbsList(v, k)[1..]
  {
    hide Valid, Versions;
    var vs := Versions(v, k);
    Listed(v, k);
    AbsIDs(v, k);
    WithoutAt(vs, 0);
    DropAt(AbsList(v, k), 0);
    assert AbsList(v, k)[..0] + AbsList(v, k)[1..] == AbsList(v, k)[1..];
    SoleDoomed(vs, 0);
    assert v.blobs - {} == v.blobs;
  }

  /** The volume without the key file. */
  function Bare(v: Volume, k: string): Volume { v.(tree := v.tree - {k}) }

  lemma BareMoved(v: Volume, k: string)
    requires DirOK(v)
    ensures Moved(v, k, Bare(v, k))
  {
    hide Versions;
    assert Bare(v, k).tree - {k} == v.tree - {k};
  }

  lemma LastEmptied(v: Volume, k: string)
    requires Valid(v) && |Versions(v, k)| == 1
    ensures Emptied(v, k, Bare(v, k))
  {
    HasDir(v);
    hide Valid, Versions, ReadCurrentMeta;
    BareMoved(v, k);
    hide Moved;
    assert Archived(Versions(v, k)) == {};
  }

  lemma RaisedWellFormed(vs: seq<ObjectMeta>, m: ObjectMeta)
    requires WellFormed(vs) && |vs| > 1 && WellPlaced(m, 0) && m.versionID == vs[1].versionID
    ensures WellFormed([m] + vs[2..])
  {
    var kept := [m] + vs[2..];
    hide WellPlaced;
    forall j | 0 <= j < |kept| ensures WellPlaced(kept[j], j) {
      if j > 0 {
        assert kept[j] == vs[j + 1] && WellPlaced(vs[j + 1], j + 1);
        SamePlace(vs[j + 1], j + 1, j);
      }
    }
    assert forall j | 0 <= j < |kept| :: kept[j].versionID == vs[j + 1].versionID;
  }

  lemma RaisedNames(vs: seq<ObjectMeta>, m: ObjectMeta)
    requires DistinctIDs(vs) && |vs| > 1
    ensures Archived([m] + vs[2..]) == Archived(vs) - (if vs[1].deleteMarker then {} else {vs[1].versionID})
  {
    var kept := [m] + vs[2..];
    forall id | id in Archived(kept) ensures id in Archived(vs) && id != vs[1].versionID {
      var j :| 1 <= j < |kept| && !kept[j].deleteMarker && kept[j].versionID == id;
      assert kept[j] == vs[j + 1];
    }
    forall id | id in Archived(vs) && (vs[1].deleteMarker || id != vs[1].versionID) ensures id in Archived(kept) {
      var j :| 1 <= j < |vs| && !vs[j].deleteMarker && vs[j].versionID == id;
      assert kept[j - 1] == vs[j];
    }
  }

  /** The versions below the second keep their payloads when only the second one's payload moves. */
  lemma LowerBacked(v: Volume, k: string, w: Volume, p: nat)
    requires Valid(v) && 1 < p < |Versions(v, k)|
    requires forall id | id in v.blobs && id != Versions(v, k)[1].versionID :: id in w.blobs && w.blobs[id] == v.blobs[id]
    ensures var m := Versions(v, k)[p];
      && (!m.deleteMarker ==> Backed(w, k, m)) && AbsVersion(w, k, m) == AbsVersion(v, k, m)
  {
    hide Valid, Versions, Keys, Storable;
    Listed(v, k);
    TailLoose(v, k, p);
  }

  /** What the newest version's removal leaves, once the second version is raised to `m` over `w`. */
  lemma RaisedPlaced(v: Volume, k: string, w: Volume, m: ObjectMeta)
    requires Valid(v) && |Versions(v, k)| > 1 && Moved(v, k, w)
    requires var second := Versions(v, k)[1];
      && w.blobs == (if second.deleteMarker then v.blobs else v.blobs - {second.versionID})
      && WellPlaced(m, 0) && m.versionID == second.versionID && m.deleteMarker == second.deleteMarker
    requires k in w.tree <==> !m.deleteMarker
    requires !m.deleteMarker ==> Backed(w, k, m)
    ensures Placed(v, k, w, [m] + Versions(v, k)[2..])
  {
    hide Valid, Versions, ReadCurrentMeta, Keys, Backed;
    var vs := Versions(v, k);
    var kept := [m] + vs[2..];
    Listed(v, k);
    OwnOnly(v, k, 1);
    RaisedNames(vs, m);
    KeyBacked(v, k);
    RaisedWellFormed(vs, m);
    hide WellFormed, Archived, WellPlaced;
    forall j | 0 <= j < |kept| && !kept[j].deleteMarker ensures Backed(w, k, kept[j]) {
      if j > 0 { LowerBacked(v, k, w, j + 1); }
    }
  }

  lemma RaisedMeans(v: Volume, k: string, w: Volume, m: ObjectMeta)
    requires Valid(v) && |Versions(v, k)| > 1
    requires w.blobs == (if Versions(v, k)[1].deleteMarker then v.blobs else v.blobs - {Versions(v, k)[1].versionID})
    requires AbsVersion(w, k, m) == AbsVersion(v, k, Versions(v, k)[1])
    ensures Means(w, k, [m] + Versions(v, k)[2..], AbsList(v, k)[1..])
  {
    hide Valid, Versions, ReadCurrentMeta, Keys, AbsVersion;
    var vs := Versions(v, k);
    var kept := [m] + vs[2..];
    forall j | 0 <= j < |kept| ensures AbsVersion(w, k, kept[j]) == AbsList(v, k)[1..][j] {
      if j > 0 { LowerBacked(v, k, w, j + 1); }
    }
  }

  /** A delete marker below the newest version becomes the newest. */
  lemma MarkerNextRefines(v: Volume, k: string)
    requires Valid(v) && |Versions(v, k)| > 1 && Versions(v, k)[1].deleteMarker
    ensures Refines(FinalizeKey(Bare(v, k), k, MarkLatest(Versions(v, k)[1..])),
                    Spec.SetHistory(AbsVol(v), k, AbsList(v, k)[1..]))
  {
    HasDir(v);
    hide Valid, Versions, ReadCurrentMeta, Keys, WriteKeyMeta, AbsVol, Placed, Means;
    var vs, w := Versions(v, k), Bare(v, k);
    TailLoose(v, k, 1);
    BareMoved(v, k);
    hide Moved;
    var m := vs[1].(isLatest := true);
    assert MarkLatest(vs[1..]) == [m] + vs[2..];
    RaisedPlaced(v, k, w, m);
    RaisedMeans(v, k, w, m);
    WriteRefines(v, k, w, [m] + vs[2..], AbsList(v, k)[1..]);
  }

  /** The volume whose second version has become the key file. */
  function Promoted(v: Volume, k: string, id: string): Volume
    requires id in v.blobs
  {
    v.(tree := v.tree[k := v.blobs[id]], blobs := v.blobs - {id})
  }

  lemma PromoteIs(v: Volume, k: string, vs: seq<ObjectMeta>)
    requires |vs| > 1 && !vs[1].deleteMarker && vs[1].blobID == vs[1].versionID != "" && vs[1].blobID in v.blobs && v.dir
    ensures Promote(Bare(v, k), k, vs[1..])
         == Displaced(Promoted(v, k, vs[1].versionID), [vs[1].(isLatest := true, blobID := "")] + vs[2..], NoError)
  {
    assert (v.tree - {k})[k := v.blobs[vs[1].versionID]] == v.tree[k := v.blobs[vs[1].versionID]];
    assert vs[1..][1..] == vs[2..];
  }

  lemma PromotedMoved(v: Volume, k: string)
    requires Valid(v) && |Versions(v, k)| > 1 && !Versions(v, k)[0].deleteMarker && !Versions(v, k)[1].deleteMarker
    ensures var id := Versions(v, k)[1].versionID;
      id in v.blobs && v.dir && Moved(v, k, Promoted(v, k, id))
  {
    hide Valid, Versions, ReadCurrentMeta, Keys, Archived;
    HasDir(v);
    Listed(v, k);
    OwnOnly(v, k, 1);
    var w := Promoted(v, k, Versions(v, k)[1].versionID);
    assert w.tree - {k} == v.tree - {k};
  }

  /** A live version below the deleted current one is promoted to the key path. */
  lemma PromotedRefines(v: Volume, k: string)
    requires Valid(v) && |Versions(v, k)| > 1 && !Versions(v, k)[0].deleteMarker && !Versions(v, k)[1].deleteMarker
    ensures var pr := Promote(Bare(v, k), k, Versions(v, k)[1..]);
      Refines(FinalizeKey(pr.vol, k, pr.versions), Spec.SetHistory(AbsVol(v), k, AbsList(v, k)[1..]))
  {
    hide Valid, Versions, ReadCurrentMeta, Keys, WriteKeyMeta, AbsVol, Placed, Means, Moved, Promote, Bare;
    var vs := Versions(v, k);
    TailLoose(v, k, 1);
    PromotedMoved(v, k);
    PromoteIs(v, k, vs);
    var id := vs[1].versionID;
    var m, w := vs[1].(isLatest := true, blobID := ""), Promoted(v, k, id);
    RaisedPlaced(v, k, w, m);
    RaisedMeans(v, k, w, m);
    WriteRefines(v, k, w, [m] + vs[2..], AbsList(v, k)[1..]);
  }

  // ---- a version delete, both ways ----

  lemma NewestRefines(v: Volume, k: string)
    requires Valid(v) && Versions(v, k) != []
    requires Settled.DropSettled(AbsList(v, k), Versions(v, k)[0].versionID)
    ensures Refines(DeleteVersion(v, k, Versions(v, k), Versions(v, k)[0].versionID),
                    Spec.SetHistory(AbsVol(v), k, AbsList(v, k)[1..]))
  {
    hide Valid, Versions, ReadCurrentMeta, Keys, WriteKeyMeta, AbsVol, AbsVersion, Emptied;
    var vs := Versions(v, k);
    NewestDoomed(v, k);
    AbsIDs(v, k);
    Listed(v, k);
    assert vs[0].deleteMarker ==> Bare(v, k) == v by { if vs[0].deleteMarker { assert v.tree - {k} == v.tree; } }
    if |vs| == 1 {
      LastEmptied(v, k);
      EmptyRefines(v, k, Bare(v, k));
      assert AbsList(v, k)[1..] == [];
    } else if vs[1].deleteMarker {
      MarkerNextRefines(v, k);
    } else {
      PromotedRefines(v, k);
    }
  }

  /** A newest live version that is not at the key path cannot be read. */
  lemma Stranded(w: Volume, k: string, vs: seq<ObjectMeta>)
    requires vs != [] && !vs[0].deleteMarker && vs[0].blobID != "" && k !in w.tree
    requires Valid(FinalizeKey(w, k, vs).vol)
    ensures Spec.History(AbsVol(FinalizeKey(w, k, vs).vol), k) == []
  {
    hide ReadCurrentMeta;
    var u := FinalizeKey(w, k, vs).vol;
    Listed(u, k);
    AbsHistory(u, k);
    hide Valid;
    assert |vs| == 1;
  }

  lemma OnlySettledDrop(v: Volume, k: string, id: string)
    requires Valid(v)
    requires Refines(DeleteVersion(v, k, Versions(v, k), id), Spec.SetHistory(AbsVol(v), k, Spec.Drop(AbsList(v, k), id)))
    ensures Settled.DropSettled(AbsList(v, k), id)
  {
    hide Valid, Versions, ReadCurrentMeta, Keys, WriteKeyMeta, AbsVersion;
    var vs, h := Versions(v, k), AbsList(v, k);
    AbsIDs(v, k);
    if |h| > 1 && h[0].id == id && h[0].marker {
      NewestDoomed(v, k);
      Listed(v, k);
      if !h[1].marker {
        TailLoose(v, k, 1);
        assert Spec.History(Spec.SetHistory(AbsVol(v), k, h[1..]), k) == h[1..];
        Stranded(v, k, MarkLatest(vs[1..]));
        assert false;
      }
    }
  }

  /** Deleting a version by id refines dropping it, exactly when it is not a newest delete marker
      above a live version. */
  lemma DropExact(v: Volume, k: string, id: string)
    requires Valid(v)
    ensures Refines(DeleteVersion(v, k, Versions(v, k), id), Spec.SetHistory(AbsVol(v), k, Spec.Drop(AbsList(v, k), id)))
       <==> Settled.DropSettled(AbsList(v, k), id)
  {
    hide Valid, Versions, Refines, DeleteVersion, AbsVol, AbsVersion, Keys;
    var vs := Versions(v, k);
    if Refines(DeleteVersion(v, k, vs, id), Spec.SetHistory(AbsVol(v), k, Spec.Drop(AbsList(v, k), id))) {
      OnlySettledDrop(v, k, id);
    }
    if Settled.DropSettled(AbsList(v, k), id) {
      if FreshIn(vs, id) {
        AbsentRefines(v, k, id);
      } else {
        var i :| 0 <= i < |vs| && vs[i].versionID == id;
        if i == 0 {
          NewestRefines(v, k);
          NewestDoomed(v, k);
        } else {
          OlderRefines(v, k, i);
        }
      }
    }
  }
}
