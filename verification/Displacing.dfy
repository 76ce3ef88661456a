/** Making room at the key path keeps every payload: the archived versions and the rest of the
    bucket are represented before the new version arrives. */
module Displacing {
  import opened Types
  import opened XMeta
  import opened Store
  import opened Rep
  import Spec
  import Settled

  /** A version that is not at the key path. */
  ghost predicate LooseAt(w: Volume, m: ObjectMeta) {
    && m.versionID != ""
    && m.blobID == (if m.deleteMarker then "" else m.versionID)
    && (!m.deleteMarker ==> Storable(m) && m.blobID in w.blobs && |w.blobs[m.blobID].bytes| == m.size)
  }

  ghost predicate DistinctIDs(vs: seq<ObjectMeta>) {
    forall i, j | 0 <= i < j < |vs| :: vs[i].versionID != vs[j].versionID
  }

  function LiveIDs(vs: seq<ObjectMeta>): set<string> {
    set i | 0 <= i < |vs| && !vs[i].deleteMarker :: vs[i].versionID
  }

  /** The payloads of other keys, untouched. */
  function Others(v: Volume, k: string): set<string> { v.blobs.Keys - Archived(Versions(v, k)) }

  ghost predicate OthersKept(v: Volume, w: Volume, k: string) {
    && Others(v, k) <= w.blobs.Keys
    && (forall id | id in Others(v, k) :: w.blobs[id] == v.blobs[id])
  }

  /** The key path is free and everything else is in place. */
  ghost predicate Loose(v: Volume, k: string, w: Volume, rest: seq<ObjectMeta>) {
    && SameElsewhere(v, w, k) && w == v.(tree := w.tree, blobs := w.blobs)
    && (forall i | 0 <= i < |rest| :: LooseAt(w, rest[i]))
    && DistinctIDs(rest)
    && w.blobs.Keys == Others(v, k) + LiveIDs(rest) && Others(v, k) !! LiveIDs(rest)
    && OthersKept(v, w, k)
  }

  /** The loose versions mean these abstract versions. */
  ghost predicate Means(w: Volume, k: string, rest: seq<ObjectMeta>, h: seq<Spec.Version>) {
    |rest| == |h| && forall i | 0 <= i < |rest| :: AbsVersion(w, k, rest[i]) == h[i]
  }

  /** What a valid volume says of one key's list. */
  lemma Listed(v: Volume, k: string)
    requires Valid(v)
    ensures var vs := Versions(v, k);
      && DistinctIDs(vs)
      && (k in Keys(v) <==> vs != [])
      && (vs == [] ==> k !in v.tree)
      && (vs != [] ==> vs[0].versionID != "" && vs[0].blobID == "" && vs[0].isLatest
                       && (k in v.tree <==> !vs[0].deleteMarker))
      && (vs != [] && !vs[0].deleteMarker ==> Storable(vs[0]) && |v.tree[k].bytes| == vs[0].size)
  {
    hide ReadCurrentMeta;
    if k in Keys(v) {
      assert KeyOK(v, k);
      assert WellPlaced(Versions(v, k)[0], 0);
      if !Versions(v, k)[0].deleteMarker { assert Backed(v, k, Versions(v, k)[0]); }
    }
  }

  /** The older versions of a valid key are loose where they are. */
  lemma TailLoose(v: Volume, k: string, i: nat)
    requires Valid(v) && i < |Versions(v, k)| && (i > 0 || Versions(v, k)[i].deleteMarker)
    ensures LooseAt(v, Versions(v, k)[i])
  {
    var vs := Versions(v, k);
    assert KeyOK(v, k);
    assert WellPlaced(vs[i], i);
    if !vs[i].deleteMarker {
      assert Backed(v, k, vs[i]);
    }
  }

  lemma ArchivedStored(v: Volume, k: string)
    requires Valid(v)
    ensures Archived(Versions(v, k)) <= v.blobs.Keys
  {
    var vs := Versions(v, k);
    forall id | id in Archived(vs) ensures id in v.blobs {
      var i :| 1 <= i < |vs| && !vs[i].deleteMarker && vs[i].versionID == id;
      TailLoose(v, k, i);
    }
  }

  /** Nothing at the key path: the list is loose as it is. */
  lemma DisplaceNothing(v: Volume, k: string)
    requires Valid(v) && !AtKeyPath(Versions(v, k))
    ensures Loose(v, k, v, Versions(v, k))
    ensures k !in v.tree
  {
    hide ReadCurrentMeta, Versions, Valid, KeyOK, Keys;
    var vs := Versions(v, k);
    Listed(v, k);
    forall i | 0 <= i < |vs| ensures LooseAt(v, vs[i]) {
      TailLoose(v, k, i);
    }
    ArchivedStored(v, k);
    assert LiveIDs(vs) == Archived(vs);
  }

  /** The null version at the key path is dropped from the list. */
  lemma DisplaceDropped(v: Volume, k: string)
    requires Valid(v) && AtKeyPath(Versions(v, k))
    ensures Loose(v, k, v, Versions(v, k)[1..])
  {
    hide ReadCurrentMeta, Versions, Valid, KeyOK, Keys;
    var vs := Versions(v, k);
    Listed(v, k);
    var rest := vs[1..];
    forall i | 0 <= i < |rest| ensures LooseAt(v, rest[i]) {
      TailLoose(v, k, i + 1);
    }
    ArchivedStored(v, k);
    TailNames(vs);
  }

  lemma TailNames(vs: seq<ObjectMeta>)
    requires vs != []
    ensures LiveIDs(vs[1..]) == Archived(vs)
  {
    var rest := vs[1..];
    forall id | id in Archived(vs) ensures id in LiveIDs(rest) {
      var i :| 1 <= i < |vs| && !vs[i].deleteMarker && vs[i].versionID == id;
      assert rest[i - 1] == vs[i];
    }
    forall id | id in LiveIDs(rest) ensures id in Archived(vs) {
      var i :| 0 <= i < |rest| && !rest[i].deleteMarker && rest[i].versionID == id;
      assert rest[i] == vs[i + 1];
    }
  }

  /** The volume and the list after the current file has been archived. */
  function ArchivedVol(v: Volume, k: string): Volume
    requires k in v.tree && Versions(v, k) != []
  {
    v.(tree := v.tree - {k}, blobs := v.blobs[Versions(v, k)[0].versionID := v.tree[k]])
  }

  function ArchivedList(vs: seq<ObjectMeta>): seq<ObjectMeta>
    requires vs != []
  {
    [vs[0].(blobID := vs[0].versionID)] + vs[1..]
  }

  lemma ArchivedNames(vs: seq<ObjectMeta>)
    requires vs != [] && !vs[0].deleteMarker
    ensures LiveIDs(ArchivedList(vs)) == Archived(vs) + {vs[0].versionID}
  {
    var rest := ArchivedList(vs);
    assert forall i | 1 <= i < |vs| :: rest[i] == vs[i];
    forall id | id in LiveIDs(rest) ensures id in Archived(vs) + {vs[0].versionID} {
      var i :| 0 <= i < |rest| && !rest[i].deleteMarker && rest[i].versionID == id;
    }
    forall id | id in Archived(vs) ensures id in LiveIDs(rest) {
      var i :| 1 <= i < |vs| && !vs[i].deleteMarker && vs[i].versionID == id;
      assert rest[i] == vs[i];
    }
    assert rest[0].versionID in LiveIDs(rest);
  }

  /** Whether or not the archived name was free, every version of the key is archived under it or its own. */
  lemma ArchivedLoose(v: Volume, k: string, i: nat)
    requires Valid(v) && AtKeyPath(Versions(v, k)) && i < |Versions(v, k)|
    ensures k in v.tree && LooseAt(ArchivedVol(v, k), ArchivedList(Versions(v, k))[i])
  {
    hide ReadCurrentMeta, Versions, Valid, KeyOK, Keys;
    var vs := Versions(v, k);
    Listed(v, k);
    if i > 0 {
      assert ArchivedList(vs)[i] == vs[i];
      TailLoose(v, k, i);
    }
  }

  /** The archived name is free and not one of the key's own older versions. */
  lemma DisplaceArchived(v: Volume, k: string)
    requires Valid(v) && AtKeyPath(Versions(v, k)) && Versions(v, k)[0].versionID !in v.blobs
    ensures k in v.tree && Loose(v, k, ArchivedVol(v, k), ArchivedList(Versions(v, k)))
  {
    hide ReadCurrentMeta, Versions, Valid, KeyOK, Keys;
    var vs := Versions(v, k);
    Listed(v, k);
    assert forall i | 1 <= i < |vs| :: ArchivedList(vs)[i] == vs[i];
    forall i | 0 <= i < |vs| ensures LooseAt(ArchivedVol(v, k), ArchivedList(vs)[i]) { ArchivedLoose(v, k, i); }
    ArchivedStored(v, k);
    ArchivedNames(vs);
  }

  // ---- what the loose versions mean ----

  /** The names of archived payloads, on both sides. */
  lemma ArchivedIDsAre(v: Volume)
    requires Valid(v)
    ensures Settled.ArchivedIDs(AbsVol(v)) == v.blobs.Keys
  {
    hide ReadCurrentMeta, Versions, KeyOK, Keys;
    var a := AbsVol(v);
    forall id | id in v.blobs ensures id in Settled.ArchivedIDs(a) {
      assert BlobsOK(v);
      var k :| k in Keys(v) && id in Archived(Versions(v, k));
      var i :| 1 <= i < |Versions(v, k)| && !Versions(v, k)[i].deleteMarker && Versions(v, k)[i].versionID == id;
      assert a.objects[k] == AbsList(v, k);
      assert a.objects[k][i] == AbsVersion(v, k, Versions(v, k)[i]);
    }
    hide Valid;
    forall id | id in Settled.ArchivedIDs(a) ensures id in v.blobs {
      var k, i :| k in a.objects && 1 <= i < |a.objects[k]| && !a.objects[k][i].marker && a.objects[k][i].id == id;
      assert a.objects[k] == AbsList(v, k);
      TailLoose(v, k, i);
    }
  }

  /** Archived payloads keep their bytes when the store only grows. */
  lemma SameMeaning(v: Volume, w: Volume, k: string, m: ObjectMeta)
    requires LooseAt(v, m)
    requires !m.deleteMarker ==> m.blobID in w.blobs && w.blobs[m.blobID] == v.blobs[m.blobID]
    ensures AbsVersion(w, k, m) == AbsVersion(v, k, m)
  {
  }

  /** Displacing is safe when the archived name is free, and leaves exactly the remaining versions. */
  lemma DisplaceKeeps(v: Volume, k: string, enabled: bool)
    requires Valid(v)
    requires Settled.ArchiveFree(AbsVol(v), k, enabled)
    ensures var dp := Displace(v, k, Versions(v, k), enabled);
      && dp.err == NoError && Loose(v, k, dp.vol, dp.versions)
      && Means(dp.vol, k, dp.versions, Settled.Remaining(AbsList(v, k), enabled))
      && (enabled ==> k !in dp.vol.tree)
  {
    hide Loose, ReadCurrentMeta, Versions, Valid, KeyOK, Keys;
    var vs := Versions(v, k);
    Listed(v, k);
    AbsHistory(v, k);
    ArchivedIDsAre(v);
    if !AtKeyPath(vs) {
      DisplaceNothing(v, k);
    } else if enabled || vs[0].versionID != "null" {
      DisplaceArchived(v, k);
      ArchivedMeans(v, k);
    } else {
      DisplaceDropped(v, k);
    }
  }

  lemma ArchivedMeans(v: Volume, k: string)
    requires Valid(v) && AtKeyPath(Versions(v, k)) && k in v.tree
    ensures Means(ArchivedVol(v, k), k, ArchivedList(Versions(v, k)), AbsList(v, k))
  {
    hide ReadCurrentMeta, Versions, Valid, KeyOK, Keys;
    var vs := Versions(v, k);
    Listed(v, k);
    var w, rest := ArchivedVol(v, k), ArchivedList(vs);
    forall i | 0 <= i < |rest| ensures AbsVersion(w, k, rest[i]) == AbsList(v, k)[i] {
      if i > 0 {
        assert rest[i] == vs[i];
        TailLoose(v, k, i);
        SameMeaning(v, w, k, vs[i]);
      }
    }
  }
}
