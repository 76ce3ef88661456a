/** Persisting a key's new version list over a volume whose files are already in place. */
module Finalizing {
  import opened Types
  import opened XMeta
  import opened Store
  import opened Rep
  import opened Persist
  import opened Displacing
  import Spec

  /** The outcome is a valid volume that means this bucket. */
  ghost predicate Refines(o: Out, a: Spec.Bucket) {
    o.err == NoError && Valid(o.vol) && AbsVol(o.vol) == a
  }

  /** Only the files of `k` moved between `v` and `w`. */
  ghost predicate Moved(v: Volume, k: string, w: Volume) {
    && w == v.(dir := w.dir, tree := w.tree, blobs := w.blobs)
    && w.tree - {k} == v.tree - {k}
    && DirOK(w)
    && OthersKept(v, w, k)
  }

  /** The files of `w` back the list `vs` of key `k`, and nothing else of `k` is left. */
  ghost predicate Placed(v: Volume, k: string, w: Volume, vs: seq<ObjectMeta>) {
    && Moved(v, k, w)
    && WellFormed(vs)
    && (k in w.tree <==> !vs[0].deleteMarker)
    && (forall i | 0 <= i < |vs| && !vs[i].deleteMarker :: Backed(w, k, vs[i]))
    && w.blobs.Keys == Others(v, k) + Archived(vs) && Others(v, k) !! Archived(vs)
  }

  /** Nothing of `k` is left. */
  ghost predicate Emptied(v: Volume, k: string, w: Volume) {
    Moved(v, k, w) && w.blobs.Keys == Others(v, k)
  }

  lemma WrittenKey(w: Volume, k: string, vs: seq<ObjectMeta>, u: Volume)
    requires WellFormed(vs) && Versions(u, k) == vs && u.blobs == w.blobs
    requires k in u.tree <==> k in w.tree
    requires k in w.tree ==> u.tree[k].bytes == w.tree[k].bytes
    requires k in w.tree <==> !vs[0].deleteMarker
    requires forall i | 0 <= i < |vs| && !vs[i].deleteMarker :: Backed(w, k, vs[i])
    requires k in u.history ==> NeedsHistory(vs) && (Nested(k) ==> u.histDirs)
    ensures KeyOK(u, k)
  {
    hide Versions, WellFormed;
    forall i | 0 <= i < |vs| && !vs[i].deleteMarker ensures Backed(u, k, vs[i]) {
      assert Backed(w, k, vs[i]);
    }
  }

  lemma WrittenMeans(w: Volume, k: string, vs: seq<ObjectMeta>, u: Volume, h: seq<Spec.Version>)
    requires Versions(u, k) == vs && u.blobs == w.blobs && Means(w, k, vs, h)
    requires k in u.tree <==> k in w.tree
    requires k in w.tree ==> u.tree[k].bytes == w.tree[k].bytes
    ensures AbsList(u, k) == h
  {
    hide Versions;
    forall i | 0 <= i < |vs| ensures AbsList(u, k)[i] == h[i] {
      assert AbsVersion(w, k, vs[i]) == h[i];
    }
  }

  lemma DirStays(u: Volume, w: Volume, k: string)
    requires SameElsewhere(w, u, k) && (k in u.tree <==> k in w.tree) && u.dir == w.dir
    requires DirOK(w)
    ensures DirOK(u)
  {
    forall x | x in u.tree ensures u.dir {
      if x != k { assert x in u.tree - {k}; assert x in w.tree - {k}; }
      assert x in w.tree;
    }
  }

  /** Writing the list touches the key file's attributes and the history file only. */
  ghost predicate Rewritten(w: Volume, k: string, vs: seq<ObjectMeta>, u: Volume) {
    && u == w.(tree := u.tree, history := u.history, histDirs := u.histDirs)
    && SameElsewhere(w, u, k)
    && u.histDirs == (w.histDirs || (Nested(k) && NeedsHistory(vs)))
    && (k in u.tree <==> k in w.tree)
    && (k in w.tree ==> u.tree[k].bytes == w.tree[k].bytes)
    && (k in u.history ==> NeedsHistory(vs) && (Nested(k) ==> u.histDirs))
  }

  lemma PlacedWritten(v: Volume, k: string, w: Volume, vs: seq<ObjectMeta>)
    requires Placed(v, k, w, vs)
    ensures var o := WriteKeyMeta(w, k, vs);
      vs != [] && o.err == NoError && Versions(o.vol, k) == vs && k in Keys(o.vol) && Rewritten(w, k, vs, o.vol)
  {
    hide Moved, Archived, Others, WriteKeyMeta, ReadCurrentMeta, Versions, Keys;
    if !vs[0].deleteMarker { assert Backed(w, k, vs[0]) && WellPlaced(vs[0], 0); }
    Written(w, k, vs);
  }

  lemma RewrittenMoves(v: Volume, k: string, w: Volume, vs: seq<ObjectMeta>, u: Volume)
    requires Placed(v, k, w, vs) && Versions(u, k) == vs && Rewritten(w, k, vs, u)
    ensures SameElsewhere(v, u, k) && BlobsMoved(v, u, k) && DirOK(u)
  {
    hide Versions, WellFormed, Backed, Archived;
    DirStays(u, w, k);
  }

  /** Writing a placed list refines giving the key the history it means. */
  lemma WriteRefines(v: Volume, k: string, w: Volume, vs: seq<ObjectMeta>, h: seq<Spec.Version>)
    requires Valid(v) && Placed(v, k, w, vs) && Means(w, k, vs, h)
    ensures Refines(WriteKeyMeta(w, k, vs), Spec.SetHistory(AbsVol(v), k, h).(dir := w.dir))
    ensures w.dir == v.dir ==> Refines(WriteKeyMeta(w, k, vs), Spec.SetHistory(AbsVol(v), k, h))
  {
    hide WriteKeyMeta, ReadCurrentMeta, Versions, WellFormed, Valid, Keys, Backed, SameElsewhere, Archived, Others;
    var u := WriteKeyMeta(w, k, vs).vol;
    PlacedWritten(v, k, w, vs);
    WrittenKey(w, k, vs, u);
    RewrittenMoves(v, k, w, vs, u);
    hide KeyOK, AbsList, BlobsMoved;
    HeadMeans(w, k, vs, h);
    WrittenMeans(w, k, vs, u, h);
    hide Means;
    ReplaceKey(v, u, k);
  }

  lemma HeadMeans(w: Volume, k: string, vs: seq<ObjectMeta>, h: seq<Spec.Version>)
    requires Means(w, k, vs, h) && vs != []
    ensures NeedsHistory(vs) <==> |h| != 1 || h[0].marker
  {
    assert AbsVersion(w, k, vs[0]) == h[0];
  }

  /** Removing the last version removes the key. */
  lemma EmptyRefines(v: Volume, k: string, w: Volume)
    requires Valid(v) && Emptied(v, k, w)
    requires w.dir == v.dir
    ensures Refines(FinalizeKey(w, k, []), Spec.SetHistory(AbsVol(v), k, []))
  {
    var u := FinalizeKey(w, k, []).vol;
    hide Valid, ReadCurrentMeta;
    assert SameElsewhere(v, u, k);
    assert k !in Keys(u) && Versions(u, k) == [];
    assert DirOK(u) by {
      forall x | x in u.tree ensures u.dir { assert x in w.tree; }
    }
    hide SameElsewhere, Versions, Keys, AbsList;
    ReplaceKey(v, u, k);
  }
}
