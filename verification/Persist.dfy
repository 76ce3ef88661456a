/** Dual persistence: a version list lives in the key file's attributes or in a history file, and
    a later read always sees the last list written. */
module Persist {
  import opened Types
  import opened XMeta
  import opened Store
  import opened Rep

  /** The list can be read back after it is written over this volume. A list that needs a history
      file always can; a lone live version must be carried by the key file. */
  predicate Persistable(v: Volume, k: string, vs: seq<ObjectMeta>) {
    NeedsHistory(vs) ||
      (var m := vs[0];
       && k in v.tree && m.blobID == "" && m.isLatest && m.size == |v.tree[k].bytes|
       && m.versionID != "" && m.attrs.legalHold != Some("") && (m.lastModified != 0 || v.tree[k].mtime == 0))
  }

  /** A write that does not fail is read back exactly when the list is persistable, whatever history
      file or attributes an earlier write left behind. */
  lemma WriteThenReadKeyMeta(v: Volume, k: string, vs: seq<ObjectMeta>)
    requires AtKeyPath(vs) ==> k in v.tree
    ensures WriteKeyMeta(v, k, vs).err == NoError
    ensures ReadKeyMeta(WriteKeyMeta(v, k, vs).vol, k) == Some(vs) <==> Persistable(v, k, vs)
  {
    if !NeedsHistory(vs) {
      var w := WriteKeyMeta(v, k, vs).vol;
      assert vs == [vs[0]];
      if AtKeyPath(vs) {
        WriteThenRead(v.tree[k], vs[0], k);
        hide ReadCurrentMeta, WriteXattrs;
        assert ReadKeyMeta(w, k) == Some([ReadCurrentMeta(WriteXattrs(v.tree[k], vs[0]), k)]);
      } else if k in v.tree {
        assert ReadKeyMeta(w, k).value[0].blobID == "";
      }
    }
  }

  /** A sequence of writes to the same key, each allowed to fail. */
  function WriteAll(v: Volume, k: string, lists: seq<seq<ObjectMeta>>): Volume {
    if lists == [] then v
    else WriteKeyMeta(WriteAll(v, k, lists[..|lists| - 1]), k, lists[|lists| - 1]).vol
  }

  /** A write fails only when the newest version belongs at the key path and no file is there. */
  predicate Lands(v: Volume, k: string, vs: seq<ObjectMeta>) { AtKeyPath(vs) ==> k in v.tree }

  /** The key file has no modification time, and none of the writes brings one. */
  predicate Timeless(v: Volume, k: string, lists: seq<seq<ObjectMeta>>) {
    k in v.tree && v.tree[k].mtime == 0 && forall vs: seq<ObjectMeta> | vs in lists && AtKeyPath(vs) :: vs[0].lastModified == 0
  }

  lemma {:induction false} WriteAllKeepsFile(v: Volume, k: string, lists: seq<seq<ObjectMeta>>)
    ensures k in WriteAll(v, k, lists).tree <==> k in v.tree
    ensures k in v.tree ==> WriteAll(v, k, lists).tree[k].bytes == v.tree[k].bytes
    ensures k in v.tree ==> (WriteAll(v, k, lists).tree[k].mtime == 0 <==> Timeless(v, k, lists))
  {
    if lists != [] {
      var init, last := lists[..|lists| - 1], lists[|lists| - 1];
      WriteAllKeepsFile(v, k, init);
      assert lists == init + [last];
      hide Encode;
    }
  }

  /** Whether a list written after others reads back, judged on the lists and the file there was before
      any of them: it needs a history file, or it is a lone live version that describes the file. */
  predicate ReadsBack(v: Volume, k: string, earlier: seq<seq<ObjectMeta>>, vs: seq<ObjectMeta>) {
    NeedsHistory(vs) ||
      (var m := vs[0];
       && k in v.tree && m.blobID == "" && m.isLatest && m.size == |v.tree[k].bytes|
       && m.versionID != "" && m.attrs.legalHold != Some("") && (m.lastModified != 0 || Timeless(v, k, earlier)))
  }

  lemma {:induction false} FailedWritesNothing(v: Volume, k: string, lists: seq<seq<ObjectMeta>>, n: nat)
    requires n <= |lists| && forall i | n <= i < |lists| :: !Lands(v, k, lists[i])
    ensures WriteAll(v, k, lists) == WriteAll(v, k, lists[..n])
  {
    if n < |lists| {
      var init := lists[..|lists| - 1];
      FailedWritesNothing(v, k, init, n);
      assert init[..n] == lists[..n];
      WriteAllKeepsFile(v, k, init);
    } else {
      assert lists[..n] == lists;
    }
  }

  /** LAST WRITE WINS: after any sequence of writes to a key, with or without a file at its path, the
      last list that was written is the one read if and only if it reads back at all; no earlier history
      file or attribute shadows it. */
  lemma LastWriteWins(v: Volume, k: string, lists: seq<seq<ObjectMeta>>, n: nat)
    requires n < |lists| && Lands(v, k, lists[n]) && forall i | n < i < |lists| :: !Lands(v, k, lists[i])
    ensures ReadKeyMeta(WriteAll(v, k, lists), k) == Some(lists[n]) <==> ReadsBack(v, k, lists[..n], lists[n])
  {
    FailedWritesNothing(v, k, lists, n + 1);
    var earlier := lists[..n];
    assert lists[..n + 1][..n] == earlier;
    WriteAllKeepsFile(v, k, earlier);
    var u := WriteAll(v, k, earlier);
    WriteThenReadKeyMeta(u, k, lists[n]);
    hide WriteKeyMeta, ReadKeyMeta, Timeless, WriteAll, NeedsHistory;
    assert Persistable(u, k, lists[n]) <==> ReadsBack(v, k, earlier, lists[n]);
  }

  /** Writing a well-formed list whose newest version is the key file: what results. */
  lemma Written(v: Volume, k: string, vs: seq<ObjectMeta>)
    requires WellFormed(vs)
    requires !vs[0].deleteMarker ==> k in v.tree && |v.tree[k].bytes| == vs[0].size
    ensures var o := WriteKeyMeta(v, k, vs);
      && o.err == NoError && Versions(o.vol, k) == vs && k in Keys(o.vol)
      && o.vol == v.(tree := o.vol.tree, history := o.vol.history, histDirs := o.vol.histDirs)
      && SameElsewhere(v, o.vol, k)
      && o.vol.histDirs == (v.histDirs || (Nested(k) && NeedsHistory(vs)))
      && (k in o.vol.tree <==> k in v.tree)
      && (k in v.tree ==> o.vol.tree[k].bytes == v.tree[k].bytes)
      && (k in o.vol.history ==> NeedsHistory(vs) && (Nested(k) ==> o.vol.histDirs))
  {
    hide ReadCurrentMeta, Encode;
    assert WellPlaced(vs[0], 0);
    WriteThenReadKeyMeta(v, k, vs);
  }

  /** Any list that needs a history file is read back from it. */
  lemma WrittenHistory(v: Volume, k: string, vs: seq<ObjectMeta>)
    requires NeedsHistory(vs) && (AtKeyPath(vs) ==> k in v.tree)
    ensures var o := WriteKeyMeta(v, k, vs);
      && o.err == NoError && Versions(o.vol, k) == vs && k in Keys(o.vol) && SameElsewhere(v, o.vol, k)
      && o.vol.blobs == v.blobs && (k in o.vol.tree <==> k in v.tree)
  {
    hide ReadCurrentMeta, WriteXattrs;
  }
}
