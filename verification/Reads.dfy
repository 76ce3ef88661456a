/** Reads of a valid volume return exactly what the version lists say. */
module Reads {
  import opened Types
  import opened XMeta
  import opened Store
  import opened Rep
  import opened Deletes
  import opened Markers
  import opened Mutations
  import Spec

  lemma ConfigSame(v: Volume)
    ensures Spec.ConfigOf(AbsVol(v)) == BucketConfig(v) && Spec.WriteConfig(AbsVol(v)) == ConfigForWrite(v)
  {
  }

  /** The version a read names is at this position of the key's list. */
  function Position(vs: seq<ObjectMeta>, id: string): nat { if id == "" then 0 else IndexOfID(vs, id) }

  /** Resolving a version id finds the same version on both sides. */
  lemma ResolveAgrees(v: Volume, k: string, id: string)
    requires Valid(v)
    ensures var r, q := Resolve(v, k, id), Spec.Lookup(AbsVol(v), k, id);
      && r.err == q.err
      && (r.err == NoError ==>
            var i := Position(Versions(v, k), id);
            && i < |Versions(v, k)| && r.meta == Versions(v, k)[i] && q.version == AbsList(v, k)[i])
  {
    hide Valid, Versions, ReadCurrentMeta, Keys, AbsVersion;
    ConfigSame(v);
    AbsIDs(v, k);
    MissingKey(v, k);
    SameIndex(Versions(v, k), AbsList(v, k), id);
  }

  /** A live version's payload is stored, and it is what the abstract version holds. */
  lemma PayloadMeans(v: Volume, k: string, i: nat)
    requires Valid(v) && i < |Versions(v, k)| && !Versions(v, k)[i].deleteMarker
    ensures var f := Payload(v, k, Versions(v, k)[i]);
      f.Some? && f.value.bytes == AbsList(v, k)[i].bytes && |f.value.bytes| == AbsList(v, k)[i].size
  {
    hide Valid, Versions, ReadCurrentMeta, Keys;
    KeyBacked(v, k);
    assert Backed(v, k, Versions(v, k)[i]);
  }

  /** A read returns the named version's bytes and metadata, or the specified error. */
  lemma GetAgrees(v: Volume, k: string, id: string)
    requires Valid(v)
    ensures var g, q := Get(v, k, id), Spec.Readable(AbsVol(v), k, id);
      && g.err == q.err && Head(v, k, id).err == q.err
      && (g.err == NoError ==>
            && g.bytes == q.version.bytes && |g.bytes| == g.meta.size && Head(v, k, id).meta == g.meta
            && q.version == Spec.Version(g.meta.versionID, false, g.bytes, g.meta.size, g.meta.lastModified, g.meta.attrs))
  {
    hide Valid, Versions, ReadCurrentMeta, Keys, Resolve, Spec.Lookup;
    ResolveAgrees(v, k, id);
    AbsIDs(v, k);
    var r := Resolve(v, k, id);
    if r.err == NoError && !r.meta.deleteMarker {
      PayloadMeans(v, k, Position(Versions(v, k), id));
    }
  }
}
