/** Metadata mutations and bucket commands refine the specification. */
module Mutations {
  import opened Types
  import opened XMeta
  import opened Store
  import opened Rep
  import opened Displacing
  import opened Finalizing
  import opened Writes
  import opened Deletes
  import opened Markers
  import Spec
  import Settled

  /** The outcome is a valid volume that means this bucket, with the same error. */
  ghost predicate Agrees(o: Out, r: (Spec.Bucket, Err)) {
    o.err == r.1 && Valid(o.vol) && AbsVol(o.vol) == r.0
  }

  lemma {:induction false} SameIndex(vs: seq<ObjectMeta>, h: seq<Spec.Version>, id: string)
    requires |vs| == |h| && forall i | 0 <= i < |h| :: h[i].id == vs[i].versionID
    ensures IndexOfID(vs, id) == Spec.Find(h, id)
  {
    if vs != [] && vs[0].versionID != id {
      assert forall i | 0 <= i < |h[1..]| :: h[1..][i] == h[i + 1] && vs[1..][i] == vs[i + 1];
      SameIndex(vs[1..], h[1..], id);
    }
  }

  function WithAttrs(vs: seq<ObjectMeta>, i: nat, a: Attrs): seq<ObjectMeta>
    requires i < |vs|
  {
    vs[i := vs[i].(attrs := a)]
  }

  lemma MutatedList(vs: seq<ObjectMeta>, i: nat, a: Attrs)
    requires WellFormed(vs) && i < |vs| && (vs[i].deleteMarker || a.legalHold != Some(""))
    ensures WellFormed(WithAttrs(vs, i, a)) && Archived(WithAttrs(vs, i, a)) == Archived(vs)
  {
    var vs' := WithAttrs(vs, i, a);
    forall j | 0 <= j < |vs'| ensures WellPlaced(vs'[j], j) {
      assert WellPlaced(vs[j], j);
    }
    forall id | id in Archived(vs) ensures id in Archived(vs') {
      var j :| 1 <= j < |vs| && !vs[j].deleteMarker && vs[j].versionID == id;
      assert vs'[j].versionID == id && !vs'[j].deleteMarker;
    }
    forall id | id in Archived(vs') ensures id in Archived(vs) {
      var j :| 1 <= j < |vs'| && !vs'[j].deleteMarker && vs'[j].versionID == id;
      assert vs[j].versionID == id && !vs[j].deleteMarker;
    }
  }

  lemma MutatedPlaced(v: Volume, k: string, i: nat, a: Attrs)
    requires Valid(v) && i < |Versions(v, k)|
    requires Versions(v, k)[i].deleteMarker || a.legalHold != Some("")
    ensures Placed(v, k, v, WithAttrs(Versions(v, k), i, a))
  {
    hide Valid, Versions, ReadCurrentMeta, Moved, Others, WellFormed, Archived;
    var vs := Versions(v, k);
    StillPlaced(v, k);
    MutatedList(vs, i, a);
    var vs' := WithAttrs(vs, i, a);
    forall j | 0 <= j < |vs'| && !vs'[j].deleteMarker ensures Backed(v, k, vs'[j]) {
      assert Backed(v, k, vs[j]);
    }
  }

  lemma MutatedMeans(v: Volume, k: string, i: nat, a: Attrs)
    requires i < |Versions(v, k)|
    ensures Means(v, k, WithAttrs(Versions(v, k), i, a), AbsList(v, k)[i := AbsList(v, k)[i].(attrs := a)])
  {
    hide Versions;
  }

  /** Rewriting one version's attributes refines it, unless a live version gets an empty legal hold. */
  lemma RewriteExact(v: Volume, k: string, i: nat, a: Attrs)
    requires Valid(v) && i < |Versions(v, k)|
    ensures Refines(WriteKeyMeta(v, k, WithAttrs(Versions(v, k), i, a)),
                    Spec.SetHistory(AbsVol(v), k, AbsList(v, k)[i := AbsList(v, k)[i].(attrs := a)]))
       <==> (AbsList(v, k)[i].marker || a.legalHold != Some(""))
  {
    hide Valid, Versions, ReadCurrentMeta, WriteKeyMeta, Placed, Means, AbsVersion, Keys;
    var vs, h := Versions(v, k), AbsList(v, k);
    AbsIDs(v, k);
    var o, h' := WriteKeyMeta(v, k, WithAttrs(vs, i, a)), h[i := h[i].(attrs := a)];
    if vs[i].deleteMarker || a.legalHold != Some("") {
      MutatedPlaced(v, k, i, a);
      MutatedMeans(v, k, i, a);
      WriteRefines(v, k, v, WithAttrs(vs, i, a), h');
    }
    if Refines(o, Spec.SetHistory(AbsVol(v), k, h')) && !h[i].marker {
      assert Spec.History(AbsVol(o.vol), k) == h';
      LiveWritable(o.vol, k, i);
    }
  }

  /** A metadata mutation agrees with the specification exactly when it is settled. */
  lemma MutateExact(v: Volume, k: string, id: string, mu: Mutation)
    requires Valid(v)
    ensures Agrees(ApplyMutation(v, k, id, mu), Spec.MutateSpec(AbsVol(v), k, id, mu))
       <==> Settled.MutateSettled(AbsVol(v), k, id, mu)
  {
    hide Valid, Versions, ReadCurrentMeta, WriteKeyMeta, AbsVersion, Keys;
    var vs, h := Versions(v, k), AbsList(v, k);
    AbsIDs(v, k);
    MissingKey(v, k);
    SameIndex(vs, h, id);
    var i := if id == "" then 0 else IndexOfID(vs, id);
    if i < |vs| {
      assert h[i].attrs == vs[i].attrs by { AttrsAre(v, k, i); }
      RewriteExact(v, k, i, Mutated(vs[i].attrs, mu));
      HoldMutated(v, k, i, mu);
    }
  }

  lemma AttrsAre(v: Volume, k: string, i: nat)
    requires i < |Versions(v, k)|
    ensures AbsList(v, k)[i].attrs == Versions(v, k)[i].attrs
  {
    hide Versions;
  }

  /** Only the legal-hold mutation can introduce an empty legal hold. */
  lemma HoldMutated(v: Volume, k: string, i: nat, mu: Mutation)
    requires Valid(v) && i < |Versions(v, k)|
    ensures Versions(v, k)[i].deleteMarker
         || (Mutated(Versions(v, k)[i].attrs, mu).legalHold == Some("") <==> mu == SetLegalHold(""))
  {
    hide Versions, ReadCurrentMeta, Keys;
    Listed(v, k);
    assert KeyOK(v, k) && WellPlaced(Versions(v, k)[i], i);
  }
}
