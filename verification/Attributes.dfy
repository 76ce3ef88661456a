/** What the metadata mutations, the copy rules and the lock defaults do to a version's attributes. */
module Attributes {
  import opened Types
  import opened Store
  import opened Spec

  datatype Kind = AboutACL | AboutTags | AboutRetention | AboutHold | AboutNothing

  function KindOf(m: Mutation): Kind {
    match m
    case SetACL(_) => AboutACL
    case SetTags(_) => AboutTags
    case DelTags => AboutTags
    case SetRetention(_) => AboutRetention
    case SetLegalHold(_) => AboutHold
    case Malformed => AboutNothing
  }

  /** Mutations about different things commute, and of two about the same thing the later one stands. */
  lemma MutationsCompose(a: Attrs, m: Mutation, n: Mutation)
    ensures KindOf(m) != KindOf(n) ==> Mutated(Mutated(a, m), n) == Mutated(Mutated(a, n), m)
    ensures KindOf(m) == KindOf(n) ==> Mutated(Mutated(a, m), n) == Mutated(a, n)
  {}

  lemma {:induction false} FindStays(h: seq<Version>, i: nat, e: Version, id: string)
    requires i < |h| && e.id == h[i].id
    ensures Spec.Find(h[i := e], id) == Spec.Find(h, id)
  {
    if h[0].id != id {
      if i > 0 {
        assert h[i := e][1..] == h[1..][i - 1 := e];
        FindStays(h[1..], i - 1, e, id);
      } else {
        assert h[i := e][1..] == h[1..];
      }
    }
  }

  /** The position a mutation addresses, or the length of the list. */
  function Addressed(h: seq<Version>, id: string): nat { if id == "" then 0 else Spec.Find(h, id) }

  function Change(h: seq<Version>, i: nat, m: Mutation): seq<Version>
    requires i < |h|
  {
    h[i := h[i].(attrs := Mutated(h[i].attrs, m))]
  }

  lemma MutateIs(a: Bucket, k: string, id: string, m: Mutation)
    requires MutateSpec(a, k, id, m).1 == NoError
    ensures var h := History(a, k); var i := Addressed(h, id);
      h != [] && i < |h| && MutateSpec(a, k, id, m).0 == SetHistory(a, k, Change(h, i, m)) && !m.Malformed?
  {}

  /** A mutation leaves every position, id and error decision as it was. */
  lemma SameAddress(a: Bucket, k: string, i: nat, m: Mutation, id: string, n: Mutation)
    requires i < |History(a, k)|
    ensures var h := History(a, k); var b := SetHistory(a, k, Change(h, i, m));
      && History(b, k) == Change(h, i, m) && Addressed(History(b, k), id) == Addressed(h, id)
      && MutateSpec(b, k, id, n).1 == MutateSpec(a, k, id, n).1
  {
    var h := History(a, k);
    FindStays(h, i, Change(h, i, m)[i], id);
    hide Mutated;
  }

  lemma SetTwice(a: Bucket, k: string, h: seq<Version>, h': seq<Version>)
    requires h != [] && h' != [] && |h| == |h'| && h[0].marker == h'[0].marker
    ensures SetHistory(SetHistory(a, k, h), k, h') == SetHistory(a, k, h')
  {
    assert a.objects[k := h][k := h'] == a.objects[k := h'];
  }

  /** Two mutation commands on a key commute, whatever versions they address, unless they are about the
      same thing on the same version. */
  lemma CommandsCommute(a: Bucket, k: string, id: string, m: Mutation, id': string, n: Mutation)
    requires MutateSpec(a, k, id, m).1 == NoError && MutateSpec(a, k, id', n).1 == NoError
    requires KindOf(m) != KindOf(n) || Addressed(History(a, k), id) != Addressed(History(a, k), id')
    ensures var b, c := MutateSpec(a, k, id, m).0, MutateSpec(a, k, id', n).0;
      && MutateSpec(b, k, id', n).1 == NoError && MutateSpec(c, k, id, m).1 == NoError
      && MutateSpec(b, k, id', n).0 == MutateSpec(c, k, id, m).0
  {
    MutateIs(a, k, id, m);
    MutateIs(a, k, id', n);
    var h := History(a, k);
    var i, j := Addressed(h, id), Addressed(h, id');
    SameAddress(a, k, i, m, id', n);
    SameAddress(a, k, j, n, id, m);
    var b, c := MutateSpec(a, k, id, m).0, MutateSpec(a, k, id', n).0;
    MutateIs(b, k, id', n);
    MutateIs(c, k, id, m);
    MutationsCompose(h[i].attrs, m, n);
    hide Mutated, MutateSpec, SetHistory, Addressed, History;
    assert Change(Change(h, i, m), j, n) == Change(Change(h, j, n), i, m);
    SetTwice(a, k, Change(h, i, m), Change(Change(h, i, m), j, n));
    SetTwice(a, k, Change(h, j, n), Change(Change(h, j, n), i, m));
  }

  /** Default retention touches retention only, never overrides the one a version brings, and applied
      again later changes nothing more once a version has one. */
  lemma DefaultsOnce(bm: BucketMeta, a: Attrs, t: nat, t': nat)
    ensures LockDefaults(bm, a, t).(retention := None) == a.(retention := None)
    ensures a.retention.Some? ==> LockDefaults(bm, a, t) == a
    ensures LockDefaults(bm, a, t).retention.Some? ==> LockDefaults(bm, LockDefaults(bm, a, t), t') == LockDefaults(bm, a, t)
    ensures LockDefaults(bm, a, t).retention != a.retention ==>
      bm.lock.Some? && bm.lock.value.enabled && LockDefaults(bm, a, t).retention.value.mode == bm.lock.value.mode != ""
  {}

  /** The end of a default retention period: days first, then years. */
  predicate Ends(l: LockConfig, mtime: nat, until: nat) {
    && (l.days <= 0 && l.years <= 0 ==> until == mtime)
    && (l.days > 0 && l.years <= 0 ==> until == AddDate(mtime, 0, l.days))
    && (l.days <= 0 && l.years > 0 ==> until == AddDate(mtime, l.years, 0))
    && (l.days > 0 && l.years > 0 ==> until == AddDate(AddDate(mtime, 0, l.days), l.years, 0))
  }

  /** The bucket keeps new versions by default. */
  predicate Locks(bm: BucketMeta) { bm.lock.Some? && bm.lock.value.enabled && bm.lock.value.mode != "" }

  /** The attributes given, with a retention of the bucket's own when the bucket has one and none was given. */
  predicate Kept(bm: BucketMeta, given: Attrs, mtime: nat, found: Attrs) {
    && found.(retention := given.retention) == given
    && (given.retention.Some? || !Locks(bm) ==> found.retention == given.retention)
    && (given.retention.None? && Locks(bm) ==>
          found.retention.Some? && found.retention.value.mode == bm.lock.value.mode
          && Ends(bm.lock.value, mtime, found.retention.value.until))
  }

  lemma DefaultsKept(bm: BucketMeta, a: Attrs, mtime: nat)
    ensures Kept(bm, a, mtime, LockDefaults(bm, a, mtime))
  {}
}
