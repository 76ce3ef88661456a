/** The loops of the multipart commands: recording a part, choosing the parts of a completion and
    assembling them. */
module PartsRun {
  import opened Types
  import opened Decimal
  import opened Multipart
  import opened Uploads

  predicate Sorted(parts: seq<Part>) { forall i, j | 0 <= i < j < |parts| :: parts[i].number <= parts[j].number }

  lemma InsertSorted(r: seq<Part>, j: nat, p: Part)
    requires Sorted(r) && j <= |r|
    requires forall t | 0 <= t < j :: r[t].number <= p.number
    requires forall t | j <= t < |r| :: p.number < r[t].number
    ensures Sorted(r[..j] + [p] + r[j..])
  {
    var r' := r[..j] + [p] + r[j..];
    forall x, y | 0 <= x < y < |r'| ensures r'[x].number <= r'[y].number {
      assert r'[x] == (if x < j then r[x] else if x == j then p else r[x - 1]);
      assert r'[y] == (if y < j then r[y] else if y == j then p else r[y - 1]);
    }
  }

  lemma InsertCounts(r: seq<Part>, j: nat, p: Part)
    requires j <= |r|
    ensures multiset(r[..j] + [p] + r[j..]) == multiset(r) + multiset{p}
  {
    assert r == r[..j] + r[j..];
  }

  /** Where a part belongs in a sorted list: behind every part that is not larger. */
  method FindSlot(r: seq<Part>, p: Part) returns (j: nat)
    requires Sorted(r)
    ensures j <= |r|
    ensures forall t | 0 <= t < j :: r[t].number <= p.number
    ensures forall t | j <= t < |r| :: p.number < r[t].number
  {
    j := |r|;
    while j > 0 && p.number < r[j - 1].number
      invariant 0 <= j <= |r| && forall t | j <= t < |r| :: p.number < r[t].number
    {
      j := j - 1;
    }
  }

  /** Sorts by part number. */
  method SortParts(parts: seq<Part>) returns (r: seq<Part>)
    ensures Sorted(r) && multiset(r) == multiset(parts)
  {
    r := [];
    for i := 0 to |parts|
      invariant Sorted(r) && multiset(r) == multiset(parts[..i])
    {
      var j := FindSlot(r, parts[i]);
      assert parts[..i + 1] == parts[..i] + [parts[i]];
      InsertSorted(r, j, parts[i]);
      InsertCounts(r, j, parts[i]);
      hide Sorted;
      r := r[..j] + [parts[i]] + r[j..];
    }
    assert parts[..|parts|] == parts;
  }

  lemma SortedHead(r: seq<Part>, s: seq<Part>)
    requires Sorted(r) && Ascending(s) && multiset(r) == multiset(s) && r != [] && s != []
    ensures r[0] == s[0]
  {
    assert r[0] in multiset(r) && s[0] in multiset(s);
    assert r[0] in s && s[0] in r;
    var i :| 0 <= i < |s| && s[i] == r[0];
    var j :| 0 <= j < |r| && r[j] == s[0];
  }

  lemma TailCounts(r: seq<Part>)
    requires r != []
    ensures multiset(r[1..]) == multiset(r) - multiset{r[0]}
  {
    assert r == [r[0]] + r[1..];
  }

  lemma TailOrdered(r: seq<Part>, s: seq<Part>)
    requires r != [] && s != []
    ensures Sorted(r) ==> Sorted(r[1..])
    ensures Ascending(s) ==> Ascending(s[1..])
  {
    assert forall i | 0 <= i < |r[1..]| :: r[1..][i] == r[i + 1];
    assert forall i | 0 <= i < |s[1..]| :: s[1..][i] == s[i + 1];
  }

  /** A strictly ascending list is the only sorted arrangement of its parts. */
  lemma {:induction false} SortedIs(r: seq<Part>, s: seq<Part>)
    requires Sorted(r) && Ascending(s) && multiset(r) == multiset(s)
    ensures r == s
  {
    assert |r| == |multiset(r)| && |s| == |multiset(s)|;
    if r != [] {
      SortedHead(r, s);
      TailCounts(r);
      TailCounts(s);
      TailOrdered(r, s);
      hide Sorted, Ascending;
      SortedIs(r[1..], s[1..]);
      assert r == [r[0]] + r[1..] && s == [s[0]] + s[1..];
    }
  }

  lemma {:induction false} RecordReplaces(parts: seq<Part>, p: Part, i: nat)
    requires Ascending(parts) && i < |parts| && parts[i].number == p.number
    ensures Record(parts, p) == parts[i := p]
  {
    if i > 0 {
      assert forall j | 0 <= j < |parts[1..]| :: parts[1..][j] == parts[j + 1];
      RecordReplaces(parts[1..], p, i - 1);
      assert parts[i := p] == [parts[0]] + parts[1..][i - 1 := p];
    } else {
      assert parts[i := p] == [p] + parts[1..];
    }
  }

  lemma {:induction false} RecordInserts(parts: seq<Part>, p: Part)
    requires Ascending(parts) && forall i | 0 <= i < |parts| :: parts[i].number != p.number
    ensures multiset(Record(parts, p)) == multiset(parts + [p])
  {
    if parts != [] && parts[0].number < p.number {
      assert forall j | 0 <= j < |parts[1..]| :: parts[1..][j] == parts[j + 1];
      RecordInserts(parts[1..], p);
      assert parts + [p] == [parts[0]] + (parts[1..] + [p]);
    }
  }

  /** Replaces the part with this number or appends it, then sorts the list. */
  method RecordPart(parts: seq<Part>, p: Part) returns (r: seq<Part>)
    requires Ascending(parts)
    ensures r == Record(parts, p)
  {
    r := parts;
    var replaced := false;
    for i := 0 to |parts|
      invariant r == parts && !replaced
      invariant forall j | 0 <= j < i :: parts[j].number != p.number
    {
      if parts[i].number == p.number {
        r, replaced := parts[i := p], true;
        RecordReplaces(parts, p, i);
        break;
      }
    }
    if !replaced {
      r := parts + [p];
      RecordInserts(parts, p);
    }
    RecordAscending(parts, p);
    r := SortParts(r);
    SortedIs(r, Record(parts, p));
  }

  // ---- completion ----

  /** The uploaded parts by number. */
  method IndexParts(parts: seq<Part>) returns (byNum: map<int, Part>)
    requires Ascending(parts)
    ensures forall n :: (if n in byNum then Some(byNum[n]) else None) == PartOf(parts, n)
  {
    byNum := map[];
    for i := 0 to |parts|
      invariant forall j | 0 <= j < i :: parts[j].number in byNum && byNum[parts[j].number] == parts[j]
      invariant forall n | n in byNum :: exists j | 0 <= j < i :: parts[j].number == n
    {
      byNum := byNum[parts[i].number := parts[i]];
    }
    forall n ensures (if n in byNum then Some(byNum[n]) else None) == PartOf(parts, n) {
      if n in byNum {
        var j :| 0 <= j < |parts| && parts[j].number == n;
        FindIs(parts, j);
      }
    }
  }

  /** Parts already chosen, followed by the rest of a choice. */
  function Prefixed(done: seq<Part>, rest: Choice): Choice {
    if rest.err != NoError then rest else Choice(done + rest.parts, NoError)
  }

  /** Resolves the requested parts in order, refusing at the first bad one. */
  method ChooseParts(uploaded: seq<Part>, wanted: seq<CompletedPart>) returns (r: Choice)
    requires Ascending(uploaded)
    ensures r == Choose(uploaded, wanted, 0)
  {
    var byNum := IndexParts(uploaded);
    var ordered, prev := [], 0;
    for i := 0 to |wanted|
      invariant Choose(uploaded, wanted, 0) == Prefixed(ordered, Choose(uploaded, wanted[i..], prev))
    {
      var w := wanted[i];
      assert wanted[i..][0] == w && wanted[i..][1..] == wanted[i + 1..];
      assert (if w.number in byNum then Some(byNum[w.number]) else None) == PartOf(uploaded, w.number);
      if w.number <= prev {
        return Choice([], InvalidPartOrder);
      }
      prev := w.number;
      if w.number !in byNum || !EtagEqual(byNum[w.number].etag, w.etag) {
        return Choice([], InvalidPart);
      }
      assert ordered + ([byNum[w.number]] + Choose(uploaded, wanted[i + 1..], prev).parts)
          == (ordered + [byNum[w.number]]) + Choose(uploaded, wanted[i + 1..], prev).parts;
      ordered := ordered + [byNum[w.number]];
    }
    r := Choice(ordered, NoError);
  }

  method CheckSizes(parts: seq<Part>) returns (small: bool)
    ensures small == TooSmall(parts)
  {
    for i := 0 to |parts|
      invariant forall j | 0 <= j < i && j < |parts| - 1 :: parts[j].size >= MIN_PART_SIZE
    {
      if i < |parts| - 1 && parts[i].size < MIN_PART_SIZE {
        return true;
      }
    }
    small := false;
  }

  method CheckStaged(staged: map<(string, int), Bytes>, u: string, parts: seq<Part>) returns (all: bool)
    ensures all == AllStaged(staged, u, parts)
  {
    for i := 0 to |parts|
      invariant forall j | 0 <= j < i :: (u, parts[j].number) in staged
    {
      if (u, parts[i].number) !in staged {
        assert parts[i] in parts;
        return false;
      }
    }
    all := true;
  }

  method ChooseAll(up: Upload, wanted: seq<CompletedPart>, staged: map<(string, int), Bytes>, u: string) returns (r: Choice)
    requires Ascending(up.parts)
    ensures r == Chosen(up, wanted, staged, u)
  {
    hide Choose;
    r := ChooseParts(up.parts, wanted);
    if r.err != NoError {
      return;
    }
    if r.parts == [] {
      return Choice([], InvalidPart);
    }
    var small := CheckSizes(r.parts);
    if small {
      return Choice([], EntityTooSmall);
    }
    var all := CheckStaged(staged, u, r.parts);
    if !all {
      return Choice([], BlobMissing);
    }
  }

  lemma {:induction false} AssembleAppend(staged: map<(string, int), Bytes>, u: string, parts: seq<Part>, p: Part)
    requires AllStaged(staged, u, parts + [p])
    ensures AllStaged(staged, u, parts) && (u, p.number) in staged
    ensures Assemble(staged, u, parts + [p]) == Assemble(staged, u, parts) + staged[(u, p.number)]
  {
    assert p in parts + [p] && forall q | q in parts :: q in parts + [p];
    if parts == [] {
      assert parts + [p] == [p] && [p][1..] == [];
    } else {
      assert (parts + [p])[1..] == parts[1..] + [p];
      assert forall q | q in parts[1..] + [p] :: q in parts + [p];
      AssembleAppend(staged, u, parts[1..], p);
    }
  }

  lemma {:induction false} DigestsAppend(etags: seq<string>, e: string)
    ensures RawDigests(etags + [e]) == RawDigests(etags) + RawDigests([e])
  {
    if etags == [] {
      assert etags + [e] == [e];
    } else {
      assert (etags + [e])[0] == etags[0] && (etags + [e])[1..] == etags[1..] + [e];
      DigestsAppend(etags[1..], e);
      hide TrimQuotes;
    }
  }

  /** Writes the parts one after the other, counting the bytes and feeding the digest. */
  method AssembleParts(staged: map<(string, int), Bytes>, u: string, parts: seq<Part>)
      returns (bytes: Bytes, total: nat, etag: string)
    requires AllStaged(staged, u, parts)
    ensures bytes == Assemble(staged, u, parts) && total == |bytes|
    ensures etag == MultipartETag(PartEtags(parts))
  {
    var digest: Bytes := "";
    bytes, total := "", 0;
    assert parts[..0] == [] && PartEtags(parts[..0]) == [];
    for i := 0 to |parts|
      invariant AllStaged(staged, u, parts[..i])
      invariant bytes == Assemble(staged, u, parts[..i]) && total == |bytes|
      invariant digest == RawDigests(PartEtags(parts[..i]))
    {
      var p := parts[i];
      assert parts[..i + 1] == parts[..i] + [p];
      assert AllStaged(staged, u, parts[..i + 1]) by { assert forall q | q in parts[..i + 1] :: q in parts; }
      AssembleAppend(staged, u, parts[..i], p);
      assert PartEtags(parts[..i + 1]) == PartEtags(parts[..i]) + [p.etag];
      DigestsAppend(PartEtags(parts[..i]), p.etag);
      bytes := bytes + staged[(u, p.number)];
      total := total + |staged[(u, p.number)]|;
      var raw := HexDecode(TrimQuotes(p.etag));
      assert [p.etag][1..] == [];
      if raw.Some? {
        digest := digest + raw.value;
      }
    }
    assert parts[..|parts|] == parts;
    etag := "\"" + Md5Hex(digest) + "-" + Dec(|parts|) + "\"";
  }

  /** The gateway's own computation of the same ETag, from the request. */
  method GatewayETag(wanted: seq<CompletedPart>) returns (etag: string)
    ensures etag == MultipartETag(WantedEtags(wanted))
  {
    var digest: Bytes := "";
    assert WantedEtags(wanted[..0]) == [];
    for i := 0 to |wanted|
      invariant digest == RawDigests(WantedEtags(wanted[..i]))
    {
      assert WantedEtags(wanted[..i + 1]) == WantedEtags(wanted[..i]) + [wanted[i].etag];
      DigestsAppend(WantedEtags(wanted[..i]), wanted[i].etag);
      assert [wanted[i].etag][1..] == [];
      var raw := HexDecode(TrimQuotes(wanted[i].etag));
      if raw.Some? {
        digest := digest + raw.value;
      }
    }
    assert wanted[..|wanted|] == wanted;
    etag := "\"" + Md5Hex(digest) + "-" + Dec(|wanted|) + "\"";
  }
}
