/** Multipart uploads: the recorded part list, and what completing an upload checks and computes. */
module Multipart {
  import opened Types
  import opened Decimal

  const MIN_PART_SIZE: nat := 5 * 1024 * 1024

  function TrimQuotes(s: string): string {
    if s != "" && s[0] == '"' then TrimQuotes(s[1..])
    else if s != "" && s[|s| - 1] == '"' then TrimQuotes(s[..|s| - 1])
    else s
  }

  predicate EtagEqual(a: string, b: string) { TrimQuotes(a) == TrimQuotes(b) }

  predicate Ascending(parts: seq<Part>) {
    forall i, j | 0 <= i < j < |parts| :: parts[i].number < parts[j].number
  }

  /** The position of a part number, or the length of the list. */
  function Find(parts: seq<Part>, n: int): (i: nat)
    ensures i <= |parts|
    ensures i < |parts| ==> parts[i].number == n
    ensures forall j | 0 <= j < i :: parts[j].number != n
  {
    if parts == [] then 0
    else if parts[0].number == n then 0
    else
      var i := Find(parts[1..], n);
      assert forall j | 0 < j < |parts| :: parts[j] == parts[1..][j - 1];
      i + 1
  }

  /** Record an uploaded part: it replaces the one with its number, else takes its place in order. */
  function Record(parts: seq<Part>, p: Part): seq<Part> {
    if parts == [] then [p]
    else if parts[0].number == p.number then [p] + parts[1..]
    else if parts[0].number < p.number then [parts[0]] + Record(parts[1..], p)
    else [p] + parts
  }

  // ---- completing ----

  datatype Choice = Choice(parts: seq<Part>, err: Err)

  /** The uploaded parts a completion names, refused at the first bad one. */
  function Choose(uploaded: seq<Part>, wanted: seq<CompletedPart>, prev: int): Choice {
    if wanted == [] then Choice([], NoError)
    else
      var w := wanted[0];
      var i := Find(uploaded, w.number);
      if w.number <= prev then Choice([], InvalidPartOrder)
      else if i == |uploaded| || !EtagEqual(uploaded[i].etag, w.etag) then Choice([], InvalidPart)
      else
        var rest := Choose(uploaded, wanted[1..], w.number);
        if rest.err != NoError then rest else Choice([uploaded[i]] + rest.parts, NoError)
  }

  predicate TooSmall(parts: seq<Part>) { exists i | 0 <= i < |parts| - 1 :: parts[i].size < MIN_PART_SIZE }

  predicate AllStaged(staged: map<(string, int), Bytes>, uploadID: string, parts: seq<Part>) {
    forall p | p in parts :: (uploadID, p.number) in staged
  }

  /** The parts a completion assembles, or why it is refused. */
  function Chosen(up: Upload, wanted: seq<CompletedPart>, staged: map<(string, int), Bytes>, uploadID: string): (r: Choice)
    ensures r.err == NoError ==> r.parts != [] && !TooSmall(r.parts) && AllStaged(staged, uploadID, r.parts)
  {
    var ch := Choose(up.parts, wanted, 0);
    if ch.err != NoError then ch
    else if ch.parts == [] then Choice([], InvalidPart)
    else if TooSmall(ch.parts) then Choice([], EntityTooSmall)
    else if !AllStaged(staged, uploadID, ch.parts) then Choice([], BlobMissing)
    else ch
  }

  function Assemble(staged: map<(string, int), Bytes>, uploadID: string, parts: seq<Part>): Bytes
    requires AllStaged(staged, uploadID, parts)
  {
    if parts == [] then "" else staged[(uploadID, parts[0].number)] + Assemble(staged, uploadID, parts[1..])
  }

  /** The raw digests of the given ETags, one after the other; an undecodable one is skipped. */
  function RawDigests(etags: seq<string>): Bytes {
    if etags == [] then ""
    else (var raw := HexDecode(TrimQuotes(etags[0])); if raw.Some? then raw.value else "") + RawDigests(etags[1..])
  }

  function MultipartETag(etags: seq<string>): string {
    "\"" + Md5Hex(RawDigests(etags)) + "-" + Dec(|etags|) + "\""
  }

  function PartEtags(parts: seq<Part>): seq<string> { seq(|parts|, i requires 0 <= i < |parts| => parts[i].etag) }

  function WantedEtags(wanted: seq<CompletedPart>): seq<string> {
    seq(|wanted|, i requires 0 <= i < |wanted| => wanted[i].etag)
  }
}
