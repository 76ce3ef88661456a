/** A byte range from the client's header over the gateway and the node to the bytes read. */
module Ranges {
  import opened Types
  import opened Decimal
  import Chunked

  /** `end < 0` means to the end of the object, `start < 0` the last `-start` bytes. */
  datatype ByteRange = ByteRange(start: int, end: int)

  /** 64-bit wrap-around. */
  function Wrap(n: int): (r: int)
    ensures MIN_INT <= r <= MAX_INT
    ensures MIN_INT <= n <= MAX_INT ==> r == n
  {
    (n - MIN_INT) % 0x1_0000_0000_0000_0000 + MIN_INT
  }

  const UNIT := "bytes="

  /** The two texts around the dash of a single range. */
  function Bounds(h: string): Option<(string, string)> {
    if !(UNIT <= h) then None
    else
      var spec := h[|UNIT|..];
      var dash := Chunked.IndexOf(spec, '-');
      if ',' in spec || dash == |spec| then None else Some((spec[..dash], spec[dash + 1..]))
  }

  /** The gateway's reading of a header: an end that is not a number counts as no end. */
  function GatewayRange(h: string): (r: Option<ByteRange>)
    ensures r.Some? ==> MIN_INT <= r.value.start <= MAX_INT && MIN_INT <= r.value.end <= MAX_INT
  {
    match Bounds(h)
    case None => None
    case Some((startText, endText)) =>
      if startText == "" then
        match ParseInt(endText) case None => None case Some(n) => Some(ByteRange(Wrap(-n), -1))
      else
        match ParseInt(startText)
        case None => None
        case Some(start) => match ParseInt(endText) case None => Some(ByteRange(start, -1)) case Some(e) => Some(ByteRange(start, e))
  }

  /** The node's reading of a header: an end that is not a number spoils the range. */
  function NodeRange(h: string): Option<ByteRange> {
    match Bounds(h)
    case None => None
    case Some((startText, endText)) =>
      if startText == "" then
        match ParseInt(endText) case None => None case Some(n) => Some(ByteRange(Wrap(-n), -1))
      else
        match ParseInt(startText)
        case None => None
        case Some(start) =>
          if endText == "" then Some(ByteRange(start, -1))
          else match ParseInt(endText) case None => None case Some(e) => Some(ByteRange(start, e))
  }

  /** The header the gateway sends on to the node. */
  function Forwarded(r: ByteRange): string {
    if r.start < 0 then UNIT + "-" + FormatInt(Wrap(-r.start))
    else if r.end >= 0 then UNIT + FormatInt(r.start) + "-" + FormatInt(r.end)
    else UNIT + FormatInt(r.start) + "-"
  }

  datatype Reply = Whole | Slice(start: int, end: int) | Unsatisfiable

  /** What a range selects of an object of this size. */
  function Resolved(r: Option<ByteRange>, size: nat): Reply {
    match r
    case None => Whole
    case Some(ByteRange(start, end)) =>
      var n := Wrap(-start);
      var s := if start < 0 then Wrap(size - (if n > size then size else n)) else start;
      var e := if start < 0 || end < 0 || end >= size then size - 1 else end;
      if s < 0 || s >= size || s > e then Unsatisfiable else Slice(s, e)
  }

  /** The answer to a client: the header parsed, forwarded, parsed again and resolved. */
  function Answered(h: string, size: nat): Reply {
    match GatewayRange(h)
    case None => Whole
    case Some(r) => Resolved(NodeRange(Forwarded(r)), size)
  }

  // ---- the second hop loses nothing ----

  lemma BoundsBack(a: string, b: string)
    requires '-' !in a && ',' !in a && ',' !in b
    ensures Bounds(UNIT + a + "-" + b) == Some((a, b))
  {
    var h := UNIT + a + "-" + b;
    var spec := a + ['-'] + b;
    assert h == UNIT + spec && h[|UNIT|..] == spec;
    Chunked.FirstAt(a, '-', b);
    hide Chunked.IndexOf;
    assert spec[..|a|] == a && spec[|a| + 1..] == b;
  }

  lemma FormatPlain(n: int)
    ensures ',' !in FormatInt(n) && (n >= 0 ==> '-' !in FormatInt(n) && FormatInt(n) != "")
  {
    var d := Dec(if n < 0 then -n else n);
    assert forall c | c in d :: IsDigit(c);
  }

  /** The node reads back the range the gateway sent, a missing end written as -1. */
  lemma ForwardedBack(r: ByteRange)
    requires MIN_INT <= r.start <= MAX_INT && MIN_INT <= r.end <= MAX_INT
    ensures NodeRange(Forwarded(r)) == Some(if r.start < 0 || r.end < 0 then r.(end := -1) else r)
  {
    hide Bounds, ParseInt, FormatInt;
    if r.start < 0 {
      var n := Wrap(-r.start);
      FormatPlain(n);
      FormatBack(n);
      assert UNIT + "-" + FormatInt(n) == UNIT + "" + "-" + FormatInt(n);
      BoundsBack("", FormatInt(n));
    } else {
      FormatPlain(r.start);
      FormatBack(r.start);
      if r.end >= 0 {
        FormatPlain(r.end);
        FormatBack(r.end);
        BoundsBack(FormatInt(r.start), FormatInt(r.end));
      } else {
        BoundsBack(FormatInt(r.start), "");
        assert UNIT + FormatInt(r.start) + "-" == UNIT + FormatInt(r.start) + "-" + "";
      }
    }
  }

  /** PIPELINE: for every header and every size, going over the node changes nothing. */
  lemma HopsAgree(h: string, size: nat)
    requires size <= MAX_INT
    ensures Answered(h, size) == Resolved(GatewayRange(h), size)
  {
    hide NodeRange, Forwarded;
    var r := GatewayRange(h);
    if r.Some? { ForwardedBack(r.value); }
  }

  /** IN BOUNDS: every answer is the whole object, an error, or a non-empty piece inside the object. */
  lemma InBounds(h: string, size: nat)
    requires size <= MAX_INT
    ensures var a := Answered(h, size); a.Slice? ==> 0 <= a.start <= a.end < size
  {
    HopsAgree(h, size);
  }

  // ---- what a range means ----

  /** Bytes a to b, cut off at the end of the object, or an error when none of them exists. */
  lemma ClosedRange(a: nat, b: nat, size: nat)
    requires a <= MAX_INT && b <= MAX_INT && size <= MAX_INT
    ensures Answered(UNIT + Dec(a) + "-" + Dec(b), size) ==
      if a < size && a <= b then Slice(a, if b < size then b else size - 1) else Unsatisfiable
  {
    FormatPlain(a);
    FormatPlain(b);
    FormatBack(a);
    FormatBack(b);
    BoundsBack(Dec(a), Dec(b));
    HopsAgree(UNIT + Dec(a) + "-" + Dec(b), size);
  }

  lemma OpenRange(a: nat, size: nat)
    requires a <= MAX_INT && size <= MAX_INT
    ensures Answered(UNIT + Dec(a) + "-", size) == if a < size then Slice(a, size - 1) else Unsatisfiable
  {
    FormatPlain(a);
    FormatBack(a);
    BoundsBack(Dec(a), "");
    assert UNIT + Dec(a) + "-" == UNIT + Dec(a) + "-" + "";
    HopsAgree(UNIT + Dec(a) + "-", size);
  }

  /** The last n bytes: all of them when the object is shorter, an error when it is empty; a suffix of
      no bytes reads the whole object. */
  lemma SuffixRange(n: nat, size: nat)
    requires n <= MAX_INT && size <= MAX_INT
    ensures Answered(UNIT + "-" + Dec(n), size) ==
      if size == 0 then Unsatisfiable
      else if n == 0 || n >= size then Slice(0, size - 1)
      else Slice(size - n, size - 1)
  {
    hide GatewayRange, Answered, Dec;
    SuffixRead(n);
    HopsAgree(UNIT + "-" + Dec(n), size);
  }

  lemma SuffixRead(n: nat)
    requires n <= MAX_INT
    ensures GatewayRange(UNIT + "-" + Dec(n)) == Some(ByteRange(0 - n, -1))
  {
    FormatPlain(n);
    FormatBack(n);
    assert UNIT + "-" + Dec(n) == UNIT + "" + "-" + Dec(n);
    BoundsBack("", Dec(n));
    hide Bounds, ParseInt;
  }

  /** A suffix range selects that many bytes of the object, or all there are, exactly when the suffix
      is not empty. */
  lemma SuffixLength(n: nat, size: nat)
    requires n <= MAX_INT && 0 < size <= MAX_INT
    ensures var a := Answered(UNIT + "-" + Dec(n), size);
      a.Slice? && (a.end - a.start + 1 == (if n < size then n else size) <==> n > 0)
  {
    SuffixRange(n, size);
  }

  /** The bytes a client gets for a header. */
  function Fetched(bytes: Bytes, h: string): Bytes {
    match Answered(h, |bytes|)
    case Whole => bytes
    case Slice(s, e) => if 0 <= s <= e < |bytes| then bytes[s..e + 1] else ""
    case Unsatisfiable => ""
  }

  lemma FetchedClosed(bytes: Bytes, a: nat, b: nat)
    requires |bytes| <= MAX_INT && a <= b < |bytes|
    ensures Fetched(bytes, UNIT + Dec(a) + "-" + Dec(b)) == bytes[a..b + 1]
  {
    hide Answered;
    ClosedRange(a, b, |bytes|);
  }

  /** Two ranges that meet give the same bytes as one read over both. */
  lemma Adjoining(bytes: Bytes, a: nat, b: nat, c: nat)
    requires |bytes| <= MAX_INT && a <= b < c < |bytes|
    ensures Fetched(bytes, UNIT + Dec(a) + "-" + Dec(b)) + Fetched(bytes, UNIT + Dec(b + 1) + "-" + Dec(c))
         == Fetched(bytes, UNIT + Dec(a) + "-" + Dec(c))
  {
    hide Fetched, Dec;
    FetchedClosed(bytes, a, b);
    FetchedClosed(bytes, b + 1, c);
    FetchedClosed(bytes, a, c);
    assert bytes[a..b + 1] + bytes[b + 1..c + 1] == bytes[a..c + 1];
  }
}
