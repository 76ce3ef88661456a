/** How a chunked body ends: which bodies the decoder takes for complete, and what it makes of a body that was
    cut short. */
module Truncation {
  import opened Types
  import opened Characters
  import opened Chunked

  // ---- the three ways to end ----

  /** Nothing but white space is left, and not a whole line of it. */
  predicate Blank(wire: string) { forall c | c in wire :: IsSpace(c) && c != '\n' }

  /** An empty line comes next. */
  predicate BlankLine(wire: string) {
    var n := IndexOf(wire, '\n');
    n < |wire| && forall j | 0 <= j < n :: wire[j] == '\r'
  }

  /** The header of the terminating chunk comes next, signed in its place. */
  predicate Terminated(prev: string, wire: string) {
    var n := IndexOf(wire, '\n');
    n < |wire| && ParseHeader(TrimNewlines(wire[..n + 1])) == Some((0, Signature(prev, "")))
  }

  lemma {:induction false} AllSpaces(s: string)
    ensures TrimSpace(s) == "" <==> forall c | c in s :: IsSpace(c)
  {
    if s != "" {
      if IsSpace(s[0]) {
        AllSpaces(s[1..]);
        assert s == [s[0]] + s[1..];
      } else {
        EndsSolid(s);
        assert s[0] in s;
      }
    }
  }

  lemma {:induction false} EndsSolid(s: string)
    requires s != "" && !IsSpace(s[0])
    ensures TrimEnd(s) != ""
  {
    if IsSpace(s[|s| - 1]) { EndsSolid(s[..|s| - 1]); }
  }

  lemma {:induction false} AllNewlines(s: string)
    ensures TrimNewlines(s) == "" <==> forall j | 0 <= j < |s| :: s[j] == '\r' || s[j] == '\n'
  {
    if s != "" {
      var n := |s| - 1;
      AllNewlines(s[..n]);
      assert forall j | 0 <= j < n :: s[..n][j] == s[j];
    }
  }

  lemma BlankHeader(wire: string, n: nat)
    requires n < |wire| && IndexOf(wire, '\n') == n
    ensures TrimNewlines(wire[..n + 1]) == "" <==> BlankLine(wire)
  {
    hide TrimNewlines, IndexOf;
    var line := wire[..n + 1];
    AllNewlines(line);
    assert forall j | 0 <= j < n :: line[j] == wire[j] && wire[j] != '\n';
    assert line[n] == '\n';
  }

  lemma NoHeader()
    ensures ParseHeader("") == None
  {}

  lemma FinishedExact(prev: string, wire: string, cut: bool)
    ensures NextChunk(prev, wire, cut) == Finished <==> Terminated(prev, wire) || BlankLine(wire) || (!cut && Blank(wire))
  {
    var n := IndexOf(wire, '\n');
    AllSpaces(wire);
    NoHeader();
    if n < |wire| {
      BlankHeader(wire, n);
      assert wire[n] in wire;
      assert wire[n + 1..][..0] == "";
    } else {
      assert forall c | c in wire :: c != '\n';
    }
    hide TrimSpace, TrimNewlines, ParseHeader, Signature, IndexOf;
  }

  /** The signature and the wire where the decoder stops taking chunks. */
  function Remainder(prev: string, wire: string, cut: bool): (string, string)
    decreases |wire|
  {
    match NextChunk(prev, wire, cut)
    case Data(_, sig, rest) => Remainder(sig, rest, cut)
    case _ => (prev, wire)
  }

  /** EXACT, on every input: a body counts as complete if and only if, where the signed chunks stop, there is the
      terminating chunk, an empty line, or nothing but white space up to an orderly end of the stream. */
  lemma {:induction false} EndsExactly(prev: string, wire: string, cut: bool)
    ensures var (last, tail) := Remainder(prev, wire, cut);
      Decode(prev, wire, cut).complete <==> Terminated(last, tail) || BlankLine(tail) || (!cut && Blank(tail))
    decreases |wire|
  {
    var c := NextChunk(prev, wire, cut);
    hide NextChunk, Terminated, BlankLine, Blank;
    if c.Data? {
      EndsExactly(c.sig, c.rest, cut);
    } else {
      FinishedExact(prev, wire, cut);
    }
  }

  // ---- bodies that end without a terminating chunk ----

  /** UNSEEN: signed chunks alone, without the terminating chunk, read as a complete body; only a connection that
      fails there is noticed. */
  lemma FramesAlone(prev: string, chunks: seq<Bytes>, cut: bool)
    requires Sendable(chunks)
    ensures Decode(prev, Frames(prev, chunks), cut) == Decoded(Concat(chunks), !cut)
  {
    hide Signature, Frames;
    DecodeFrames(prev, chunks, "", cut);
    assert Frames(prev, chunks) + "" == Frames(prev, chunks) && Concat(chunks) + "" == Concat(chunks);
    assert IndexOf("", '\n') == 0 && TrimSpace("") == "";
    assert Decode(After(prev, chunks), "", cut) == Decoded("", !cut);
  }

  /** UNSEEN: an empty line after any signed chunks ends the body, whatever follows and however the stream ends. */
  lemma BlankLineEnds(prev: string, chunks: seq<Bytes>, more: string, cut: bool)
    requires Sendable(chunks)
    ensures Decode(prev, Frames(prev, chunks) + ("\r\n" + more), cut) == Decoded(Concat(chunks), true)
  {
    var tail := "\r\n" + more;
    assert tail == "\r" + ['\n'] + more;
    FirstAt("\r", '\n', more);
    assert BlankLine(tail);
    FinishedExact(After(prev, chunks), tail, cut);
    hide Frames, NextChunk, IndexOf;
    DecodeFrames(prev, chunks, tail, cut);
    assert Concat(chunks) + "" == Concat(chunks);
  }

  // ---- a frame cut short ----

  /** Part of a header line is no header. */
  lemma HeaderCut(prev: string, size: nat, sig: string, wire: string, cut: bool)
    requires Solid(sig) && wire != "" && wire <= Header(size, sig) + "\r"
    ensures NextChunk(prev, wire, cut) == Broken
  {
    var line := Header(size, sig) + "\r";
    HexSolid(Hex(size));
    assert '\n' !in line;
    assert forall c | c in wire :: c in line;
    assert wire[0] == Hex(size)[0] && Hex(size)[0] in Hex(size);
    AllSpaces(wire);
    assert wire[0] in wire;
    hide Header, TrimSpace, ParseHeader, Signature;
  }

  /** A whole header with part of its chunk. */
  lemma BodyCut(prev: string, size: nat, sig: string, body: string, cut: bool)
    requires 0 < size <= MAX_SIZE && Solid(sig) && sig != "" && |body| < size + 2
    ensures NextChunk(prev, Header(size, sig) + "\r\n" + body, cut) == Broken
  {
    if size <= |body| {
      hide NextChunk, Header, Signature;
      TakeChunk(prev, size, sig, body, cut);
    } else {
      var wire, n := Header(size, sig) + "\r\n" + body, |Header(size, sig)| + 1;
      LineBack(size, sig, body);
      HeaderBack(size, sig);
      hide ParseHeader, TrimNewlines, Header, Signature, IndexOf, TrimSpace;
      assert wire[..n + 1] == wire[..|Header(size, sig)| + 2];
    }
  }

  lemma FrameCut(prev: string, data: Bytes, n: nat, cut: bool)
    requires data != "" && |data| <= MAX_SIZE && 0 < n < |Frame(prev, data)|
    ensures NextChunk(prev, Frame(prev, data)[..n], cut) == Broken
  {
    var sig := Signature(prev, data);
    HexSolid(sig);
    var h, wire := Header(|data|, sig), Frame(prev, data)[..n];
    hide NextChunk, Signature, Header;
    if n <= |h| + 1 {
      assert wire == (h + "\r")[..n];
      HeaderCut(prev, |data|, sig, wire, cut);
    } else {
      var body := (data + "\r\n")[..n - |h| - 2];
      assert wire == h + "\r\n" + body;
      BodyCut(prev, |data|, sig, body, cut);
    }
  }

  // ---- the whole body cut short ----

  lemma {:induction false} FramesSplit(prev: string, a: seq<Bytes>, b: seq<Bytes>)
    ensures Frames(prev, a + b) == Frames(prev, a) + Frames(After(prev, a), b) && After(prev, a + b) == After(After(prev, a), b)
    decreases |a|
  {
    hide Signature, Frame;
    if a == [] {
      assert a + b == b;
    } else {
      assert (a + b)[1..] == a[1..] + b;
      FramesSplit(Signature(prev, a[0]), a[1..], b);
    }
  }

  /** The length of the first `i` chunks on the wire. */
  function Extent(seed: string, chunks: seq<Bytes>, i: nat): nat
    requires i <= |chunks|
  {
    |Frames(seed, chunks[..i])|
  }

  lemma ExtentsGrow(seed: string, chunks: seq<Bytes>, i: nat, j: nat)
    requires i < j <= |chunks|
    ensures Extent(seed, chunks, i) < Extent(seed, chunks, j)
  {
    hide Signature, Frames;
    assert chunks[..j] == chunks[..i] + chunks[i..j];
    FramesSplit(seed, chunks[..i], chunks[i..j]);
    FramesLong(After(seed, chunks[..i]), chunks[i..j]);
  }

  lemma FramesLong(prev: string, chunks: seq<Bytes>)
    requires chunks != []
    ensures Frames(prev, chunks) != ""
  {
    hide Signature;
  }

  /** How many chunks lie wholly before place `n`. */
  lemma {:induction false} Whole(seed: string, chunks: seq<Bytes>, n: nat, top: nat) returns (i: nat)
    requires top <= |chunks| && (top < |chunks| ==> n < Extent(seed, chunks, top + 1))
    ensures i <= top && Extent(seed, chunks, i) <= n && (i < |chunks| ==> n < Extent(seed, chunks, i + 1))
    decreases top
  {
    hide Signature, Frame;
    assert chunks[..0] == [];
    if Extent(seed, chunks, top) <= n {
      i := top;
    } else {
      i := Whole(seed, chunks, n, top - 1);
    }
  }

  /** The end chunk, as `Encode` writes it. */
  function EndHeader(seed: string, chunks: seq<Bytes>): string { Header(0, Signature(After(seed, chunks), "")) + "\r\n" }

  lemma EncodeIs(seed: string, chunks: seq<Bytes>, trailer: string)
    ensures Encode(seed, chunks, trailer) == Frames(seed, chunks) + EndHeader(seed, chunks) + trailer
    ensures |Encode(seed, chunks, "")| == |Frames(seed, chunks)| + |EndHeader(seed, chunks)|
  {
    hide Frames, Header, Signature;
  }

  /** Cut inside the wire of chunk `i`, or just before it. */
  lemma CutInside(seed: string, chunks: seq<Bytes>, trailer: string, i: nat, n: nat, cut: bool)
    requires Sendable(chunks) && i < |chunks| && Extent(seed, chunks, i) <= n < Extent(seed, chunks, i + 1)
    ensures n <= |Encode(seed, chunks, trailer)|
    ensures Decode(seed, Encode(seed, chunks, trailer)[..n], cut)
         == Decoded(Concat(chunks[..i]), !cut && n == Extent(seed, chunks, i))
  {
    hide Signature, Frames, Frame, NextChunk, EndHeader, Concat, After;
    var a, b, x := chunks[..i], chunks[i + 1..], chunks[i];
    var last := After(seed, a);
    var frames, frame, wire := Frames(seed, a), Frame(last, x), Encode(seed, chunks, trailer);
    InTheMiddle(seed, chunks, trailer, i);
    var tail := frame[..n - |frames|];
    assert wire[..n] == frames + tail;
    assert Sendable(a);
    if tail == "" {
      FramesAlone(seed, a, cut);
      assert frames + tail == frames;
    } else {
      FrameCut(last, x, |tail|, cut);
      DecodeFrames(seed, a, tail, cut);
      assert Concat(a) + "" == Concat(a);
    }
  }

  lemma InTheMiddle(seed: string, chunks: seq<Bytes>, trailer: string, i: nat)
    requires i < |chunks|
    ensures var frames, frame := Frames(seed, chunks[..i]), Frame(After(seed, chunks[..i]), chunks[i]);
      frames + frame <= Encode(seed, chunks, trailer) && Extent(seed, chunks, i + 1) == |frames + frame|
  {
    hide Signature, Frame, EndHeader;
    var a, b, x := chunks[..i], chunks[i + 1..], [chunks[i]];
    FramesSplit(seed, a, x);
    FramesSplit(seed, a + x, b);
    assert chunks[..i + 1] == a + x && chunks == a + x + b;
    LoneFrame(After(seed, a), chunks[i]);
    hide Frames, After;
    EncodeIs(seed, chunks, trailer);
  }

  lemma LoneFrame(prev: string, x: Bytes)
    ensures Frames(prev, [x]) == Frame(prev, x)
  {
    hide Signature, Frame;
    assert Frames(Signature(prev, x), [x][1..]) == "";
  }

  /** Cut after the last chunk. */
  lemma CutAfter(seed: string, chunks: seq<Bytes>, trailer: string, n: nat, cut: bool)
    requires Sendable(chunks) && |Frames(seed, chunks)| <= n <= |Encode(seed, chunks, trailer)|
    ensures Decode(seed, Encode(seed, chunks, trailer)[..n], cut)
         == Decoded(Concat(chunks), n >= |Encode(seed, chunks, "")| || (!cut && n == |Frames(seed, chunks)|))
  {
    EncodeIs(seed, chunks, trailer);
    hide Signature, Frames, NextChunk, Header, Encode, Concat, After;
    var frames, end, wire := Frames(seed, chunks), EndHeader(seed, chunks), Encode(seed, chunks, trailer);
    if n >= |frames| + |end| {
      var part := trailer[..n - |frames| - |end|];
      assert wire[..n] == frames + end + part;
      EncodeIs(seed, chunks, part);
      DecodeEncode(seed, chunks, part, cut);
    } else {
      var last, tail := After(seed, chunks), end[..n - |frames|];
      assert wire[..n] == frames + tail;
      if tail == "" {
        FramesAlone(seed, chunks, cut);
        assert frames + tail == frames;
      } else {
        HexSolid(Signature(last, ""));
        assert tail == (Header(0, Signature(last, "")) + "\r")[..|tail|];
        HeaderCut(last, 0, Signature(last, ""), tail, cut);
        DecodeFrames(seed, chunks, tail, cut);
        assert Concat(chunks) + "" == Concat(chunks);
      }
    }
  }

  /** The place is the end of some chunk, or the start of the body. */
  predicate Boundary(seed: string, chunks: seq<Bytes>, n: nat) {
    exists i | 0 <= i <= |chunks| :: n == Extent(seed, chunks, i)
  }

  lemma BoundaryIs(seed: string, chunks: seq<Bytes>, n: nat, i: nat)
    requires i <= |chunks| && Extent(seed, chunks, i) <= n && (i < |chunks| ==> n < Extent(seed, chunks, i + 1))
    ensures forall j | 0 <= j <= |chunks| && n == Extent(seed, chunks, j) :: j == i
  {
    hide Extent;
    forall j | 0 <= j <= |chunks| && n == Extent(seed, chunks, j) ensures j == i {
      if j < i { ExtentsGrow(seed, chunks, j, i); }
      if i + 1 < j { ExtentsGrow(seed, chunks, i + 1, j); }
    }
  }

  lemma WholeExtent(seed: string, chunks: seq<Bytes>)
    ensures Extent(seed, chunks, |chunks|) == |Frames(seed, chunks)|
  {
    assert chunks[..|chunks|] == chunks;
  }

  /** The same, whichever chunk it is cut in. */
  lemma CutAt(seed: string, chunks: seq<Bytes>, trailer: string, n: nat, cut: bool) returns (i: nat)
    requires Sendable(chunks) && n <= |Encode(seed, chunks, trailer)|
    ensures i <= |chunks| && (n >= |Encode(seed, chunks, "")| ==> i == |chunks|)
    ensures Boundary(seed, chunks, n) <==> n == Extent(seed, chunks, i)
    ensures forall j | 0 <= j <= |chunks| && n == Extent(seed, chunks, j) :: j == i
    ensures Decode(seed, Encode(seed, chunks, trailer)[..n], cut)
         == Decoded(Concat(chunks[..i]), n >= |Encode(seed, chunks, "")| || (!cut && Boundary(seed, chunks, n)))
  {
    i := Whole(seed, chunks, n, |chunks|);
    hide Extent, Decode, Encode, Concat;
    BoundaryIs(seed, chunks, n, i);
    WholeExtent(seed, chunks);
    EncodeIs(seed, chunks, "");
    if i < |chunks| {
      CutInside(seed, chunks, trailer, i, n, cut);
      if i + 1 < |chunks| { ExtentsGrow(seed, chunks, i + 1, |chunks|); }
    } else {
      CutAfter(seed, chunks, trailer, n, cut);
      assert chunks[..i] == chunks;
    }
  }

  /** MAIN THEOREM: of the first `n` bytes of a signed body the decoder says that they are complete if and only if
      they reach past the terminating chunk, or the stream ends in order at the boundary of a chunk. */
  lemma TruncatedExact(seed: string, chunks: seq<Bytes>, trailer: string, n: nat, cut: bool)
    requires Sendable(chunks) && n <= |Encode(seed, chunks, trailer)|
    ensures Decode(seed, Encode(seed, chunks, trailer)[..n], cut).complete <==>
      n >= |Encode(seed, chunks, "")| || (!cut && Boundary(seed, chunks, n))
  {
    var i := CutAt(seed, chunks, trailer, n, cut);
  }

  /** LOSS, EXACTLY: a body cut short reads as complete with less data than was sent if and only if the stream ends
      in order at the start of one of its chunks; the chunks before it are then all that is delivered. */
  lemma LossExact(seed: string, chunks: seq<Bytes>, trailer: string, n: nat, cut: bool)
    requires Sendable(chunks) && n <= |Encode(seed, chunks, trailer)|
    ensures var r := Decode(seed, Encode(seed, chunks, trailer)[..n], cut);
      r.complete && r.data != Concat(chunks) <==> !cut && exists i | 0 <= i < |chunks| :: n == Extent(seed, chunks, i)
    ensures forall i | 0 <= i < |chunks| && n == Extent(seed, chunks, i) ::
      Decode(seed, Encode(seed, chunks, trailer)[..n], cut).data == Concat(chunks[..i])
  {
    var i := CutAt(seed, chunks, trailer, n, cut);
    hide Extent, Decode, Encode, Boundary;
    if i < |chunks| {
      ConcatShort(chunks, i);
    } else {
      assert chunks[..i] == chunks;
    }
  }

  /** Two chunks were sent, the second is lost, and nothing tells. */
  lemma ChunkLost(seed: string, chunks: seq<Bytes>, n: nat)
    requires chunks == ["a", "b"] && n == |Frame(seed, "a")|
    ensures n < |Encode(seed, chunks, "")|
    ensures Decode(seed, Encode(seed, chunks, "")[..n], false) == Decoded("a", true)
    ensures Decode(seed, Encode(seed, chunks, ""), false) == Decoded("ab", true)
  {
    hide Decode, Encode, Frame, Signature;
    assert chunks[..1] == ["a"] && chunks[1..] == ["b"] && chunks[1..][1..] == [];
    LoneFrame(seed, "a");
    hide Frames;
    ExtentsGrow(seed, chunks, 1, 2);
    CutInside(seed, chunks, "", 1, n, false);
    InTheMiddle(seed, chunks, "", 1);
    DecodeEncode(seed, chunks, "", false);
  }

  lemma {:induction false} ConcatShort(chunks: seq<Bytes>, i: nat)
    requires Sendable(chunks) && i < |chunks|
    ensures |Concat(chunks[..i])| < |Concat(chunks)|
  {
    assert chunks[0] in chunks;
    if i > 0 {
      assert chunks[..i][1..] == chunks[1..][..i - 1];
      ConcatShort(chunks[1..], i - 1);
    }
  }
}
