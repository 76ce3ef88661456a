/** The aws-chunked body decoder with its chain of chunk signatures. */
module Chunked {
  import opened Types
  import opened Characters

  // ---- hexadecimal ----

  predicate IsHex(c: char) { '0' <= c <= '9' || 'a' <= c <= 'f' || 'A' <= c <= 'F' }

  function HexDigitValue(c: char): (n: nat)
    requires IsHex(c)
    ensures n < 16
  {
    if '0' <= c <= '9' then (c - '0') as nat
    else if 'a' <= c <= 'f' then (c - 'a') as nat + 10
    else (c - 'A') as nat + 10
  }

  function HexDigit(n: nat): (c: char)
    requires n < 16
    ensures IsHex(c) && HexDigitValue(c) == n
  {
    if n < 10 then '0' + n as char else 'a' + (n - 10) as char
  }

  predicate AllHex(s: string) { forall c | c in s :: IsHex(c) }

  function HexValue(s: string): nat
    requires AllHex(s)
  {
    if s == "" then 0 else 16 * HexValue(s[..|s| - 1]) + HexDigitValue(s[|s| - 1])
  }

  function Hex(n: nat): (s: string)
    ensures s != "" && AllHex(s) && HexValue(s) == n
  {
    if n < 16 then
      var s := [HexDigit(n)];
      assert s[..0] == "";
      s
    else
      var s := Hex(n / 16) + [HexDigit(n % 16)];
      assert s[..|s| - 1] == Hex(n / 16);
      s
  }

  lemma DigitCase(c: char)
    requires IsHex(c)
    ensures IsHex(Upper(c)) && HexDigitValue(Upper(c)) == HexDigitValue(c)
  {
    assert 'a' <= c <= 'f' ==> Upper(c) as int == c as int - 32;
  }

  /** Upper and lower case digits count the same. */
  lemma {:induction false} HexCase(s: string)
    requires AllHex(s)
    ensures AllHex(ToUpper(s)) && HexValue(ToUpper(s)) == HexValue(s)
  {
    var t := ToUpper(s);
    forall i | 0 <= i < |s| ensures IsHex(t[i]) && HexDigitValue(t[i]) == HexDigitValue(s[i]) {
      assert s[i] in s;
      DigitCase(s[i]);
    }
    hide HexDigitValue, IsHex, Upper;
    if s != "" {
      var n := |s| - 1;
      HexCase(s[..n]);
      assert t[..n] == ToUpper(s[..n]);
    }
  }

  const MAX_SIZE := 0x7fff_ffff_ffff_ffff

  /** A signed 64-bit hexadecimal number. */
  function ParseHex(s: string): Option<int> {
    var signed := s != "" && (s[0] == '-' || s[0] == '+');
    var digits := if signed then s[1..] else s;
    if digits == "" || !AllHex(digits) then None
    else
      var n: int := HexValue(digits);
      if s[0] == '-' then (if n <= MAX_SIZE + 1 then Some(-n) else None)
      else if n <= MAX_SIZE then Some(n) else None
  }

  // ---- text ----

  /** The first place of a character, or the length. */
  function IndexOf(s: string, c: char): (i: nat)
    ensures i <= |s| && (i < |s| ==> s[i] == c) && forall j | 0 <= j < i :: s[j] != c
  {
    if s == "" || s[0] == c then 0
    else
      var i := IndexOf(s[1..], c);
      assert forall j | 0 < j < 1 + i :: s[j] == s[1..][j - 1];
      1 + i
  }

  function TrimNewlines(s: string): string {
    if s != "" && (s[|s| - 1] == '\r' || s[|s| - 1] == '\n') then TrimNewlines(s[..|s| - 1]) else s
  }

  function Split(s: string): (r: seq<string>)
    ensures r != []
  {
    var i := IndexOf(s, ';');
    if i == |s| then [s] else [s[..i]] + Split(s[i + 1..])
  }

  const SIGNATURE := "chunk-signature="

  /** The last signature among the extensions of a chunk header. */
  function LastSignature(exts: seq<string>): string {
    if exts == [] then ""
    else
      var kv := TrimSpace(exts[|exts| - 1]);
      if SIGNATURE <= kv then kv[|SIGNATURE|..] else LastSignature(exts[..|exts| - 1])
  }

  /** The size and the signature a chunk header announces. */
  function ParseHeader(header: string): Option<(nat, string)> {
    var semi := IndexOf(header, ';');
    var sig := if semi < |header| then LastSignature(Split(header[semi + 1..])) else "";
    match ParseHex(TrimSpace(header[..semi]))
    case None => None
    case Some(n) => if n < 0 || sig == "" then None else Some((n, sig))
  }

  // ---- the chain ----

  /** The i-th hexadecimal digit of the keyed hash of a chunk and the signature before it. */
  const MacDigit: (string, Bytes, nat) -> nat

  function SignatureDigit(prev: string, data: Bytes, i: nat): (c: char)
    ensures IsHex(c)
  {
    HexDigit(MacDigit(prev, data, i) % 16)
  }

  function Signature(prev: string, data: Bytes): (sig: string)
    ensures |sig| == 64 && AllHex(sig)
  {
    seq(64, i requires 0 <= i < 64 => SignatureDigit(prev, data, i))
  }

  datatype Chunk = Data(data: Bytes, sig: string, rest: string) | Finished | Broken

  /** The chunk at the start of the wire, checked against the signature before it. `cut` says that the
      connection fails where the bytes end. */
  function NextChunk(prev: string, wire: string, cut: bool): (r: Chunk)
    ensures r.Data? ==> |r.rest| < |wire| && r.data != "" && r.sig == Signature(prev, r.data)
  {
    var n := IndexOf(wire, '\n');
    if n == |wire| then (if !cut && TrimSpace(wire) == "" then Finished else Broken)
    else
      var header, body := TrimNewlines(wire[..n + 1]), wire[n + 1..];
      if header == "" then Finished
      else
        match ParseHeader(header)
        case None => Broken
        case Some((size, sig)) =>
          if |body| < size || sig != Signature(prev, body[..size]) then Broken
          else if size == 0 then Finished
          else if |body| < size + 2 || body[size] != '\r' || body[size + 1] != '\n' then Broken
          else Data(body[..size], sig, body[size + 2..])
  }

  /** All that a body delivers, and whether it then ends rather than fails. */
  datatype Decoded = Decoded(data: Bytes, complete: bool)

  function Decode(prev: string, wire: string, cut: bool): Decoded
    decreases |wire|
  {
    match NextChunk(prev, wire, cut)
    case Data(d, sig, rest) => Decode(sig, rest, cut).(data := d + Decode(sig, rest, cut).data)
    case Finished => Decoded("", true)
    case Broken => Decoded("", false)
  }

  // ---- soundness ----

  function Concat(chunks: seq<Bytes>): Bytes {
    if chunks == [] then "" else chunks[0] + Concat(chunks[1..])
  }

  /** The signature after a chain of chunks. */
  function After(prev: string, chunks: seq<Bytes>): string
    decreases |chunks|
  {
    if chunks == [] then prev else After(Signature(prev, chunks[0]), chunks[1..])
  }

  function Header(size: nat, sig: string): string { Hex(size) + ";" + SIGNATURE + sig }

  /** A chunk on the wire, signed in its place in the chain. */
  function Frame(prev: string, data: Bytes): string {
    Header(|data|, Signature(prev, data)) + "\r\n" + data + "\r\n"
  }

  function Frames(prev: string, chunks: seq<Bytes>): string
    decreases |chunks|
  {
    if chunks == [] then "" else Frame(prev, chunks[0]) + Frames(Signature(prev, chunks[0]), chunks[1..])
  }

  /** Chunks that can be announced: not empty, and of a size a header can state. */
  predicate Sendable(chunks: seq<Bytes>) { forall c | c in chunks :: c != "" && |c| <= MAX_SIZE }

  /** The chunks accepted from a wire. */
  function Accepted(prev: string, wire: string, cut: bool): seq<(string, Bytes)>
    decreases |wire|
  {
    match NextChunk(prev, wire, cut)
    case Data(d, sig, rest) => [(sig, d)] + Accepted(sig, rest, cut)
    case _ => []
  }

  function Payloads(chunks: seq<(string, Bytes)>): seq<Bytes> { seq(|chunks|, i requires 0 <= i < |chunks| => chunks[i].1) }

  /** SOUND on every input: what is delivered is the concatenation of chunks whose signatures form the
      chain that starts at the seed. */
  lemma {:induction false} DeliversSigned(prev: string, wire: string, cut: bool)
    ensures var chunks := Accepted(prev, wire, cut);
      && Decode(prev, wire, cut).data == Concat(Payloads(chunks))
      && (forall i | 0 <= i < |chunks| ::
           chunks[i].0 == Signature(if i == 0 then prev else chunks[i - 1].0, chunks[i].1) && chunks[i].1 != "")
    decreases |wire|
  {
    hide NextChunk, Signature;
    var c := NextChunk(prev, wire, cut);
    if c.Data? {
      DeliversSigned(c.sig, c.rest, cut);
      var rest := Accepted(c.sig, c.rest, cut);
      assert Payloads([(c.sig, c.data)] + rest)[1..] == Payloads(rest);
    }
  }

  // ---- decoding what was encoded ----

  lemma {:induction false} FirstAt(s: string, c: char, more: string)
    requires c !in s
    ensures IndexOf(s + [c] + more, c) == |s|
  {
    var all := s + [c] + more;
    assert forall j | 0 <= j < |s| :: all[j] == s[j];
    assert all[|s|] == c;
  }

  /** Text without spaces, as sizes and signatures are. */
  predicate Solid(s: string) { forall c | c in s :: !IsSpace(c) && c != ';' && c != '\r' && c != '\n' }

  lemma HexSolid(s: string)
    requires AllHex(s)
    ensures Solid(s)
  {
    forall c | c in s ensures !IsSpace(c) && c != ';' && c != '\r' && c != '\n' { assert IsHex(c); }
  }

  lemma SolidTrim(s: string)
    requires Solid(s)
    ensures TrimSpace(s) == s
  {
    if s != "" { assert s[0] in s && s[|s| - 1] in s; }
  }

  lemma SolidAppend(a: string, b: string)
    requires Solid(a) && Solid(b)
    ensures Solid(a + b)
  {}

  lemma SplitSolid(s: string)
    requires Solid(s)
    ensures Split(s) == [s]
  {
    assert forall j | 0 <= j < |s| :: s[j] in s;
  }

  lemma ExtensionBack(sig: string)
    requires Solid(sig)
    ensures LastSignature(Split(SIGNATURE + sig)) == sig
  {
    var ext := SIGNATURE + sig;
    assert Solid(SIGNATURE);
    SolidAppend(SIGNATURE, sig);
    SplitSolid(ext);
    SolidTrim(ext);
    hide Split, TrimSpace;
    assert ext[|SIGNATURE|..] == sig;
  }

  lemma HexBack(n: nat)
    requires n <= MAX_SIZE
    ensures ParseHex(TrimSpace(Hex(n))) == Some(n)
  {
    var s := Hex(n);
    HexSolid(s);
    SolidTrim(s);
    assert IsHex(s[0]);
  }

  lemma HeaderBack(size: nat, sig: string)
    requires size <= MAX_SIZE && Solid(sig) && sig != ""
    ensures ParseHeader(Header(size, sig)) == Some((size, sig))
  {
    var h := Header(size, sig);
    var n := |Hex(size)|;
    HexSolid(Hex(size));
    assert h == Hex(size) + [';'] + (SIGNATURE + sig);
    FirstAt(Hex(size), ';', SIGNATURE + sig);
    assert h[..n] == Hex(size) && h[n + 1..] == SIGNATURE + sig;
    HexBack(size);
    ExtensionBack(sig);
    hide ParseHex, LastSignature, TrimSpace, Split, IndexOf;
  }

  /** A header line comes off the wire whole. */
  lemma LineBack(size: nat, sig: string, more: string)
    requires Solid(sig)
    ensures var h, wire := Header(size, sig), Header(size, sig) + "\r\n" + more;
      && IndexOf(wire, '\n') == |h| + 1 && wire[|h| + 2..] == more && TrimNewlines(wire[..|h| + 2]) == h
  {
    var h := Header(size, sig);
    var wire := h + "\r\n" + more;
    HexSolid(Hex(size));
    var line := h + "\r";
    assert '\n' !in line;
    assert wire == line + ['\n'] + more;
    FirstAt(line, '\n', more);
    assert wire[..|h| + 2] == h + "\r\n";
    assert h[|h| - 1] == if sig == "" then '=' else sig[|sig| - 1];
    assert sig != "" ==> sig[|sig| - 1] in sig;
    Trimmed(h);
  }

  lemma Trimmed(h: string)
    requires h != "" && h[|h| - 1] != '\r' && h[|h| - 1] != '\n'
    ensures TrimNewlines(h + "\r\n") == h
  {
    assert (h + "\r\n")[..|h| + 1] == h + "\r";
    assert (h + "\r")[..|h|] == h;
    assert TrimNewlines(h + "\r") == TrimNewlines(h) == h;
  }

  /** What becomes of a chunk with a well-formed header. */
  lemma TakeChunk(prev: string, size: nat, sig: string, body: string, cut: bool)
    requires size <= MAX_SIZE && Solid(sig) && sig != "" && size <= |body|
    ensures NextChunk(prev, Header(size, sig) + "\r\n" + body, cut) ==
      if sig != Signature(prev, body[..size]) then Broken
      else if size == 0 then Finished
      else if |body| < size + 2 || body[size] != '\r' || body[size + 1] != '\n' then Broken
      else Data(body[..size], sig, body[size + 2..])
  {
    LineBack(size, sig, body);
    HeaderBack(size, sig);
    var wire, n := Header(size, sig) + "\r\n" + body, |Header(size, sig)| + 1;
    assert Header(size, sig) != "";
    hide ParseHeader, TrimNewlines, Header, Signature, IndexOf, NextChunk, TrimSpace;
    assert wire[..n + 1] == wire[..|Header(size, sig)| + 2];
    AfterLine(prev, wire, n, size, sig, body, cut);
  }

  /** Once the header line is off the wire. */
  lemma AfterLine(prev: string, wire: string, n: nat, size: nat, sig: string, body: string, cut: bool)
    requires n < |wire| && IndexOf(wire, '\n') == n && body == wire[n + 1..] && size <= |body|
    requires TrimNewlines(wire[..n + 1]) != "" && ParseHeader(TrimNewlines(wire[..n + 1])) == Some((size, sig))
    ensures NextChunk(prev, wire, cut) ==
      if sig != Signature(prev, body[..size]) then Broken
      else if size == 0 then Finished
      else if |body| < size + 2 || body[size] != '\r' || body[size + 1] != '\n' then Broken
      else Data(body[..size], sig, body[size + 2..])
  {
    hide ParseHeader, TrimNewlines, Signature, IndexOf, TrimSpace;
  }

  /** A framed chunk comes off the wire whole, whatever follows. */
  lemma FrameBack(prev: string, data: Bytes, tail: string, cut: bool)
    requires data != "" && |data| <= MAX_SIZE
    ensures NextChunk(prev, Frame(prev, data) + tail, cut) == Data(data, Signature(prev, data), tail)
  {
    var sig := Signature(prev, data);
    var body := data + "\r\n" + tail;
    HexSolid(sig);
    assert Frame(prev, data) + tail == Header(|data|, sig) + "\r\n" + body;
    hide Hex, Signature, Frame, NextChunk, Header;
    TakeChunk(prev, |data|, sig, body, cut);
    assert body[..|data|] == data && body[|data| + 2..] == tail && body[|data|] == '\r' && body[|data| + 1] == '\n';
  }

  /** MAIN THEOREM: after any signed chunks the decoder has delivered exactly their concatenation, and
      what follows on the wire is decoded as it would be alone, after the last signature. */
  lemma {:induction false} DecodeFrames(prev: string, chunks: seq<Bytes>, tail: string, cut: bool)
    requires Sendable(chunks)
    ensures var rest := Decode(After(prev, chunks), tail, cut);
      Decode(prev, Frames(prev, chunks) + tail, cut) == Decoded(Concat(chunks) + rest.data, rest.complete)
    decreases |chunks|
  {
    hide NextChunk, Signature, Frame;
    if chunks == [] {
      assert "" + tail == tail;
    } else {
      var sig := Signature(prev, chunks[0]);
      var more := Frames(sig, chunks[1..]) + tail;
      DecodeFrames(sig, chunks[1..], tail, cut);
      FrameBack(prev, chunks[0], more, cut);
      assert Frames(prev, chunks) + tail == Frame(prev, chunks[0]) + more;
      var rest := Decode(After(prev, chunks), tail, cut);
      assert chunks[0] + (Concat(chunks[1..]) + rest.data) == Concat(chunks) + rest.data;
    }
  }

  /** The whole encoding: the chunks, the empty chunk that ends them, and any trailer. */
  function Encode(seed: string, chunks: seq<Bytes>, trailer: string): string {
    Frames(seed, chunks) + (Header(0, Signature(After(seed, chunks), "")) + "\r\n" + trailer)
  }

  lemma EndBack(prev: string, trailer: string, cut: bool)
    ensures NextChunk(prev, Header(0, Signature(prev, "")) + "\r\n" + trailer, cut) == Finished
  {
    hide NextChunk, Signature, Header;
    HexSolid(Signature(prev, ""));
    TakeChunk(prev, 0, Signature(prev, ""), trailer, cut);
    assert trailer[..0] == "";
  }

  /** ROUND TRIP: decoding the signed encoding of non-empty chunks gives their concatenation and ends. */
  lemma DecodeEncode(seed: string, chunks: seq<Bytes>, trailer: string, cut: bool)
    requires Sendable(chunks)
    ensures Decode(seed, Encode(seed, chunks, trailer), cut) == Decoded(Concat(chunks), true)
  {
    hide NextChunk, Signature, Frames;
    var last := After(seed, chunks);
    EndBack(last, trailer, cut);
    DecodeFrames(seed, chunks, Header(0, Signature(last, "")) + "\r\n" + trailer, cut);
    assert Concat(chunks) + "" == Concat(chunks);
  }

  /** A chunk whose signature is not the one of its place in the chain delivers nothing, and neither
      does anything after it. */
  lemma ForgedStops(prev: string, chunks: seq<Bytes>, data: Bytes, sig: string, tail: string, cut: bool)
    requires Sendable(chunks)
    requires |data| <= MAX_SIZE && Solid(sig) && sig != "" && sig != Signature(After(prev, chunks), data)
    ensures var wire := Header(|data|, sig) + "\r\n" + (data + "\r\n" + tail);
      Decode(prev, Frames(prev, chunks) + wire, cut) == Decoded(Concat(chunks), false)
  {
    var last := After(prev, chunks);
    var body := data + "\r\n" + tail;
    var wire := Header(|data|, sig) + "\r\n" + body;
    hide NextChunk, Signature, Header, Frames;
    assert body[..|data|] == data;
    TakeChunk(last, |data|, sig, body, cut);
    assert Decode(last, wire, cut) == Decoded("", false);
    hide Decode, After;
    DecodeFrames(prev, chunks, wire, cut);
    assert Concat(chunks) + "" == Concat(chunks);
  }
}
