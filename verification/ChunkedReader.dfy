/** The reader over a chunked body: one Read after the other, with buffers of any size. */
module ChunkedReader {
  import opened Types
  import opened Chunked
  import opened Characters

  datatype End = EOF | Failure

  /** The loop over the extensions of a chunk header. */
  method ParseChunkHeader(header: string) returns (r: Option<(nat, string)>)
    ensures r == ParseHeader(header)
  {
    var semi := IndexOf(header, ';');
    var sizeText, sig := header[..semi], "";
    if semi < |header| {
      var exts := Split(header[semi + 1..]);
      for i := 0 to |exts|
        invariant sig == LastSignature(exts[..i])
      {
        assert exts[..i + 1][..i] == exts[..i];
        var kv := TrimSpace(exts[i]);
        if SIGNATURE <= kv {
          sig := kv[|SIGNATURE|..];
        }
      }
      assert exts[..|exts|] == exts;
    }
    var size := ParseHex(TrimSpace(sizeText));
    if size == None || size.value < 0 || sig == "" {
      return None;
    }
    return Some((size.value, sig));
  }

  class Reader {
    /** The connection fails, rather than ends, where the input ends. */
    const cut: bool
    var input: string
    var prevSig: string
    var pending: Bytes
    var done: bool
    var err: Option<End>

    constructor (body: string, cut: bool, seed: string)
      ensures pending == "" && err == None && !done && Remaining() == Decode(seed, body, cut)
    {
      this.cut, input, prevSig, pending, done, err := cut, body, seed, "", false, None;
    }

    /** What is still to be delivered beyond the pending bytes, and how it ends. */
    ghost function Ahead(): Decoded
      reads this
    {
      if err.Some? then Decoded("", err.value == EOF)
      else if done then Decoded("", true)
      else Decode(prevSig, input, cut)
    }

    /** All that further reads deliver. */
    ghost function Remaining(): Decoded
      reads this
    {
      Decoded(pending + Ahead().data, Ahead().complete)
    }

    /** A line up to and including its newline, or all there is. */
    method ReadLine() returns (line: string, ended: bool)
      modifies this`input
      ensures var n := IndexOf(old(input), '\n');
        if n == |old(input)| then line == old(input) && ended && input == ""
        else line == old(input)[..n + 1] && !ended && input == old(input)[n + 1..]
    {
      var n := IndexOf(input, '\n');
      if n == |input| {
        line, ended, input := input, true, "";
      } else {
        line, ended, input := input[..n + 1], false, input[n + 1..];
      }
    }

    method DrainTrailers()
      modifies this`input
    {
      while true
        decreases |input|
      {
        var line, ended := ReadLine();
        if TrimNewlines(line) == "" || ended {
          return;
        }
      }
    }

    /** The next chunk, checked and appended to the pending bytes; nothing is appended on an error. */
    method ReadChunk() returns (e: Option<End>)
      requires pending == "" && err == None && !done
      modifies `input, `prevSig, `pending, `done
      ensures match NextChunk(old(prevSig), old(input), cut)
        case Data(d, sig, rest) => e == None && !done && pending == d && prevSig == sig && input == rest
        case Finished => e == Some(EOF) && done && pending == ""
        case Broken => e == Some(Failure) && !done && pending == ""
    {
      hide ParseHeader, Signature, TrimSpace, TrimNewlines;
      var line, ended := ReadLine();
      if ended {
        if !cut && TrimSpace(line) == "" {
          done := true;
          return Some(EOF);
        }
        return Some(Failure);
      }
      var header := TrimNewlines(line);
      if header == "" {
        done := true;
        DrainTrailers();
        return Some(EOF);
      }
      var parsed := ParseChunkHeader(header);
      if parsed == None {
        return Some(Failure);
      }
      var (size, sig) := parsed.value;
      if |input| < size {
        return Some(Failure);
      }
      var data := input[..size];
      ghost var body := input;
      input := input[size..];
      if sig != Signature(prevSig, data) {
        return Some(Failure);
      }
      prevSig := sig;
      if size > 0 {
        if |input| < 2 || input[0] != '\r' || input[1] != '\n' {
          return Some(Failure);
        }
        input := input[2..];
        assert input == body[size + 2..];
        pending := data;
        return None;
      }
      done := true;
      DrainTrailers();
      return Some(EOF);
    }

    /** A read delivers the next bytes, as many as are pending and fit, or says how the body ends;
        together with what remains they are what remained before. */
    method Read(n: nat) returns (got: Bytes, e: Option<End>)
      modifies this
      ensures old(Remaining()) == Decoded(got + Remaining().data, Remaining().complete)
      ensures e.Some? ==> got == "" && Remaining() == Decoded("", e.value == EOF)
      ensures e.None? && n > 0 ==> 0 < |got| <= n
    {
      hide NextChunk;
      ghost var all := Remaining();
      while pending == ""
        invariant Remaining() == all
        decreases if pending == "" then 1 else 0
      {
        if err.Some? {
          assert "" + Remaining().data == Remaining().data;
          return "", err;
        }
        if done {
          assert "" + Remaining().data == Remaining().data;
          return "", Some(EOF);
        }
        var failed := ReadChunk();
        assert "" + all.data == all.data;
        if failed.Some? {
          err := failed;
          return "", failed;
        }
      }
      var k := if n < |pending| then n else |pending|;
      assert pending[..k] + (pending[k..] + Ahead().data) == pending + Ahead().data;
      got, pending, e := pending[..k], pending[k..], None;
    }

    /** Reading on with buffers of any non-empty sizes until an end or an error is reported. */
    method ReadAll(sizes: nat -> nat) returns (all: Bytes, end: End)
      requires forall i :: sizes(i) > 0
      modifies this
      ensures old(Remaining()) == Decoded(all, end == EOF)
    {
      all := "";
      var i := 0;
      ghost var whole := Remaining();
      assert "" + whole.data == whole.data;
      while true
        invariant whole == Decoded(all + Remaining().data, Remaining().complete)
        decreases |Remaining().data|
      {
        ghost var left := Remaining().data;
        var got, e := Read(sizes(i));
        if e.Some? {
          return all, e.value;
        }
        assert all + left == all + got + Remaining().data;
        all, i := all + got, i + 1;
      }
    }
  }

  /** MAIN THEOREM, as run: whatever the buffer sizes, reading a signed body gives back its chunks. */
  method ReadEncoded(seed: string, chunks: seq<Bytes>, trailer: string, sizes: nat -> nat) returns (all: Bytes, end: End)
    requires Sendable(chunks)
    requires forall i :: sizes(i) > 0
    ensures all == Concat(chunks) && end == EOF
  {
    var r := new Reader(Encode(seed, chunks, trailer), false, seed);
    DecodeEncode(seed, chunks, trailer, false);
    all, end := r.ReadAll(sizes);
  }
}
