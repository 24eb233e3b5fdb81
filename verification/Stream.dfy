/** base/stream.cc: a reader that refills one buffer from a transport that delivers chunks. */
module Stream {
  function Concat(chunks: seq<string>): string {
    if chunks == [] then "" else chunks[0] + Concat(chunks[1..])
  }

  /** The transport: what its successive reads will deliver before it closes. */
  class InStream {
    var chunks: seq<string>
    var closed: bool

    constructor (chunks: seq<string>)
      ensures this.chunks == chunks && !closed
    {
      this.chunks := chunks;
      closed := false;
    }

    /** Fills the front of the buffer; answers -1 once the transport is closed. */
    method Read(buf: array<char>) returns (n: int)
      requires chunks != [] ==> |chunks[0]| <= buf.Length
      modifies this, buf
      ensures old(chunks) == [] ==> n == -1 && chunks == [] && closed && buf[..] == old(buf[..])
      ensures old(chunks) != [] ==>
                chunks == old(chunks)[1..] && closed == old(closed) && n == |old(chunks)[0]| && buf[..n] == old(chunks)[0]
    {
      if chunks == [] {
        closed := true;
        return -1;
      }
      var chunk := chunks[0];
      chunks := chunks[1..];
      n := |chunk|;
      for i := 0 to n
        invariant chunks == old(chunks)[1..] && closed == old(closed)
        invariant buf[..i] == chunk[..i]
      {
        buf[i] := chunk[i];
      }
    }
  }

  class StreamReader {
    const readBuf: array<char>
    const stream: InStream
    var begin: nat
    var end: nat

    /** Everything that is still to be read. */
    ghost var rest: string

    /** Reads deliver at least one byte and fit the buffer. */
    ghost predicate Valid()
      reads this, stream, readBuf
    {
      && begin <= end <= readBuf.Length
      && (forall i :: 0 <= i < |stream.chunks| ==> 0 < |stream.chunks[i]| <= readBuf.Length)
      && rest == readBuf[begin..end] + Concat(stream.chunks)
    }

    constructor (buffer: array<char>, stream: InStream, available: nat)
      requires available <= buffer.Length
      requires forall i :: 0 <= i < |stream.chunks| ==> 0 < |stream.chunks[i]| <= buffer.Length
      ensures readBuf == buffer && this.stream == stream && Valid()
      ensures rest == buffer[..available] + Concat(stream.chunks)
    {
      readBuf := buffer;
      this.stream := stream;
      begin := 0;
      end := available;
      rest := buffer[..available] + Concat(stream.chunks);
    }

    /** Drops what is still buffered and reads the next chunk. */
    method RefillAvailable() returns (ok: bool)
      requires Valid()
      modifies this, stream, readBuf
      ensures Valid() && rest == old(Concat(stream.chunks))
      ensures ok == (old(stream.chunks) != [])
      ensures if ok then begin == 0 < end else begin == end
    {
      rest := Concat(stream.chunks);
      var n := stream.Read(readBuf);
      if n < 0 {
        begin := end;
        return false;
      }
      begin := 0;
      end := n;
      ok := true;
    }

    method ReadAvailableCharUnsafe() returns (c: char)
      requires Valid() && begin != end
      modifies this
      ensures Valid() && begin == old(begin) + 1 && end == old(end)
      ensures c == readBuf[begin - 1] && old(rest) == [c] + rest
    {
      c := readBuf[begin];
      assert readBuf[begin..end] == [c] + readBuf[begin + 1..end];
      rest := rest[1..];
      begin := begin + 1;
    }
  }

  predicate IsPrefix(a: string, b: string) {
    |a| <= |b| && b[..|a|] == a
  }

  /** A transport that takes what it is given until it breaks; a broken one takes nothing. */
  class OutStream {
    var sent: string
    /** How many more writes succeed. */
    var lifetime: nat

    constructor (lifetime: nat)
      ensures sent == "" && this.lifetime == lifetime
    {
      sent := "";
      this.lifetime := lifetime;
    }

    method Write(data: string) returns (ok: bool)
      modifies this
      ensures ok == (old(lifetime) > 0)
      ensures if ok then sent == old(sent) + data && lifetime == old(lifetime) - 1
              else sent == old(sent) && lifetime == 0
    {
      ok := lifetime > 0;
      if ok {
        sent := sent + data;
        lifetime := lifetime - 1;
      }
    }
  }

  class StreamWriter {
    const writeBuf: array<char>
    const stream: OutStream
    var written: nat

    ghost predicate Valid()
      reads this
    {
      written <= writeBuf.Length && 0 < writeBuf.Length
    }

    /** Everything written so far: what has left and what is still buffered. */
    ghost function All(): string
      requires Valid()
      reads this, stream, writeBuf
    {
      stream.sent + writeBuf[..written]
    }

    constructor (buffer: array<char>, stream: OutStream, written: nat)
      requires written <= buffer.Length && 0 < buffer.Length
      ensures writeBuf == buffer && this.stream == stream && this.written == written && Valid()
    {
      writeBuf := buffer;
      this.stream := stream;
      this.written := written;
    }

    /** Empties the buffer; what a broken transport refuses is lost. */
    method Flush() returns (ok: bool)
      requires Valid()
      modifies this, stream
      ensures Valid() && written == 0
      ensures if ok then stream.sent == All() == old(All()) else stream.sent == old(stream.sent)
    {
      var sz := written;
      written := 0;
      ok := stream.Write(writeBuf[..sz]);
    }

    /** memcpy of what fits behind what is buffered. */
    method CopyPiece(piece: string)
      requires Valid() && written + |piece| <= writeBuf.Length
      modifies this`written, writeBuf
      ensures Valid() && written == old(written) + |piece| && All() == old(All()) + piece
    {
      ghost var before := writeBuf[..written];
      forall j | 0 <= j < |piece| {
        writeBuf[written + j] := piece[j];
      }
      assert writeBuf[..written + |piece|] == before + piece;
      assert stream.sent + (before + piece) == (stream.sent + before) + piece;
      written := written + |piece|;
    }

    /** Nothing is lost, doubled or reordered, and on failure what left is a prefix of what was meant. */
    method WriteData(data: string) returns (ok: bool)
      requires Valid()
      modifies this, stream, writeBuf
      ensures Valid()
      ensures ok ==> All() == old(All()) + data
      ensures !ok ==> written == 0 && IsPrefix(stream.sent, old(All()) + data)
    {
      var ptr := 0;
      ghost var start := All();
      while ptr != |data|
        invariant 0 <= ptr <= |data| && Valid()
        invariant All() == start + data[..ptr]
        invariant ptr != |data| ==> written < writeBuf.Length || ptr == 0
        decreases |data| - ptr, written
      {
        var sz := if |data| - ptr < writeBuf.Length - written then |data| - ptr else writeBuf.Length - written;
        var piece := data[ptr..ptr + sz];
        CopyPiece(piece);
        assert data[..ptr + sz] == data[..ptr] + piece;
        assert start + (data[..ptr] + piece) == (start + data[..ptr]) + piece;
        ptr := ptr + sz;
        if ptr != |data| {
          ghost var whole := All();
          ok := Flush();
          if !ok {
            assert whole[..|stream.sent|] == stream.sent;
            assert data == data[..ptr] + data[ptr..];
            assert start + data == whole + data[ptr..];
            return false;
          }
        }
      }
      assert data[..ptr] == data;
      return true;
    }
  }
}
