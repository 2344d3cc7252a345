/** Byte streams that arrive in pieces, and io.ReadFull over them. */
module ByteStream {
  import opened Prelude

  datatype ReadError = EOF | UnexpectedEOF | Timeout | ConnectionReset

  /** One thing a Read call can meet next: some bytes (possibly none), or an error with the last bytes before it. */
  datatype Chunk = Data(bytes: Bytes) | Fail(bytes: Bytes, error: ReadError)

  /** Every byte that can still be read. */
  function Unread(chunks: seq<Chunk>): Bytes {
    if chunks == [] then []
    else if chunks[0].Fail? then chunks[0].bytes
    else chunks[0].bytes + Unread(chunks[1..])
  }

  /** The error that follows the last byte. */
  function Ending(chunks: seq<Chunk>): ReadError {
    if chunks == [] then EOF
    else if chunks[0].Fail? then chunks[0].error
    else Ending(chunks[1..])
  }

  /** What io.ReadFull reports when the stream ends after n bytes. */
  function ShortRead(n: nat, ending: ReadError): ReadError {
    if ending == EOF && n > 0 then UnexpectedEOF else ending
  }

  class Reader {
    var chunks: seq<Chunk>

    constructor (chunks: seq<Chunk>)
      ensures this.chunks == chunks
    {
      this.chunks := chunks;
    }

    /** Returns the next piece, cut to n bytes; an error comes with the last bytes or after them, and is sticky. */
    method Read(n: nat) returns (data: Bytes, err: Option<ReadError>)
      modifies this
      ensures |data| <= n
      ensures Unread(old(chunks)) == data + Unread(chunks)
      ensures Ending(chunks) == Ending(old(chunks))
      ensures err.Some? ==> Unread(chunks) == [] && err.value == Ending(chunks)
      ensures err.None? ==> |data| == n || |chunks| < |old(chunks)|
    {
      if |chunks| == 0 {
        return [], Some(EOF);
      }
      var bytes := chunks[0].bytes;
      data, err := Take(bytes, n), None;
      if |bytes| > n {
        chunks := [chunks[0].(bytes := bytes[n..])] + chunks[1..];
        assert chunks[1..] == old(chunks)[1..];
      } else if chunks[0].Fail? {
        err := Some(chunks[0].error);
        chunks := [Fail([], err.value)];
      } else {
        chunks := chunks[1..];
      }
    }
  }

  /** copy(buf[n:], data). */
  method Store(buf: array<byte>, n: nat, data: Bytes)
    requires n + |data| <= buf.Length
    modifies buf
    ensures buf[..n + |data|] == old(buf[..n]) + data
  {
    forall i | 0 <= i < |data| {
      buf[n + i] := data[i];
    }
  }

  /** What is read next lies next in the stream. */
  lemma NextBytes(stream: Bytes, n: nat, data: Bytes, rest: Bytes)
    requires n <= |stream| && stream[n..] == data + rest
    ensures n + |data| <= |stream|
    ensures stream[..n] + data == stream[..n + |data|] && rest == stream[n + |data|..]
  {
    assert stream[n..][..|data|] == data && stream[n..][|data|..] == rest;
  }

  /** io.ReadFull: fills buf, whatever the pieces are. An error that comes with the last byte needed is dropped. */
  method ReadFull(reader: Reader, buf: array<byte>) returns (err: Option<ReadError>)
    modifies reader, buf
    ensures Ending(reader.chunks) == Ending(old(reader.chunks))
    ensures var stream := Unread(old(reader.chunks));
            if buf.Length <= |stream| then
              && err == None
              && buf[..] == stream[..buf.Length]
              && Unread(reader.chunks) == stream[buf.Length..]
            else
              && err == Some(ShortRead(|stream|, Ending(old(reader.chunks))))
              && Unread(reader.chunks) == []
  {
    ghost var stream := Unread(reader.chunks);
    var n := 0;
    err := None;
    while n < buf.Length && err == None
      invariant 0 <= n <= buf.Length && n <= |stream|
      invariant buf[..n] == stream[..n] && Unread(reader.chunks) == stream[n..]
      invariant Ending(reader.chunks) == Ending(old(reader.chunks))
      invariant err.Some? ==> Unread(reader.chunks) == [] && err.value == Ending(reader.chunks)
      decreases err == None, buf.Length - n, |reader.chunks|
    {
      var data, e := reader.Read(buf.Length - n);
      NextBytes(stream, n, data, Unread(reader.chunks));
      Store(buf, n, data);
      n, err := n + |data|, e;
    }
    if n >= buf.Length {
      err := None;
    } else {
      assert |stream[n..]| == 0;
      err := Some(ShortRead(n, err.value));
    }
  }
}
