/** tlsutil/hello.go: looking at a ClientHello without consuming it. */
module ClientHello {
  import opened Prelude
  import opened ByteStream

  /** io.MultiReader(peekedBytes, reader): the recorded bytes, then the rest of the stream. */
  class ReplayReader {
    var peeked: Bytes
    const reader: Reader

    constructor (peeked: Bytes, reader: Reader)
      ensures this.peeked == peeked && this.reader == reader
    {
      this.peeked, this.reader := peeked, reader;
    }

    /** Everything that can still be read. */
    function Contents(): Bytes
      reads this, reader
    {
      peeked + Unread(reader.chunks)
    }

    /** peekedConn.Read. */
    method Read(n: nat) returns (data: Bytes, err: Option<ReadError>)
      modifies this, reader
      ensures |data| <= n && old(Contents()) == data + Contents()
      ensures Ending(reader.chunks) == Ending(old(reader.chunks))
      ensures err.Some? ==> Contents() == [] && err.value == Ending(reader.chunks)
      ensures err.None? ==> |data| == n || |peeked| < |old(peeked)| || |reader.chunks| < |old(reader.chunks)|
    {
      if peeked != [] {
        data, err := Take(peeked, n), None;
        peeked := peeked[|data|..];
        assert old(peeked) == data + peeked;
      } else {
        data, err := reader.Read(n);
      }
    }
  }

  /** io.TeeReader(reader, peekedBytes): whatever is read is also recorded. */
  class TeeReader {
    const reader: Reader
    var peeked: Bytes

    constructor (reader: Reader)
      ensures this.reader == reader && peeked == []
    {
      this.reader, peeked := reader, [];
    }

    method Read(n: nat) returns (data: Bytes, err: Option<ReadError>)
      modifies this, reader
      ensures peeked == old(peeked) + data
      ensures peeked + Unread(reader.chunks) == old(peeked + Unread(reader.chunks))
      ensures Ending(reader.chunks) == Ending(old(reader.chunks))
    {
      data, err := reader.Read(n);
      peeked := peeked + data;
    }
  }

  /** ReadClientHello: a handshake that issues reads of arbitrary sizes and may find a hello in what it has seen. */
  method ReadClientHello<Hello>(tee: TeeReader, sizes: seq<nat>, find: Bytes -> Option<Hello>)
    returns (hello: Option<Hello>)
    requires tee.peeked == []
    modifies tee, tee.reader
    ensures tee.peeked + Unread(tee.reader.chunks) == Unread(old(tee.reader.chunks))
    ensures Ending(tee.reader.chunks) == Ending(old(tee.reader.chunks))
    ensures hello == find(tee.peeked)
  {
    var i := 0;
    var err: Option<ReadError> := None;
    while i < |sizes| && err.None?
      invariant tee.peeked + Unread(tee.reader.chunks) == Unread(old(tee.reader.chunks))
      invariant Ending(tee.reader.chunks) == Ending(old(tee.reader.chunks))
      decreases |sizes| - i
    {
      var data;
      data, err := tee.Read(sizes[i]);
      i := i + 1;
    }
    hello := find(tee.peeked);
  }

  /** PeekClientHello: whether or not a hello was found, the returned reader yields the original stream. */
  method PeekClientHello<Hello>(reader: Reader, sizes: seq<nat>, find: Bytes -> Option<Hello>)
    returns (hello: Option<Hello>, replay: ReplayReader)
    modifies reader
    ensures fresh(replay) && replay.reader == reader
    ensures replay.Contents() == Unread(old(reader.chunks))
    ensures Ending(reader.chunks) == Ending(old(reader.chunks))
    ensures hello == find(replay.peeked) && replay.peeked <= Unread(old(reader.chunks))
  {
    var tee := new TeeReader(reader);
    hello := ReadClientHello(tee, sizes, find);
    replay := new ReplayReader(tee.peeked, reader);
  }
}
