/** Properties of the PROXY protocol version 2 codec, on all headers and all streams. */
module ProxyHeaderTheorems {
  import opened Prelude
  import opened ByteStream
  import opened ProxyHeader

  // ---------------------------------------------------------------- what a written header reads back as

  predicate CarriesAddresses(h: Header) {
    !h.remote.OtherAddr?
  }

  /** A header for these IPs and ports, without zones, on the transport of h. */
  function WithAddresses(h: Header, remoteIP: Bytes, localIP: Bytes, remotePort: int, localPort: int): Header
    requires CarriesAddresses(h)
  {
    if h.remote.TCPAddr? then Header(TCPAddr(remoteIP, remotePort, ""), TCPAddr(localIP, localPort, ""))
    else Header(UDPAddr(remoteIP, remotePort, ""), UDPAddr(localIP, localPort, ""))
  }

  /** The header a reader recovers: the remote address picks the family, both IPs are forced into it, and zones are
      lost. */
  function ReadBack(h: Header): Header
    requires Formattable(h) && CarriesAddresses(h)
  {
    var remotePort, localPort := h.remote.port % 0x1_0000, h.local.port % 0x1_0000;
    if IsIPv4(h.remote.ip) then
      WithAddresses(h, To4(h.remote.ip).value, Field(OrEmpty(To4(h.local.ip)), 4), remotePort, localPort)
    else
      WithAddresses(h, Field(h.remote.ip, 16), Field(h.local.ip, 16), remotePort, localPort)
  }

  lemma PreambleReadsBack(family: byte, length: nat, tail: Bytes)
    requires length < 0x1_0000
    ensures var stream := Preamble(family, length) + tail;
            && stream[0..12] == SIGNATURE
            && stream[12] / 16 == VERSION && stream[12] % 16 == COMMAND_PROXY
            && stream[13] == family
            && GetUint16(stream[14..16]) == length
            && stream[16..] == tail
  {
    var stream := Preamble(family, length) + tail;
    assert stream[14..16] == PutUint16(length);
  }

  /** Four fields in a row, taken apart again. */
  lemma FourFields(a: Bytes, b: Bytes, p: Bytes, q: Bytes)
    ensures var s := a + b + p + q;
            var i, j, k := |a|, |a| + |b|, |a| + |b| + |p|;
            s[0..i] == a && s[i..j] == b && s[j..k] == p && s[k..k + |q|] == q
  {
    var s := a + b + p + q;
    assert s == (a + b) + (p + q);
    TwoFields(a + b, p + q);
    TwoFields(a, b);
    TwoFields(p, q);
    var j, k := |a| + |b|, |a| + |b| + |p|;
    SliceOfSlice(s, 0, j, 0, |a|);
    SliceOfSlice(s, 0, j, |a|, j);
    SliceOfSlice(s, j, |s|, 0, |p|);
    SliceOfSlice(s, j, |s|, |p|, |p| + |q|);
  }

  lemma TwoFields(a: Bytes, b: Bytes)
    ensures (a + b)[0..|a|] == a && (a + b)[|a|..|a| + |b|] == b
  {
  }

  lemma SliceOfSlice(s: Bytes, lo: nat, hi: nat, i: nat, j: nat)
    requires lo <= hi <= |s| && i <= j <= hi - lo
    ensures s[lo..hi][i..j] == s[lo + i..lo + j]
  {
    var t := s[lo..hi];
    assert forall k :: 0 <= k < j - i ==> t[i..j][k] == t[i + k] == s[lo + i + k];
  }

  /** A whole header with its payload is read as what its payload says, up to exactly its end. */
  lemma CodeReadsBack(self: Header, family: byte, payload: Bytes, rest: Bytes, ending: ReadError)
    requires |payload| < 0x1_0000
    ensures Decode(self, Preamble(family, |payload|) + payload + rest, ending)
            == Outcome(Parse(family, payload), rest)
  {
    var stream := Preamble(family, |payload|) + payload + rest;
    assert stream == Preamble(family, |payload|) + (payload + rest);
    PreambleReadsBack(family, |payload|, payload + rest);
    TwoFields(payload, rest);
    SliceOfSlice(stream, 16, |stream|, 0, |payload|);
    SliceOfSlice(stream, 16, |stream|, |payload|, |payload| + |rest|);
    assert stream[16..|stream|] == stream[16..];
    assert stream[16 + |payload|..] == stream[16 + |payload|..|stream|];
  }

  lemma EncodedIPv4ReadsBack(self: Header, family: byte, h: Header, rest: Bytes, ending: ReadError)
    requires Formattable(h) && CarriesAddresses(h) && IsIPv4(h.remote.ip)
    requires family == if h.remote.TCPAddr? then FAMILY_TCP4 else FAMILY_UDP4
    ensures var code := EncodeIPv4(family, h.remote.ip, h.local.ip, h.remote.port, h.local.port);
            Decode(self, code + rest, ending) == Outcome(Ok(ReadBack(h)), rest)
  {
    var a, b := Field(OrEmpty(To4(h.remote.ip)), 4), Field(OrEmpty(To4(h.local.ip)), 4);
    var p, q := PutUint16(h.remote.port), PutUint16(h.local.port);
    var payload := a + b + p + q;
    assert Preamble(family, 12) + payload == Preamble(family, 12) + a + b + p + q;
    FourFields(a, b, p, q);
    assert a == To4(h.remote.ip).value;
    CodeReadsBack(self, family, payload, rest, ending);
  }

  lemma EncodedIPv6ReadsBack(self: Header, family: byte, h: Header, rest: Bytes, ending: ReadError)
    requires Formattable(h) && CarriesAddresses(h) && !IsIPv4(h.remote.ip)
    requires family == if h.remote.TCPAddr? then FAMILY_TCP6 else FAMILY_UDP6
    ensures var code := EncodeIPv6(family, h.remote.ip, h.local.ip, h.remote.port, h.local.port);
            Decode(self, code + rest, ending) == Outcome(Ok(ReadBack(h)), rest)
  {
    var a, b := Field(h.remote.ip, 16), Field(h.local.ip, 16);
    var p, q := PutUint16(h.remote.port), PutUint16(h.local.port);
    var payload := a + b + p + q;
    assert Preamble(family, 36) + payload == Preamble(family, 36) + a + b + p + q;
    FourFields(a, b, p, q);
    CodeReadsBack(self, family, payload, rest, ending);
  }

  /** Reading what Format wrote yields ReadBack and leaves exactly the following bytes. */
  lemma EncodedReadsBack(self: Header, h: Header, rest: Bytes, ending: ReadError)
    requires Formattable(h) && CarriesAddresses(h)
    ensures Decode(self, Encode(h) + rest, ending) == Outcome(Ok(ReadBack(h)), rest)
  {
    if IsIPv4(h.remote.ip) {
      EncodedIPv4ReadsBack(self, if h.remote.TCPAddr? then FAMILY_TCP4 else FAMILY_UDP4, h, rest, ending);
    } else {
      EncodedIPv6ReadsBack(self, if h.remote.TCPAddr? then FAMILY_TCP6 else FAMILY_UDP6, h, rest, ending);
    }
  }

  /** A header for addresses of another kind is written as an unspecified family, which no reader accepts. */
  lemma UnspecifiedIsRejected(self: Header, h: Header, rest: Bytes, ending: ReadError)
    requires !CarriesAddresses(h)
    ensures Decode(self, Encode(h) + rest, ending) == Outcome(Err(UnsupportedFamily(FAMILY_UNSPECIFIED)), rest)
  {
    PreambleReadsBack(FAMILY_UNSPECIFIED, 0, rest);
  }

  // ---------------------------------------------------------------- when the round trip is faithful

  predicate IsPort(port: int) {
    0 <= port < 0x1_0000
  }

  /** TCP or UDP, ports in range, no zones, and both IPs of the family that the remote IP selects. */
  predicate Faithful(h: Header) {
    && Formattable(h)
    && CarriesAddresses(h)
    && IsPort(h.remote.port) && IsPort(h.local.port)
    && h.remote.zone == h.local.zone == ""
    && if IsIPv4(h.remote.ip) then IsIPv4(h.local.ip) else |h.remote.ip| == 16 && |h.local.ip| == 16
  }

  lemma FieldKeepsIP(ip: Bytes)
    ensures SameIP(Field(ip, 16), ip) <==> |ip| == 16
  {
    var f := Field(ip, 16);
    if |ip| == 4 {
      assert f[10] == 0;
      assert (MAPPED_PREFIX + ip)[10] == 0xFF;
    } else if |ip| == 16 {
      assert f == ip;
    }
  }

  lemma FourByteFieldKeepsIP(ip: Bytes)
    ensures SameIP(Field(OrEmpty(To4(ip)), 4), ip) <==> IsIPv4(ip)
  {
    var four := To4(ip);
    if four.Some? {
      assert Field(four.value, 4) == four.value;
      if |ip| == 16 {
        assert ip == MAPPED_PREFIX + four.value;
      }
    } else if |ip| == 16 {
      var f := Field([], 4);
      assert (MAPPED_PREFIX + f)[..12] == MAPPED_PREFIX;
    }
  }

  /** The two families one at a time. */
  lemma IPv4ReadBackExactly(h: Header)
    requires Formattable(h) && CarriesAddresses(h) && IsIPv4(h.remote.ip)
    ensures SameHeader(ReadBack(h), h) <==> Faithful(h)
  {
    FourByteFieldKeepsIP(h.local.ip);
    FourByteFieldKeepsIP(h.remote.ip);
    assert Field(OrEmpty(To4(h.remote.ip)), 4) == To4(h.remote.ip).value;
  }

  lemma IPv6ReadBackExactly(h: Header)
    requires Formattable(h) && CarriesAddresses(h) && !IsIPv4(h.remote.ip)
    ensures SameHeader(ReadBack(h), h) <==> Faithful(h)
  {
    FieldKeepsIP(h.remote.ip);
    FieldKeepsIP(h.local.ip);
  }

  lemma ReadBackExactly(h: Header)
    requires Formattable(h) && CarriesAddresses(h)
    ensures SameHeader(ReadBack(h), h) <==> Faithful(h)
  {
    if IsIPv4(h.remote.ip) {
      IPv4ReadBackExactly(h);
    } else {
      IPv6ReadBackExactly(h);
    }
  }

  /** For every header Format accepts: reading it back gives the same addresses exactly when it is Faithful. */
  lemma RoundTripExactly(self: Header, h: Header, rest: Bytes, ending: ReadError)
    requires Formattable(h)
    ensures var o := Decode(self, Encode(h) + rest, ending);
            && o.rest == rest
            && ((o.result.Ok? && SameHeader(o.result.value, h)) <==> Faithful(h))
  {
    if CarriesAddresses(h) {
      EncodedReadsBack(self, h, rest, ending);
      ReadBackExactly(h);
    } else {
      UnspecifiedIsRejected(self, h, rest, ending);
    }
  }

  const LINK_LOCAL: Bytes := [0xFE, 0x80, 0, 0, 0, 0, 0, 0, 0, 0, 0, 0, 0, 0, 0, 1]

  lemma LinkLocalIsIPv6()
    ensures !IsIPv4(LINK_LOCAL) && Field(LINK_LOCAL, 16) == LINK_LOCAL
  {
    assert LINK_LOCAL[..12][0] != MAPPED_PREFIX[0];
  }

  /** An address that is lost without being malformed: fe80::1%eth0 comes back as fe80::1. */
  lemma ZoneIsLost(self: Header, rest: Bytes, ending: ReadError)
    ensures var zoned, bare := TCPAddr(LINK_LOCAL, 80, "eth0"), TCPAddr(LINK_LOCAL, 80, "");
            && Decode(self, Encode(Header(zoned, zoned)) + rest, ending) == Outcome(Ok(Header(bare, bare)), rest)
            && !SameAddr(bare, zoned)
  {
    var zoned, bare := TCPAddr(LINK_LOCAL, 80, "eth0"), TCPAddr(LINK_LOCAL, 80, "");
    LinkLocalIsIPv6();
    assert ReadBack(Header(zoned, zoned)) == Header(bare, bare);
    EncodedReadsBack(self, Header(zoned, zoned), rest, ending);
  }

  /** A stream cut into pieces of the given sizes, and a last piece with what is left over. */
  function Cut(stream: Bytes, sizes: seq<nat>, ending: ReadError): (chunks: seq<Chunk>)
    ensures Unread(chunks) == stream && Ending(chunks) == ending
    decreases sizes
  {
    if sizes == [] then [Fail(stream, ending)]
    else
      var piece := Take(stream, sizes[0]);
      var more := Cut(stream[|piece|..], sizes[1..], ending);
      assert ([Data(piece)] + more)[1..] == more;
      [Data(piece)] + more
  }

  /** Writing a header and reading it, with other bytes behind it, over a connection that cuts the stream up in any
      way: exactly the other bytes are left, and exactly a Faithful header has survived. */
  method Transmit(self: Header, h: Header, rest: Bytes, sizes: seq<nat>, ending: ReadError)
    returns (r: Result<Header, HeaderError>, conn: Reader)
    requires Formattable(h)
    ensures fresh(conn) && Unread(conn.chunks) == rest && Ending(conn.chunks) == ending
    ensures r.Ok? && SameHeader(r.value, h) <==> Faithful(h)
  {
    var code := Format(h);
    conn := new Reader(Cut(code[..] + rest, sizes, ending));
    r := ReadHeader(self, conn);
    RoundTripExactly(self, h, rest, ending);
  }

  // ---------------------------------------------------------------- self-delimiting codes

  function Concat(codes: seq<Bytes>): Bytes {
    if codes == [] then [] else codes[0] + Concat(codes[1..])
  }

  /** Headers written one after another. */
  function EncodeAll(hs: seq<Header>): Bytes
    requires forall i :: 0 <= i < |hs| ==> Formattable(hs[i])
  {
    Concat(seq(|hs|, i requires 0 <= i < |hs| => Encode(hs[i])))
  }

  /** What each of them is read as. */
  function ReadAs(h: Header): Result<Header, HeaderError>
    requires Formattable(h)
  {
    if CarriesAddresses(h) then Ok(ReadBack(h)) else Err(UnsupportedFamily(FAMILY_UNSPECIFIED))
  }

  /** Reading n headers, one after another. */
  function DecodeAll(decode: Bytes -> Outcome, n: nat, stream: Bytes): (seq<Result<Header, HeaderError>>, Bytes) {
    if n == 0 then ([], stream)
    else
      var o := decode(stream);
      var more := DecodeAll(decode, n - 1, o.rest);
      ([o.result] + more.0, more.1)
  }

  /** ReadHeader on the stream of one connection. */
  function Decoder(self: Header, ending: ReadError): Bytes -> Outcome {
    stream => Decode(self, stream, ending)
  }

  /** The code is read as r, whatever follows it. */
  ghost predicate ReadsAs(decode: Bytes -> Outcome, code: Bytes, r: Result<Header, HeaderError>) {
    forall tail :: decode(code + tail) == Outcome(r, tail)
  }

  lemma HeaderReadsAs(self: Header, h: Header, ending: ReadError)
    requires Formattable(h)
    ensures ReadsAs(Decoder(self, ending), Encode(h), ReadAs(h))
  {
    forall tail
      ensures Decode(self, Encode(h) + tail, ending) == Outcome(ReadAs(h), tail)
    {
      if CarriesAddresses(h) {
        EncodedReadsBack(self, h, tail, ending);
      } else {
        UnspecifiedIsRejected(self, h, tail, ending);
      }
    }
  }

  lemma {:induction false} CodesReadInTurn(decode: Bytes -> Outcome, codes: seq<Bytes>,
                                           rs: seq<Result<Header, HeaderError>>, payload: Bytes)
    requires |codes| == |rs| && forall i :: 0 <= i < |rs| ==> ReadsAs(decode, codes[i], rs[i])
    ensures DecodeAll(decode, |rs|, Concat(codes) + payload) == (rs, payload)
    decreases codes
  {
    if codes == [] {
      assert Concat(codes) + payload == payload;
    } else {
      var tail := Concat(codes[1..]) + payload;
      assert Concat(codes) + payload == codes[0] + tail;
      assert ReadsAs(decode, codes[0], rs[0]);
      CodesReadInTurn(decode, codes[1..], rs[1..], payload);
      assert [rs[0]] + rs[1..] == rs;
    }
  }

  lemma EncodeAllCons(hs: seq<Header>)
    requires hs != [] && forall i :: 0 <= i < |hs| ==> Formattable(hs[i])
    ensures EncodeAll(hs) == Encode(hs[0]) + EncodeAll(hs[1..])
  {
    var codes := seq(|hs|, i requires 0 <= i < |hs| => Encode(hs[i]));
    assert codes[1..] == seq(|hs| - 1, i requires 0 <= i < |hs| - 1 => Encode(hs[1..][i]));
  }

  lemma ReadAsExactly(h: Header)
    requires Formattable(h)
    ensures ReadAs(h).Ok? && SameHeader(ReadAs(h).value, h) <==> Faithful(h)
  {
    if CarriesAddresses(h) {
      ReadBackExactly(h);
    }
  }

  /** Headers written one after another are read one after another, each by its own reader, and the payload is
      untouched: the readers of stacked proxy listeners do not disturb each other. */
  lemma StackedHeadersReadBack(self: Header, hs: seq<Header>, payload: Bytes, ending: ReadError)
    requires forall i :: 0 <= i < |hs| ==> Formattable(hs[i])
    ensures var (read, rest) := DecodeAll(Decoder(self, ending), |hs|, EncodeAll(hs) + payload);
            && rest == payload && |read| == |hs|
            && forall i :: 0 <= i < |hs| ==>
                 read[i] == ReadAs(hs[i]) && (read[i].Ok? && SameHeader(read[i].value, hs[i]) <==> Faithful(hs[i]))
  {
    var codes := seq(|hs|, i requires 0 <= i < |hs| => Encode(hs[i]));
    var read := seq(|hs|, i requires 0 <= i < |hs| => ReadAs(hs[i]));
    forall i | 0 <= i < |hs|
      ensures ReadsAs(Decoder(self, ending), codes[i], read[i])
      ensures read[i].Ok? && SameHeader(read[i].value, hs[i]) <==> Faithful(hs[i])
    {
      HeaderReadsAs(self, hs[i], ending);
      ReadAsExactly(hs[i]);
    }
    CodesReadInTurn(Decoder(self, ending), codes, read, payload);
  }

  lemma WrittenBefore(hs: seq<Header>, i: nat, payload: Bytes)
    requires i < |hs| && forall k :: 0 <= k < |hs| ==> Formattable(hs[k])
    ensures EncodeAll(hs[i..]) + payload == Encode(hs[i]) + (EncodeAll(hs[i + 1..]) + payload)
  {
    var tail := hs[i..];
    assert tail[0] == hs[i] && tail[1..] == hs[i + 1..];
    EncodeAllCons(tail);
    Associate(Encode(hs[i]), EncodeAll(hs[i + 1..]), payload);
  }

  lemma Associate(a: Bytes, b: Bytes, c: Bytes)
    ensures (a + b) + c == a + (b + c)
  {
  }

  /** Writes the headers in front of a payload. */
  method WriteAll(hs: seq<Header>, payload: Bytes) returns (bytes: Bytes)
    requires forall i :: 0 <= i < |hs| ==> Formattable(hs[i])
    ensures bytes == EncodeAll(hs) + payload
  {
    bytes := payload;
    for i := |hs| downto 0
      invariant bytes == EncodeAll(hs[i..]) + payload
    {
      var code := Format(hs[i]);
      WrittenBefore(hs, i, payload);
      bytes := code[..] + bytes;
    }
    assert hs[0..] == hs;
  }

  /** Calls ReadHeader n times. */
  method ReadAll(self: Header, n: nat, conn: Reader) returns (read: seq<Result<Header, HeaderError>>)
    modifies conn
    ensures Ending(conn.chunks) == Ending(old(conn.chunks))
    ensures var all := DecodeAll(Decoder(self, Ending(conn.chunks)), n, Unread(old(conn.chunks)));
            read == all.0 && Unread(conn.chunks) == all.1
  {
    ghost var decode := Decoder(self, Ending(conn.chunks));
    ghost var all := DecodeAll(decode, n, Unread(conn.chunks));
    read := [];
    for i := 0 to n
      invariant Ending(conn.chunks) == Ending(old(conn.chunks))
      invariant all.0 == read + DecodeAll(decode, n - i, Unread(conn.chunks)).0
      invariant all.1 == DecodeAll(decode, n - i, Unread(conn.chunks)).1
    {
      ghost var before := read;
      var r := ReadHeader(self, conn);
      read := read + [r];
      ghost var more := DecodeAll(decode, n - i - 1, Unread(conn.chunks)).0;
      assert before + ([r] + more) == read + more;
    }
  }

  /** Stacked proxies on one connection: every header of a list is written, the bytes arrive cut up in any way with a
      payload behind them, and ReadHeader is called once for each header. */
  method TransmitAll(self: Header, hs: seq<Header>, payload: Bytes, sizes: seq<nat>, ending: ReadError)
    returns (read: seq<Result<Header, HeaderError>>, conn: Reader)
    requires forall i :: 0 <= i < |hs| ==> Formattable(hs[i])
    ensures fresh(conn) && Unread(conn.chunks) == payload && Ending(conn.chunks) == ending
    ensures |read| == |hs|
    ensures forall i :: 0 <= i < |hs| ==>
              read[i] == ReadAs(hs[i]) && (read[i].Ok? && SameHeader(read[i].value, hs[i]) <==> Faithful(hs[i]))
  {
    var bytes := WriteAll(hs, payload);
    conn := new Reader(Cut(bytes, sizes, ending));
    read := ReadAll(self, |hs|, conn);
    StackedHeadersReadBack(self, hs, payload, ending);
  }

  /** A written header announces its own length. */
  lemma EncodedLength(h: Header, rest: Bytes)
    requires Formattable(h)
    ensures var stream := Encode(h) + rest;
            |Encode(h)| >= 16 && |Encode(h)| == 16 + GetUint16(stream[14..16])
  {
    var code := Encode(h);
    var family, length: nat := code[13], |code| - 16;
    assert code == Preamble(family, length) + code[16..];
    assert code + rest == Preamble(family, length) + (code[16..] + rest);
    PreambleReadsBack(family, length, code[16..] + rest);
  }

  /** Prefix code: no written header is a proper prefix of another, so a stream splits in one way only. */
  lemma PrefixCode(a: Header, x: Bytes, b: Header, y: Bytes)
    requires Formattable(a) && Formattable(b)
    requires Encode(a) + x == Encode(b) + y
    ensures Encode(a) == Encode(b) && x == y
  {
    EncodedLength(a, x);
    EncodedLength(b, y);
    var n := |Encode(a)|;
    assert (Encode(a) + x)[..n] == Encode(a) && (Encode(b) + y)[..n] == Encode(b);
    assert (Encode(a) + x)[n..] == x && (Encode(b) + y)[n..] == y;
  }

  // ---------------------------------------------------------------- re-encoding what was parsed

  predicate IsMapped(ip: Bytes) {
    |ip| == 16 && ip[..12] == MAPPED_PREFIX
  }

  const ZERO_IPV4: Bytes := [0, 0, 0, 0]

  /** What a relay loses when it re-encodes h: nothing, or the local IP alone. */
  lemma ReadBackOfParsed(h: Header)
    requires Formattable(h) && CarriesAddresses(h) && IsPort(h.remote.port) && IsPort(h.local.port)
    requires h.remote.zone == h.local.zone == ""
    requires |h.remote.ip| == |h.local.ip| && |h.remote.ip| in {4, 16}
    ensures SameHeader(ReadBack(h), h) <==> (IsMapped(h.remote.ip) ==> IsMapped(h.local.ip))
    ensures !SameHeader(ReadBack(h), h) ==>
              SameAddr(ReadBack(h).remote, h.remote) && ReadBack(h).local == h.local.(ip := ZERO_IPV4)
  {
    ReadBackExactly(h);
    if IsMapped(h.remote.ip) {
      assert h.remote.ip == MAPPED_PREFIX + To4(h.remote.ip).value;
      assert Field([], 4) == ZERO_IPV4;
    }
  }

  /** A relay that writes what it parsed loses something only when the remote IP alone is IPv4-mapped. */
  lemma ReencodingExactly(self: Header, family: byte, payload: Bytes, rest: Bytes, ending: ReadError)
    requires Parse(family, payload).Ok?
    ensures var h := Parse(family, payload).value;
            && Formattable(h) && CarriesAddresses(h)
            && var o := Decode(self, Encode(h) + rest, ending);
               && o.result.Ok? && o.rest == rest
               && (SameHeader(o.result.value, h) <==> (IsMapped(h.remote.ip) ==> IsMapped(h.local.ip)))
               && (!SameHeader(o.result.value, h) ==>
                     && SameAddr(o.result.value.remote, h.remote)
                     && o.result.value.local == h.local.(ip := ZERO_IPV4))
  {
    var h := Parse(family, payload).value;
    EncodedReadsBack(self, h, rest, ending);
    ReadBackOfParsed(h);
  }

  // ---------------------------------------------------------------- byte accounting

  /** The verdict was reached without meeting the end of the stream. */
  predicate Decided(o: Outcome) {
    !(o.result.Err? && o.result.error.ReadFailed?)
  }

  /** The bytes a decided verdict depends on: the preamble, and the payload when signature and version are right. */
  function HeaderSize(stream: Bytes): nat
    requires |stream| >= 16
  {
    if stream[0..12] == SIGNATURE && stream[12] / 16 == VERSION then 16 + GetUint16(stream[14..16]) else 16
  }

  /** Exactly the header is consumed, whatever the verdict; a stream cut short is consumed whole. */
  lemma ByteAccounting(self: Header, stream: Bytes, ending: ReadError)
    ensures var o := Decode(self, stream, ending);
            && (Decided(o) <==> |stream| >= 16 && |stream| >= HeaderSize(stream))
            && (Decided(o) ==> o.rest == stream[HeaderSize(stream)..])
            && (!Decided(o) ==> o.rest == [])
  {
  }

  /** Nothing past the header influences the verdict, and nothing past it is touched. */
  lemma NoReadAhead(self: Header, stream: Bytes, ending: ReadError, more: Bytes, ending': ReadError)
    requires Decided(Decode(self, stream, ending))
    ensures var o := Decode(self, stream, ending);
            Decode(self, stream + more, ending') == Outcome(o.result, o.rest + more)
  {
    var longer := stream + more;
    assert longer[0..12] == stream[0..12] && longer[14..16] == stream[14..16];
    var n := HeaderSize(stream);
    assert longer[16..n] == stream[16..n];
    assert longer[n..] == stream[n..] + more;
    assert longer[16..] == stream[16..] + more;
  }

  function AddressBlock(family: byte): nat {
    if family == FAMILY_TCP4 || family == FAMILY_UDP4 then 12 else 36
  }

  /** Bytes after the address block never change the parsed header. */
  lemma ExtensionBytesIgnored(family: byte, payload: Bytes, extension: Bytes)
    requires |payload| >= AddressBlock(family)
    ensures Parse(family, payload + extension) == Parse(family, payload[..AddressBlock(family)])
  {
    var n, longer := AddressBlock(family), payload + extension;
    var block := payload[..n];
    assert longer[..n] == block;
    assert forall i, j :: 0 <= i <= j <= n ==> longer[i..j] == block[i..j];
  }
}
