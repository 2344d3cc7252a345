/** proxy/header.go: the PROXY protocol version 2 header, read from a fragmented stream and written to a buffer. */
module ProxyHeader {
  import opened Prelude
  import opened ByteStream

  const SIGNATURE: Bytes := [0x0D, 0x0A, 0x0D, 0x0A, 0x00, 0x0D, 0x0A, 0x51, 0x55, 0x49, 0x54, 0x0A]
  const VERSION := 2
  const COMMAND_LOCAL := 0x00
  const COMMAND_PROXY := 0x01
  const FAMILY_UNSPECIFIED: byte := 0x00
  const FAMILY_TCP4: byte := 0x11
  const FAMILY_UDP4: byte := 0x12
  const FAMILY_TCP6: byte := 0x21
  const FAMILY_UDP6: byte := 0x22

  /** net.Addr: the two kinds the header can carry, and any other kind. An IP may have any length, as net.IP may; the
      zone names the interface of a link-local IPv6 address. */
  datatype Addr =
    | TCPAddr(ip: Bytes, port: int, zone: string)
    | UDPAddr(ip: Bytes, port: int, zone: string)
    | OtherAddr(name: string)

  datatype Header = Header(remote: Addr, local: Addr)

  datatype HeaderError =
    | ReadFailed(cause: ReadError)
    | NotProxied
    | UnsupportedVersion
    | UnsupportedCommand(command: nat)
    | UnsupportedFamily(family: byte)
    | HeaderTooShort

  /** What reading one header does to a stream: the verdict, and the bytes left unread. */
  datatype Outcome = Outcome(result: Result<Header, HeaderError>, rest: Bytes)

  // ---------------------------------------------------------------- integers and addresses

  function GetUint16(b: Bytes): nat
    requires |b| == 2
  {
    var high: nat, low: nat := b[0], b[1];
    high * 256 + low
  }

  /** The two big-endian bytes of uint16(n): the conversion keeps the low sixteen bits. */
  function PutUint16(n: int): (b: Bytes)
    ensures |b| == 2 && GetUint16(b) == n % 0x1_0000
  {
    var low := n % 0x1_0000;
    [low / 256, low % 256]
  }

  const MAPPED_PREFIX: Bytes := [0, 0, 0, 0, 0, 0, 0, 0, 0, 0, 0xFF, 0xFF]

  /** net.IP.To4: the four-byte form of an IPv4 or IPv4-mapped address. */
  function To4(ip: Bytes): (r: Option<Bytes>)
    ensures r.Some? ==> |r.value| == 4
  {
    if |ip| == 4 then Some(ip)
    else if |ip| == 16 && ip[..12] == MAPPED_PREFIX then Some(ip[12..])
    else None
  }

  predicate IsIPv4(ip: Bytes) {
    To4(ip).Some?
  }

  /** net.IP.Equal: an IPv4 address and its IPv4-mapped form are the same address. */
  predicate SameIP(a: Bytes, b: Bytes) {
    if |a| == |b| then a == b
    else if |a| == 4 && |b| == 16 then b == MAPPED_PREFIX + a
    else |a| == 16 && |b| == 4 && a == MAPPED_PREFIX + b
  }

  predicate SameAddr(a: Addr, b: Addr) {
    match (a, b)
    case (TCPAddr(i, p, z), TCPAddr(j, q, y)) => SameIP(i, j) && p == q && z == y
    case (UDPAddr(i, p, z), UDPAddr(j, q, y)) => SameIP(i, j) && p == q && z == y
    case _ => a == b
  }

  predicate SameHeader(a: Header, b: Header) {
    SameAddr(a.remote, b.remote) && SameAddr(a.local, b.local)
  }

  // ---------------------------------------------------------------- reading

  /** parseProxyHeader. */
  function Parse(family: byte, payload: Bytes): Result<Header, HeaderError> {
    if family == FAMILY_TCP4 then
      if |payload| < 12 then Err(HeaderTooShort) else
      Ok(Header(TCPAddr(payload[0..4], GetUint16(payload[8..10]), ""),
                TCPAddr(payload[4..8], GetUint16(payload[10..12]), "")))
    else if family == FAMILY_UDP4 then
      if |payload| < 12 then Err(HeaderTooShort) else
      Ok(Header(UDPAddr(payload[0..4], GetUint16(payload[8..10]), ""),
                UDPAddr(payload[4..8], GetUint16(payload[10..12]), "")))
    else if family == FAMILY_TCP6 then
      if |payload| < 36 then Err(HeaderTooShort) else
      Ok(Header(TCPAddr(payload[0..16], GetUint16(payload[32..34]), ""),
                TCPAddr(payload[16..32], GetUint16(payload[34..36]), "")))
    else if family == FAMILY_UDP6 then
      if |payload| < 36 then Err(HeaderTooShort) else
      Ok(Header(UDPAddr(payload[0..16], GetUint16(payload[32..34]), ""),
                UDPAddr(payload[16..32], GetUint16(payload[34..36]), "")))
    else Err(UnsupportedFamily(family))
  }

  /** The verdict on a header whose signature and version are right and whose payload has arrived. */
  function Interpret(self: Header, command: nat, family: byte, payload: Bytes): Result<Header, HeaderError> {
    if command == COMMAND_LOCAL then Ok(self)
    else if command == COMMAND_PROXY then Parse(family, payload)
    else Err(UnsupportedCommand(command))
  }

  /** ReadHeader on a stream seen as one byte sequence; self holds the connection's own addresses. */
  function Decode(self: Header, stream: Bytes, ending: ReadError): Outcome {
    if |stream| < 16 then Outcome(Err(ReadFailed(ShortRead(|stream|, ending))), [])
    else if stream[0..12] != SIGNATURE then Outcome(Err(NotProxied), stream[16..])
    else if stream[12] / 16 != VERSION then Outcome(Err(UnsupportedVersion), stream[16..])
    else
      var length := GetUint16(stream[14..16]);
      if |stream| < 16 + length then Outcome(Err(ReadFailed(ShortRead(|stream| - 16, ending))), [])
      else Outcome(Interpret(self, stream[12] % 16, stream[13], stream[16..16 + length]), stream[16 + length..])
  }

  /** ReadHeader: two buffered reads from a stream that may be cut up in any way. */
  method ReadHeader(self: Header, conn: Reader) returns (r: Result<Header, HeaderError>)
    modifies conn
    ensures Outcome(r, Unread(conn.chunks)) == Decode(self, Unread(old(conn.chunks)), Ending(old(conn.chunks)))
    ensures Ending(conn.chunks) == Ending(old(conn.chunks))
  {
    ghost var stream := Unread(conn.chunks);
    var preamble := new byte[16];
    var err := ReadFull(conn, preamble);
    if err.Some? {
      return Err(ReadFailed(err.value));
    }
    assert forall i :: 0 <= i < 16 ==> preamble[i] == stream[i];
    assert preamble[..][0..12] == stream[0..12] && preamble[..][14..16] == stream[14..16];
    var signature := preamble[0..12];
    var version, command := preamble[12] / 16, preamble[12] % 16;
    var family := preamble[13];
    var length := GetUint16(preamble[14..16]);
    if signature != SIGNATURE {
      return Err(NotProxied);
    }
    if version != VERSION {
      return Err(UnsupportedVersion);
    }
    var payload := new byte[length];
    err := ReadFull(conn, payload);
    if err.Some? {
      return Err(ReadFailed(err.value));
    }
    assert stream[16..][..length] == stream[16..16 + length];
    assert stream[16..][length..] == stream[16 + length..];
    r := Interpret(self, command, family, payload[..]);
  }

  // ---------------------------------------------------------------- writing

  /** What copy leaves in a zeroed field of the given width. */
  function Field(src: Bytes, width: nat): (b: Bytes)
    ensures |b| == width
  {
    Take(src, width) + seq(width - |Take(src, width)|, _ => 0)
  }

  /** The argument of copy: a nil slice copies nothing. */
  function OrEmpty(b: Option<Bytes>): Bytes {
    if b.Some? then b.value else []
  }

  function Preamble(family: byte, length: nat): (b: Bytes)
    ensures |b| == 16
  {
    SIGNATURE + [VERSION * 16 + COMMAND_PROXY, family] + PutUint16(length)
  }

  function EncodeIPv4(family: byte, remoteIP: Bytes, localIP: Bytes, remotePort: int, localPort: int): Bytes {
    Preamble(family, 12) + Field(OrEmpty(To4(remoteIP)), 4) + Field(OrEmpty(To4(localIP)), 4)
    + PutUint16(remotePort) + PutUint16(localPort)
  }

  function EncodeIPv6(family: byte, remoteIP: Bytes, localIP: Bytes, remotePort: int, localPort: int): Bytes {
    Preamble(family, 36) + Field(remoteIP, 16) + Field(localIP, 16)
    + PutUint16(remotePort) + PutUint16(localPort)
  }

  /** Format asserts that both addresses are of the same kind, and panics when they are not. */
  predicate Formattable(h: Header) {
    && (h.remote.TCPAddr? ==> h.local.TCPAddr?)
    && (h.remote.UDPAddr? ==> h.local.UDPAddr?)
  }

  function Encode(h: Header): Bytes
    requires Formattable(h)
  {
    match h.remote
    case TCPAddr(ip, port, _) =>
      if IsIPv4(ip) then EncodeIPv4(FAMILY_TCP4, ip, h.local.ip, port, h.local.port)
      else EncodeIPv6(FAMILY_TCP6, ip, h.local.ip, port, h.local.port)
    case UDPAddr(ip, port, _) =>
      if IsIPv4(ip) then EncodeIPv4(FAMILY_UDP4, ip, h.local.ip, port, h.local.port)
      else EncodeIPv6(FAMILY_UDP6, ip, h.local.ip, port, h.local.port)
    case OtherAddr(_) => Preamble(FAMILY_UNSPECIFIED, 0)
  }

  /** copy(dst[lo:hi], src): copies as much of src as fits and leaves everything else alone. */
  method CopyInto(dst: array<byte>, lo: nat, hi: nat, src: Bytes)
    requires lo <= hi <= dst.Length
    modifies dst
    ensures forall i :: 0 <= i < dst.Length ==>
              dst[i] == if lo <= i < hi && i - lo < |src| then src[i - lo] else old(dst[i])
  {
    var data := Take(src, hi - lo);
    forall i | 0 <= i < |data| {
      dst[lo + i] := data[i];
    }
  }

  method FormatIPv4Header(family: byte, remoteIP: Bytes, localIP: Bytes, remotePort: int, localPort: int)
    returns (header: array<byte>)
    ensures fresh(header) && header[..] == EncodeIPv4(family, remoteIP, localIP, remotePort, localPort)
  {
    header := new byte[28](_ => 0);
    CopyInto(header, 0, 12, SIGNATURE);
    header[12] := VERSION * 16 + COMMAND_PROXY;
    header[13] := family;
    CopyInto(header, 14, 16, PutUint16(12));
    assert header[..16] == Preamble(family, 12);
    CopyInto(header, 16, 20, OrEmpty(To4(remoteIP)));
    assert header[..20] == Preamble(family, 12) + Field(OrEmpty(To4(remoteIP)), 4);
    CopyInto(header, 20, 24, OrEmpty(To4(localIP)));
    assert header[..24] == Preamble(family, 12) + Field(OrEmpty(To4(remoteIP)), 4) + Field(OrEmpty(To4(localIP)), 4);
    CopyInto(header, 24, 26, PutUint16(remotePort));
    CopyInto(header, 26, 28, PutUint16(localPort));
  }

  method FormatIPv6Header(family: byte, remoteIP: Bytes, localIP: Bytes, remotePort: int, localPort: int)
    returns (header: array<byte>)
    ensures fresh(header) && header[..] == EncodeIPv6(family, remoteIP, localIP, remotePort, localPort)
  {
    header := new byte[52](_ => 0);
    CopyInto(header, 0, 12, SIGNATURE);
    header[12] := VERSION * 16 + COMMAND_PROXY;
    header[13] := family;
    CopyInto(header, 14, 16, PutUint16(36));
    assert header[..16] == Preamble(family, 36);
    CopyInto(header, 16, 32, remoteIP);
    assert header[..32] == Preamble(family, 36) + Field(remoteIP, 16);
    CopyInto(header, 32, 48, localIP);
    assert header[..48] == Preamble(family, 36) + Field(remoteIP, 16) + Field(localIP, 16);
    CopyInto(header, 48, 50, PutUint16(remotePort));
    CopyInto(header, 50, 52, PutUint16(localPort));
  }

  /** formatUnspecifiedHeader: the length field stays zero. */
  method FormatUnspecifiedHeader() returns (header: array<byte>)
    ensures fresh(header) && header[..] == Preamble(FAMILY_UNSPECIFIED, 0)
  {
    header := new byte[16](_ => 0);
    CopyInto(header, 0, 12, SIGNATURE);
    header[12] := VERSION * 16 + COMMAND_PROXY;
    header[13] := FAMILY_UNSPECIFIED;
  }

  method Format(h: Header) returns (header: array<byte>)
    requires Formattable(h)
    ensures fresh(header) && header[..] == Encode(h)
  {
    match h.remote
    case TCPAddr(ip, port, _) =>
      if IsIPv4(ip) {
        header := FormatIPv4Header(FAMILY_TCP4, ip, h.local.ip, port, h.local.port);
      } else {
        header := FormatIPv6Header(FAMILY_TCP6, ip, h.local.ip, port, h.local.port);
      }
    case UDPAddr(ip, port, _) =>
      if IsIPv4(ip) {
        header := FormatIPv4Header(FAMILY_UDP4, ip, h.local.ip, port, h.local.port);
      } else {
        header := FormatIPv6Header(FAMILY_UDP6, ip, h.local.ip, port, h.local.port);
      }
    case OtherAddr(_) =>
      header := FormatUnspecifiedHeader();
  }
}
