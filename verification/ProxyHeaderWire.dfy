/** The PROXY protocol version 2 header as bytes: section 2.2 of the protocol specification with its numbers written
    out. */
module ProxyHeaderWire {
  import opened Prelude
  import opened ByteStream
  import opened ProxyHeader
  import opened ProxyHeaderTheorems

  // ---------------------------------------------------------------- what a reader makes of a stream

  function Number(high: byte, low: byte): nat {
    256 * high + low
  }

  predicate HasSignature(s: Bytes) {
    |s| >= 12 && s[..12] == [0x0D, 0x0A, 0x0D, 0x0A, 0x00, 0x0D, 0x0A, 0x51, 0x55, 0x49, 0x54, 0x0A]
  }

  /** Signature, version 2, and this command. */
  predicate IsVersion2(s: Bytes, command: nat) {
    |s| >= 16 && HasSignature(s) && s[12] == 0x20 + command
  }

  function PayloadLength(s: Bytes): nat
    requires |s| >= 16
  {
    Number(s[14], s[15])
  }

  /** A whole header with this command: its payload has arrived. */
  predicate IsWhole(s: Bytes, command: nat) {
    IsVersion2(s, command) && |s| >= 16 + PayloadLength(s)
  }

  /** A whole header that proxies addresses of this family, with room for them. */
  predicate Proxies(s: Bytes, family: byte, room: nat) {
    IsWhole(s, 1) && s[13] == family && PayloadLength(s) >= room
  }

  /** The header that a whole, good header announces; the connection itself is between the addresses of self. */
  ghost predicate Announces(self: Header, s: Bytes, h: Header) {
    || (IsWhole(s, 0) && h.remote == self.remote && h.local == self.local)
    || (Proxies(s, 0x11, 12)
        && h.remote == TCPAddr(s[16..20], Number(s[24], s[25]), "")
        && h.local == TCPAddr(s[20..24], Number(s[26], s[27]), ""))
    || (Proxies(s, 0x12, 12)
        && h.remote == UDPAddr(s[16..20], Number(s[24], s[25]), "")
        && h.local == UDPAddr(s[20..24], Number(s[26], s[27]), ""))
    || (Proxies(s, 0x21, 36)
        && h.remote == TCPAddr(s[16..32], Number(s[48], s[49]), "")
        && h.local == TCPAddr(s[32..48], Number(s[50], s[51]), ""))
    || (Proxies(s, 0x22, 36)
        && h.remote == UDPAddr(s[16..32], Number(s[48], s[49]), "")
        && h.local == UDPAddr(s[32..48], Number(s[50], s[51]), ""))
  }

  /** What a read that meets the end of the stream reports: end of file only if it found no byte at all. */
  predicate IsShort(found: nat, ending: ReadError, e: ReadError) {
    e == if found > 0 && ending == EOF then UnexpectedEOF else ending
  }

  /** Why, and after how many bytes, a stream is refused. */
  ghost predicate Refuses(s: Bytes, ending: ReadError, e: HeaderError, consumed: nat) {
    match e
    case ReadFailed(cause) =>
      && consumed == |s|
      && if |s| < 16 then IsShort(|s|, ending, cause)
         else HasSignature(s) && s[12] / 16 == 2 && |s| < 16 + PayloadLength(s) && IsShort(|s| - 16, ending, cause)
    case NotProxied => |s| >= 16 && !HasSignature(s) && consumed == 16
    case UnsupportedVersion => |s| >= 16 && HasSignature(s) && s[12] / 16 != 2 && consumed == 16
    case UnsupportedCommand(command) => 2 <= command < 16 && IsWhole(s, command) && consumed == 16 + PayloadLength(s)
    case UnsupportedFamily(family) =>
      && IsWhole(s, 1) && family == s[13] && family !in {0x11, 0x12, 0x21, 0x22}
      && consumed == 16 + PayloadLength(s)
    case HeaderTooShort =>
      && IsWhole(s, 1) && consumed == 16 + PayloadLength(s)
      && ((s[13] in {0x11, 0x12} && PayloadLength(s) < 12) || (s[13] in {0x21, 0x22} && PayloadLength(s) < 36))
  }

  /** The outcome of reading a header from s: the addresses announced, or the reason for refusal; and what is left. */
  ghost predicate OnTheWire(self: Header, s: Bytes, ending: ReadError, r: Result<Header, HeaderError>, rest: Bytes) {
    match r
    case Ok(h) => Announces(self, s, h) && rest == s[16 + PayloadLength(s)..]
    case Err(e) => exists consumed :: 0 <= consumed <= |s| && Refuses(s, ending, e, consumed) && rest == s[consumed..]
  }

  lemma ParsesAsAnnounced(self: Header, s: Bytes, payload: Bytes)
    requires IsWhole(s, 1) && payload == s[16..16 + PayloadLength(s)]
    ensures match Parse(s[13], payload)
            case Ok(h) => Announces(self, s, h)
            case Err(e) => Refuses(s, EOF, e, 16 + PayloadLength(s)) && !e.ReadFailed?
  {
    forall i, j | 0 <= i <= j <= |payload|
      ensures payload[i..j] == s[16 + i..16 + j]
    {
      SliceOfSlice(s, 16, 16 + PayloadLength(s), i, j);
    }
    assert |payload| >= 12 ==> GetUint16(payload[8..10]) == Number(s[24], s[25]);
    assert |payload| >= 12 ==> GetUint16(payload[10..12]) == Number(s[26], s[27]);
    assert |payload| >= 36 ==> GetUint16(payload[32..34]) == Number(s[48], s[49]);
    assert |payload| >= 36 ==> GetUint16(payload[34..36]) == Number(s[50], s[51]);
  }

  lemma AnnouncesOne(self: Header, s: Bytes, h: Header, h': Header)
    requires Announces(self, s, h) && Announces(self, s, h')
    ensures h == h' && |s| >= 16 + PayloadLength(s)
    ensures forall ending, e, consumed :: !Refuses(s, ending, e, consumed)
  {
  }

  lemma RefusesOne(s: Bytes, ending: ReadError, e: HeaderError, consumed: nat, e': HeaderError, consumed': nat)
    requires Refuses(s, ending, e, consumed) && Refuses(s, ending, e', consumed')
    ensures e == e' && consumed == consumed'
  {
  }

  lemma OutcomeOnTheWire(self: Header, s: Bytes, ending: ReadError)
    ensures var o := Decode(self, s, ending);
            OnTheWire(self, s, ending, o.result, o.rest)
  {
    var o := Decode(self, s, ending);
    if |s| < 16 {
      assert Refuses(s, ending, o.result.error, |s|);
    } else if !HasSignature(s) || s[12] / 16 != 2 {
      assert Refuses(s, ending, o.result.error, 16);
    } else if |s| < 16 + PayloadLength(s) {
      assert Refuses(s, ending, o.result.error, |s|);
    } else if s[12] % 16 == 1 {
      ParsesAsAnnounced(self, s, s[16..16 + PayloadLength(s)]);
      assert o.result.Err? ==> Refuses(s, ending, o.result.error, 16 + PayloadLength(s));
    } else if s[12] % 16 >= 2 {
      assert Refuses(s, ending, o.result.error, 16 + PayloadLength(s));
    }
  }

  lemma WireIsUnambiguous(self: Header, s: Bytes, ending: ReadError, o: Outcome, o': Outcome)
    requires OnTheWire(self, s, ending, o.result, o.rest) && OnTheWire(self, s, ending, o'.result, o'.rest)
    ensures o == o'
  {
    if o.result.Ok? && o'.result.Ok? {
      AnnouncesOne(self, s, o.result.value, o'.result.value);
    } else if o.result.Ok? {
      AnnouncesOne(self, s, o.result.value, o.result.value);
    } else if o'.result.Ok? {
      AnnouncesOne(self, s, o'.result.value, o'.result.value);
    } else {
      var n: nat :| n <= |s| && Refuses(s, ending, o.result.error, n) && o.rest == s[n..];
      var n': nat :| n' <= |s| && Refuses(s, ending, o'.result.error, n') && o'.rest == s[n'..];
      RefusesOne(s, ending, o.result.error, n, o'.result.error, n');
    }
  }

  /** What ReadHeader makes of every stream, byte for byte: this and nothing else. */
  lemma ReadsTheWire(self: Header, s: Bytes, ending: ReadError, r: Result<Header, HeaderError>, rest: Bytes)
    ensures Decode(self, s, ending) == Outcome(r, rest) <==> OnTheWire(self, s, ending, r, rest)
  {
    OutcomeOnTheWire(self, s, ending);
    if OnTheWire(self, s, ending, r, rest) {
      WireIsUnambiguous(self, s, ending, Outcome(r, rest), Decode(self, s, ending));
    }
  }

  // ---------------------------------------------------------------- what a writer puts on the wire

  /** The IPv4 address with these four bytes, in its own form or mapped into IPv6. */
  predicate IsIPv4Form(ip: Bytes, four: Bytes) {
    |four| == 4 && (ip == four || ip == [0, 0, 0, 0, 0, 0, 0, 0, 0, 0, 0xFF, 0xFF] + four)
  }

  /** Signature, version 2 and command 1, family and length. */
  function Start(family: byte, length: byte): Bytes {
    [0x0D, 0x0A, 0x0D, 0x0A, 0x00, 0x0D, 0x0A, 0x51, 0x55, 0x49, 0x54, 0x0A, 0x21, family, 0, length]
  }

  function Ports(remote: int, local: int): Bytes
    requires IsPort(remote) && IsPort(local)
  {
    [remote / 256, remote % 256, local / 256, local % 256]
  }

  lemma PreambleBytes(family: byte, length: byte)
    ensures Preamble(family, length) == Start(family, length)
  {
    assert PutUint16(length) == [0, length];
  }

  lemma PortBytes(remote: int, local: int)
    requires IsPort(remote) && IsPort(local)
    ensures PutUint16(remote) + PutUint16(local) == Ports(remote, local)
  {
    assert PutUint16(remote) == [remote / 256, remote % 256];
    assert PutUint16(local) == [local / 256, local % 256];
  }

  lemma To4OfForm(ip: Bytes, four: Bytes)
    requires IsIPv4Form(ip, four)
    ensures To4(ip) == Some(four) && Field(OrEmpty(To4(ip)), 4) == four
  {
    if ip != four {
      assert ip[..12] == MAPPED_PREFIX && ip[12..] == four;
    }
  }

  /** IPv4 addresses, whatever their form: family 0x11 or 0x12, length 12, addresses, ports. */
  lemma WritesIPv4(h: Header, remote: Bytes, local: Bytes)
    requires Formattable(h) && CarriesAddresses(h) && IsPort(h.remote.port) && IsPort(h.local.port)
    requires IsIPv4Form(h.remote.ip, remote) && IsIPv4Form(h.local.ip, local)
    ensures Encode(h) == Start(if h.remote.TCPAddr? then 0x11 else 0x12, 12)
                         + remote + local + Ports(h.remote.port, h.local.port)
  {
    To4OfForm(h.remote.ip, remote);
    To4OfForm(h.local.ip, local);
    PreambleBytes(if h.remote.TCPAddr? then 0x11 else 0x12, 12);
    PortBytes(h.remote.port, h.local.port);
    var addresses := Start(if h.remote.TCPAddr? then 0x11 else 0x12, 12) + remote + local;
    Associate(addresses, PutUint16(h.remote.port), PutUint16(h.local.port));
  }

  /** IPv6 addresses, the remote one not an IPv4 address in disguise: family 0x21 or 0x22, length 36. */
  lemma WritesIPv6(h: Header)
    requires Formattable(h) && CarriesAddresses(h) && IsPort(h.remote.port) && IsPort(h.local.port)
    requires |h.remote.ip| == |h.local.ip| == 16
    requires h.remote.ip[..12] != [0, 0, 0, 0, 0, 0, 0, 0, 0, 0, 0xFF, 0xFF]
    ensures Encode(h) == Start(if h.remote.TCPAddr? then 0x21 else 0x22, 36)
                         + h.remote.ip + h.local.ip + Ports(h.remote.port, h.local.port)
  {
    assert Field(h.remote.ip, 16) == h.remote.ip && Field(h.local.ip, 16) == h.local.ip;
    PreambleBytes(if h.remote.TCPAddr? then 0x21 else 0x22, 36);
    PortBytes(h.remote.port, h.local.port);
    var addresses := Start(if h.remote.TCPAddr? then 0x21 else 0x22, 36) + h.remote.ip + h.local.ip;
    Associate(addresses, PutUint16(h.remote.port), PutUint16(h.local.port));
  }

  /** Addresses of other kinds: an unspecified family, and nothing else. */
  lemma WritesUnspecified(h: Header)
    requires !CarriesAddresses(h)
    ensures Encode(h) == Start(0x00, 0)
  {
    PreambleBytes(0x00, 0);
  }
}
