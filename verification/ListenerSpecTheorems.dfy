/** The specification grammar: printing and parsing are inverse on exactly the writable listeners. */
module ListenerSpecTheorems {
  import opened Prelude
  import opened Strings
  import opened ListenerSpec

  /** A specification with a type: the type ends at the first colon. */
  lemma TypedSpec(net: Net, kind: string, arg: string)
    requires ':' !in kind
    ensures Resolve(net, kind + ":" + arg) == ResolveType(net, kind, map[], arg)
  {
    FirstSeparator(kind, ':', arg);
    assert kind + ":" + arg == kind + [':'] + arg;
  }

  lemma PrintIsNotEmpty(t: Shape)
    ensures Print(t) != ""
  {
  }

  lemma CertReadsBack(cert: CertSource)
    ensures CertWritable(cert) <==> ':' !in CertText(cert) && ParseCert(CertText(cert)) == cert
  {
    if cert.Automatic? {
      JoinAvoids(cert.hostnames, ',', ':');
      if CertWritable(cert) {
        SplitJoin(cert.hostnames, ',');
        FirstCharacter(cert.hostnames);
      } else if ParseCert(CertText(cert)) == cert {
        forall i | 0 <= i < |cert.hostnames|
          ensures ',' !in cert.hostnames[i]
        {
          SplitAvoids(CertText(cert), ',', i);
        }
        FirstCharacter(cert.hostnames);
      }
    }
  }

  /** Joined hostnames start with a slash just when the first one does. */
  lemma FirstCharacter(hostnames: seq<string>)
    requires hostnames != []
    ensures HasPrefix(Join(hostnames, ','), '/') <==> HasPrefix(hostnames[0], '/')
  {
  }

  lemma NumbersHaveNoColon(s: string)
    requires IsInt(s)
    ensures ':' !in s
  {
  }

  lemma TCPReadsBack(net: Net, ip: string, port: string)
    requires SocketWritable(net, TCP(ip, port))
    ensures Resolve(net, "tcp" + ":" + TCPText(ip, port)) == Ok(Leaf(TCP(ip, port)))
  {
    NumbersHaveNoColon(port);
    TypedSpec(net, "tcp", TCPText(ip, port));
    assert ip != "" ==> TCPText(ip, port)[|ip| + 2] == ':';
  }

  lemma SocketReadsBack(net: Net, s: Socket)
    requires SocketWritable(net, s)
    ensures Resolve(net, Print(Leaf(s))) == Ok(Leaf(s))
  {
    match s {
      case FD(fd) => TypedSpec(net, "fd", fd);
      case FDName(name) => TypedSpec(net, "fdname", name);
      case Unix(path) => TypedSpec(net, "unix", path);
      case TCP(ip, port) => TCPReadsBack(net, ip, port);
    }
  }

  lemma WrapperTypes(net: Net, params: Params, arg: string)
    ensures ResolveType(net, "proxy", params, arg) == ResolveProxy(net, params, arg)
    ensures ResolveType(net, "tls", params, arg) == ResolveTLS(net, params, arg)
  {
    assert "tls"[1] != "tcp"[1];
  }

  lemma TLSArgument(net: Net, text: string, rest: string)
    requires ':' !in text && Resolve(net, rest).Ok?
    ensures ResolveTLS(net, map[], text + ":" + rest)
            == Ok(TLS(ParseCert(text), Protocols(ParseCert(text)), "", Resolve(net, rest).value))
  {
    FirstSeparator(text, ':', rest);
    assert text + ":" + rest == text + [':'] + rest;
  }

  lemma TypedTLS(net: Net, arg: string)
    ensures Resolve(net, "tls" + ":" + arg) == ResolveTLS(net, map[], arg)
  {
    TypedSpec(net, "tls", arg);
    WrapperTypes(net, map[], arg);
  }

  lemma TLSReadsBack(net: Net, cert: CertSource, inner: Shape, rest: string)
    requires CertWritable(cert) && Resolve(net, rest) == Ok(inner)
    ensures Resolve(net, "tls" + ":" + (CertText(cert) + ":" + rest)) == Ok(TLS(cert, Protocols(cert), "", inner))
  {
    CertReadsBack(cert);
    TypedTLS(net, CertText(cert) + ":" + rest);
    TLSArgument(net, CertText(cert), rest);
  }

  /** Printing a writable listener and opening the text denotes the same listener, at any depth of nesting. */
  lemma {:induction false} ParsePrint(net: Net, t: Shape)
    requires Writable(net, t)
    ensures Resolve(net, Print(t)) == Ok(t)
    decreases t
  {
    match t {
      case Leaf(s) => SocketReadsBack(net, s);
      case Proxy(inner) =>
        ParsePrint(net, inner);
        PrintIsNotEmpty(inner);
        TypedSpec(net, "proxy", Print(inner));
        WrapperTypes(net, map[], Print(inner));
      case TLS(cert, _, _, inner) =>
        ParsePrint(net, inner);
        TLSReadsBack(net, cert, inner, Print(inner));
    }
  }

  lemma CertTextOfParsed(text: string)
    ensures CertText(ParseCert(text)) == text
  {
    JoinSplit(text, ',');
  }

  lemma SocketIfReadsBack(net: Net, s: Socket)
    requires Resolve(net, Print(Leaf(s))) == Ok(Leaf(s))
    ensures SocketWritable(net, s)
  {
    match s {
      case FD(fd) => TypedSpec(net, "fd", fd);
      case FDName(name) => TypedSpec(net, "fdname", name);
      case Unix(path) => TypedSpec(net, "unix", path);
      case TCP(ip, port) =>
        TypedSpec(net, "tcp", TCPText(ip, port));
        assert ip != "" ==> TCPText(ip, port)[|ip| + 2] == ':';
    }
  }

  /** What a TLS argument denotes, when anything. */
  lemma TLSParsed(net: Net, arg: string)
    requires arg != "" && ResolveTLS(net, map[], arg).Ok?
    ensures var i, t := IndexByte(arg, ':'), ResolveTLS(net, map[], arg).value;
            && i >= 0 && t.TLS? && t.cert == ParseCert(arg[..i]) && t.protocols == Protocols(t.cert)
            && t.defaultName == "" && Resolve(net, arg[i + 1..]) == Ok(t.inner)
  {
  }

  lemma CertIfReadsBack(net: Net, cert: CertSource, protocols: seq<string>, name: string, inner: Shape)
    requires Resolve(net, Print(TLS(cert, protocols, name, inner))) == Ok(TLS(cert, protocols, name, inner))
    ensures CertWritable(cert) && protocols == Protocols(cert) && name == ""
    ensures Resolve(net, Print(inner)) == Ok(inner)
  {
    var text, rest := CertText(cert), Print(inner);
    var arg := text + ":" + rest;
    TypedTLS(net, arg);
    TLSParsed(net, arg);
    var i := IndexByte(arg, ':');
    CertTextOfParsed(arg[..i]);
    assert |arg[..i]| == |text|;
    assert arg[..i] == text && arg[i + 1..] == rest;
    CertReadsBack(cert);
  }

  lemma {:induction false} WritableIfReadsBack(net: Net, t: Shape)
    requires Resolve(net, Print(t)) == Ok(t)
    ensures Writable(net, t)
    decreases t
  {
    match t {
      case Leaf(s) => SocketIfReadsBack(net, s);
      case Proxy(inner) =>
        PrintIsNotEmpty(inner);
        TypedSpec(net, "proxy", Print(inner));
        WritableIfReadsBack(net, inner);
      case TLS(cert, protocols, name, inner) =>
        CertIfReadsBack(net, cert, protocols, name, inner);
        WritableIfReadsBack(net, inner);
    }
  }

  /** The string notation reads back as the listener it was printed from exactly when the listener is writable. */
  lemma RoundTripExactly(net: Net, t: Shape)
    ensures Resolve(net, Print(t)) == Ok(t) <==> Writable(net, t)
  {
    if Writable(net, t) {
      ParsePrint(net, t);
    } else if Resolve(net, Print(t)) == Ok(t) {
      WritableIfReadsBack(net, t);
    }
  }

  // ---------------------------------------------------------------- every accepted specification has a canonical form

  /** Package net takes apart a bracketed form of any address it has produced. */
  ghost predicate Bracketable(net: Net) {
    forall arg, ip, port :: net.splitHostPort(arg) == Some((ip, port)) && net.isIP(ip) && IsInt(port) ==>
      net.splitHostPort("[" + ip + "]:" + port) == Some((ip, port))
  }

  lemma TCPIsWritable(net: Net, arg: string)
    requires Bracketable(net) && ResolveTCP(net, map[], arg).Ok?
    ensures SocketWritable(net, ResolveTCP(net, map[], arg).value)
  {
  }

  lemma ParsedCertIsWritable(text: string)
    requires ':' !in text
    ensures CertWritable(ParseCert(text))
  {
    CertTextOfParsed(text);
    CertReadsBack(ParseCert(text));
  }

  /** Whatever Open accepts as a string, it can write: printing the result and opening that is the same listener. */
  lemma {:induction false} AcceptedIsWritable(net: Net, spec: string)
    requires Bracketable(net) && Resolve(net, spec).Ok?
    ensures Writable(net, Resolve(net, spec).value)
    decreases |spec|, 0
  {
    var i := IndexByte(spec, ':');
    if i == -1 {
      TCPIsWritable(net, spec);
    } else {
      TypeIsWritable(net, spec[..i], spec[i + 1..]);
    }
  }

  lemma {:induction false} TypeIsWritable(net: Net, kind: string, arg: string)
    requires Bracketable(net) && ResolveType(net, kind, map[], arg).Ok?
    ensures Writable(net, ResolveType(net, kind, map[], arg).value)
    decreases |arg|, 2
  {
    if kind == "tcp" {
      TCPIsWritable(net, arg);
    } else if kind == "proxy" {
      WrapperTypes(net, map[], arg);
      AcceptedIsWritable(net, arg);
    } else if kind == "tls" || kind == "https" {
      TLSIsWritable(net, arg);
    }
  }

  lemma {:induction false} TLSIsWritable(net: Net, arg: string)
    requires Bracketable(net) && ResolveTLS(net, map[], arg).Ok?
    ensures Writable(net, ResolveTLS(net, map[], arg).value)
    decreases |arg|, 1
  {
    var i := IndexByte(arg, ':');
    ParsedCertIsWritable(arg[..i]);
    AcceptedIsWritable(net, arg[i + 1..]);
  }

  lemma CanonicalForm(net: Net, spec: string)
    requires Bracketable(net) && Resolve(net, spec).Ok?
    ensures Resolve(net, Print(Resolve(net, spec).value)) == Resolve(net, spec)
  {
    AcceptedIsWritable(net, spec);
    ParsePrint(net, Resolve(net, spec).value);
  }

  // ---------------------------------------------------------------- the JSON notation

  /** Arguments that the openers accept. */
  predicate Openable(net: Net, t: Shape) {
    match t
    case Leaf(FD(fd)) => IsUint64(fd)
    case Leaf(TCP(ip, port)) => (ip != "" ==> net.isIP(ip)) && IsInt(port)
    case Leaf(_) => true
    case Proxy(inner) => Openable(net, inner)
    case TLS(cert, protocols, _, inner) => protocols == Protocols(cert) && Openable(net, inner)
  }

  /** Its socket is not a TCP socket on a given address. */
  predicate PortOnly(t: Shape) {
    match t
    case Leaf(s) => s.TCP? ==> s.ip == ""
    case Proxy(inner) => PortOnly(inner)
    case TLS(_, _, _, inner) => PortOnly(inner)
  }

  /** Some TLS listener in it gets its certificates automatically. */
  predicate HasAutomatic(t: Shape) {
    match t
    case Leaf(_) => false
    case Proxy(inner) => HasAutomatic(inner)
    case TLS(cert, _, _, inner) => cert.Automatic? || HasAutomatic(inner)
  }

  /** What opening the JSON notation of an openable listener gives: decoded hostnames are not a []string, so such a
      listener has no certificate; and with an address, the port of a TCP socket is never read. */
  function FromJSON(origin: Origin, t: Shape): Result<Shape, OpenError> {
    if origin == Decoded && HasAutomatic(t) then Err(MissingCertificate)
    else if !PortOnly(t) then Err(InvalidPort)
    else Ok(t)
  }

  lemma TLSFromJSON(net: Net, origin: Origin, cert: CertSource, name: string, inner: Shape)
    ensures var r := ResolveJSON(net, ToJSON(origin, inner));
            ResolveJSON(net, ToJSON(origin, TLS(cert, Protocols(cert), name, inner)))
            == if origin == Decoded && cert.Automatic? then Err(MissingCertificate)
               else if r.Ok? then Ok(TLS(cert, Protocols(cert), name, r.value))
               else r
  {
    var fields := ToJSON(origin, TLS(cert, Protocols(cert), name, inner));
    assert HasText(fields, "type") && fields["type"].text == "tls";
    WrapperTypes(net, fields, "");
    assert CertFromParams(fields) == if origin == Decoded && cert.Automatic? then None else Some(cert);
    assert HasObject(fields, "listener") && fields["listener"].fields == ToJSON(origin, inner);
    assert DefaultName(fields) == name;
  }

  /** The JSON notation opens the listener it was written from, but for two losses: the first automatic certificate
      on the way down ends a decoded one, and an address at the bottom ends any. */
  lemma {:induction false} JSONExactly(net: Net, origin: Origin, t: Shape)
    requires Openable(net, t)
    ensures ResolveJSON(net, ToJSON(origin, t)) == FromJSON(origin, t)
    decreases t
  {
    match t {
      case Leaf(_) =>
      case Proxy(inner) =>
        JSONExactly(net, origin, inner);
        var fields := ToJSON(origin, t);
        assert HasText(fields, "type") && fields["type"].text == "proxy";
        assert HasObject(fields, "listener") && fields["listener"].fields == ToJSON(origin, inner);
        WrapperTypes(net, fields, "");
      case TLS(cert, _, name, inner) =>
        JSONExactly(net, origin, inner);
        TLSFromJSON(net, origin, cert, name, inner);
    }
  }

  /** An input that shows the first loss: certificates for example.com, on port 80. */
  lemma DecodedHostnamesAreLost(net: Net)
    ensures var inner := map["type" := Text("tcp"), "port" := Text("80")];
            var fields := map["type" := Text("tls"), "autocert_hostnames" := Array([Text("example.com")]),
                              "listener" := Object(inner)];
            && ResolveJSON(net, fields) == Err(MissingCertificate)
            && ResolveJSON(net, fields["autocert_hostnames" := Strings(["example.com"])])
               == Ok(TLS(Automatic(["example.com"]), Protocols(Automatic(["example.com"])), "", Leaf(TCP("", "80"))))
  {
    var inner := map["type" := Text("tcp"), "port" := Text("80")];
    var fields := map["type" := Text("tls"), "autocert_hostnames" := Array([Text("example.com")]),
                      "listener" := Object(inner)];
    WrapperTypes(net, fields, "");
    WrapperTypes(net, fields["autocert_hostnames" := Strings(["example.com"])], "");
    assert Value("8") == 8 && "80"[..1] == "8";
    assert IsInt("80");
    assert ResolveJSON(net, inner) == Ok(Leaf(TCP("", "80")));
  }

  lemma {:induction false} WritableIsOpenable(net: Net, t: Shape)
    requires Writable(net, t)
    ensures Openable(net, t)
    decreases t
  {
    match t {
      case Leaf(_) =>
      case Proxy(inner) => WritableIsOpenable(net, inner);
      case TLS(_, _, _, inner) => WritableIsOpenable(net, inner);
    }
  }

  /** The string and the JSON notation denote the same listener exactly when no TCP socket has an address and, in
      decoded JSON, no certificate is automatic. */
  lemma NotationsAgreeExactly(net: Net, origin: Origin, t: Shape)
    requires Writable(net, t)
    ensures Resolve(net, Print(t)) == ResolveJSON(net, ToJSON(origin, t))
            <==> PortOnly(t) && (origin == Decoded ==> !HasAutomatic(t))
  {
    WritableIsOpenable(net, t);
    JSONExactly(net, origin, t);
    ParsePrint(net, t);
  }
}
