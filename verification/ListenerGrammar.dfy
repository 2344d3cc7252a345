/** The notations of listeners, as relations: which texts and which JSON objects denote which listener, and what is
    refused why. */
module ListenerGrammar {
  import opened Prelude
  import opened Strings
  import opened ListenerSpec
  import opened ListenerSpecTheorems

  // ---------------------------------------------------------------- parts that both notations share

  /** HTTP/2 and HTTP/1.1, and for automatic certificates also the protocol of the challenges that obtain them. */
  predicate Offers(cert: CertSource, protocols: seq<string>) {
    protocols == if cert.Automatic? then ["h2", "http/1.1", "acme-tls/1"] else ["h2", "http/1.1"]
  }

  /** Every TLS listener in it, at any depth, offers the right protocols. */
  predicate OffersEverywhere(t: Shape) {
    match t
    case Leaf(_) => true
    case Proxy(inner) => OffersEverywhere(inner)
    case TLS(cert, protocols, _, inner) => Offers(cert, protocols) && OffersEverywhere(inner)
  }

  lemma ProtocolsAreRight(cert: CertSource, protocols: seq<string>)
    ensures protocols == Protocols(cert) <==> Offers(cert, protocols)
  {
    assert ["h2", "http/1.1"] + ["acme-tls/1"] == ["h2", "http/1.1", "acme-tls/1"];
  }

  // ---------------------------------------------------------------- the string notation

  /** A text with a slash in front is a path, with another one at its end that of a directory; any other text is a list
      of hostnames. */
  predicate MeansCert(text: string, cert: CertSource) {
    var isPath := text != "" && text[0] == '/';
    match cert
    case Directory(path) => isPath && text[|text| - 1] == '/' && path == text
    case File(path) => isPath && text[|text| - 1] != '/' && path == text
    case Automatic(hostnames) =>
      && !isPath && hostnames != [] && Join(hostnames, ',') == text
      && forall i :: 0 <= i < |hostnames| ==> ',' !in hostnames[i]
  }

  /** A port alone, or what package net takes apart into an address and a port. */
  predicate MeansTCP(net: Net, text: string, ip: string, port: string) {
    && (if ':' in text then net.splitHostPort(text) == Some((ip, port)) else ip == "" && port == text)
    && (ip == "" || net.isIP(ip))
    && IsInt(port)
  }

  predicate IsTyped(spec: string, kind: string, arg: string) {
    spec == kind + ":" + arg
  }

  predicate IsTLSType(kind: string) {
    kind == "tls" || kind == "https"
  }

  /** The text denotes the listener. */
  ghost predicate Means(net: Net, spec: string, t: Shape)
    decreases t
  {
    match t
    case Leaf(FD(fd)) => IsTyped(spec, "fd", fd) && IsUint64(fd)
    case Leaf(FDName(name)) => IsTyped(spec, "fdname", name) && name != ""
    case Leaf(Unix(path)) => IsTyped(spec, "unix", path) && path != ""
    case Leaf(TCP(ip, port)) =>
      || (':' !in spec && MeansTCP(net, spec, ip, port))
      || exists text :: IsTyped(spec, "tcp", text) && MeansTCP(net, text, ip, port)
    case Proxy(inner) => exists rest :: IsTyped(spec, "proxy", rest) && Means(net, rest, inner)
    case TLS(cert, protocols, name, inner) =>
      && Offers(cert, protocols) && name == ""
      && exists kind, text, rest ::
           && IsTLSType(kind) && IsTyped(spec, kind, text + ":" + rest)
           && ':' !in text && MeansCert(text, cert) && Means(net, rest, inner)
  }

  lemma CertMeaning(text: string, cert: CertSource)
    ensures ParseCert(text) == cert <==> MeansCert(text, cert)
  {
    if cert.Automatic? {
      if ParseCert(text) == cert {
        JoinSplit(text, ',');
        forall i | 0 <= i < |cert.hostnames|
          ensures ',' !in cert.hostnames[i]
        {
          SplitAvoids(text, ',', i);
        }
      }
      if MeansCert(text, cert) {
        SplitJoin(cert.hostnames, ',');
      }
    }
  }

  lemma TCPMeaning(net: Net, text: string, s: Socket)
    ensures ResolveTCP(net, map[], text) == Ok(s) <==> s.TCP? && MeansTCP(net, text, s.ip, s.port)
  {
  }

  /** A text without a colon is a TCP argument; any other is typed by what stands before its first colon. */
  lemma TypeAndArgument(spec: string) returns (kind: string, arg: string)
    requires ':' in spec
    ensures IsTyped(spec, kind, arg) && ':' !in kind && |arg| < |spec|
  {
    var i := IndexByte(spec, ':');
    kind, arg := spec[..i], spec[i + 1..];
    assert spec == spec[..i] + [spec[i]] + spec[i + 1..];
  }

  lemma LeafMeaning(net: Net, kind: string, arg: string, s: Socket)
    requires kind in {"fd", "fdname", "unix", "tcp"}
    ensures ResolveType(net, kind, map[], arg) == Ok(Leaf(s)) <==>
              match s
              case FD(fd) => kind == "fd" && fd == arg && IsUint64(fd)
              case FDName(name) => kind == "fdname" && name == arg && name != ""
              case Unix(path) => kind == "unix" && path == arg && path != ""
              case TCP(ip, port) => kind == "tcp" && MeansTCP(net, arg, ip, port)
  {
    TCPMeaning(net, arg, s);
  }

  lemma ProxyMeaning(net: Net, arg: string, inner: Shape)
    ensures ResolveType(net, "proxy", map[], arg) == Ok(Proxy(inner)) <==> Resolve(net, arg) == Ok(inner)
  {
    WrapperTypes(net, map[], arg);
    if arg == "" {
      TCPMeaning(net, "", TCP("", ""));
    }
  }

  lemma TLSArgumentMeaning(net: Net, kind: string, text: string, rest: string)
    requires IsTLSType(kind) && ':' !in text
    ensures var r, cert := Resolve(net, rest), ParseCert(text);
            ResolveType(net, kind, map[], text + ":" + rest)
            == if r.Ok? then Ok(TLS(cert, Protocols(cert), "", r.value)) else r
  {
    FirstSeparator(text, ':', rest);
    assert text + ":" + rest == text + [':'] + rest;
    assert kind != "tcp" && kind != "fd" && kind != "fdname" && kind != "unix" && kind != "proxy" by {
      assert "tls"[0] == 't' && "tls"[1] == 'l' && "https"[0] == 'h';
    }
  }

  lemma {:induction false} MeansIfResolves(net: Net, spec: string, t: Shape)
    requires Resolve(net, spec) == Ok(t)
    ensures Means(net, spec, t)
    decreases |spec|
  {
    if ':' !in spec {
      TCPMeaning(net, spec, t.socket);
    } else {
      var kind, arg := TypeAndArgument(spec);
      TypedSpec(net, kind, arg);
      if kind in {"fd", "fdname", "unix", "tcp"} {
        LeafMeaning(net, kind, arg, t.socket);
      } else if kind == "proxy" {
        ProxyMeaning(net, arg, t.inner);
        MeansIfResolves(net, arg, t.inner);
      } else {
        TLSIfResolves(net, spec, kind, arg, t);
      }
    }
  }

  lemma {:induction false} TLSIfResolves(net: Net, spec: string, kind: string, arg: string, t: Shape)
    requires IsTyped(spec, kind, arg) && |arg| < |spec|
    requires IsTLSType(kind) && ResolveType(net, kind, map[], arg) == Ok(t)
    ensures Means(net, spec, t)
    decreases |spec|, 0
  {
    var text, rest := TypeAndArgument(arg);
    TLSArgumentMeaning(net, kind, text, rest);
    MeansIfResolves(net, rest, t.inner);
    CertMeaning(text, t.cert);
    ProtocolsAreRight(t.cert, t.protocols);
  }

  lemma {:induction false} ResolvesIfMeans(net: Net, spec: string, t: Shape)
    requires Means(net, spec, t)
    ensures Resolve(net, spec) == Ok(t)
    decreases t
  {
    match t {
      case Leaf(s) => LeafIfMeans(net, spec, s);
      case Proxy(inner) =>
        var rest :| IsTyped(spec, "proxy", rest) && Means(net, rest, inner);
        ResolvesIfMeans(net, rest, inner);
        TypedSpec(net, "proxy", rest);
        ProxyMeaning(net, rest, inner);
      case TLS(cert, protocols, name, inner) =>
        var kind, text, rest :|
          && IsTLSType(kind) && IsTyped(spec, kind, text + ":" + rest)
          && ':' !in text && MeansCert(text, cert) && Means(net, rest, inner);
        ResolvesIfMeans(net, rest, inner);
        TypedSpec(net, kind, text + ":" + rest);
        TLSArgumentMeaning(net, kind, text, rest);
        CertMeaning(text, cert);
        ProtocolsAreRight(cert, protocols);
    }
  }

  lemma LeafIfMeans(net: Net, spec: string, s: Socket)
    requires Means(net, spec, Leaf(s))
    ensures Resolve(net, spec) == Ok(Leaf(s))
  {
    if s.TCP? && ':' !in spec && MeansTCP(net, spec, s.ip, s.port) {
      TCPMeaning(net, spec, s);
    } else {
      var kind, arg: string;
      match s {
        case FD(fd) => kind, arg := "fd", fd;
        case FDName(name) => kind, arg := "fdname", name;
        case Unix(path) => kind, arg := "unix", path;
        case TCP(ip, port) =>
          arg :| IsTyped(spec, "tcp", arg) && MeansTCP(net, arg, ip, port);
          kind := "tcp";
      }
      TypedSpec(net, kind, arg);
      LeafMeaning(net, kind, arg, s);
    }
  }

  /** Open accepts a text as a listener exactly if the text denotes it. */
  lemma StringNotation(net: Net, spec: string, t: Shape)
    ensures Resolve(net, spec) == Ok(t) <==> Means(net, spec, t)
  {
    if Resolve(net, spec) == Ok(t) {
      MeansIfResolves(net, spec, t);
    } else if Means(net, spec, t) {
      ResolvesIfMeans(net, spec, t);
    }
  }

  /** The two names of TLS listeners denote the same in front of any text. */
  lemma HTTPSIsTLS(net: Net, arg: string)
    ensures Resolve(net, "https" + ":" + arg) == Resolve(net, "tls" + ":" + arg)
  {
    TypedSpec(net, "https", arg);
    TypedSpec(net, "tls", arg);
    WrapperTypes(net, map[], arg);
    assert "https"[0] == 'h';
  }

  /** What each type refuses, and how: its own argument, or what the inner specification refuses. */
  lemma RefusedTypes(net: Net, kind: string, arg: string)
    requires ':' !in kind
    ensures var r := Resolve(net, kind + ":" + arg);
            && (kind !in {"fd", "fdname", "tcp", "unix", "proxy", "tls", "https"} ==> r == Err(UnknownType))
            && (kind in {"fd", "fdname", "unix"} && arg == "" ==> r == Err(MissingArgument))
            && (kind == "fd" && arg != "" && !IsUint64(arg) ==> r == Err(MalformedFD))
            && (kind == "proxy" && arg == "" ==> r == Err(MissingInner))
            && (kind == "proxy" && arg != "" && Resolve(net, arg).Err? ==> r == Resolve(net, arg))
            && (IsTLSType(kind) && arg == "" ==> r == Err(MissingCertificate))
            && (IsTLSType(kind) && arg != "" && ':' !in arg ==> r == Err(InvalidTLSSpec))
  {
    TypedSpec(net, kind, arg);
    WrapperTypes(net, map[], arg);
  }

  lemma RefusedInTLS(net: Net, kind: string, text: string, rest: string)
    requires IsTLSType(kind) && ':' !in text && Resolve(net, rest).Err?
    ensures Resolve(net, kind + ":" + (text + ":" + rest)) == Resolve(net, rest)
  {
    TypedSpec(net, kind, text + ":" + rest);
    TLSArgumentMeaning(net, kind, text, rest);
  }

  /** A TCP argument is refused for its form, then for its address, then for its port. */
  lemma RefusedTCP(net: Net, text: string)
    ensures var r, parts := Resolve(net, "tcp" + ":" + text), net.splitHostPort(text);
            && (':' !in text ==> Resolve(net, text) == r && (!IsInt(text) ==> r == Err(InvalidPort)))
            && (':' in text && parts == None ==> r == Err(InvalidArgument))
            && (':' in text && parts.Some? ==>
                  var (ip, port) := parts.value;
                  if ip != "" && !net.isIP(ip) then r == Err(InvalidIP)
                  else !IsInt(port) ==> r == Err(InvalidPort))
  {
    TypedSpec(net, "tcp", text);
  }

  // ---------------------------------------------------------------- the JSON notation

  predicate HasField(fields: Params, key: string, value: JSON) {
    key in fields && fields[key] == value
  }

  predicate NoText(fields: Params, key: string) {
    key in fields ==> !fields[key].Text?
  }

  /** A file before a directory before automatic certificates. */
  predicate MeansCertFields(fields: Params, cert: CertSource) {
    match cert
    case File(path) => HasField(fields, "cert", Text(path))
    case Directory(path) => NoText(fields, "cert") && HasField(fields, "cert_directory", Text(path))
    case Automatic(hostnames) =>
      && NoText(fields, "cert") && NoText(fields, "cert_directory")
      && HasField(fields, "autocert_hostnames", JSON.Strings(hostnames))
  }

  predicate MeansName(fields: Params, name: string) {
    HasField(fields, "default_server_name", Text(name)) || (NoText(fields, "default_server_name") && name == "")
  }

  /** The object denotes the listener. */
  predicate MeansJSON(fields: Params, t: Shape)
    decreases t
  {
    match t
    case Leaf(FD(fd)) =>
      && HasField(fields, "type", Text("fd")) && IsUint64(fd)
      && (HasField(fields, "fd", Number(fd)) || HasField(fields, "fd", Text(fd)))
    case Leaf(FDName(name)) => HasField(fields, "type", Text("fdname")) && HasField(fields, "name", Text(name))
    case Leaf(Unix(path)) => HasField(fields, "type", Text("unix")) && HasField(fields, "path", Text(path))
    case Leaf(TCP(ip, port)) =>
      && HasField(fields, "type", Text("tcp")) && NoText(fields, "address") && ip == "" && IsInt(port)
      && (HasField(fields, "port", Number(port)) || HasField(fields, "port", Text(port)))
    case Proxy(inner) =>
      && HasField(fields, "type", Text("proxy"))
      && "listener" in fields && fields["listener"].Object? && MeansJSON(fields["listener"].fields, inner)
    case TLS(cert, protocols, name, inner) =>
      && (HasField(fields, "type", Text("tls")) || HasField(fields, "type", Text("https")))
      && MeansCertFields(fields, cert) && Offers(cert, protocols) && MeansName(fields, name)
      && "listener" in fields && fields["listener"].Object? && MeansJSON(fields["listener"].fields, inner)
  }

  lemma CertFieldsMeaning(fields: Params, cert: CertSource)
    ensures CertFromParams(fields) == Some(cert) <==> MeansCertFields(fields, cert)
  {
  }

  lemma JSONLeaf(net: Net, fields: Params, s: Socket)
    ensures ResolveJSON(net, fields) == Ok(Leaf(s)) <==> MeansJSON(fields, Leaf(s))
  {
    if HasText(fields, "type") {
      WrapperTypes(net, fields, "");
      NoSocketFromWrapper(net, fields, s);
    }
  }

  lemma NoSocketFromWrapper(net: Net, fields: Params, s: Socket)
    ensures ResolveProxy(net, fields, "") != Ok(Leaf(s)) && ResolveTLS(net, fields, "") != Ok(Leaf(s))
  {
  }

  /** A wrapper is what its inner object denotes, wrapped. */
  lemma JSONProxy(net: Net, fields: Params, inner: Shape)
    ensures ResolveJSON(net, fields) == Ok(Proxy(inner)) <==>
              && HasField(fields, "type", Text("proxy"))
              && "listener" in fields && fields["listener"].Object?
              && ResolveJSON(net, fields["listener"].fields) == Ok(inner)
  {
    if HasText(fields, "type") {
      WrapperTypes(net, fields, "");
    }
  }

  lemma JSONTLS(net: Net, fields: Params, t: Shape)
    requires t.TLS?
    ensures ResolveJSON(net, fields) == Ok(t) <==>
              && (HasField(fields, "type", Text("tls")) || HasField(fields, "type", Text("https")))
              && MeansCertFields(fields, t.cert) && Offers(t.cert, t.protocols) && MeansName(fields, t.defaultName)
              && "listener" in fields && fields["listener"].Object?
              && ResolveJSON(net, fields["listener"].fields) == Ok(t.inner)
  {
    CertFieldsMeaning(fields, t.cert);
    ProtocolsAreRight(t.cert, t.protocols);
    if HasText(fields, "type") {
      WrapperTypes(net, fields, "");
      assert "https"[0] == 'h';
    }
  }

  /** OpenJSON accepts an object as a listener exactly if the object denotes it. */
  lemma {:induction false} JSONNotation(net: Net, fields: Params, t: Shape)
    ensures ResolveJSON(net, fields) == Ok(t) <==> MeansJSON(fields, t)
    decreases t
  {
    match t {
      case Leaf(s) => JSONLeaf(net, fields, s);
      case Proxy(inner) =>
        JSONProxy(net, fields, inner);
        if HasObject(fields, "listener") {
          JSONNotation(net, fields["listener"].fields, inner);
        }
      case TLS(_, _, _, inner) =>
        JSONTLS(net, fields, t);
        if HasObject(fields, "listener") {
          JSONNotation(net, fields["listener"].fields, inner);
        }
    }
  }

  /** What objects for sockets are refused for. */
  lemma RefusedSockets(net: Net, fields: Params, kind: string)
    requires HasField(fields, "type", Text(kind))
    ensures var r := ResolveJSON(net, fields);
            && (kind !in {"fd", "fdname", "tcp", "unix", "proxy", "tls", "https"} ==> r == Err(UnknownType))
            && (kind == "fdname" && NoText(fields, "name") ==> r == Err(MissingArgument))
            && (kind == "unix" && NoText(fields, "path") ==> r == Err(MissingArgument))
            && (kind == "fd" && NoText(fields, "fd") && !HasNumber(fields, "fd") ==> r == Err(MissingArgument))
            && (kind == "fd" && "fd" in fields ==> forall fd ::
                  fields["fd"] in {Number(fd), Text(fd)} && !IsUint64(fd) ==> r == Err(MalformedFD))
            && (kind == "tcp" && !NoText(fields, "address") ==>
                  var ip := fields["address"].text;
                  r == Err(if ip != "" && !net.isIP(ip) then InvalidIP else InvalidPort))
            && (kind == "tcp" && NoText(fields, "address") ==> r.Ok? || r == Err(InvalidPort))
  {
    assert kind !in {"fd", "fdname", "tcp", "unix", "proxy", "tls", "https"} ==> kind != "fd" && kind != "fdname";
  }

  /** What objects for wrappers are refused for: what is missing, and else what their inner object is refused for. */
  lemma RefusedWrappers(net: Net, fields: Params, kind: string)
    requires HasField(fields, "type", Text(kind)) && (kind == "proxy" || IsTLSType(kind))
    ensures var r := ResolveJSON(net, fields);
            if IsTLSType(kind) && !exists cert :: MeansCertFields(fields, cert) then r == Err(MissingCertificate)
            else if !HasObject(fields, "listener") then r == Err(MissingInner)
            else
              var inner := ResolveJSON(net, fields["listener"].fields);
              inner.Err? ==> r == inner
  {
    WrapperTypes(net, fields, "");
    assert "https"[0] == 'h';
    forall cert {
      CertFieldsMeaning(fields, cert);
    }
    if CertFromParams(fields).Some? {
      assert MeansCertFields(fields, CertFromParams(fields).value);
    }
  }

  lemma RefusedUntyped(net: Net, fields: Params)
    requires NoText(fields, "type")
    ensures ResolveJSON(net, fields) == Err(MissingType)
  {
  }

  // ---------------------------------------------------------------- protocols at every depth

  lemma {:induction false} StringOffers(net: Net, spec: string, t: Shape)
    requires Means(net, spec, t)
    ensures OffersEverywhere(t)
    decreases t
  {
    match t {
      case Leaf(_) =>
      case Proxy(inner) =>
        var rest :| IsTyped(spec, "proxy", rest) && Means(net, rest, inner);
        StringOffers(net, rest, inner);
      case TLS(cert, _, _, inner) =>
        var kind, text, rest :|
          && IsTLSType(kind) && IsTyped(spec, kind, text + ":" + rest)
          && ':' !in text && MeansCert(text, cert) && Means(net, rest, inner);
        StringOffers(net, rest, inner);
    }
  }

  lemma {:induction false} JSONOffers(fields: Params, t: Shape)
    requires MeansJSON(fields, t)
    ensures OffersEverywhere(t)
    decreases t
  {
    match t {
      case Leaf(_) =>
      case Proxy(inner) => JSONOffers(fields["listener"].fields, inner);
      case TLS(_, _, _, inner) => JSONOffers(fields["listener"].fields, inner);
    }
  }
}
