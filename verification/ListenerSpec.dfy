/** open.go, builtin.go and tls/listener.go: which listener a specification denotes. */
module ListenerSpec {
  import opened Prelude
  import opened Strings

  /** The parts of package net that interpret addresses, as arbitrary functions. */
  datatype Net = Net(splitHostPort: string -> Option<(string, string)>, isIP: string -> bool)

  /** The socket at the bottom of a listener, its arguments resolved and checked. */
  datatype Socket = FD(fd: string) | FDName(name: string) | TCP(ip: string, port: string) | Unix(path: string)

  datatype CertSource = Directory(path: string) | File(file: string) | Automatic(hostnames: seq<string>)

  /** A listener, seen from outside. A TLS listener offers protocols; defaultName is "" when none is configured. */
  datatype Shape =
    | Leaf(socket: Socket)
    | Proxy(inner: Shape)
    | TLS(cert: CertSource, protocols: seq<string>, defaultName: string, inner: Shape)

  /** The Go values a parameter can hold. Numbers are json.Number, and a decoded array is a []interface{}; a []string
      comes only from a caller that builds the parameters in Go. */
  datatype JSON =
    | Text(text: string)
    | Number(number: string)
    | Object(fields: Params)
    | Array(elements: seq<JSON>)
    | Strings(strings: seq<string>)
    | Other

  type Params = map<string, JSON>

  datatype OpenError =
    | UnknownType
    | MissingType
    | MissingArgument
    | MissingInner
    | MissingCertificate
    | InvalidTLSSpec
    | MalformedFD
    | InvalidArgument
    | InvalidIP
    | InvalidPort
    | SystemError

  // ---------------------------------------------------------------- parameters

  predicate HasText(params: Params, key: string) {
    key in params && params[key].Text?
  }

  predicate HasNumber(params: Params, key: string) {
    key in params && params[key].Number?
  }

  predicate HasObject(params: Params, key: string) {
    key in params && params[key].Object?
  }

  // ---------------------------------------------------------------- leaf openers

  /** The argument checks of openFDListener. */
  function ResolveFD(params: Params, arg: string): Result<Socket, OpenError> {
    if arg == "" && !HasNumber(params, "fd") && !HasText(params, "fd") then Err(MissingArgument)
    else
      var fd := if arg != "" then arg
                else if HasNumber(params, "fd") then params["fd"].number
                else params["fd"].text;
      if IsUint64(fd) then Ok(FD(fd)) else Err(MalformedFD)
  }

  function ResolveFDName(params: Params, arg: string): Result<Socket, OpenError> {
    if arg != "" then Ok(FDName(arg))
    else if HasText(params, "name") then Ok(FDName(params["name"].text))
    else Err(MissingArgument)
  }

  function ResolveUnix(params: Params, arg: string): Result<Socket, OpenError> {
    if arg != "" then Ok(Unix(arg))
    else if HasText(params, "path") then Ok(Unix(params["path"].text))
    else Err(MissingArgument)
  }

  /** openTCPListener: where the IP and the port come from. Given an address parameter, the port is never read. */
  function TCPArguments(net: Net, params: Params, arg: string): Option<(string, string)> {
    if arg != "" then
      if ':' in arg then net.splitHostPort(arg) else Some(("", arg))
    else if HasText(params, "address") then Some((params["address"].text, ""))
    else if HasNumber(params, "port") then Some(("", params["port"].number))
    else if HasText(params, "port") then Some(("", params["port"].text))
    else Some(("", ""))
  }

  function ResolveTCP(net: Net, params: Params, arg: string): Result<Socket, OpenError> {
    match TCPArguments(net, params, arg)
    case None => Err(InvalidArgument)
    case Some((ip, port)) =>
      if ip != "" && !net.isIP(ip) then Err(InvalidIP)
      else if !IsInt(port) then Err(InvalidPort)
      else Ok(TCP(ip, port))
  }

  // ---------------------------------------------------------------- certificates

  const HTTP_PROTOCOLS := ["h2", "http/1.1"]
  const ACME_PROTOCOL := "acme-tls/1"

  /** The protocols openHTTPSListener offers for a certificate source. */
  function Protocols(cert: CertSource): seq<string> {
    if cert.Automatic? then HTTP_PROTOCOLS + [ACME_PROTOCOL] else HTTP_PROTOCOLS
  }

  function ParseCert(certSpec: string): CertSource {
    if HasPrefix(certSpec, '/') && HasSuffix(certSpec, '/') then Directory(certSpec)
    else if HasPrefix(certSpec, '/') then File(certSpec)
    else Automatic(Split(certSpec, ','))
  }

  function CertFromParams(params: Params): Option<CertSource> {
    if HasText(params, "cert") then Some(File(params["cert"].text))
    else if HasText(params, "cert_directory") then Some(Directory(params["cert_directory"].text))
    else if "autocert_hostnames" in params && params["autocert_hostnames"].Strings? then
      Some(Automatic(params["autocert_hostnames"].strings))
    else None
  }

  function DefaultName(params: Params): string {
    if HasText(params, "default_server_name") then params["default_server_name"].text else ""
  }

  // ---------------------------------------------------------------- the whole specification

  function MapLeaf(r: Result<Socket, OpenError>): Result<Shape, OpenError> {
    match r
    case Ok(s) => Ok(Leaf(s))
    case Err(e) => Err(e)
  }

  /** openType, on the registered types. */
  function ResolveType(net: Net, kind: string, params: Params, arg: string): Result<Shape, OpenError>
    decreases |arg|, 1, Object(params), 1
  {
    if kind == "fd" then MapLeaf(ResolveFD(params, arg))
    else if kind == "fdname" then MapLeaf(ResolveFDName(params, arg))
    else if kind == "tcp" then MapLeaf(ResolveTCP(net, params, arg))
    else if kind == "unix" then MapLeaf(ResolveUnix(params, arg))
    else if kind == "proxy" then ResolveProxy(net, params, arg)
    else if kind == "tls" || kind == "https" then ResolveTLS(net, params, arg)
    else Err(UnknownType)
  }

  function ResolveProxy(net: Net, params: Params, arg: string): Result<Shape, OpenError>
    decreases |arg|, 1, Object(params), 0
  {
    if arg == "" && !HasObject(params, "listener") then Err(MissingInner)
    else
      match (if arg != "" then Resolve(net, arg) else ResolveJSON(net, params["listener"].fields))
      case Err(e) => Err(e)
      case Ok(inner) => Ok(Proxy(inner))
  }

  function ResolveTLS(net: Net, params: Params, arg: string): Result<Shape, OpenError>
    decreases |arg|, 1, Object(params), 0
  {
    if arg != "" then
      var i := IndexByte(arg, ':');
      if i == -1 then Err(InvalidTLSSpec)
      else
        var cert := ParseCert(arg[..i]);
        match Resolve(net, arg[i + 1..])
        case Err(e) => Err(e)
        case Ok(inner) => Ok(TLS(cert, Protocols(cert), DefaultName(params), inner))
    else
      match CertFromParams(params)
      case None => Err(MissingCertificate)
      case Some(cert) =>
        if !HasObject(params, "listener") then Err(MissingInner)
        else match ResolveJSON(net, params["listener"].fields)
          case Err(e) => Err(e)
          case Ok(inner) => Ok(TLS(cert, Protocols(cert), DefaultName(params), inner))
  }

  /** Open: a specification without a colon is a TCP argument. */
  function Resolve(net: Net, spec: string): Result<Shape, OpenError>
    decreases |spec|, 0, Object(map[]), 0
  {
    var i := IndexByte(spec, ':');
    if i == -1 then MapLeaf(ResolveTCP(net, map[], spec))
    else ResolveType(net, spec[..i], map[], spec[i + 1..])
  }

  /** OpenJSON. */
  function ResolveJSON(net: Net, fields: Params): Result<Shape, OpenError>
    decreases 0, 1, Object(fields), 2
  {
    if HasText(fields, "type") then ResolveType(net, fields["type"].text, fields, "") else Err(MissingType)
  }

  // ---------------------------------------------------------------- writing specifications

  function TCPText(ip: string, port: string): string {
    if ip == "" then port else "[" + ip + "]:" + port
  }

  function CertText(cert: CertSource): string {
    match cert
    case Directory(path) => path
    case File(path) => path
    case Automatic(hostnames) => Join(hostnames, ',')
  }

  /** The string notation of a listener. */
  function Print(t: Shape): string {
    match t
    case Leaf(FD(fd)) => "fd" + ":" + fd
    case Leaf(FDName(name)) => "fdname" + ":" + name
    case Leaf(TCP(ip, port)) => "tcp" + ":" + TCPText(ip, port)
    case Leaf(Unix(path)) => "unix" + ":" + path
    case Proxy(inner) => "proxy" + ":" + Print(inner)
    case TLS(cert, _, _, inner) => "tls" + ":" + (CertText(cert) + ":" + Print(inner))
  }

  /** Where the parameters of OpenJSON come from: encoding/json, or a caller that writes them in Go. */
  datatype Origin = Decoded | Built

  function TextArray(texts: seq<string>): seq<JSON> {
    seq(|texts|, i requires 0 <= i < |texts| => Text(texts[i]))
  }

  /** A list of hostnames, as it arrives. */
  function Hostnames(origin: Origin, hostnames: seq<string>): JSON {
    if origin == Decoded then Array(TextArray(hostnames)) else Strings(hostnames)
  }

  /** A listener as a JSON object, with every parameter it has. */
  function ToJSON(origin: Origin, t: Shape): Params {
    match t
    case Leaf(FD(fd)) => map["type" := Text("fd"), "fd" := Text(fd)]
    case Leaf(FDName(name)) => map["type" := Text("fdname"), "name" := Text(name)]
    case Leaf(TCP(ip, port)) =>
      if ip == "" then map["type" := Text("tcp"), "port" := Text(port)]
      else map["type" := Text("tcp"), "address" := Text(ip), "port" := Text(port)]
    case Leaf(Unix(path)) => map["type" := Text("unix"), "path" := Text(path)]
    case Proxy(inner) => map["type" := Text("proxy"), "listener" := Object(ToJSON(origin, inner))]
    case TLS(cert, _, defaultName, inner) =>
      var fields := map["type" := Text("tls"), "listener" := Object(ToJSON(origin, inner)),
                        "default_server_name" := Text(defaultName)];
      match cert
      case File(path) => fields["cert" := Text(path)]
      case Directory(path) => fields["cert_directory" := Text(path)]
      case Automatic(hostnames) => fields["autocert_hostnames" := Hostnames(origin, hostnames)]
  }

  /** What the grammar can express about a certificate source: absolute file names, directories with a closing slash,
      no colon anywhere, no comma in a hostname, and a first hostname that is not mistaken for a path. */
  predicate CertWritable(cert: CertSource) {
    match cert
    case Directory(path) => HasPrefix(path, '/') && HasSuffix(path, '/') && ':' !in path
    case File(path) => HasPrefix(path, '/') && !HasSuffix(path, '/') && ':' !in path
    case Automatic(hostnames) =>
      && hostnames != []
      && (forall i :: 0 <= i < |hostnames| ==> ':' !in hostnames[i] && ',' !in hostnames[i])
      && !HasPrefix(hostnames[0], '/')
  }

  /** Socket arguments are not empty and are accepted, and package net takes a bracketed address apart again. */
  predicate SocketWritable(net: Net, s: Socket) {
    match s
    case FD(fd) => IsUint64(fd)
    case FDName(name) => name != ""
    case TCP(ip, port) =>
      && IsInt(port)
      && (ip != "" ==> net.isIP(ip) && net.splitHostPort(TCPText(ip, port)) == Some((ip, port)))
    case Unix(path) => path != ""
  }

  predicate Writable(net: Net, t: Shape) {
    match t
    case Leaf(s) => SocketWritable(net, s)
    case Proxy(inner) => Writable(net, inner)
    case TLS(cert, protocols, defaultName, inner) =>
      CertWritable(cert) && protocols == Protocols(cert) && defaultName == "" && Writable(net, inner)
  }
}
