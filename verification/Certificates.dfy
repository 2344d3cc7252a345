/** cert/cert.go: assembling a certificate from the PEM blocks of a file. */
module Certificates {
  import opened Prelude

  datatype Key = Key(id: Bytes, canDecrypt: bool, canSign: bool)

  /** A parsed key, or the wrapper that exposes only one of its uses. */
  datatype PrivateKey = FullKey(key: Key) | DecryptOnly(key: Key) | SignOnly(key: Key)

  datatype Leaf = Leaf(der: Bytes, notAfter: int)

  /** The type strings the code names, and any other: "PRIVATE KEY", "RSA PRIVATE KEY", "EC PRIVATE KEY",
      "CERTIFICATE", "OCSP RESPONSE" and "SIGNED CERTIFICATE TIMESTAMP". */
  datatype BlockType =
    | PrivateKeyType
    | RSAKeyType
    | ECKeyType
    | CertificateType
    | OCSPType
    | SCTType
    | OtherType(name: string)

  /** One block as pem.Decode returns it. */
  datatype Block = Block(kind: BlockType, headers: map<string, string>, bytes: Bytes)

  /** crypto/x509, as arbitrary partial functions. */
  datatype Library = Library(
    pkcs8: Bytes -> Option<Key>,
    pkcs1: Bytes -> Option<Key>,
    ec: Bytes -> Option<Key>,
    x509: Bytes -> Option<Leaf>)

  /** tls.Certificate; None is a nil field. */
  datatype Certificate = Certificate(
    privateKey: Option<PrivateKey>,
    chain: seq<Bytes>,
    ocsp: Option<Bytes>,
    scts: seq<Bytes>,
    leaf: Option<Leaf>)

  const EMPTY := Certificate(None, [], None, [], None)

  datatype FileError = NotExist | Unreadable

  datatype CertError =
    | FileFailed(cause: FileError)
    | MultipleKeys
    | InvalidKey
    | MultipleStaples
    | UnrecognizedBlock(kind: BlockType)
    | NoKey
    | NoChain
    | InvalidLeaf

  /** The cases of the switch over block types. */
  datatype BlockClass = KeyBlock | ChainBlock | StapleBlock | SctBlock | UnknownBlock

  function Class(b: Block): BlockClass {
    match b.kind
    case PrivateKeyType => KeyBlock
    case RSAKeyType => KeyBlock
    case ECKeyType => KeyBlock
    case CertificateType => ChainBlock
    case OCSPType => StapleBlock
    case SCTType => SctBlock
    case OtherType(_) => UnknownBlock
  }

  /** parsePrivateKey. */
  function ParsePrivateKey(lib: Library, b: Block): Option<Key> {
    match b.kind
    case PrivateKeyType => lib.pkcs8(b.bytes)
    case RSAKeyType => lib.pkcs1(b.bytes)
    case ECKeyType => lib.ec(b.bytes)
    case _ => None
  }

  function Usage(b: Block): string {
    if "Usage" in b.headers then b.headers["Usage"] else ""
  }

  /** makePrivateKey: the Usage header may restrict the key to one capability, which the key must have. */
  function MakePrivateKey(lib: Library, b: Block): Option<PrivateKey> {
    match ParsePrivateKey(lib, b)
    case None => None
    case Some(key) =>
      if Usage(b) == "" then Some(FullKey(key))
      else if Usage(b) == "decrypt" then if key.canDecrypt then Some(DecryptOnly(key)) else None
      else if Usage(b) == "sign" then if key.canSign then Some(SignOnly(key)) else None
      else None
  }

  lemma KeyOfBlock(lib: Library, b: Block, k: PrivateKey)
    ensures MakePrivateKey(lib, b) == Some(k) <==>
              && ParsePrivateKey(lib, b) == Some(k.key)
              && match k
                 case FullKey(_) => Usage(b) == ""
                 case DecryptOnly(key) => Usage(b) == "decrypt" && key.canDecrypt
                 case SignOnly(key) => Usage(b) == "sign" && key.canSign
  {
  }

  /** The body of the block loop: cert is what earlier blocks have assembled. */
  function AddBlock(lib: Library, cert: Certificate, b: Block): Result<Certificate, CertError> {
    match Class(b)
    case KeyBlock =>
      if cert.privateKey.Some? then Err(MultipleKeys)
      else if MakePrivateKey(lib, b).None? then Err(InvalidKey)
      else Ok(cert.(privateKey := MakePrivateKey(lib, b)))
    case ChainBlock => Ok(cert.(chain := cert.chain + [b.bytes]))
    case StapleBlock =>
      if cert.ocsp.Some? then Err(MultipleStaples) else Ok(cert.(ocsp := Some(b.bytes)))
    case SctBlock => Ok(cert.(scts := cert.scts + [b.bytes]))
    case UnknownBlock => Err(UnrecognizedBlock(b.kind))
  }

  function AddBlocks(lib: Library, cert: Certificate, blocks: seq<Block>): Result<Certificate, CertError>
    decreases blocks
  {
    if blocks == [] then Ok(cert)
    else match AddBlock(lib, cert, blocks[0])
      case Err(e) => Err(e)
      case Ok(more) => AddBlocks(lib, more, blocks[1..])
  }

  /** The checks after the loop. */
  function Finish(lib: Library, cert: Certificate): Result<Certificate, CertError> {
    if cert.privateKey.None? then Err(NoKey)
    else if |cert.chain| == 0 then Err(NoChain)
    else match lib.x509(cert.chain[0])
      case None => Err(InvalidLeaf)
      case Some(leaf) => Ok(cert.(leaf := Some(leaf)))
  }

  /** The value LoadCertificate computes from the blocks of a readable file. */
  function LoadBlocks(lib: Library, blocks: seq<Block>): Result<Certificate, CertError> {
    match AddBlocks(lib, EMPTY, blocks)
    case Err(e) => Err(e)
    case Ok(cert) => Finish(lib, cert)
  }

  /** LoadCertificate; file is None when reading it fails. */
  method LoadCertificate(lib: Library, file: Result<seq<Block>, FileError>) returns (r: Result<Certificate, CertError>)
    ensures r == match file
                 case Err(e) => Err(FileFailed(e))
                 case Ok(blocks) => LoadBlocks(lib, blocks)
  {
    if file.Err? {
      return Err(FileFailed(file.error));
    }
    var data := file.value;
    var cert := EMPTY;
    while |data| > 0
      invariant AddBlocks(lib, cert, data) == AddBlocks(lib, EMPTY, file.value)
    {
      var block, rest := data[0], data[1..];
      match Class(block) {
        case KeyBlock =>
          if cert.privateKey.Some? {
            return Err(MultipleKeys);
          }
          var key := MakePrivateKey(lib, block);
          if key.None? {
            return Err(InvalidKey);
          }
          cert := cert.(privateKey := key);
        case ChainBlock =>
          cert := cert.(chain := cert.chain + [block.bytes]);
        case StapleBlock =>
          if cert.ocsp.Some? {
            return Err(MultipleStaples);
          }
          cert := cert.(ocsp := Some(block.bytes));
        case SctBlock =>
          cert := cert.(scts := cert.scts + [block.bytes]);
        case UnknownBlock =>
          return Err(UnrecognizedBlock(block.kind));
      }
      data := rest;
    }
    if cert.privateKey.None? {
      return Err(NoKey);
    }
    if |cert.chain| == 0 {
      return Err(NoChain);
    }
    var leaf := lib.x509(cert.chain[0]);
    if leaf.None? {
      return Err(InvalidLeaf);
    }
    return Ok(cert.(leaf := leaf));
  }

  // ---------------------------------------------------------------- which block lists are accepted

  /** The blocks of one class, in file order. */
  function Select(blocks: seq<Block>, wanted: BlockClass): seq<Block> {
    if blocks == [] then []
    else (if Class(blocks[0]) == wanted then [blocks[0]] else []) + Select(blocks[1..], wanted)
  }

  /** Their contents. */
  function Contents(blocks: seq<Block>, wanted: BlockClass): seq<Bytes> {
    if blocks == [] then []
    else (if Class(blocks[0]) == wanted then [blocks[0].bytes] else []) + Contents(blocks[1..], wanted)
  }

  predicate AllRecognized(blocks: seq<Block>) {
    forall i :: 0 <= i < |blocks| ==> Class(blocks[i]) != UnknownBlock
  }

  /** The format accepted: one valid key, a parseable leaf first, at most one staple, nothing unknown. */
  predicate WellFormed(lib: Library, blocks: seq<Block>) {
    && AllRecognized(blocks)
    && |Select(blocks, KeyBlock)| == 1 && MakePrivateKey(lib, Select(blocks, KeyBlock)[0]).Some?
    && |Contents(blocks, ChainBlock)| >= 1 && lib.x509(Contents(blocks, ChainBlock)[0]).Some?
    && |Contents(blocks, StapleBlock)| <= 1
  }

  function Assemble(lib: Library, blocks: seq<Block>): Certificate
    requires WellFormed(lib, blocks)
  {
    var chain, staples := Contents(blocks, ChainBlock), Contents(blocks, StapleBlock);
    Certificate(MakePrivateKey(lib, Select(blocks, KeyBlock)[0]), chain,
                if staples == [] then None else Some(staples[0]),
                Contents(blocks, SctBlock), lib.x509(chain[0]))
  }

  /** The blocks can follow the ones already assembled into cert. */
  predicate Addable(lib: Library, cert: Certificate, blocks: seq<Block>) {
    && AllRecognized(blocks)
    && (if cert.privateKey.Some? then Select(blocks, KeyBlock) == []
        else
          && |Select(blocks, KeyBlock)| <= 1
          && (Select(blocks, KeyBlock) != [] ==> MakePrivateKey(lib, Select(blocks, KeyBlock)[0]).Some?))
    && (if cert.ocsp.Some? then Contents(blocks, StapleBlock) == [] else |Contents(blocks, StapleBlock)| <= 1)
  }

  /** cert with everything the blocks hold added to it. */
  function Combine(lib: Library, cert: Certificate, blocks: seq<Block>): Certificate {
    var keys, staples := Select(blocks, KeyBlock), Contents(blocks, StapleBlock);
    Certificate(if keys == [] then cert.privateKey else MakePrivateKey(lib, keys[0]),
                cert.chain + Contents(blocks, ChainBlock),
                if staples == [] then cert.ocsp else Some(staples[0]),
                cert.scts + Contents(blocks, SctBlock),
                cert.leaf)
  }

  lemma AddableStep(lib: Library, cert: Certificate, blocks: seq<Block>)
    requires blocks != []
    ensures var first := AddBlock(lib, cert, blocks[0]);
            Addable(lib, cert, blocks) <==> first.Ok? && Addable(lib, first.value, blocks[1..])
  {
    assert AllRecognized(blocks) <==> Class(blocks[0]) != UnknownBlock && AllRecognized(blocks[1..]);
    match Class(blocks[0]) {
      case KeyBlock =>
      case ChainBlock =>
      case StapleBlock =>
      case SctBlock =>
      case UnknownBlock =>
    }
  }

  lemma ContentsStep(listed: seq<Bytes>, blocks: seq<Block>, wanted: BlockClass)
    requires blocks != []
    ensures var more := if Class(blocks[0]) == wanted then listed + [blocks[0].bytes] else listed;
            listed + Contents(blocks, wanted) == more + Contents(blocks[1..], wanted)
  {
  }

  lemma CombineStep(lib: Library, cert: Certificate, blocks: seq<Block>)
    requires blocks != [] && Addable(lib, cert, blocks)
    requires AddBlock(lib, cert, blocks[0]).Ok?
    ensures Combine(lib, cert, blocks) == Combine(lib, AddBlock(lib, cert, blocks[0]).value, blocks[1..])
  {
    ContentsStep(cert.chain, blocks, ChainBlock);
    ContentsStep(cert.scts, blocks, SctBlock);
  }

  lemma {:induction false} AddBlocksExactly(lib: Library, cert: Certificate, blocks: seq<Block>)
    ensures AddBlocks(lib, cert, blocks).Ok? <==> Addable(lib, cert, blocks)
    ensures Addable(lib, cert, blocks) ==> AddBlocks(lib, cert, blocks).value == Combine(lib, cert, blocks)
    decreases blocks
  {
    if blocks == [] {
      assert cert.chain + [] == cert.chain && cert.scts + [] == cert.scts;
    } else {
      AddableStep(lib, cert, blocks);
      if AddBlock(lib, cert, blocks[0]).Ok? {
        AddBlocksExactly(lib, AddBlock(lib, cert, blocks[0]).value, blocks[1..]);
      }
      if Addable(lib, cert, blocks) {
        CombineStep(lib, cert, blocks);
      }
    }
  }

  /** Loading succeeds exactly on well-formed files, and yields the certificate they describe. */
  lemma LoadSucceedsExactly(lib: Library, blocks: seq<Block>)
    ensures LoadBlocks(lib, blocks).Ok? <==> WellFormed(lib, blocks)
    ensures WellFormed(lib, blocks) ==> LoadBlocks(lib, blocks).value == Assemble(lib, blocks)
  {
    AddBlocksExactly(lib, EMPTY, blocks);
  }

  /** What can be done with a private key: a wrapper offers just one of its uses. */
  predicate CanDecrypt(k: PrivateKey) {
    !k.SignOnly? && k.key.canDecrypt
  }

  predicate CanSign(k: PrivateKey) {
    !k.DecryptOnly? && k.key.canSign
  }

  lemma {:induction false} SelectHas(blocks: seq<Block>, wanted: BlockClass, i: nat)
    requires i < |blocks| && Class(blocks[i]) == wanted
    ensures blocks[i] in Select(blocks, wanted)
  {
    if i > 0 {
      SelectHas(blocks[1..], wanted, i - 1);
    }
  }

  /** A loaded certificate has the key of the only key block in the file, and can be used exactly as the Usage header of
      that block allows and the type of the key supports: never for the other use. */
  lemma KeyUsage(lib: Library, blocks: seq<Block>, i: nat)
    requires LoadBlocks(lib, blocks).Ok? && i < |blocks| && Class(blocks[i]) == KeyBlock
    ensures var b, loaded := blocks[i], LoadBlocks(lib, blocks).value.privateKey;
            && loaded.Some? && ParsePrivateKey(lib, b) == Some(loaded.value.key)
            && Usage(b) in {"", "decrypt", "sign"}
            && (CanDecrypt(loaded.value) <==> Usage(b) != "sign" && loaded.value.key.canDecrypt)
            && (CanSign(loaded.value) <==> Usage(b) != "decrypt" && loaded.value.key.canSign)
            && (Usage(b) != "" ==> CanDecrypt(loaded.value) != CanSign(loaded.value))
  {
    LoadSucceedsExactly(lib, blocks);
    SelectHas(blocks, KeyBlock, i);
    assert Select(blocks, KeyBlock) == [blocks[i]];
    KeyOfBlock(lib, blocks[i], LoadBlocks(lib, blocks).value.privateKey.value);
  }

  /** Only the order within each kind of block matters. */
  lemma OrderAcrossKindsIrrelevant(lib: Library, a: seq<Block>, b: seq<Block>)
    requires AllRecognized(a) && AllRecognized(b)
    requires Select(a, KeyBlock) == Select(b, KeyBlock)
    requires forall c :: Contents(a, c) == Contents(b, c)
    ensures LoadBlocks(lib, a).Ok? <==> LoadBlocks(lib, b).Ok?
    ensures LoadBlocks(lib, a).Ok? ==> LoadBlocks(lib, a) == LoadBlocks(lib, b)
  {
    LoadSucceedsExactly(lib, a);
    LoadSucceedsExactly(lib, b);
  }

  /** The first offending block decides the error: nothing after it is looked at. */
  lemma {:induction false} FirstOffenderDecides(lib: Library, cert: Certificate,
                                                good: seq<Block>, bad: Block, rest: seq<Block>)
    requires AddBlocks(lib, cert, good).Ok?
    requires AddBlock(lib, AddBlocks(lib, cert, good).value, bad).Err?
    ensures AddBlocks(lib, cert, good + [bad] + rest)
            == Err(AddBlock(lib, AddBlocks(lib, cert, good).value, bad).error)
    decreases good
  {
    var all := good + [bad] + rest;
    if good == [] {
      assert all[0] == bad;
    } else {
      assert all[0] == good[0] && all[1..] == good[1..] + [bad] + rest;
      FirstOffenderDecides(lib, AddBlock(lib, cert, good[0]).value, good[1..], bad, rest);
    }
  }
}
