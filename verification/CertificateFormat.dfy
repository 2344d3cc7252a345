/** Certificate files by the types of their blocks: which load, to what, and what the others are refused for. */
module CertificateFormat {
  import opened Prelude
  import opened Certificates

  predicate IsKey(b: Block) {
    b.kind in {PrivateKeyType, RSAKeyType, ECKeyType}
  }

  /** The contents of the blocks of one type, in file order. */
  function BytesOf(blocks: seq<Block>, kind: BlockType): seq<Bytes> {
    if blocks == [] then []
    else (if blocks[0].kind == kind then [blocks[0].bytes] else []) + BytesOf(blocks[1..], kind)
  }

  function Keys(blocks: seq<Block>): seq<Block> {
    if blocks == [] then [] else (if IsKey(blocks[0]) then [blocks[0]] else []) + Keys(blocks[1..])
  }

  /** The block holds this key: in PKCS#8, or in the older format of its type. */
  predicate HoldsKey(lib: Library, b: Block, key: Key) {
    match b.kind
    case PrivateKeyType => lib.pkcs8(b.bytes) == Some(key)
    case RSAKeyType => lib.pkcs1(b.bytes) == Some(key)
    case ECKeyType => lib.ec(b.bytes) == Some(key)
    case _ => false
  }

  /** The key, as far as the block allows it to be used. */
  predicate YieldsKey(lib: Library, b: Block, k: PrivateKey) {
    && HoldsKey(lib, b, k.key)
    && match k
       case FullKey(_) => "Usage" in b.headers ==> b.headers["Usage"] == ""
       case DecryptOnly(key) => "Usage" in b.headers && b.headers["Usage"] == "decrypt" && key.canDecrypt
       case SignOnly(key) => "Usage" in b.headers && b.headers["Usage"] == "sign" && key.canSign
  }

  lemma KeyYielded(lib: Library, b: Block, k: PrivateKey)
    ensures MakePrivateKey(lib, b) == Some(k) <==> YieldsKey(lib, b, k)
  {
    KeyOfBlock(lib, b, k);
  }

  lemma {:induction false} ByKind(blocks: seq<Block>)
    ensures Select(blocks, KeyBlock) == Keys(blocks)
    ensures Contents(blocks, ChainBlock) == BytesOf(blocks, CertificateType)
    ensures Contents(blocks, StapleBlock) == BytesOf(blocks, OCSPType)
    ensures Contents(blocks, SctBlock) == BytesOf(blocks, SCTType)
    decreases blocks
  {
    if blocks != [] {
      ByKind(blocks[1..]);
    }
  }

  /** The blocks of a file that loads, and the certificate it loads to. */
  ghost predicate Describes(lib: Library, blocks: seq<Block>, c: Certificate) {
    && (forall i :: 0 <= i < |blocks| ==> !blocks[i].kind.OtherType?)
    && |Keys(blocks)| == 1 && c.privateKey.Some? && YieldsKey(lib, Keys(blocks)[0], c.privateKey.value)
    && c.chain == BytesOf(blocks, CertificateType) && c.chain != []
    && c.leaf.Some? && lib.x509(c.chain[0]) == c.leaf
    && BytesOf(blocks, OCSPType) == (if c.ocsp.Some? then [c.ocsp.value] else [])
    && c.scts == BytesOf(blocks, SCTType)
  }

  /** A file loads to a certificate exactly if it describes it: one key, certificates with a leaf that parses first, at
      most one OCSP response, any timestamps, and nothing else. */
  lemma FileDescribes(lib: Library, blocks: seq<Block>, c: Certificate)
    ensures LoadBlocks(lib, blocks) == Ok(c) <==> Describes(lib, blocks, c)
  {
    LoadSucceedsExactly(lib, blocks);
    ByKind(blocks);
    assert AllRecognized(blocks) <==> forall i :: 0 <= i < |blocks| ==> !blocks[i].kind.OtherType? by {
      assert forall i :: 0 <= i < |blocks| ==> (Class(blocks[i]) == UnknownBlock <==> blocks[i].kind.OtherType?);
    }
    if |Keys(blocks)| == 1 {
      var made := MakePrivateKey(lib, Keys(blocks)[0]);
      if made.Some? {
        KeyYielded(lib, Keys(blocks)[0], made.value);
      }
      if c.privateKey.Some? {
        KeyYielded(lib, Keys(blocks)[0], c.privateKey.value);
      }
    }
  }

  // ---------------------------------------------------------------- refusals

  /** The block cannot follow the ones before it, and why. */
  ghost predicate Offends(lib: Library, before: seq<Block>, b: Block, e: CertError) {
    match e
    case UnrecognizedBlock(kind) => kind == b.kind && kind.OtherType?
    case MultipleKeys => IsKey(b) && Keys(before) != []
    case InvalidKey => IsKey(b) && Keys(before) == [] && forall k :: !YieldsKey(lib, b, k)
    case MultipleStaples => b.kind == OCSPType && BytesOf(before, OCSPType) != []
    case _ => false
  }

  ghost predicate Innocent(lib: Library, blocks: seq<Block>, n: nat)
    requires n <= |blocks|
  {
    forall i, e :: 0 <= i < n ==> !Offends(lib, blocks[..i], blocks[i], e)
  }

  /** What has been seen of the keys and OCSP responses so far. */
  predicate Tracks(cert: Certificate, before: seq<Block>) {
    (cert.privateKey.Some? <==> Keys(before) != []) && (cert.ocsp.Some? <==> BytesOf(before, OCSPType) != [])
  }

  lemma Associate<T>(a: seq<T>, b: seq<T>, c: seq<T>)
    ensures (a + b) + c == a + (b + c)
  {
  }

  lemma {:induction false} OneMoreKey(blocks: seq<Block>, b: Block)
    ensures Keys(blocks + [b]) == Keys(blocks) + if IsKey(b) then [b] else []
    decreases blocks
  {
    if blocks == [] {
      assert blocks + [b] == [b];
    } else {
      assert (blocks + [b])[0] == blocks[0] && (blocks + [b])[1..] == blocks[1..] + [b];
      OneMoreKey(blocks[1..], b);
      Associate(if IsKey(blocks[0]) then [blocks[0]] else [], Keys(blocks[1..]), if IsKey(b) then [b] else []);
    }
  }

  lemma {:induction false} OneMoreOf(blocks: seq<Block>, b: Block, kind: BlockType)
    ensures BytesOf(blocks + [b], kind) == BytesOf(blocks, kind) + if b.kind == kind then [b.bytes] else []
    decreases blocks
  {
    if blocks == [] {
      assert blocks + [b] == [b];
    } else {
      assert (blocks + [b])[0] == blocks[0] && (blocks + [b])[1..] == blocks[1..] + [b];
      OneMoreOf(blocks[1..], b, kind);
      Associate(if blocks[0].kind == kind then [blocks[0].bytes] else [], BytesOf(blocks[1..], kind),
                if b.kind == kind then [b.bytes] else []);
    }
  }

  lemma AddedKeepsTrack(lib: Library, cert: Certificate, b: Block)
    requires AddBlock(lib, cert, b).Ok?
    ensures var more := AddBlock(lib, cert, b).value;
            && (more.privateKey.Some? <==> cert.privateKey.Some? || IsKey(b))
            && (more.ocsp.Some? <==> cert.ocsp.Some? || b.kind == OCSPType)
  {
  }

  lemma BlockTracked(lib: Library, cert: Certificate, before: seq<Block>, b: Block)
    requires Tracks(cert, before) && AddBlock(lib, cert, b).Ok?
    ensures Tracks(AddBlock(lib, cert, b).value, before + [b])
  {
    AddedKeepsTrack(lib, cert, b);
    OneMoreKey(before, b);
    OneMoreOf(before, b, OCSPType);
  }

  lemma UsableKey(lib: Library, b: Block)
    ensures MakePrivateKey(lib, b).Some? <==> exists k :: YieldsKey(lib, b, k)
  {
    if MakePrivateKey(lib, b).Some? {
      KeyYielded(lib, b, MakePrivateKey(lib, b).value);
    }
    if k :| YieldsKey(lib, b, k) {
      KeyYielded(lib, b, k);
    }
  }

  lemma BlockOffends(lib: Library, cert: Certificate, before: seq<Block>, b: Block)
    requires Tracks(cert, before)
    ensures forall e :: AddBlock(lib, cert, b) == Err(e) <==> Offends(lib, before, b, e)
  {
    UsableKey(lib, b);
  }

  lemma BlockPasses(lib: Library, cert: Certificate, blocks: seq<Block>, n: nat)
    requires n < |blocks| && Tracks(cert, blocks[..n])
    requires forall e :: !Offends(lib, blocks[..n], blocks[n], e)
    ensures AddBlock(lib, cert, blocks[n]).Ok?
    ensures Tracks(AddBlock(lib, cert, blocks[n]).value, blocks[..n + 1])
  {
    BlockOffends(lib, cert, blocks[..n], blocks[n]);
    BlockTracked(lib, cert, blocks[..n], blocks[n]);
    assert blocks[..n] + [blocks[n]] == blocks[..n + 1];
  }

  lemma NextBlock(lib: Library, cert: Certificate, blocks: seq<Block>, n: nat)
    requires n < |blocks|
    ensures var r := AddBlock(lib, cert, blocks[n]);
            AddBlocks(lib, cert, blocks[n..])
            == if r.Ok? then AddBlocks(lib, r.value, blocks[n + 1..]) else Err(r.error)
  {
    assert blocks[n..][0] == blocks[n] && blocks[n..][1..] == blocks[n + 1..];
  }

  /** The loop over the blocks from number n on stops at the first one that offends, with its error. */
  lemma {:induction false} FirstOffence(lib: Library, cert: Certificate, blocks: seq<Block>, n: nat, i: nat,
                                        e: CertError)
    requires n <= i < |blocks| && Tracks(cert, blocks[..n])
    requires forall j, e' :: n <= j < i ==> !Offends(lib, blocks[..j], blocks[j], e')
    requires Offends(lib, blocks[..i], blocks[i], e)
    ensures AddBlocks(lib, cert, blocks[n..]) == Err(e)
    decreases i - n
  {
    NextBlock(lib, cert, blocks, n);
    if n < i {
      BlockPasses(lib, cert, blocks, n);
      FirstOffence(lib, AddBlock(lib, cert, blocks[n]).value, blocks, n + 1, i, e);
    } else {
      BlockOffends(lib, cert, blocks[..n], blocks[n]);
    }
  }

  lemma {:induction false} NoOffence(lib: Library, cert: Certificate, blocks: seq<Block>, n: nat)
    requires n <= |blocks| && Tracks(cert, blocks[..n])
    requires forall j, e' :: n <= j < |blocks| ==> !Offends(lib, blocks[..j], blocks[j], e')
    ensures AddBlocks(lib, cert, blocks[n..]).Ok?
    decreases |blocks| - n
  {
    if n < |blocks| {
      NextBlock(lib, cert, blocks, n);
      BlockPasses(lib, cert, blocks, n);
      NoOffence(lib, AddBlock(lib, cert, blocks[n]).value, blocks, n + 1);
    }
  }

  /** A file with an offending block is refused for the first one, whatever comes after it. */
  lemma RefusedForBlock(lib: Library, blocks: seq<Block>, i: nat, e: CertError)
    requires i < |blocks| && Innocent(lib, blocks, i) && Offends(lib, blocks[..i], blocks[i], e)
    ensures LoadBlocks(lib, blocks) == Err(e)
  {
    assert blocks[..0] == [] && blocks[0..] == blocks;
    FirstOffence(lib, EMPTY, blocks, 0, i, e);
  }

  lemma AssembledLacks(lib: Library, blocks: seq<Block>)
    requires AddBlocks(lib, EMPTY, blocks).Ok?
    ensures var cert := AddBlocks(lib, EMPTY, blocks).value;
            (cert.privateKey == None <==> Keys(blocks) == []) && cert.chain == BytesOf(blocks, CertificateType)
  {
    AddBlocksExactly(lib, EMPTY, blocks);
    ByKind(blocks);
  }

  /** A file without one is refused for what it lacks: a key, then a certificate, then a leaf that parses. */
  lemma RefusedForLack(lib: Library, blocks: seq<Block>)
    requires Innocent(lib, blocks, |blocks|)
    ensures var chain, r := BytesOf(blocks, CertificateType), LoadBlocks(lib, blocks);
            if Keys(blocks) == [] then r == Err(NoKey)
            else if chain == [] then r == Err(NoChain)
            else if lib.x509(chain[0]) == None then r == Err(InvalidLeaf)
            else r.Ok?
  {
    assert blocks[..0] == [] && blocks[0..] == blocks;
    NoOffence(lib, EMPTY, blocks, 0);
    AssembledLacks(lib, blocks);
  }
}
