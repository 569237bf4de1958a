/** Building a Secret's data from provider files: certificate and private-key extraction from a
    PEM stream, and the map of target keys. The PEM, PKCS #12 and X.509 codecs are libraries; they
    are parameters here, and the laws the proofs rely on are stated as predicates. */
module SecretData {
  import opened Text
  import Json

  const CERTIFICATE := "CERTIFICATE"
  const PRIVATE_KEY := "PRIVATE KEY"
  const RSA_PRIVATE_KEY := "RSA PRIVATE KEY"
  const EC_PRIVATE_KEY := "EC PRIVATE KEY"

  const TLS_SECRET := "kubernetes.io/tls"
  const TLS_CERT_KEY := "tls.crt"
  const TLS_PRIVATE_KEY_KEY := "tls.key"

  datatype Block = Block(kind: string, headers: map<string, string>, contents: bytes)

  datatype RsaKey = RsaKey(number: nat)

  datatype EcKey = EcKey(number: nat)

  datatype PrivateKey = Rsa(rsa: RsaKey) | Ecdsa(ec: EcKey) | OtherKey

  datatype Codec = Codec(
    decode: bytes -> Option<(Block, bytes)>, // the first PEM block and the remainder
    encode: Block -> bytes,
    fromPfx: bytes -> Option<seq<Block>>,    // PKCS #12 to PEM blocks
    parsePkcs1: bytes -> Option<RsaKey>,
    marshalPkcs1: RsaKey -> bytes,
    parsePkcs8: bytes -> Option<PrivateKey>,
    parseSec1: bytes -> Option<EcKey>,
    marshalSec1: EcKey -> Option<bytes>
  )

  datatype Error = EmptySource | EmptyKey | MissingFile | BadPfx | UnknownKeyKind | BadCurve | UnsupportedKey

  // A content of None is a nil byte slice.
  datatype Result = Ok(content: Option<bytes>) | Err(error: Error)

  /******* Laws of the codecs *******/

  // Decoding consumes input. Loops over a PEM stream end because of it.
  ghost predicate Shrinking(codec: Codec) {
    forall data :: codec.decode(data).Some? ==> |codec.decode(data).value.1| < |data|
  }

  type Pem = codec: Codec | Shrinking(codec) ghost witness
    Codec(_ => None, _ => [], _ => None, _ => None, _ => [], _ => None, _ => None, _ => None)

  // Whatever follows it, the encoding of `b` decodes to `b` and leaves what follows.
  ghost predicate RoundTrips(codec: Codec, b: Block) {
    && |codec.encode(b)| > 0
    && forall tail :: codec.decode(codec.encode(b) + tail) == Some((b, tail))
  }

  // A certificate that was decoded round-trips, and so does every key block without headers. Not
  // every block does: a colon in the label of an empty block is read as a header the second time.
  ghost predicate PemLaws(codec: Codec) {
    && (forall data :: codec.decode(data).Some? && codec.decode(data).value.0.kind == CERTIFICATE ==>
          RoundTrips(codec, codec.decode(data).value.0))
    && (forall kind, contents | kind in {PRIVATE_KEY, RSA_PRIVATE_KEY, EC_PRIVATE_KEY} ::
          RoundTrips(codec, Block(kind, map[], contents)))
  }

  // Marshalled keys parse back (RFC 8017 appendix A.1.2, section 3 of RFC 5915), and no input is
  // accepted by two of the three parsers; the empty one is accepted by none.
  ghost predicate KeyLaws(codec: Codec) {
    && (forall k :: codec.parsePkcs1(codec.marshalPkcs1(k)) == Some(k))
    && (forall k :: codec.marshalSec1(k).Some? ==> codec.parseSec1(codec.marshalSec1(k).value) == Some(k))
    && (forall der :: codec.parsePkcs1(der).Some? ==> codec.parsePkcs8(der).None? && codec.parseSec1(der).None?)
    && (forall der :: codec.parsePkcs8(der).Some? ==> codec.parseSec1(der).None?)
    && codec.parsePkcs1([]).None? && codec.parsePkcs8([]).None? && codec.parseSec1([]).None?
  }

  /******* The blocks of a PEM stream *******/

  function Blocks(pem: Pem, data: bytes): seq<Block>
    decreases |data|
  {
    match pem.decode(data)
    case None => []
    case Some((b, rest)) => [b] + Blocks(pem, rest)
  }

  // What is left of the stream once no block can be decoded.
  function Remainder(pem: Pem, data: bytes): bytes
    decreases |data|
  {
    match pem.decode(data)
    case None => data
    case Some((_, rest)) => Remainder(pem, rest)
  }

  function Certificates(blocks: seq<Block>): (certs: seq<Block>)
    ensures forall b :: b in certs <==> b in blocks && b.kind == CERTIFICATE
  {
    if |blocks| == 0 then []
    else if blocks[0].kind == CERTIFICATE then [blocks[0]] + Certificates(blocks[1..])
    else Certificates(blocks[1..])
  }

  // The filter keeps the order and the multiplicity of what it keeps.
  lemma {:induction false} CertificatesOfConcat(first: seq<Block>, second: seq<Block>)
    ensures Certificates(first + second) == Certificates(first) + Certificates(second)
  {
    if |first| == 0 {
      assert first + second == second;
    } else {
      assert (first + second)[1..] == first[1..] + second;
      CertificatesOfConcat(first[1..], second);
    }
  }

  function EncodeAll(codec: Codec, blocks: seq<Block>): bytes {
    if |blocks| == 0 then [] else codec.encode(blocks[0]) + EncodeAll(codec, blocks[1..])
  }

  // A byte slice that was only ever appended to is nil as long as nothing was appended.
  function NilIfEmpty(data: bytes): Option<bytes> {
    if |data| == 0 then None else Some(data)
  }

  /******* Certificates *******/

  function CertificatePart(pem: Pem, data: bytes): Result {
    var certs := EncodeAll(pem, Certificates(Blocks(pem, data)));
    if |certs| > 0 then Ok(Some(certs))
    else
      match pem.fromPfx(Remainder(pem, data))
      case None => Err(BadPfx)
      case Some(blocks) => Ok(NilIfEmpty(EncodeAll(pem, Certificates(blocks))))
  }

  method GetCert(pem: Pem, data: bytes) returns (r: Result)
    ensures r == CertificatePart(pem, data)
  {
    var certs: bytes := [];
    var rest := data;
    var next := pem.decode(rest);
    while next.Some?
      invariant next == pem.decode(rest)
      invariant certs + EncodeAll(pem, Certificates(Blocks(pem, rest))) == EncodeAll(pem, Certificates(Blocks(pem, data)))
      invariant Remainder(pem, rest) == Remainder(pem, data)
      decreases |rest|
    {
      var (b, after) := next.value;
      if b.kind == CERTIFICATE {
        certs := certs + pem.encode(b);
      }
      rest := after;
      next := pem.decode(rest);
    }
    assert certs + [] == certs;
    if |certs| > 0 {
      return Ok(Some(certs));
    }
    var pfx := pem.fromPfx(rest);
    if pfx.None? {
      return Err(BadPfx);
    }
    for i := 0 to |pfx.value|
      invariant certs + EncodeAll(pem, Certificates(pfx.value[i..])) == EncodeAll(pem, Certificates(pfx.value))
    {
      if pfx.value[i].kind == CERTIFICATE {
        certs := certs + pem.encode(pfx.value[i]);
      }
    }
    assert pfx.value[|pfx.value|..] == [];
    assert certs + [] == certs;
    r := Ok(NilIfEmpty(certs));
  }

  lemma {:induction false} BlocksOfEncoded(pem: Pem, blocks: seq<Block>)
    requires forall b :: b in blocks ==> RoundTrips(pem, b)
    ensures Blocks(pem, EncodeAll(pem, blocks)) == blocks
  {
    if |blocks| > 0 {
      BlocksOfEncoded(pem, blocks[1..]);
      assert RoundTrips(pem, blocks[0]);
      assert blocks == [blocks[0]] + blocks[1..];
    } else {
      assert pem.decode([]).None?;
    }
  }

  lemma {:induction false} DecodedBlocksRoundTrip(pem: Pem, data: bytes)
    requires PemLaws(pem)
    ensures forall b :: b in Certificates(Blocks(pem, data)) ==> RoundTrips(pem, b)
    decreases |data|
  {
    var next := pem.decode(data);
    if next.Some? {
      DecodedBlocksRoundTrip(pem, next.value.1);
    }
  }

  lemma {:induction false} CertificatesOfCertificates(blocks: seq<Block>)
    requires forall b :: b in blocks ==> b.kind == CERTIFICATE
    ensures Certificates(blocks) == blocks
  {
    if |blocks| > 0 {
      CertificatesOfCertificates(blocks[1..]);
    }
  }

  lemma {:induction false} EncodedNotEmpty(codec: Codec, blocks: seq<Block>)
    requires |blocks| > 0
    requires RoundTrips(codec, blocks[0])
    ensures |EncodeAll(codec, blocks)| > 0
  {
  }

  // The certificates that extraction emits, in stream order.
  function EmittedCertificates(pem: Pem, data: bytes): seq<Block> {
    var certs := Certificates(Blocks(pem, data));
    if |EncodeAll(pem, certs)| > 0 then certs
    else
      match pem.fromPfx(Remainder(pem, data))
      case None => []
      case Some(blocks) => Certificates(blocks)
  }

  // The output is a PEM stream of exactly the emitted certificates, and extraction maps it to
  // itself. Blocks that were PEM in the input always round-trip; blocks made from PKCS #12 are
  // required to (a friendly name with a line break would not).
  lemma CertificatePartIdempotent(pem: Pem, data: bytes, out: bytes)
    requires PemLaws(pem)
    requires CertificatePart(pem, data) == Ok(Some(out))
    requires Certificates(Blocks(pem, data)) == [] ==>
               forall b :: b in EmittedCertificates(pem, data) ==> RoundTrips(pem, b)
    ensures Blocks(pem, out) == EmittedCertificates(pem, data)
    ensures CertificatePart(pem, out) == Ok(Some(out))
  {
    var certs := EmittedCertificates(pem, data);
    DecodedBlocksRoundTrip(pem, data);
    if Certificates(Blocks(pem, data)) != [] {
      EncodedNotEmpty(pem, Certificates(Blocks(pem, data)));
    }
    BlocksOfEncoded(pem, certs);
    CertificatesOfCertificates(certs);
  }

  /******* Private keys *******/

  function LastOther(blocks: seq<Block>): Option<bytes> {
    if |blocks| == 0 then None
    else
      var b := blocks[|blocks| - 1];
      if b.kind != CERTIFICATE then Some(b.contents) else LastOther(blocks[..|blocks| - 1])
  }

  function LastOfKind(blocks: seq<Block>, kind: string): Option<bytes> {
    if |blocks| == 0 then None
    else
      var b := blocks[|blocks| - 1];
      if b.kind == kind then Some(b.contents) else LastOfKind(blocks[..|blocks| - 1], kind)
  }

  function OrEmpty(data: Option<bytes>): bytes {
    match data
    case None => []
    case Some(d) => d
  }

  // The bytes handed to the key parsers, or None if the remainder is not PKCS #12 either.
  function KeyDer(pem: Pem, data: bytes): Option<bytes> {
    var der := LastOther(Blocks(pem, data));
    if der.Some? then der
    else
      match pem.fromPfx(Remainder(pem, data))
      case None => None
      case Some(blocks) => Some(OrEmpty(LastOfKind(blocks, PRIVATE_KEY)))
  }

  datatype Key = Key(kind: string, der: bytes) | BadKey(error: Error)

  // Each parser that accepts `der` overrides the one before it.
  function RenderKey(codec: Codec, der: bytes): Key {
    var first :=
      match codec.parsePkcs1(der)
      case None => Key(PRIVATE_KEY, [])
      case Some(k) => Key(RSA_PRIVATE_KEY, codec.marshalPkcs1(k));
    var second :=
      match codec.parsePkcs8(der)
      case None => first
      case Some(Rsa(k)) => Key(RSA_PRIVATE_KEY, codec.marshalPkcs1(k))
      case Some(Ecdsa(k)) => RenderEc(codec, k)
      case Some(OtherKey) => BadKey(UnknownKeyKind);
    if second.BadKey? then second
    else
      match codec.parseSec1(der)
      case None => second
      case Some(k) => RenderEc(codec, k)
  }

  function RenderEc(codec: Codec, k: EcKey): Key {
    match codec.marshalSec1(k)
    case None => BadKey(BadCurve)
    case Some(der) => Key(EC_PRIVATE_KEY, der)
  }

  function PrivateKeyPart(pem: Pem, data: bytes): Result {
    match KeyDer(pem, data)
    case None => Err(BadPfx)
    case Some(der) =>
      match RenderKey(pem, der)
      case BadKey(e) => Err(e)
      case Key(kind, out) => Ok(NilIfEmpty(pem.encode(Block(kind, map[], out))))
  }

  method GetPrivateKey(pem: Pem, data: bytes) returns (r: Result)
    ensures r == PrivateKeyPart(pem, data)
  {
    var der: Option<bytes> := None;
    var rest := data;
    var next := pem.decode(rest);
    while next.Some?
      invariant next == pem.decode(rest)
      invariant LastOther(Blocks(pem, data)) ==
                (if LastOther(Blocks(pem, rest)).Some? then LastOther(Blocks(pem, rest)) else der)
      invariant Remainder(pem, rest) == Remainder(pem, data)
      decreases |rest|
    {
      var (b, after) := next.value;
      LastOtherCons(b, Blocks(pem, after));
      if b.kind != CERTIFICATE {
        der := Some(b.contents);
      }
      rest := after;
      next := pem.decode(rest);
    }
    if der.None? {
      var pfx := pem.fromPfx(rest);
      if pfx.None? {
        return Err(BadPfx);
      }
      for i := 0 to |pfx.value|
        invariant der == LastOfKind(pfx.value[..i], PRIVATE_KEY)
      {
        assert pfx.value[..i + 1][..i] == pfx.value[..i];
        if pfx.value[i].kind == PRIVATE_KEY {
          der := Some(pfx.value[i].contents);
        }
      }
      assert pfx.value[..|pfx.value|] == pfx.value;
    }
    var keyKind := PRIVATE_KEY;
    var derKey: bytes := [];
    var pkcs1 := pem.parsePkcs1(OrEmpty(der));
    if pkcs1.Some? {
      keyKind := RSA_PRIVATE_KEY;
      derKey := pem.marshalPkcs1(pkcs1.value);
    }
    match pem.parsePkcs8(OrEmpty(der)) {
      case None =>
      case Some(Rsa(k)) =>
        derKey := pem.marshalPkcs1(k);
        keyKind := RSA_PRIVATE_KEY;
      case Some(Ecdsa(k)) =>
        var ec := pem.marshalSec1(k);
        if ec.None? {
          return Err(BadCurve);
        }
        derKey, keyKind := ec.value, EC_PRIVATE_KEY;
      case Some(OtherKey) =>
        return Err(UnknownKeyKind);
    }
    var sec1 := pem.parseSec1(OrEmpty(der));
    if sec1.Some? {
      var ec := pem.marshalSec1(sec1.value);
      if ec.None? {
        return Err(BadCurve);
      }
      derKey, keyKind := ec.value, EC_PRIVATE_KEY;
    }
    r := Ok(NilIfEmpty(pem.encode(Block(keyKind, map[], derKey))));
  }

  lemma {:induction false} LastOtherCons(b: Block, blocks: seq<Block>)
    ensures LastOther([b] + blocks) ==
            if LastOther(blocks).Some? then LastOther(blocks)
            else if b.kind != CERTIFICATE then Some(b.contents) else None
  {
    var all := [b] + blocks;
    if |blocks| == 0 {
      assert all[..0] == [];
    } else {
      assert all[..|all| - 1] == [b] + blocks[..|blocks| - 1];
      LastOtherCons(b, blocks[..|blocks| - 1]);
    }
  }

  // The key that some parser reads from `der`.
  function KeyOf(codec: Codec, der: bytes): Option<PrivateKey> {
    if codec.parsePkcs1(der).Some? then Some(Rsa(codec.parsePkcs1(der).value))
    else if codec.parsePkcs8(der).Some? then codec.parsePkcs8(der)
    else if codec.parseSec1(der).Some? then Some(Ecdsa(codec.parseSec1(der).value))
    else None
  }

  // The label names the form of the bytes, the key is the one that was read, and a "PRIVATE KEY"
  // label means that no parser accepted the input and the block is empty.
  lemma RenderedKeyKeepsTheKey(codec: Codec, der: bytes)
    requires KeyLaws(codec)
    ensures
      var key := KeyOf(codec, der);
      match RenderKey(codec, der)
      case BadKey(e) =>
        && (e == UnknownKeyKind <==> key == Some(OtherKey))
        && (e != UnknownKeyKind ==> key.Some? && key.value.Ecdsa? && codec.marshalSec1(key.value.ec).None?)
      case Key(kind, out) =>
        && (key.None? <==> kind == PRIVATE_KEY)
        && (key.None? ==> out == [])
        && (key.Some? ==> KeyOf(codec, out) == key)
        && (kind == RSA_PRIVATE_KEY <==> key.Some? && key.value.Rsa?)
        && (kind == EC_PRIVATE_KEY <==> key.Some? && key.value.Ecdsa?)
        && (kind == RSA_PRIVATE_KEY ==> codec.parsePkcs1(out).Some?)
        && (kind == EC_PRIVATE_KEY ==> codec.parseSec1(out).Some?)
  {
  }

  lemma RenderingIsStable(codec: Codec, der: bytes)
    requires KeyLaws(codec) && RenderKey(codec, der).Key?
    ensures RenderKey(codec, RenderKey(codec, der).der) == RenderKey(codec, der)
  {
  }

  lemma BlocksOfOne(pem: Pem, b: Block)
    requires RoundTrips(pem, b)
    ensures Blocks(pem, pem.encode(b)) == [b]
  {
    BlocksOfEncoded(pem, [b]);
    assert pem.encode(b) + [] == pem.encode(b);
  }

  // Extraction maps whatever it produced to itself, the empty block of a key that no parser accepted
  // included.
  lemma PrivateKeyPartIdempotent(pem: Pem, data: bytes, der: bytes, key: Key, out: bytes)
    requires PemLaws(pem) && KeyLaws(pem)
    requires KeyDer(pem, data) == Some(der) && key == RenderKey(pem, der)
    requires key.Key? && PrivateKeyPart(pem, data) == Ok(Some(out))
    ensures Blocks(pem, out) == [Block(key.kind, map[], key.der)]
    ensures PrivateKeyPart(pem, out) == Ok(Some(out))
  {
    var b := Block(key.kind, map[], key.der);
    assert key.kind in {PRIVATE_KEY, RSA_PRIVATE_KEY, EC_PRIVATE_KEY};
    assert RoundTrips(pem, b);
    BlocksOfOne(pem, b);
    RenderingIsStable(pem, der);
    assert LastOther([b]) == Some(key.der);
  }

  function CertPart(pem: Pem, data: bytes, key: string): Result {
    if key == TLS_PRIVATE_KEY_KEY then PrivateKeyPart(pem, data)
    else if key == TLS_CERT_KEY then CertificatePart(pem, data)
    else Err(UnsupportedKey)
  }

  method GetCertPart(pem: Pem, data: bytes, key: string) returns (r: Result)
    ensures r == CertPart(pem, data, key)
  {
    if key == TLS_PRIVATE_KEY_KEY {
      r := GetPrivateKey(pem, data);
    } else if key == TLS_CERT_KEY {
      r := GetCert(pem, data);
    } else {
      r := Err(UnsupportedKey);
    }
  }

  /******* The data map *******/

  datatype Item = Item(sourcePath: string, targetKey: string)

  type Files = map<string, Option<bytes>>

  function KeyFor(item: Item): string {
    TrimSpace(item.targetKey)
  }

  // What one entry contributes, whatever entries precede it.
  function Content(pem: Pem, kind: string, files: Files, item: Item): Result {
    var source := TrimSpace(item.sourcePath);
    if |source| == 0 then Err(EmptySource)
    else if |KeyFor(item)| == 0 then Err(EmptyKey)
    else if source !in files then Err(MissingFile)
    else if kind == TLS_SECRET then CertPart(pem, OrEmpty(files[source]), KeyFor(item))
    else Ok(files[source])
  }

  ghost predicate AllOk(pem: Pem, kind: string, files: Files, items: seq<Item>) {
    forall item :: item in items ==> Content(pem, kind, files, item).Ok?
  }

  // The last entry for `key`, counting from `n` down.
  function LastFor(items: seq<Item>, key: string): Option<Item> {
    if |items| == 0 then None
    else if KeyFor(items[|items| - 1]) == key then Some(items[|items| - 1])
    else LastFor(items[..|items| - 1], key)
  }

  ghost predicate IsData(pem: Pem, kind: string, files: Files, items: seq<Item>, data: Json.DataMap) {
    && (forall key :: key in data <==> LastFor(items, key).Some?)
    && (forall key :: key in data ==> Content(pem, kind, files, LastFor(items, key).value) == Ok(data[key]))
  }

  // The outcome of the whole build; on failure, the index of the entry that failed and the map
  // as it was left, which the caller discards.
  datatype Built = Built(data: Json.DataMap) | Failed(index: nat, error: Error, partial: Json.DataMap)

  predicate StoresRawContent(kind: string, files: Files, item: Item) {
    && kind == TLS_SECRET && |TrimSpace(item.sourcePath)| > 0 && |KeyFor(item)| > 0
    && TrimSpace(item.sourcePath) in files
  }

  function Build(pem: Pem, kind: string, files: Files, items: seq<Item>): Built {
    if |items| == 0 then Built(map[])
    else
      var n := |items| - 1;
      match Build(pem, kind, files, items[..n])
      case Failed(i, e, partial) => Failed(i, e, partial)
      case Built(data) =>
        match Content(pem, kind, files, items[n])
        case Ok(content) => Built(data[KeyFor(items[n]) := content])
        case Err(e) =>
          Failed(n, e, if StoresRawContent(kind, files, items[n])
                       then data[KeyFor(items[n]) := files[TrimSpace(items[n].sourcePath)]]
                       else data)
  }

  method BuildKubeSecretData(items: seq<Item>, kind: string, files: Files, pem: Pem)
    returns (data: Json.DataMap, failure: Option<(nat, Error)>)
    ensures
      match Build(pem, kind, files, items)
      case Built(d) => data == d && failure.None?
      case Failed(i, e, partial) => data == partial && failure == Some((i, e))
  {
    data, failure := map[], None;
    for i := 0 to |items|
      invariant Build(pem, kind, files, items[..i]) == Built(data)
      invariant failure.None?
    {
      assert items[..i + 1][..i] == items[..i];
      var sourcePath := TrimSpace(items[i].sourcePath);
      var dataKey := TrimSpace(items[i].targetKey);
      if |sourcePath| == 0 {
        BuildFails(pem, kind, files, items, i);
        return data, Some((i, EmptySource));
      }
      if |dataKey| == 0 {
        BuildFails(pem, kind, files, items, i);
        return data, Some((i, EmptyKey));
      }
      if sourcePath !in files {
        BuildFails(pem, kind, files, items, i);
        return data, Some((i, MissingFile));
      }
      ghost var before := data;
      data := data[dataKey := files[sourcePath]];
      if kind == TLS_SECRET {
        var c := GetCertPart(pem, OrEmpty(files[sourcePath]), dataKey);
        if c.Err? {
          BuildFails(pem, kind, files, items, i);
          return data, Some((i, c.error));
        }
        data := data[dataKey := c.content];
        Overwrite(before, dataKey, files[sourcePath], c.content);
      }
    }
    assert items[..|items|] == items;
  }

  lemma Overwrite(data: Json.DataMap, key: string, first: Option<bytes>, second: Option<bytes>)
    ensures data[key := first][key := second] == data[key := second]
  {
  }

  // A failing prefix decides the whole build.
  lemma {:induction false} BuildFails(pem: Pem, kind: string, files: Files, items: seq<Item>, i: nat)
    requires i < |items|
    requires Build(pem, kind, files, items[..i + 1]).Failed?
    ensures Build(pem, kind, files, items) == Build(pem, kind, files, items[..i + 1])
  {
    var n := |items| - 1;
    if i < n {
      assert items[..n][..i + 1] == items[..i + 1];
      BuildFails(pem, kind, files, items[..n], i);
    } else {
      assert items[..i + 1] == items;
    }
  }

  // Success is exactly that every entry succeeds, and each key then has the content of the last
  // entry for it; a failure is that of the first entry that fails.
  lemma {:induction false} BuildMeaning(pem: Pem, kind: string, files: Files, items: seq<Item>)
    ensures
      match Build(pem, kind, files, items)
      case Built(data) => AllOk(pem, kind, files, items) && IsData(pem, kind, files, items, data)
      case Failed(i, e, _) =>
        && i < |items|
        && Content(pem, kind, files, items[i]) == Err(e)
        && AllOk(pem, kind, files, items[..i])
  {
    if |items| > 0 {
      var n := |items| - 1;
      BuildMeaning(pem, kind, files, items[..n]);
      assert items == items[..n] + [items[n]];
      match Build(pem, kind, files, items[..n]) {
        case Failed(i, _, _) => assert items[..n][..i] == items[..i];
        case Built(_) =>
      }
    }
  }

  lemma BuiltIffAllOk(pem: Pem, kind: string, files: Files, items: seq<Item>)
    ensures Build(pem, kind, files, items).Built? <==> AllOk(pem, kind, files, items)
  {
    BuildMeaning(pem, kind, files, items);
    var r := Build(pem, kind, files, items);
    if r.Failed? {
      assert items[r.index] in items;
    }
  }

  lemma TlsKeysOnly(pem: Pem, files: Files, items: seq<Item>, data: Json.DataMap)
    requires Build(pem, TLS_SECRET, files, items) == Built(data)
    ensures data.Keys <= {TLS_CERT_KEY, TLS_PRIVATE_KEY_KEY}
  {
    BuildMeaning(pem, TLS_SECRET, files, items);
    forall key | key in data ensures key in {TLS_CERT_KEY, TLS_PRIVATE_KEY_KEY} {
      LastForHasKey(items, key);
    }
  }

  lemma {:induction false} LastForHasKey(items: seq<Item>, key: string)
    ensures LastFor(items, key).Some? ==> LastFor(items, key).value in items && KeyFor(LastFor(items, key).value) == key
    ensures LastFor(items, key).None? <==> forall item :: item in items ==> KeyFor(item) != key
  {
    if |items| > 0 {
      var n := |items| - 1;
      LastForHasKey(items[..n], key);
      assert items == items[..n] + [items[n]];
    }
  }

  ghost predicate DistinctKeys(items: seq<Item>) {
    forall i, j :: 0 <= i < j < |items| ==> KeyFor(items[i]) != KeyFor(items[j])
  }

  lemma LastForDistinct(items: seq<Item>, item: Item)
    requires DistinctKeys(items) && item in items
    ensures LastFor(items, KeyFor(item)) == Some(item)
  {
    LastForHasKey(items, KeyFor(item));
  }

  lemma SameLast(items: seq<Item>, other: seq<Item>, key: string)
    requires DistinctKeys(items) && DistinctKeys(other)
    requires forall item :: item in items <==> item in other
    ensures LastFor(items, key) == LastFor(other, key)
  {
    LastForHasKey(items, key);
    LastForHasKey(other, key);
    if LastFor(items, key).Some? {
      LastForDistinct(other, LastFor(items, key).value);
    }
  }

  lemma SameElements(items: seq<Item>, other: seq<Item>)
    requires multiset(items) == multiset(other)
    ensures forall item :: item in items <==> item in other
  {
    forall item ensures item in items <==> item in other {
      assert item in items <==> item in multiset(items);
      assert item in other <==> item in multiset(other);
    }
  }

  lemma {:induction false} BuildCounts(pem: Pem, kind: string, files: Files, items: seq<Item>)
    requires DistinctKeys(items) && Build(pem, kind, files, items).Built?
    ensures |Build(pem, kind, files, items).data| == |items|
  {
    if |items| > 0 {
      var n := |items| - 1;
      BuildCounts(pem, kind, files, items[..n]);
      BuildMeaning(pem, kind, files, items[..n]);
      var key := KeyFor(items[n]);
      LastForHasKey(items[..n], key);
      var data := Build(pem, kind, files, items[..n]).data;
      assert key !in data;
      assert data[key := Content(pem, kind, files, items[n]).content].Keys == data.Keys + {key};
    }
  }

  // With distinct keys the order of the entries does not matter and no entry is lost.
  lemma BuildIgnoresOrder(pem: Pem, kind: string, files: Files, items: seq<Item>, other: seq<Item>)
    requires DistinctKeys(items) && multiset(items) == multiset(other)
    ensures
      var r, r' := Build(pem, kind, files, items), Build(pem, kind, files, other);
      && (r.Built? <==> r'.Built?)
      && (r.Built? ==> r == r' && |r.data| == |items|)
  {
    SameElements(items, other);
    DistinctAlike(items, other);
    BuiltIffAllOk(pem, kind, files, items);
    BuiltIffAllOk(pem, kind, files, other);
    if AllOk(pem, kind, files, items) {
      BuildMeaning(pem, kind, files, items);
      BuildMeaning(pem, kind, files, other);
      SameData(pem, kind, files, items, other, Build(pem, kind, files, items).data, Build(pem, kind, files, other).data);
      BuildCounts(pem, kind, files, items);
    }
  }

  lemma {:induction false} OccursOnce(items: seq<Item>, item: Item)
    requires DistinctKeys(items)
    ensures multiset(items)[item] <= 1
  {
    if |items| > 0 {
      var n := |items| - 1;
      assert items == items[..n] + [items[n]];
      OccursOnce(items[..n], item);
      if items[n] == item {
        assert item !in items[..n];
      }
    }
  }

  lemma OccursTwice(items: seq<Item>, i: nat, j: nat)
    requires i < j < |items| && items[i] == items[j]
    ensures multiset(items)[items[i]] >= 2
  {
    assert items == items[..j] + items[j..];
    assert items[..j][i] in items[..j] && items[j..][0] in items[j..];
  }

  // Distinct keys are a property of the entries, not of their order.
  lemma DistinctAlike(items: seq<Item>, other: seq<Item>)
    requires DistinctKeys(items) && multiset(items) == multiset(other)
    ensures DistinctKeys(other)
  {
    SameElements(items, other);
    forall i: nat, j: nat | i < j < |other| ensures KeyFor(other[i]) != KeyFor(other[j]) {
      assert other[i] in items && other[j] in items;
      if other[i] == other[j] {
        OccursOnce(items, other[i]);
        OccursTwice(other, i, j);
      }
    }
  }

  lemma SameData(pem: Pem, kind: string, files: Files, items: seq<Item>, other: seq<Item>,
                 data: Json.DataMap, data': Json.DataMap)
    requires DistinctKeys(items) && DistinctKeys(other)
    requires forall item :: item in items <==> item in other
    requires IsData(pem, kind, files, items, data) && IsData(pem, kind, files, other, data')
    ensures data == data'
  {
    forall key ensures key in data <==> key in data' {
      SameLast(items, other, key);
    }
    forall key | key in data ensures data[key] == data'[key] {
      SameLast(items, other, key);
    }
  }
}
