/** What is extracted from a stream of PEM blocks, a PKCS #12 bundle, and a provider's files, in terms of
    the blocks, the parsers and the files themselves. */
module Extraction {
  import opened Text
  import opened SecretData
  import Json

  /******* Streams *******/

  // `data` is these blocks, encoded one after the other, and a rest that is not PEM.
  ghost predicate IsStream(pem: Pem, data: bytes, blocks: seq<Block>, rest: bytes) {
    && data == EncodeAll(pem, blocks) + rest
    && (forall b :: b in blocks ==> RoundTrips(pem, b))
    && pem.decode(rest).None?
  }

  lemma EncodedCons(pem: Pem, blocks: seq<Block>, rest: bytes)
    requires |blocks| > 0
    ensures EncodeAll(pem, blocks) + rest == pem.encode(blocks[0]) + (EncodeAll(pem, blocks[1..]) + rest)
  {
  }

  lemma {:induction false} StreamBlocks(pem: Pem, data: bytes, blocks: seq<Block>, rest: bytes)
    requires IsStream(pem, data, blocks, rest)
    ensures Blocks(pem, data) == blocks && Remainder(pem, data) == rest
    decreases |blocks|
  {
    if |blocks| == 0 {
      assert data == rest;
    } else {
      var tail := EncodeAll(pem, blocks[1..]) + rest;
      EncodedCons(pem, blocks, rest);
      assert RoundTrips(pem, blocks[0]);
      StreamBlocks(pem, tail, blocks[1..], rest);
      assert blocks == [blocks[0]] + blocks[1..];
    }
  }

  // Block `i` is the last one of this kind.
  predicate IsLastOfKind(blocks: seq<Block>, kind: string, i: int) {
    0 <= i < |blocks| && blocks[i].kind == kind && forall j :: i < j < |blocks| ==> blocks[j].kind != kind
  }

  // Block `i` is the last one that is not a certificate.
  predicate IsLastOther(blocks: seq<Block>, i: int) {
    0 <= i < |blocks| && blocks[i].kind != "CERTIFICATE" && forall j :: i < j < |blocks| ==> blocks[j].kind == "CERTIFICATE"
  }

  lemma {:induction false} LastOtherAt(blocks: seq<Block>, i: int)
    requires IsLastOther(blocks, i)
    ensures LastOther(blocks) == Some(blocks[i].contents)
  {
    var n := |blocks| - 1;
    if i < n {
      LastOtherAt(blocks[..n], i);
    }
  }

  lemma {:induction false} NoOther(blocks: seq<Block>)
    requires forall b :: b in blocks ==> b.kind == "CERTIFICATE"
    ensures LastOther(blocks) == None
  {
    if |blocks| > 0 {
      var n := |blocks| - 1;
      assert blocks[n] in blocks;
      NoOther(blocks[..n]);
    }
  }

  lemma {:induction false} LastOfKindAt(blocks: seq<Block>, kind: string, i: int)
    requires IsLastOfKind(blocks, kind, i)
    ensures LastOfKind(blocks, kind) == Some(blocks[i].contents)
  {
    var n := |blocks| - 1;
    if i < n {
      LastOfKindAt(blocks[..n], kind, i);
    }
  }

  lemma {:induction false} NoneOfKind(blocks: seq<Block>, kind: string)
    requires forall b :: b in blocks ==> b.kind != kind
    ensures LastOfKind(blocks, kind) == None
  {
    if |blocks| > 0 {
      var n := |blocks| - 1;
      assert blocks[n] in blocks;
      NoneOfKind(blocks[..n], kind);
    }
  }

  /******* Private keys *******/

  predicate IsBlockOf(pem: Pem, r: Result, kind: string, der: bytes) {
    r == Ok(Some(pem.encode(Block(kind, map[], der))))
  }

  predicate IsEcBlockOf(pem: Pem, r: Result, k: EcKey) {
    match pem.marshalSec1(k)
    case None => r == Err(BadCurve)
    case Some(der) => IsBlockOf(pem, r, "EC PRIVATE KEY", der)
  }

  // `r` is the key that some parser reads from `der`, in its own form: PKCS #1 for RSA, SEC 1 for EC.
  ghost predicate IsKeyFrom(pem: Pem, der: bytes, r: Result) {
    && (forall k :: pem.parsePkcs1(der) == Some(k) ==> IsBlockOf(pem, r, "RSA PRIVATE KEY", pem.marshalPkcs1(k)))
    && (forall k :: pem.parsePkcs8(der) == Some(Rsa(k)) ==> IsBlockOf(pem, r, "RSA PRIVATE KEY", pem.marshalPkcs1(k)))
    && (forall k :: pem.parsePkcs8(der) == Some(Ecdsa(k)) ==> IsEcBlockOf(pem, r, k))
    && (pem.parsePkcs8(der) == Some(OtherKey) ==> r == Err(UnknownKeyKind))
    && (forall k :: pem.parseSec1(der) == Some(k) ==> IsEcBlockOf(pem, r, k))
    && (pem.parsePkcs1(der).None? && pem.parsePkcs8(der).None? && pem.parseSec1(der).None? ==>
          IsBlockOf(pem, r, "PRIVATE KEY", []))
  }

  lemma NotEmpty(pem: Pem, kind: string, der: bytes)
    requires PemLaws(pem) && kind in {"PRIVATE KEY", "RSA PRIVATE KEY", "EC PRIVATE KEY"}
    ensures |pem.encode(Block(kind, map[], der))| > 0
    ensures Blocks(pem, pem.encode(Block(kind, map[], der))) == [Block(kind, map[], der)]
  {
    var b := Block(kind, map[], der);
    assert RoundTrips(pem, b);
    BlocksOfOne(pem, b);
  }

  lemma RenderedFrom(pem: Pem, data: bytes, der: bytes)
    requires PemLaws(pem) && KeyLaws(pem) && KeyDer(pem, data) == Some(der)
    ensures IsKeyFrom(pem, der, PrivateKeyPart(pem, data))
  {
    match RenderKey(pem, der)
    case BadKey(_) =>
    case Key(kind, out) => NotEmpty(pem, kind, out);
  }

  // The key is that of the last block of the stream that is not a certificate, whatever stands before
  // and after it. Otherwise it is that of the last private key in the PKCS #12 bundle that follows.
  lemma KeyOfStream(pem: Pem, data: bytes, blocks: seq<Block>, rest: bytes)
    requires PemLaws(pem) && KeyLaws(pem) && IsStream(pem, data, blocks, rest)
    ensures forall i :: IsLastOther(blocks, i) ==> IsKeyFrom(pem, blocks[i].contents, PrivateKeyPart(pem, data))
    ensures (forall b :: b in blocks ==> b.kind == "CERTIFICATE") ==>
              match pem.fromPfx(rest)
              case None => PrivateKeyPart(pem, data) == Err(BadPfx)
              case Some(bundle) =>
                && (forall i :: IsLastOfKind(bundle, "PRIVATE KEY", i) ==>
                      IsKeyFrom(pem, bundle[i].contents, PrivateKeyPart(pem, data)))
                && ((forall b :: b in bundle ==> b.kind != "PRIVATE KEY") ==>
                      IsBlockOf(pem, PrivateKeyPart(pem, data), "PRIVATE KEY", []))
  {
    StreamBlocks(pem, data, blocks, rest);
    forall i | IsLastOther(blocks, i) ensures IsKeyFrom(pem, blocks[i].contents, PrivateKeyPart(pem, data)) {
      LastOtherAt(blocks, i);
      RenderedFrom(pem, data, blocks[i].contents);
    }
    if forall b :: b in blocks ==> b.kind == "CERTIFICATE" {
      NoOther(blocks);
      if pem.fromPfx(rest).Some? {
        KeyOfBundle(pem, data, pem.fromPfx(rest).value);
      }
    }
  }

  lemma KeyOfBundle(pem: Pem, data: bytes, bundle: seq<Block>)
    requires PemLaws(pem) && KeyLaws(pem)
    requires LastOther(Blocks(pem, data)).None? && pem.fromPfx(Remainder(pem, data)) == Some(bundle)
    ensures forall i :: IsLastOfKind(bundle, "PRIVATE KEY", i) ==>
              IsKeyFrom(pem, bundle[i].contents, PrivateKeyPart(pem, data))
    ensures (forall b :: b in bundle ==> b.kind != "PRIVATE KEY") ==>
              IsBlockOf(pem, PrivateKeyPart(pem, data), "PRIVATE KEY", [])
  {
    forall i | IsLastOfKind(bundle, "PRIVATE KEY", i)
      ensures IsKeyFrom(pem, bundle[i].contents, PrivateKeyPart(pem, data))
    {
      LastOfKindAt(bundle, "PRIVATE KEY", i);
      RenderedFrom(pem, data, bundle[i].contents);
    }
    if forall b :: b in bundle ==> b.kind != "PRIVATE KEY" {
      NoneOfKind(bundle, "PRIVATE KEY");
      RenderedFrom(pem, data, []);
    }
  }

  // What is extracted is one block labelled as a private key, and it holds the key that was read.
  lemma KeyIsKept(pem: Pem, der: bytes, r: Result)
    requires PemLaws(pem) && KeyLaws(pem) && IsKeyFrom(pem, der, r) && r.Ok?
    ensures r.content.Some?
    ensures
      exists b :: && Blocks(pem, r.content.value) == [b] && KeyOf(pem, b.contents) == KeyOf(pem, der)
                  && b.kind in {"PRIVATE KEY", "RSA PRIVATE KEY", "EC PRIVATE KEY"}
  {
    var key := KeyOf(pem, der);
    var b :=
      match key
      case None => Block("PRIVATE KEY", map[], [])
      case Some(Rsa(k)) => Block("RSA PRIVATE KEY", map[], pem.marshalPkcs1(k))
      case Some(Ecdsa(k)) => Block("EC PRIVATE KEY", map[], OrEmpty(pem.marshalSec1(k)))
      case Some(OtherKey) => Block("", map[], []);
    assert r == Ok(Some(pem.encode(b)));
    NotEmpty(pem, b.kind, b.contents);
    assert KeyOf(pem, b.contents) == key;
  }

  /******* Certificates *******/

  predicate HasCertificate(blocks: seq<Block>) {
    exists b :: b in blocks && b.kind == "CERTIFICATE"
  }

  lemma {:induction false} NoCertificates(blocks: seq<Block>)
    requires !HasCertificate(blocks)
    ensures Certificates(blocks) == []
  {
    if |blocks| > 0 {
      assert blocks[0] in blocks;
      NoCertificates(blocks[1..]);
    }
  }

  // A stream with a certificate yields exactly its certificates, in order; one without yields those of
  // the PKCS #12 bundle that follows.
  lemma CertificatesOfStream(pem: Pem, data: bytes, blocks: seq<Block>, rest: bytes)
    requires IsStream(pem, data, blocks, rest)
    ensures HasCertificate(blocks) ==> CertificatePart(pem, data) == Ok(Some(EncodeAll(pem, Certificates(blocks))))
    ensures !HasCertificate(blocks) ==>
              match pem.fromPfx(rest)
              case None => CertificatePart(pem, data) == Err(BadPfx)
              case Some(bundle) =>
                var certs := EncodeAll(pem, Certificates(bundle));
                CertificatePart(pem, data) == Ok(if certs == [] then None else Some(certs))
  {
    StreamBlocks(pem, data, blocks, rest);
    if HasCertificate(blocks) {
      var b :| b in blocks && b.kind == "CERTIFICATE";
      assert b in Certificates(blocks);
      assert Certificates(blocks)[0] in Certificates(blocks);
      EncodedNotEmpty(pem, Certificates(blocks));
    } else {
      NoCertificates(blocks);
    }
  }

  /******* The data of a Secret *******/

  // Entry `i` is the last one for `key`.
  predicate IsLastEntry(items: seq<Item>, key: string, i: int) {
    && 0 <= i < |items| && TrimSpace(items[i].targetKey) == key
    && forall j :: i < j < |items| ==> TrimSpace(items[j].targetKey) != key
  }

  lemma {:induction false} LastForAt(items: seq<Item>, key: string, i: int)
    requires IsLastEntry(items, key, i)
    ensures LastFor(items, key) == Some(items[i])
  {
    var n := |items| - 1;
    if i < n {
      LastForAt(items[..n], key, i);
    }
  }

  lemma {:induction false} LastForExists(items: seq<Item>, key: string) returns (i: int)
    requires LastFor(items, key).Some?
    ensures IsLastEntry(items, key, i)
  {
    var n := |items| - 1;
    if TrimSpace(items[n].targetKey) == key {
      i := n;
    } else {
      i := LastForExists(items[..n], key);
    }
  }

  // Success means that every entry names a source, a key and a file that exists. The keys are the trimmed
  // target keys, and unless the Secret is a TLS one each key has the file of its last entry.
  lemma BuiltFromFiles(pem: Pem, kind: string, files: Files, items: seq<Item>, data: Json.DataMap)
    requires Build(pem, kind, files, items) == Built(data)
    ensures forall i :: 0 <= i < |items| ==>
              && TrimSpace(items[i].sourcePath) != "" && TrimSpace(items[i].targetKey) != ""
              && TrimSpace(items[i].sourcePath) in files
    ensures forall key :: key in data <==> exists i :: IsLastEntry(items, key, i)
    ensures kind != "kubernetes.io/tls" ==>
              forall key, i :: IsLastEntry(items, key, i) ==> data[key] == files[TrimSpace(items[i].sourcePath)]
  {
    BuildMeaning(pem, kind, files, items);
    forall i | 0 <= i < |items|
      ensures TrimSpace(items[i].sourcePath) != "" && TrimSpace(items[i].targetKey) != ""
      ensures TrimSpace(items[i].sourcePath) in files
    {
      assert Content(pem, kind, files, items[i]).Ok?;
    }
    forall key ensures key in data <==> exists i :: IsLastEntry(items, key, i) {
      if key in data {
        var i := LastForExists(items, key);
      } else if i :| IsLastEntry(items, key, i) {
        LastForAt(items, key, i);
      }
    }
    forall key, i | kind != "kubernetes.io/tls" && IsLastEntry(items, key, i)
      ensures data[key] == files[TrimSpace(items[i].sourcePath)]
    {
      LastForAt(items, key, i);
    }
  }

  // The error of the first entry that fails, by what is wrong with it.
  lemma FailureNamesTheFault(pem: Pem, kind: string, files: Files, items: seq<Item>)
    requires Build(pem, kind, files, items).Failed?
    ensures
      var r := Build(pem, kind, files, items);
      && r.index < |items|
      && (r.error == EmptySource <==> TrimSpace(items[r.index].sourcePath) == "")
      && (r.error == EmptyKey <==> TrimSpace(items[r.index].sourcePath) != "" && TrimSpace(items[r.index].targetKey) == "")
      && (r.error == MissingFile <==>
            && TrimSpace(items[r.index].sourcePath) != "" && TrimSpace(items[r.index].targetKey) != ""
            && TrimSpace(items[r.index].sourcePath) !in files)
      && (r.error !in {EmptySource, EmptyKey, MissingFile} ==> kind == "kubernetes.io/tls")
      && (r.error == UnsupportedKey <==>
            && r.error !in {EmptySource, EmptyKey, MissingFile}
            && TrimSpace(items[r.index].targetKey) !in {"tls.crt", "tls.key"})
  {
    BuildMeaning(pem, kind, files, items);
    PartErrors(pem, kind, files, items[Build(pem, kind, files, items).index]);
  }

  lemma PartErrors(pem: Pem, kind: string, files: Files, item: Item)
    ensures
      var r := Content(pem, kind, files, item);
      r.Err? ==>
        && (r.error == EmptySource <==> TrimSpace(item.sourcePath) == "")
        && (r.error == EmptyKey <==> TrimSpace(item.sourcePath) != "" && TrimSpace(item.targetKey) == "")
        && (r.error == MissingFile <==>
              && TrimSpace(item.sourcePath) != "" && TrimSpace(item.targetKey) != "" && TrimSpace(item.sourcePath) !in files)
        && (r.error !in {EmptySource, EmptyKey, MissingFile} ==> kind == "kubernetes.io/tls")
        && (r.error == UnsupportedKey <==>
              && r.error !in {EmptySource, EmptyKey, MissingFile} && TrimSpace(item.targetKey) !in {"tls.crt", "tls.key"})
  {
    assert "tls.crt"[4] != "tls.key"[4];
  }

  // In a TLS Secret the certificate key has exactly the certificates of its file, and the private key
  // one block with the key of its file.
  lemma TlsContents(pem: Pem, files: Files, items: seq<Item>, data: Json.DataMap, i: int, blocks: seq<Block>, rest: bytes)
    requires PemLaws(pem) && KeyLaws(pem) && Build(pem, "kubernetes.io/tls", files, items) == Built(data)
    requires IsLastEntry(items, "tls.crt", i) || IsLastEntry(items, "tls.key", i)
    requires TrimSpace(items[i].sourcePath) in files
    requires IsStream(pem, OrEmpty(files[TrimSpace(items[i].sourcePath)]), blocks, rest)
    ensures IsLastEntry(items, "tls.crt", i) && HasCertificate(blocks) ==>
              "tls.crt" in data && data["tls.crt"].Some? && Blocks(pem, data["tls.crt"].value) == Certificates(blocks)
    ensures IsLastEntry(items, "tls.key", i) ==>
              && "tls.key" in data && data["tls.key"].Some?
              && exists b :: Blocks(pem, data["tls.key"].value) == [b]
                             && b.kind in {"PRIVATE KEY", "RSA PRIVATE KEY", "EC PRIVATE KEY"}
                             && forall j :: IsLastOther(blocks, j) ==> KeyOf(pem, b.contents) == KeyOf(pem, blocks[j].contents)
  {
    var file := OrEmpty(files[TrimSpace(items[i].sourcePath)]);
    BuildMeaning(pem, "kubernetes.io/tls", files, items);
    assert "tls.crt"[4] != "tls.key"[4];
    if IsLastEntry(items, "tls.crt", i) {
      LastForAt(items, "tls.crt", i);
      assert CertificatePart(pem, file) == Ok(data["tls.crt"]);
      if HasCertificate(blocks) {
        CertificatesOfStream(pem, file, blocks, rest);
        CertificatesRoundTrip(pem, blocks);
      }
    } else {
      LastForAt(items, "tls.key", i);
      assert PrivateKeyPart(pem, file) == Ok(data["tls.key"]);
      TlsKey(pem, file, blocks, rest, data["tls.key"]);
    }
  }

  lemma CertificatesRoundTrip(pem: Pem, blocks: seq<Block>)
    requires forall b :: b in blocks ==> RoundTrips(pem, b)
    ensures Blocks(pem, EncodeAll(pem, Certificates(blocks))) == Certificates(blocks)
  {
    BlocksOfEncoded(pem, Certificates(blocks));
  }

  lemma TlsKey(pem: Pem, file: bytes, blocks: seq<Block>, rest: bytes, content: Option<bytes>)
    requires PemLaws(pem) && KeyLaws(pem) && IsStream(pem, file, blocks, rest)
    requires PrivateKeyPart(pem, file) == Ok(content)
    ensures content.Some?
    ensures exists b :: Blocks(pem, content.value) == [b]
                        && b.kind in {"PRIVATE KEY", "RSA PRIVATE KEY", "EC PRIVATE KEY"}
                        && forall j :: IsLastOther(blocks, j) ==> KeyOf(pem, b.contents) == KeyOf(pem, blocks[j].contents)
  {
    StreamBlocks(pem, file, blocks, rest);
    var der := KeyDer(pem, file).value;
    RenderedFrom(pem, file, der);
    KeyIsKept(pem, der, PrivateKeyPart(pem, file));
    forall j | IsLastOther(blocks, j) ensures der == blocks[j].contents {
      LastOtherAt(blocks, j);
    }
  }
}
