/** The laws that other modules assume of the libraries can all hold at once: codecs and a key
    derivation that satisfy them. */
module Consistency {
  import opened Text
  import SecretData
  import StateHash

  /******* PEM and key codecs *******/

  function Ones(n: nat): bytes {
    if n == 0 then [0] else [1] + Ones(n - 1)
  }

  // The number of leading ones before a zero, and what follows that zero.
  function ReadOnes(data: bytes): Option<(nat, bytes)> {
    if |data| == 0 || data[0] > 1 then None
    else if data[0] == 0 then Some((0, data[1..]))
    else
      var (n, rest) :- ReadOnes(data[1..]);
      Some((n + 1, rest))
  }

  lemma {:induction false} ReadOnesOfOnes(n: nat, tail: bytes)
    ensures ReadOnes(Ones(n) + tail) == Some((n, tail))
  {
    var data := Ones(n) + tail;
    if n == 0 {
      assert data[1..] == tail;
    } else {
      assert data[1..] == Ones(n - 1) + tail;
      ReadOnesOfOnes(n - 1, tail);
    }
  }

  lemma {:induction false} ReadOnesShortens(data: bytes)
    ensures ReadOnes(data).Some? ==> |ReadOnes(data).value.1| < |data|
  {
    if |data| > 0 && data[0] == 1 {
      ReadOnesShortens(data[1..]);
    }
  }

  function KindOf(tag: byte): Option<string> {
    if tag == 1 then Some(SecretData.RSA_PRIVATE_KEY)
    else if tag == 2 then Some(SecretData.EC_PRIVATE_KEY)
    else if tag == 3 then Some(SecretData.PRIVATE_KEY)
    else if tag == 4 then Some(SecretData.CERTIFICATE)
    else None
  }

  function TagOf(kind: string): byte {
    if kind == SecretData.RSA_PRIVATE_KEY then 1
    else if kind == SecretData.EC_PRIVATE_KEY then 2
    else if kind == SecretData.PRIVATE_KEY then 3
    else if kind == SecretData.CERTIFICATE then 4
    else 0
  }

  // A tag, the length in unary, and the contents.
  function Encode(b: SecretData.Block): bytes {
    if b.headers == map[] && TagOf(b.kind) != 0 then [TagOf(b.kind)] + Ones(|b.contents|) + b.contents else []
  }

  function Decode(data: bytes): Option<(SecretData.Block, bytes)> {
    if |data| == 0 then None
    else
      var kind :- KindOf(data[0]);
      var (n, rest) :- ReadOnes(data[1..]);
      if n > |rest| then None else Some((SecretData.Block(kind, map[], rest[..n]), rest[n..]))
  }

  lemma TagDeterminesKind(kind: string)
    requires TagOf(kind) != 0
    ensures KindOf(TagOf(kind)) == Some(kind)
  {
  }

  lemma KindsHaveTags()
    ensures TagOf(SecretData.RSA_PRIVATE_KEY) == 1 && TagOf(SecretData.EC_PRIVATE_KEY) == 2
    ensures TagOf(SecretData.PRIVATE_KEY) == 3 && TagOf(SecretData.CERTIFICATE) == 4
  {
    assert SecretData.RSA_PRIVATE_KEY[0] == 'R' && SecretData.EC_PRIVATE_KEY[0] == 'E';
    assert SecretData.PRIVATE_KEY[0] == 'P' && SecretData.CERTIFICATE[0] == 'C';
  }

  lemma DecodeEncoded(b: SecretData.Block, tail: bytes)
    requires b.headers == map[] && TagOf(b.kind) != 0
    ensures Decode(Encode(b) + tail) == Some((b, tail))
  {
    TagDeterminesKind(b.kind);
    AfterTag(TagOf(b.kind), Ones(|b.contents|), b.contents, tail);
    ReadOnesOfOnes(|b.contents|, b.contents + tail);
    Splits(b.contents, tail);
  }

  lemma AfterTag(tag: byte, ones: bytes, contents: bytes, tail: bytes)
    ensures
      var data := [tag] + ones + contents + tail;
      |data| > 0 && data[0] == tag && data[1..] == ones + (contents + tail)
  {
  }

  lemma Splits(first: bytes, second: bytes)
    ensures (first + second)[..|first|] == first && (first + second)[|first|..] == second
  {
  }

  function Marked(mark: byte, n: nat): bytes {
    [mark] + Ones(n)
  }

  function ReadMarked(mark: byte, der: bytes): Option<nat> {
    if |der| == 0 || der[0] != mark then None
    else
      var (n, _) :- ReadOnes(der[1..]);
      Some(n)
  }

  lemma ReadMarkedOfMarked(mark: byte, n: nat)
    ensures ReadMarked(mark, Marked(mark, n)) == Some(n)
  {
    assert Marked(mark, n)[1..] == Ones(n) + [];
    ReadOnesOfOnes(n, []);
  }

  function ParseRsa(der: bytes): Option<SecretData.RsaKey> {
    var n :- ReadMarked(1, der);
    Some(SecretData.RsaKey(n))
  }

  function ParseEc(der: bytes): Option<SecretData.EcKey> {
    var n :- ReadMarked(2, der);
    Some(SecretData.EcKey(n))
  }

  function ParsePkcs8(der: bytes): Option<SecretData.PrivateKey> {
    if ReadMarked(3, der).Some? then Some(SecretData.Rsa(SecretData.RsaKey(ReadMarked(3, der).value)))
    else if ReadMarked(4, der).Some? then Some(SecretData.Ecdsa(SecretData.EcKey(ReadMarked(4, der).value)))
    else if ReadMarked(5, der).Some? then Some(SecretData.OtherKey)
    else None
  }

  // A bundle is a mark and one certificate.
  function FromPfx(data: bytes): Option<seq<SecretData.Block>> {
    if |data| == 0 || data[0] != 9 then None
    else Some([SecretData.Block(SecretData.CERTIFICATE, map[], data[1..])])
  }

  const CODEC := SecretData.Codec(
    data => Decode(data),
    b => Encode(b),
    data => FromPfx(data),
    der => ParseRsa(der),
    (k: SecretData.RsaKey) => Marked(1, k.number),
    der => ParsePkcs8(der),
    der => ParseEc(der),
    (k: SecretData.EcKey) => Some(Marked(2, k.number))
  )

  lemma RoundTripsOf(b: SecretData.Block)
    requires b.headers == map[] && TagOf(b.kind) != 0
    ensures SecretData.RoundTrips(CODEC, b)
  {
    forall tail ensures CODEC.decode(CODEC.encode(b) + tail) == Some((b, tail)) {
      DecodeEncoded(b, tail);
    }
  }

  lemma PemLawsCanHold()
    ensures SecretData.Shrinking(CODEC) && SecretData.PemLaws(CODEC)
  {
    KindsHaveTags();
    forall data ensures CODEC.decode(data).Some? ==> |CODEC.decode(data).value.1| < |data| {
      if |data| > 0 {
        ReadOnesShortens(data[1..]);
      }
    }
    forall data | CODEC.decode(data).Some? ensures SecretData.RoundTrips(CODEC, CODEC.decode(data).value.0) {
      RoundTripsOf(Decode(data).value.0);
    }
    forall kind, contents | kind in {SecretData.PRIVATE_KEY, SecretData.RSA_PRIVATE_KEY, SecretData.EC_PRIVATE_KEY}
      ensures SecretData.RoundTrips(CODEC, SecretData.Block(kind, map[], contents))
    {
      RoundTripsOf(SecretData.Block(kind, map[], contents));
    }
  }

  // No input carries two marks.
  lemma OneParserAccepts(der: bytes)
    ensures ParseRsa(der).Some? ==> ParsePkcs8(der).None? && ParseEc(der).None?
    ensures ParsePkcs8(der).Some? ==> ParseEc(der).None?
    ensures ParseRsa([]).None? && ParsePkcs8([]).None? && ParseEc([]).None?
  {
  }

  lemma KeyLawsCanHold()
    ensures SecretData.KeyLaws(CODEC)
  {
    forall k: SecretData.RsaKey ensures CODEC.parsePkcs1(CODEC.marshalPkcs1(k)) == Some(k) {
      ReadMarkedOfMarked(1, k.number);
    }
    forall k: SecretData.EcKey ensures CODEC.parseSec1(CODEC.marshalSec1(k).value) == Some(k) {
      ReadMarkedOfMarked(2, k.number);
    }
    forall der
      ensures CODEC.parsePkcs1(der).Some? ==> CODEC.parsePkcs8(der).None? && CODEC.parseSec1(der).None?
      ensures CODEC.parsePkcs8(der).Some? ==> CODEC.parseSec1(der).None?
    {
      OneParserAccepts(der);
    }
    OneParserAccepts([]);
  }

  lemma CodecLawsCanHold()
    ensures SecretData.Shrinking(CODEC) && SecretData.PemLaws(CODEC) && SecretData.KeyLaws(CODEC)
  {
    PemLawsCanHold();
    KeyLawsCanHold();
  }

  // Under these codecs certificates are extracted from PEM and from PKCS #12, and both meet the
  // hypotheses under which extraction is idempotent.
  lemma CertificatesCanBeExtracted(pem: SecretData.Pem, contents: bytes)
    requires pem == CODEC
    ensures
      var cert := SecretData.Block(SecretData.CERTIFICATE, map[], contents);
      && SecretData.RoundTrips(pem, cert)
      && SecretData.CertificatePart(pem, Encode(cert)) == SecretData.Ok(Some(Encode(cert)))
      && SecretData.CertificatePart(pem, [9] + contents) == SecretData.Ok(Some(Encode(cert)))
      && SecretData.EmittedCertificates(pem, [9] + contents) == [cert]
  {
    var cert := SecretData.Block(SecretData.CERTIFICATE, map[], contents);
    KindsHaveTags();
    RoundTripsOf(cert);
    SecretData.BlocksOfOne(pem, cert);
    assert SecretData.Certificates([cert]) == [cert];
    assert SecretData.EncodeAll(pem, [cert]) == Encode(cert);
    assert ([9] + contents)[1..] == contents;
    assert pem.decode([9] + contents).None?;
  }

  // A PKCS #8 key is extracted in its own form, and an unsupported one is refused.
  lemma KeysCanBeExtracted(pem: SecretData.Pem, n: nat)
    requires pem == CODEC
    ensures SecretData.RenderKey(pem, Marked(3, n)) == SecretData.Key(SecretData.RSA_PRIVATE_KEY, Marked(1, n))
    ensures SecretData.RenderKey(pem, Marked(4, n)) == SecretData.Key(SecretData.EC_PRIVATE_KEY, Marked(2, n))
    ensures SecretData.RenderKey(pem, Marked(5, n)) == SecretData.BadKey(SecretData.UnknownKeyKind)
  {
    ReadMarkedOfMarked(3, n);
    ReadMarkedOfMarked(4, n);
    ReadMarkedOfMarked(5, n);
  }

  // A key in no known form is not an error: the result is an empty block labelled "PRIVATE KEY".
  lemma UnknownKeyIsEmptied(pem: SecretData.Pem)
    requires pem == CODEC
    ensures
      var unknown := SecretData.Block(SecretData.PRIVATE_KEY, map[], [7]);
      var emptied := SecretData.Block(SecretData.PRIVATE_KEY, map[], []);
      SecretData.PrivateKeyPart(pem, Encode(unknown)) == SecretData.Ok(Some(Encode(emptied)))
  {
    var unknown := SecretData.Block(SecretData.PRIVATE_KEY, map[], [7]);
    KindsHaveTags();
    RoundTripsOf(unknown);
    SecretData.BlocksOfOne(pem, unknown);
    assert SecretData.PRIVATE_KEY != SecretData.CERTIFICATE;
    assert SecretData.LastOther([unknown]) == Some([7]);
    assert SecretData.RenderKey(pem, [7]) == SecretData.Key(SecretData.PRIVATE_KEY, []);
  }

  /******* Key derivation *******/

  function CharBytes(c: char): bytes {
    var n := c as int;
    [n / 65536, n / 256 % 256, n % 256]
  }

  function TextBytes(s: string): (b: bytes)
    ensures |b| == 3 * |s|
  {
    if |s| == 0 then [] else CharBytes(s[0]) + TextBytes(s[1..])
  }

  lemma {:induction false} TextBytesInjective(s: string, t: string)
    requires TextBytes(s) == TextBytes(t)
    ensures s == t
  {
    assert |s| == |t|;
    if |s| > 0 {
      var a, b := TextBytes(s), TextBytes(t);
      assert a[0] == b[0] && a[1] == b[1] && a[2] == b[2];
      assert s[0] as int == t[0] as int;
      assert a[3..] == TextBytes(s[1..]) && b[3..] == TextBytes(t[1..]);
      TextBytesInjective(s[1..], t[1..]);
      assert s == [s[0]] + s[1..] && t == [t[0]] + t[1..];
    }
  }

  const KDF: StateHash.Kdf := (p: string, s: string) => TextBytes(p)

  lemma CollisionFreeCanHold(states: set<StateHash.State>)
    ensures StateHash.CollisionFree(KDF, states)
  {
    forall x, y | x in states && y in states && StateHash.DerivedKey(KDF, x) == StateHash.DerivedKey(KDF, y)
      ensures StateHash.Preimage(x) == StateHash.Preimage(y)
    {
      TextBytesInjective(StateHash.Preimage(x), StateHash.Preimage(y));
    }
  }
}
