/** The state hash stored in a SecretSync's status: its preimage is uniquely decodable, so with a
    collision-free key derivation two equal hashes come from equal states. */
module StateHash {
  import opened Text
  import Json

  // Everything a stored hash stands for.
  datatype State = State(
    data: Option<Json.DataMap>,
    classUid: string,
    classGeneration: int,
    syncUid: string,
    syncGeneration: int,
    force: string
  )

  const HASH_VERSION := "v1:"

  function JoinFields(classUid: string, classGeneration: string, syncUid: string, syncGeneration: string,
                      force: string): string
  {
    classUid + "|" + classGeneration + "|" + syncUid + "|" + syncGeneration + "|" + force
  }

  // The bytes that are hashed: the length-prefixed secret data, then the identifying fields.
  function Preimage(x: State): string {
    var secret := Json.Marshal(x.data);
    IntText(Utf8Length(secret)) + ":" + secret
    + JoinFields(x.classUid, IntText(x.classGeneration), x.syncUid, IntText(x.syncGeneration), x.force)
  }

  function DecodeFields(s: string, data: Option<Json.DataMap>): Option<State> {
    var (classUid, s1) :- Cut(s, '|');
    var (classGen, s2) :- Cut(s1, '|');
    var (syncUid, s3) :- Cut(s2, '|');
    var (syncGen, force) :- Cut(s3, '|');
    var classGeneration :- ParseInt(classGen);
    var syncGeneration :- ParseInt(syncGen);
    Some(State(data, classUid, classGeneration, syncUid, syncGeneration, force))
  }

  function DecodePreimage(s: string): Option<State> {
    var (size, s1) :- Cut(s, ':');
    var n :- ParseNat(size);
    var (secret, fields) :- TakeBytes(s1, n);
    var data :- Json.Parse(secret);
    DecodeFields(fields, data)
  }

  // UIDs are assigned by the API server as UUIDs.
  predicate ValidUids(x: State) {
    '|' !in x.classUid && '|' !in x.syncUid
  }

  lemma DecodeJoinedFields(x: State)
    requires ValidUids(x)
    ensures DecodeFields(JoinFields(x.classUid, IntText(x.classGeneration), x.syncUid,
                                    IntText(x.syncGeneration), x.force), x.data) == Some(x)
  {
    var g, h := IntText(x.classGeneration), IntText(x.syncGeneration);
    var s3 := h + ['|'] + x.force;
    var s2 := x.syncUid + ['|'] + s3;
    var s1 := g + ['|'] + s2;
    assert JoinFields(x.classUid, g, x.syncUid, h, x.force) == x.classUid + ['|'] + s1;
    IntTextExcludes(x.classGeneration, '|');
    IntTextExcludes(x.syncGeneration, '|');
    CutAt(x.classUid, '|', s1);
    CutAt(g, '|', s2);
    CutAt(x.syncUid, '|', s3);
    CutAt(h, '|', x.force);
    ParseIntText(x.classGeneration);
    ParseIntText(x.syncGeneration);
  }

  // The preimage determines the secret data, both objects' UIDs and generations, and the
  // free-form ForceSynchronization text, whatever separators that text contains.
  lemma DecodePreimageInverse(x: State)
    requires ValidUids(x)
    ensures DecodePreimage(Preimage(x)) == Some(x)
  {
    var secret := Json.Marshal(x.data);
    var size := Utf8Length(secret);
    var fields := JoinFields(x.classUid, IntText(x.classGeneration), x.syncUid, IntText(x.syncGeneration), x.force);
    assert Preimage(x) == IntText(size) + [':'] + (secret + fields);
    IntTextExcludes(size, ':');
    CutAt(IntText(size), ':', secret + fields);
    ParseNatText(size);
    TakeBytesOfPrefix(secret, fields);
    Json.ParseMarshal(x.data);
    DecodeJoinedFields(x);
  }

  // With a separator inside a UID two different states share a preimage.
  lemma SeparatorInUidCollides(data: Option<Json.DataMap>)
    ensures
      var x, y := State(data, "a|1", 2, "7", 3, "f"), State(data, "a", 1, "2", 7, "3|f");
      x != y && Preimage(x) == Preimage(y)
  {
    assert IntText(1) == "1" && IntText(2) == "2" && IntText(3) == "3" && IntText(7) == "7";
    assert JoinFields("a|1", "2", "7", "3", "f") == "a|1|2|7|3|f";
    assert JoinFields("a", "1", "2", "7", "3|f") == "a|1|2|7|3|f";
  }

  /******* The hash *******/

  // Password-based key derivation, from the preimage and the salt to the derived key.
  type Kdf = (string, string) -> bytes

  function DerivedKey(kdf: Kdf, x: State): bytes {
    kdf(Preimage(x), x.syncUid)
  }

  // Among these states, a derived key has only one preimage. Equal preimages of different states
  // are not excluded; that there are none is proved.
  ghost predicate CollisionFree(kdf: Kdf, states: set<State>) {
    forall x, y :: x in states && y in states && DerivedKey(kdf, x) == DerivedKey(kdf, y) ==> Preimage(x) == Preimage(y)
  }

  function SyncHash(kdf: Kdf, x: State): (h: string)
    ensures h != ""
  {
    HASH_VERSION + BytesHex(DerivedKey(kdf, x))
  }

  // Equal stored hashes stand for equal states.
  lemma SyncHashInjective(kdf: Kdf, states: set<State>, x: State, y: State)
    requires CollisionFree(kdf, states) && x in states && y in states
    requires ValidUids(x) && ValidUids(y)
    requires SyncHash(kdf, x) == SyncHash(kdf, y)
    ensures x == y
  {
    var h, k := BytesHex(DerivedKey(kdf, x)), BytesHex(DerivedKey(kdf, y));
    assert h == SyncHash(kdf, x)[|HASH_VERSION|..] && k == SyncHash(kdf, y)[|HASH_VERSION|..];
    BytesHexInjective(DerivedKey(kdf, x), DerivedKey(kdf, y));
    DecodePreimageInverse(x);
    DecodePreimageInverse(y);
  }

  // The stored text: a version, then two lower-case hexadecimal digits for each byte of the key that is
  // derived from the preimage with the SecretSync's UID as the salt.
  lemma HashText(kdf: Kdf, x: State)
    ensures
      var h, key := SyncHash(kdf, x), kdf(Preimage(x), x.syncUid);
      && |h| == 3 + 2 * |key| && h[..3] == "v1:"
      && forall i :: 0 <= i < |key| ==>
           h[3 + 2 * i] == "0123456789abcdef"[key[i] / 16] && h[4 + 2 * i] == "0123456789abcdef"[key[i] % 16]
  {
    BytesHexDigits(kdf(Preimage(x), x.syncUid));
  }

  lemma {:induction false} BytesHexDigits(data: bytes)
    ensures forall i :: 0 <= i < |data| ==>
              && BytesHex(data)[2 * i] == "0123456789abcdef"[data[i] / 16]
              && BytesHex(data)[2 * i + 1] == "0123456789abcdef"[data[i] % 16]
  {
    if |data| > 0 {
      BytesHexDigits(data[1..]);
      forall i | 0 <= i < |data|
        ensures BytesHex(data)[2 * i] == "0123456789abcdef"[data[i] / 16]
        ensures BytesHex(data)[2 * i + 1] == "0123456789abcdef"[data[i] % 16]
      {
        if i == 0 {
          HexDigit(data[0] / 16);
          HexDigit(data[0] % 16);
        } else {
          assert data[i] == data[1..][i - 1];
          assert BytesHex(data)[2 * i] == BytesHex(data[1..])[2 * (i - 1)];
          assert BytesHex(data)[2 * i + 1] == BytesHex(data[1..])[2 * (i - 1) + 1];
        }
      }
    }
  }

  lemma HexDigit(d: nat)
    requires d < 16
    ensures HexChar(d) == "0123456789abcdef"[d]
  {
  }

  // Objects with different UIDs have different salts: a derivation that keeps salts apart keeps their
  // hashes apart, even for equal preimages.
  lemma SaltSeparatesObjects(kdf: Kdf, x: State, y: State)
    requires forall p, q, s, t :: kdf(p, s) == kdf(q, t) ==> s == t
    requires SyncHash(kdf, x) == SyncHash(kdf, y)
    ensures x.syncUid == y.syncUid
  {
    var h, k := BytesHex(DerivedKey(kdf, x)), BytesHex(DerivedKey(kdf, y));
    assert h == SyncHash(kdf, x)[|HASH_VERSION|..] && k == SyncHash(kdf, y)[|HASH_VERSION|..];
    BytesHexInjective(DerivedKey(kdf, x), DerivedKey(kdf, y));
  }

  /******* An example *******/

  lemma OneKey(key: string)
    ensures Json.SortedKeys({key}) == [key]
  {
    assert Json.Least({key}) in {key};
    assert {key} - {key} == {};
    assert Json.SortedKeys({}) == [];
  }

  lemma MemberExample()
    ensures Json.MemberText("k", Some([1])) == "\"k\":\"AQ==\""
  {
    assert Json.Base64([1]) == "AQ==";
    assert Json.Escape("k") == "k" by {
      assert "k"[1..] == "";
    }
  }

  lemma MarshalOne(key: string, v: Option<bytes>, m: Json.DataMap)
    requires m == map[key := v]
    ensures Json.Marshal(Some(m)) == "{" + Json.MemberText(key, v) + "}"
  {
    assert m.Keys == {key};
    OneKey(key);
  }

  lemma MarshalExample()
    ensures Json.Marshal(Some(map["k" := Some([1])])) == "{\"k\":\"AQ==\"}"
  {
    MarshalOne("k", Some([1]), map["k" := Some([1])]);
    MemberExample();
  }

  lemma {:induction false} AsciiLength(s: string)
    requires forall i :: 0 <= i < |s| ==> s[i] < '\U{80}'
    ensures Utf8Length(s) == |s|
  {
    if |s| > 0 {
      AsciiLength(s[1..]);
    }
  }

  lemma Numerals()
    ensures IntText(12) == "12" && IntText(1) == "1" && IntText(2) == "2"
  {
    assert NatText(12) == NatText(1) + "2";
  }

  lemma ExampleSize()
    ensures IntText(Utf8Length("{\"k\":\"AQ==\"}")) == "12"
  {
    AsciiText("{\"k\":\"AQ==\"}", 12);
    Numerals();
  }

  lemma AsciiText(s: string, n: nat)
    requires |s| == n && forall i :: 0 <= i < n ==> s[i] < '\U{80}'
    ensures IntText(Utf8Length(s)) == IntText(n)
  {
    AsciiLength(s);
  }

  lemma FieldsExample()
    ensures JoinFields("class", "1", "sync", "2", "now") == "class|1|sync|2|now"
  {
  }

  lemma PreimageParts(x: State, secret: string, size: string, fields: string)
    requires Json.Marshal(x.data) == secret && IntText(Utf8Length(secret)) == size
    requires JoinFields(x.classUid, IntText(x.classGeneration), x.syncUid, IntText(x.syncGeneration), x.force) == fields
    ensures Preimage(x) == size + ":" + secret + fields
  {
  }

  // The bytes that are hashed for one key with one byte.
  lemma PreimageExample()
    ensures Preimage(State(Some(map["k" := Some([1])]), "class", 1, "sync", 2, "now")) ==
            "12" + ":" + "{\"k\":\"AQ==\"}" + "class|1|sync|2|now"
  {
    var secret := "{\"k\":\"AQ==\"}";
    MarshalExample();
    ExampleSize();
    Numerals();
    FieldsExample();
    PreimageParts(State(Some(map["k" := Some([1])]), "class", 1, "sync", 2, "now"), secret, "12", "class|1|sync|2|now");
  }
}
