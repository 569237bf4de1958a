/** The JSON text of a Secret's data map: an object with sorted keys (section 4 of RFC 8259)
    whose values are base64 strings (section 4 of RFC 4648) or null, with the escapes that
    Go's encoder applies to strings, and a parser that recovers the map from that text. */
module Json {
  import opened Text

  // A value is None for a nil byte slice and Some([]) for an empty one; they print differently.
  type DataMap = map<string, Option<bytes>>

  /******* Base64 *******/

  function Sextet(n: nat): (c: char)
    requires n < 64
    ensures c != '"' && c != '='
  {
    if n < 26 then 'A' + n as char
    else if n < 52 then 'a' + (n - 26) as char
    else if n < 62 then '0' + (n - 52) as char
    else if n == 62 then '+'
    else '/'
  }

  function SextetValue(c: char): (n: Option<nat>)
    ensures n.Some? ==> n.value < 64
  {
    if 'A' <= c <= 'Z' then Some(c as nat - 'A' as nat)
    else if 'a' <= c <= 'z' then Some(c as nat - 'a' as nat + 26)
    else if '0' <= c <= '9' then Some(c as nat - '0' as nat + 52)
    else if c == '+' then Some(62)
    else if c == '/' then Some(63)
    else None
  }

  lemma SextetInverse(n: nat)
    requires n < 64
    ensures SextetValue(Sextet(n)) == Some(n)
  {
  }

  function Base64(data: bytes): (s: string)
    ensures '"' !in s
  {
    if |data| == 0 then ""
    else
      var a := data[0];
      if |data| == 1 then [Sextet(a / 4), Sextet(a % 4 * 16), '=', '=']
      else
        var b := data[1];
        if |data| == 2 then [Sextet(a / 4), Sextet(a % 4 * 16 + b / 16), Sextet(b % 16 * 4), '=']
        else
          var c := data[2];
          [Sextet(a / 4), Sextet(a % 4 * 16 + b / 16), Sextet(b % 16 * 4 + c / 64), Sextet(c % 64)] + Base64(data[3..])
  }

  function ParseBase64(s: string): Option<bytes> {
    if |s| == 0 then Some([])
    else if |s| < 4 then None
    else
      var p :- SextetValue(s[0]);
      var q :- SextetValue(s[1]);
      var first := p * 4 + q / 16;
      if s[2] == '=' then
        if s[3] == '=' && |s| == 4 && q % 16 == 0 then Some([first]) else None
      else
        var r :- SextetValue(s[2]);
        var second := q % 16 * 16 + r / 4;
        if s[3] == '=' then
          if |s| == 4 && r % 4 == 0 then Some([first, second]) else None
        else
          var t :- SextetValue(s[3]);
          var rest :- ParseBase64(s[4..]);
          Some([first, second, r % 4 * 64 + t] + rest)
  }

  lemma {:induction false} ParseBase64Text(data: bytes)
    ensures ParseBase64(Base64(data)) == Some(data)
  {
    if |data| >= 3 {
      var tail := Base64(data[3..]);
      ParseBase64Text(data[3..]);
      ParseBase64Group(data[0], data[1], data[2], tail);
      assert data == [data[0], data[1], data[2]] + data[3..];
    } else if |data| == 2 {
      ParseBase64Pair(data[0], data[1]);
      assert data == [data[0], data[1]];
    } else if |data| == 1 {
      ParseBase64Single(data[0]);
      assert data == [data[0]];
    }
  }

  lemma ParseBase64Group(a: byte, b: byte, c: byte, tail: string)
    ensures
      ParseBase64([Sextet(a / 4), Sextet(a % 4 * 16 + b / 16), Sextet(b % 16 * 4 + c / 64), Sextet(c % 64)] + tail) ==
      match ParseBase64(tail) case None => None case Some(rest) => Some([a, b, c] + rest)
  {
    var s := [Sextet(a / 4), Sextet(a % 4 * 16 + b / 16), Sextet(b % 16 * 4 + c / 64), Sextet(c % 64)] + tail;
    Sextets(a, b, c);
    assert s[4..] == tail;
  }

  lemma ParseBase64Pair(a: byte, b: byte)
    ensures ParseBase64([Sextet(a / 4), Sextet(a % 4 * 16 + b / 16), Sextet(b % 16 * 4), '=']) == Some([a, b])
  {
    Sextets(a, b, 0);
  }

  lemma ParseBase64Single(a: byte)
    ensures ParseBase64([Sextet(a / 4), Sextet(a % 4 * 16), '=', '=']) == Some([a])
  {
    Sextets(a, 0, 0);
  }

  // Three octets are recovered from the four sextets that print them.
  lemma Sextets(a: byte, b: byte, c: byte)
    ensures
      var p, q, r, t := a / 4, a % 4 * 16 + b / 16, b % 16 * 4 + c / 64, c % 64;
      && SextetValue(Sextet(p)) == Some(p) && SextetValue(Sextet(q)) == Some(q)
      && SextetValue(Sextet(r)) == Some(r) && SextetValue(Sextet(t)) == Some(t)
      && p * 4 + q / 16 == a && q % 16 * 16 + r / 4 == b && r % 4 * 64 + t == c
  {
    var p, q, r, t := a / 4, a % 4 * 16 + b / 16, b % 16 * 4 + c / 64, c % 64;
    SextetInverse(p);
    SextetInverse(q);
    SextetInverse(r);
    SextetInverse(t);
  }

  /******* Strings *******/

  // The two-character escapes, without the backslash.
  function ShortEscape(c: char): Option<char> {
    if c == '"' || c == '\\' then Some(c)
    else if c == '\U{8}' then Some('b')
    else if c == '\U{C}' then Some('f')
    else if c == '\n' then Some('n')
    else if c == '\r' then Some('r')
    else if c == '\t' then Some('t')
    else None
  }

  predicate NeedsCodePoint(c: char) {
    c < ' ' || c == '<' || c == '>' || c == '&' || c == '\U{2028}' || c == '\U{2029}'
  }

  function EscapeChar(c: char): (s: string)
    ensures |s| > 0 && s[0] != '"'
  {
    var short := ShortEscape(c);
    if short.Some? then ['\\', short.value]
    else if NeedsCodePoint(c) then ['\\', 'u'] + HexText(c as nat, 4)
    else [c]
  }

  function Escape(s: string): string {
    if |s| == 0 then "" else EscapeChar(s[0]) + Escape(s[1..])
  }

  function ShortMeaning(c: char): Option<char> {
    match c
    case '"' => Some('"')
    case '\\' => Some('\\')
    case 'b' => Some('\U{8}')
    case 'f' => Some('\U{C}')
    case 'n' => Some('\n')
    case 'r' => Some('\r')
    case 't' => Some('\t')
    case _ => None
  }

  // The character at the front of an escaped string, and what follows its escape.
  function ParseChar(s: string): (r: Option<(char, string)>)
    ensures r.Some? ==> |r.value.1| < |s|
  {
    if |s| == 0 then None
    else if s[0] != '\\' then Some((s[0], s[1..]))
    else if |s| == 1 then None
    else if s[1] != 'u' then
      var c :- ShortMeaning(s[1]);
      Some((c, s[2..]))
    else if |s| < 6 then None
    else
      var n :- ParseHex(s[2..6]);
      if n < 0xD800 then Some((n as char, s[6..])) else None
  }

  // The characters up to the closing quote, and what follows it.
  function ParseString(s: string): Option<(string, string)> {
    if |s| == 0 then None
    else if s[0] == '"' then Some(("", s[1..]))
    else
      var (c, rest) :- ParseChar(s);
      var (cs, after) :- ParseString(rest);
      Some(([c] + cs, after))
  }

  lemma ParseEscapedChar(c: char, rest: string)
    ensures ParseChar(EscapeChar(c) + rest) == Some((c, rest))
  {
    var s := EscapeChar(c) + rest;
    if ShortEscape(c).Some? {
      assert s[2..] == rest;
    } else if NeedsCodePoint(c) {
      var n := c as nat;
      assert Power16(4) == 65536 by {
        assert Power16(2) == 256;
      }
      ParseHexText(n, 4);
      assert s[2..6] == HexText(n, 4);
      assert s[6..] == rest;
    } else {
      assert s[1..] == rest;
    }
  }

  lemma {:induction false} ParseEscaped(key: string, rest: string)
    ensures ParseString(Escape(key) + "\"" + rest) == Some((key, rest))
  {
    var s := Escape(key) + "\"" + rest;
    if |key| == 0 {
      assert s[1..] == rest;
    } else {
      var tail := Escape(key[1..]) + "\"" + rest;
      assert s == EscapeChar(key[0]) + tail;
      ParseEscapedChar(key[0], tail);
      ParseEscaped(key[1..], rest);
      assert key == [key[0]] + key[1..];
    }
  }

  /******* Sorted keys *******/

  // Lexicographic order.
  predicate Below(a: string, b: string) {
    |a| == 0 || (|b| > 0 && (a[0] < b[0] || (a[0] == b[0] && Below(a[1..], b[1..]))))
  }

  lemma {:induction false} BelowTotal(a: string, b: string)
    ensures Below(a, b) || Below(b, a)
  {
    if |a| > 0 && |b| > 0 && a[0] == b[0] {
      BelowTotal(a[1..], b[1..]);
    }
  }

  lemma {:induction false} BelowTransitive(a: string, b: string, c: string)
    requires Below(a, b) && Below(b, c)
    ensures Below(a, c)
  {
    if |a| > 0 && a[0] == b[0] && b[0] == c[0] {
      BelowTransitive(a[1..], b[1..], c[1..]);
    }
  }

  lemma {:induction false} BelowAntisymmetric(a: string, b: string)
    requires Below(a, b) && Below(b, a)
    ensures a == b
  {
    if |a| > 0 {
      BelowAntisymmetric(a[1..], b[1..]);
      assert a == [a[0]] + a[1..] && b == [b[0]] + b[1..];
    }
  }

  predicate IsLeast(k: string, keys: set<string>) {
    k in keys && forall other | other in keys :: Below(k, other)
  }

  lemma {:induction false} LeastExists(keys: set<string>)
    requires keys != {}
    ensures exists k :: IsLeast(k, keys)
  {
    var k :| k in keys;
    BelowTotal(k, k);
    if keys == {k} {
      assert IsLeast(k, keys);
    } else {
      LeastExists(keys - {k});
      var least :| IsLeast(least, keys - {k});
      BelowTotal(k, least);
      if Below(k, least) {
        forall other | other in keys ensures Below(k, other) {
          if other != k {
            BelowTransitive(k, least, other);
          }
        }
        assert IsLeast(k, keys);
      } else {
        assert IsLeast(least, keys);
      }
    }
  }

  lemma LeastIsUnique(keys: set<string>)
    ensures forall k, l :: IsLeast(k, keys) && IsLeast(l, keys) ==> k == l
  {
    forall k, l | IsLeast(k, keys) && IsLeast(l, keys) ensures k == l {
      BelowAntisymmetric(k, l);
    }
  }

  function Least(keys: set<string>): (k: string)
    requires keys != {}
    ensures IsLeast(k, keys)
  {
    LeastExists(keys);
    LeastIsUnique(keys);
    var k :| IsLeast(k, keys);
    k
  }

  function SortedKeys(keys: set<string>): (ks: seq<string>)
    ensures forall k :: k in ks <==> k in keys
    ensures forall i, j :: 0 <= i < j < |ks| ==> ks[i] != ks[j] && Below(ks[i], ks[j])
  {
    if keys == {} then []
    else
      var least := Least(keys);
      var rest := SortedKeys(keys - {least});
      LeastFirst(least, keys, rest);
      [least] + rest
  }

  lemma LeastFirst(least: string, keys: set<string>, rest: seq<string>)
    requires IsLeast(least, keys) && forall k :: k in rest <==> k in keys - {least}
    ensures forall i :: 0 <= i < |rest| ==> rest[i] != least && Below(least, rest[i])
    ensures forall k :: k in [least] + rest <==> k in keys
  {
    assert forall i :: 0 <= i < |rest| ==> rest[i] in rest;
  }

  /******* Objects *******/

  function ValueText(v: Option<bytes>): string {
    match v
    case None => "null"
    case Some(data) => "\"" + Base64(data) + "\""
  }

  function MemberText(key: string, v: Option<bytes>): string {
    "\"" + Escape(key) + "\":" + ValueText(v)
  }

  function MembersText(ks: seq<string>, m: DataMap): string
    requires forall k :: k in ks ==> k in m
  {
    if |ks| == 0 then ""
    else if |ks| == 1 then MemberText(ks[0], m[ks[0]])
    else MemberText(ks[0], m[ks[0]]) + "," + MembersText(ks[1..], m)
  }

  function Marshal(m: Option<DataMap>): string {
    match m
    case None => "null"
    case Some(entries) => "{" + MembersText(SortedKeys(entries.Keys), entries) + "}"
  }

  function ParseValue(s: string): (r: Option<(Option<bytes>, string)>)
    ensures r.Some? ==> |r.value.1| < |s|
  {
    if |s| == 0 then None
    else if s[0] == 'n' then
      if |s| >= 4 && s[..4] == "null" then Some((None, s[4..])) else None
    else if s[0] != '"' then None
    else
      var (digits, rest) :- Cut(s[1..], '"');
      var data :- ParseBase64(digits);
      CutShortens(s[1..], '"');
      Some((Some(data), rest))
  }

  lemma {:induction false} CutShortens(s: string, sep: char)
    ensures Cut(s, sep).Some? ==> |Cut(s, sep).value.1| < |s|
  {
    if |s| > 0 && s[0] != sep {
      CutShortens(s[1..], sep);
    }
  }

  lemma {:induction false} ParseStringShortens(s: string)
    ensures ParseString(s).Some? ==> |ParseString(s).value.1| < |s|
    decreases |s|
  {
    if |s| > 0 && s[0] != '"' && ParseChar(s).Some? {
      ParseStringShortens(ParseChar(s).value.1);
    }
  }

  // Members up to the closing brace, which must end the text.
  function ParseMembers(s: string): Option<DataMap>
    decreases |s|
  {
    if |s| == 0 || s[0] != '"' then None
    else
      var (key, afterKey) :- ParseString(s[1..]);
      ParseStringShortens(s[1..]);
      if |afterKey| == 0 || afterKey[0] != ':' then None
      else
        var (v, rest) :- ParseValue(afterKey[1..]);
        if rest == "}" then Some(map[key := v])
        else if |rest| == 0 || rest[0] != ',' then None
        else
          var others :- ParseMembers(rest[1..]);
          Some(others[key := v])
  }

  function Parse(s: string): Option<Option<DataMap>> {
    if s == "null" then Some(None)
    else if s == "{}" then Some(Some(map[]))
    else if |s| == 0 || s[0] != '{' then None
    else
      var m :- ParseMembers(s[1..]);
      Some(Some(m))
  }

  lemma ParseValueText(v: Option<bytes>, rest: string)
    ensures ParseValue(ValueText(v) + rest) == Some((v, rest))
  {
    match v
    case None =>
      var s := "null" + rest;
      assert s[..4] == "null" && s[4..] == rest;
    case Some(data) =>
      ParseQuoted(data, rest);
  }

  lemma ParseQuoted(data: bytes, rest: string)
    ensures ParseValue("\"" + Base64(data) + "\"" + rest) == Some((Some(data), rest))
  {
    var s := "\"" + Base64(data) + "\"" + rest;
    assert s[0] == '"' && s[1..] == Base64(data) + ['"'] + rest;
    CutAt(Base64(data), '"', rest);
    ParseBase64Text(data);
  }

  function Restrict(ks: seq<string>, m: DataMap): DataMap {
    map k | k in ks && k in m :: m[k]
  }

  lemma MemberTail(e: string, v: string, rest: string)
    ensures ("\"" + e + "\":" + v + rest)[1..] == e + "\"" + (":" + (v + rest))
  {
  }

  // One member, followed by the closing brace or by a comma and more members.
  lemma ParseMember(key: string, v: Option<bytes>, rest: string)
    ensures ParseMembers(MemberText(key, v) + rest) ==
            if rest == "}" then Some(map[key := v])
            else if |rest| == 0 || rest[0] != ',' then None
            else match ParseMembers(rest[1..])
                 case None => None
                 case Some(others) => Some(others[key := v])
  {
    var s := MemberText(key, v) + rest;
    var after := ":" + (ValueText(v) + rest);
    MemberTail(Escape(key), ValueText(v), rest);
    ParseEscaped(key, after);
    ParseValueText(v, rest);
    assert after[1..] == ValueText(v) + rest;
  }

  lemma MembersTextStep(ks: seq<string>, m: DataMap)
    requires |ks| > 1
    requires forall k :: k in ks ==> k in m
    ensures
      MembersText(ks, m) + "}" == MemberText(ks[0], m[ks[0]]) + ("," + (MembersText(ks[1..], m) + "}"))
  {
  }

  lemma RestrictStep(ks: seq<string>, m: DataMap)
    requires |ks| > 0 && ks[0] in m
    ensures Restrict(ks, m) == Restrict(ks[1..], m)[ks[0] := m[ks[0]]]
  {
    assert ks == [ks[0]] + ks[1..];
  }

  lemma {:induction false} ParseMembersText(ks: seq<string>, m: DataMap)
    requires |ks| > 0
    requires forall k :: k in ks ==> k in m
    ensures ParseMembers(MembersText(ks, m) + "}") == Some(Restrict(ks, m))
  {
    RestrictStep(ks, m);
    if |ks| == 1 {
      ParseMember(ks[0], m[ks[0]], "}");
    } else {
      var rest := "," + (MembersText(ks[1..], m) + "}");
      MembersTextStep(ks, m);
      ParseMember(ks[0], m[ks[0]], rest);
      assert rest[1..] == MembersText(ks[1..], m) + "}";
      ParseMembersText(ks[1..], m);
    }
  }

  lemma RestrictToKeys(ks: seq<string>, m: DataMap)
    requires forall k :: k in ks <==> k in m.Keys
    ensures Restrict(ks, m) == m
    ensures |ks| == 0 ==> m == map[]
  {
    if |ks| == 0 {
      assert forall k :: k !in m.Keys;
    }
  }

  lemma ParseObject(members: string)
    requires |members| > 0
    ensures Parse("{" + members + "}") ==
            match ParseMembers(members + "}") case None => None case Some(m) => Some(Some(m))
  {
    InBraces(members);
  }

  lemma InBraces(members: string)
    requires |members| > 0
    ensures
      var s := "{" + members + "}";
      s[0] == '{' && s != "null" && s != "{}" && s[1..] == members + "}"
  {
    assert "null"[0] == 'n';
  }

  // The printed data map determines the data map, and keeps a nil map, an empty map,
  // a nil value and an empty value apart.
  lemma ParseMarshal(m: Option<DataMap>)
    ensures Parse(Marshal(m)) == Some(m)
  {
    if m.Some? {
      var ks := SortedKeys(m.value.Keys);
      RestrictToKeys(ks, m.value);
      if |ks| == 0 {
        assert Marshal(m) == "{}";
      } else {
        assert |MembersText(ks, m.value)| > 0;
        ParseObject(MembersText(ks, m.value));
        ParseMembersText(ks, m.value);
      }
    }
  }
}
