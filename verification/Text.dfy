/** Text helpers shared by the printed keys and the hash preimage: decimal and hexadecimal
    numerals, cutting a string at a separator, byte lengths, and trimming white space. */
module Text {

  datatype Option<+T> = None | Some(value: T) {
    predicate IsFailure() { None? }

    function PropagateFailure<U>(): Option<U>
      requires None?
    {
      None
    }

    function Extract(): T
      requires Some?
    {
      value
    }
  }

  type byte = b: int | 0 <= b < 256

  type bytes = seq<byte>

  /******* Decimal numerals *******/

  predicate IsDigit(c: char) {
    '0' <= c <= '9'
  }

  function DigitChar(d: nat): char
    requires d < 10
  {
    '0' + d as char
  }

  function DigitValue(c: char): nat
    requires IsDigit(c)
  {
    c as nat - '0' as nat
  }

  function NatText(n: nat): (s: string)
    ensures |s| > 0
    ensures forall i :: 0 <= i < |s| ==> IsDigit(s[i])
  {
    if n < 10 then [DigitChar(n)] else NatText(n / 10) + [DigitChar(n % 10)]
  }

  function IntText(n: int): string {
    if n < 0 then "-" + NatText(-n) else NatText(n)
  }

  function ParseNat(s: string): (r: Option<int>)
    ensures r.Some? ==> r.value >= 0
  {
    if |s| == 0 || !IsDigit(s[|s| - 1]) then None
    else if |s| == 1 then Some(DigitValue(s[0]))
    else
      var high :- ParseNat(s[..|s| - 1]);
      Some(10 * high + DigitValue(s[|s| - 1]))
  }

  function ParseInt(s: string): Option<int> {
    if |s| > 0 && s[0] == '-' then
      match ParseNat(s[1..])
      case None => None
      case Some(n) => Some(-n)
    else
      ParseNat(s)
  }

  lemma {:induction false} ParseNatText(n: nat)
    ensures ParseNat(NatText(n)) == Some(n)
  {
    if n >= 10 {
      ParseNatText(n / 10);
      var s := NatText(n);
      assert s[..|s| - 1] == NatText(n / 10);
    }
  }

  lemma ParseIntText(n: int)
    ensures ParseInt(IntText(n)) == Some(n)
  {
    if n < 0 {
      ParseNatText(-n);
      AfterSign(NatText(-n));
    } else {
      ParseNatText(n);
      Unsigned(NatText(n));
    }
  }

  lemma AfterSign(digits: string)
    ensures ParseInt("-" + digits) == match ParseNat(digits) case None => None case Some(n) => Some(-n)
  {
    assert ("-" + digits)[1..] == digits;
  }

  lemma Unsigned(digits: string)
    requires |digits| > 0 && IsDigit(digits[0])
    ensures ParseInt(digits) == ParseNat(digits)
  {
  }

  // A numeral contains no separator.
  lemma IntTextExcludes(n: int, sep: char)
    requires !IsDigit(sep) && sep != '-'
    ensures sep !in IntText(n)
  {
    var digits := NatText(if n < 0 then -n else n);
    assert sep !in digits;
  }

  /******* Cutting at a separator *******/

  // The text before and after the first `sep`.
  function Cut(s: string, sep: char): Option<(string, string)> {
    if |s| == 0 then None
    else if s[0] == sep then Some(("", s[1..]))
    else
      var (before, after) :- Cut(s[1..], sep);
      Some(([s[0]] + before, after))
  }

  lemma {:induction false} CutAt(before: string, sep: char, after: string)
    requires sep !in before
    ensures Cut(before + [sep] + after, sep) == Some((before, after))
  {
    var s := before + [sep] + after;
    if |before| == 0 {
      assert s[1..] == after;
    } else {
      CutAt(before[1..], sep, after);
      assert s[1..] == before[1..] + [sep] + after;
      assert [before[0]] + before[1..] == before;
    }
  }

  /******* Byte lengths of UTF-8 text (section 3 of RFC 3629) *******/

  function Utf8Width(c: char): (w: nat)
    ensures 1 <= w <= 4
  {
    if c < '\U{80}' then 1 else if c < '\U{800}' then 2 else if c < '\U{10000}' then 3 else 4
  }

  function Utf8Length(s: string): nat {
    if |s| == 0 then 0 else Utf8Width(s[0]) + Utf8Length(s[1..])
  }

  // Splits off the prefix that is encoded in exactly `size` bytes.
  function TakeBytes(s: string, size: nat): Option<(string, string)> {
    if size == 0 then Some(("", s))
    else if |s| == 0 || Utf8Width(s[0]) > size then None
    else
      var (prefix, rest) :- TakeBytes(s[1..], size - Utf8Width(s[0]));
      Some(([s[0]] + prefix, rest))
  }

  lemma {:induction false} TakeBytesOfPrefix(prefix: string, rest: string)
    ensures TakeBytes(prefix + rest, Utf8Length(prefix)) == Some((prefix, rest))
  {
    if |prefix| == 0 {
      assert prefix + rest == rest;
    } else {
      TakeBytesOfPrefix(prefix[1..], rest);
      assert (prefix + rest)[1..] == prefix[1..] + rest;
      assert [prefix[0]] + prefix[1..] == prefix;
    }
  }

  /******* Hexadecimal numerals *******/

  function HexChar(d: nat): (c: char)
    requires d < 16
  {
    if d < 10 then '0' + d as char else 'a' + (d - 10) as char
  }

  function HexValue(c: char): (d: Option<nat>)
    ensures d.Some? ==> d.value < 16
  {
    if '0' <= c <= '9' then Some(c as nat - '0' as nat)
    else if 'a' <= c <= 'f' then Some(c as nat - 'a' as nat + 10)
    else None
  }

  lemma HexCharValue(d: nat)
    requires d < 16
    ensures HexValue(HexChar(d)) == Some(d)
    ensures HexChar(d) != '"' && HexChar(d) != '\\'
  {
  }

  function Power16(width: nat): (p: nat)
    ensures p > 0
  {
    if width == 0 then 1 else 16 * Power16(width - 1)
  }

  // The lower `width` hexadecimal digits of `n`, most significant first.
  function HexText(n: nat, width: nat): (s: string)
    ensures |s| == width
  {
    if width == 0 then "" else HexText(n / 16, width - 1) + [HexChar(n % 16)]
  }

  function ParseHex(s: string): Option<nat> {
    if |s| == 0 then Some(0)
    else
      var high :- ParseHex(s[..|s| - 1]);
      var low :- HexValue(s[|s| - 1]);
      Some(16 * high + low)
  }

  lemma {:induction false} ParseHexText(n: nat, width: nat)
    requires n < Power16(width)
    ensures ParseHex(HexText(n, width)) == Some(n)
  {
    if width > 0 {
      ParseHexText(n / 16, width - 1);
      HexCharValue(n % 16);
      var s := HexText(n, width);
      assert s[..width - 1] == HexText(n / 16, width - 1);
    }
  }

  function BytesHex(data: bytes): (s: string)
    ensures |s| == 2 * |data|
  {
    if |data| == 0 then "" else [HexChar(data[0] / 16), HexChar(data[0] % 16)] + BytesHex(data[1..])
  }

  lemma {:induction false} BytesHexInjective(a: bytes, b: bytes)
    requires BytesHex(a) == BytesHex(b)
    ensures a == b
  {
    assert |a| == |b|;
    if |a| > 0 {
      var s, t := BytesHex(a), BytesHex(b);
      HexCharValue(a[0] / 16);
      HexCharValue(a[0] % 16);
      HexCharValue(b[0] / 16);
      HexCharValue(b[0] % 16);
      assert s[0] == t[0] && s[1] == t[1];
      assert s[2..] == BytesHex(a[1..]) && t[2..] == BytesHex(b[1..]);
      BytesHexInjective(a[1..], b[1..]);
      assert a == [a[0]] + a[1..] && b == [b[0]] + b[1..];
    }
  }

  /******* White space *******/

  // The code points with Unicode property White_Space, which is what strings.TrimSpace removes.
  predicate IsSpace(c: char) {
    || '\U{9}' <= c <= '\U{D}' || c == ' ' || c == '\U{85}' || c == '\U{A0}' || c == '\U{1680}'
    || '\U{2000}' <= c <= '\U{200A}' || c == '\U{2028}' || c == '\U{2029}' || c == '\U{202F}'
    || c == '\U{205F}' || c == '\U{3000}'
  }

  lemma SpacesOf(c: char)
    ensures IsSpace(c) <==>
            c in "\t\n\U{B}\U{C}\r \U{85}\U{A0}\U{1680}\U{2000}\U{2001}\U{2002}\U{2003}\U{2004}\U{2005}\U{2006}"
              + "\U{2007}\U{2008}\U{2009}\U{200A}\U{2028}\U{2029}\U{202F}\U{205F}\U{3000}"
  {
    var first := "\t\n\U{B}\U{C}\r \U{85}\U{A0}\U{1680}\U{2000}\U{2001}\U{2002}\U{2003}\U{2004}\U{2005}\U{2006}";
    var second := "\U{2007}\U{2008}\U{2009}\U{200A}\U{2028}\U{2029}\U{202F}\U{205F}\U{3000}";
    assert c in first + second <==> c in first || c in second;
  }

  function TrimLeft(s: string): string {
    if |s| > 0 && IsSpace(s[0]) then TrimLeft(s[1..]) else s
  }

  function TrimRight(s: string): string {
    if |s| > 0 && IsSpace(s[|s| - 1]) then TrimRight(s[..|s| - 1]) else s
  }

  function TrimSpace(s: string): string {
    TrimRight(TrimLeft(s))
  }

  lemma TrimSpaceFree(s: string)
    requires forall i :: 0 <= i < |s| ==> !IsSpace(s[i])
    ensures TrimSpace(s) == s
  {
  }

  predicate AllSpace(s: string) {
    forall i :: 0 <= i < |s| ==> IsSpace(s[i])
  }

  lemma {:induction false} TrimLeftSplits(s: string) returns (left: string)
    ensures AllSpace(left) && s == left + TrimLeft(s)
    ensures |TrimLeft(s)| > 0 ==> !IsSpace(TrimLeft(s)[0])
  {
    if |s| > 0 && IsSpace(s[0]) {
      var rest := TrimLeftSplits(s[1..]);
      left := [s[0]] + rest;
      assert s == [s[0]] + s[1..];
    } else {
      left := [];
    }
  }

  lemma {:induction false} TrimRightSplits(s: string) returns (right: string)
    ensures AllSpace(right) && s == TrimRight(s) + right
    ensures |TrimRight(s)| > 0 ==> !IsSpace(TrimRight(s)[|TrimRight(s)| - 1])
  {
    if |s| > 0 && IsSpace(s[|s| - 1]) {
      var rest := TrimRightSplits(s[..|s| - 1]);
      right := rest + [s[|s| - 1]];
      assert s == s[..|s| - 1] + [s[|s| - 1]];
    } else {
      right := [];
    }
  }

  // Trimming removes white space at both ends, all of it, and nothing else.
  lemma TrimSpaceMeaning(s: string)
    ensures exists left, right :: AllSpace(left) && AllSpace(right) && s == left + TrimSpace(s) + right
    ensures
      var t := TrimSpace(s);
      |t| > 0 ==> !IsSpace(t[0]) && !IsSpace(t[|t| - 1])
  {
    var left := TrimLeftSplits(s);
    var right := TrimRightSplits(TrimLeft(s));
    assert s == left + TrimSpace(s) + right;
  }
}
