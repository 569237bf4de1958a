/** Service account tokens: when a cached token is due for refresh, in 64-bit nanosecond
    arithmetic, and the printed cache key. */
module Tokens {
  import opened Text

  datatype BoundReference = BoundReference(kind: string, apiVersion: string, name: string, uid: string)

  const NO_REFERENCE := BoundReference("", "", "", "")

  datatype RequestSpec = RequestSpec(
    audiences: Option<seq<string>>,
    expirationSeconds: Option<int>,
    boundRef: Option<BoundReference>
  )

  // `expiration` is a time in nanoseconds.
  datatype TokenStatus = TokenStatus(token: string, expiration: int)

  datatype TokenRequest = TokenRequest(spec: RequestSpec, status: TokenStatus)

  /******* 64-bit durations *******/

  const TWO_TO_THE_63 := 0x8000_0000_0000_0000
  const TWO_TO_THE_64 := 0x1_0000_0000_0000_0000

  const SECOND := 1_000_000_000
  const MAX_TTL := 24 * 3600 * SECOND
  const MAX_JITTER := 10

  // The value of an int64 after a wrap-around.
  function Wrap(n: int): (w: int)
    ensures -TWO_TO_THE_63 <= w < TWO_TO_THE_63
    ensures -TWO_TO_THE_63 <= n < TWO_TO_THE_63 ==> w == n
  {
    (n + TWO_TO_THE_63) % TWO_TO_THE_64 - TWO_TO_THE_63
  }

  // Integer division that truncates toward zero.
  function Quotient(a: int, b: int): int
    requires b > 0
  {
    if a >= 0 then a / b else -(-a / b)
  }

  function Seconds(n: int): int {
    Wrap(n * SECOND)
  }

  predicate Expired(tr: TokenRequest, now: int) {
    now > tr.status.expiration
  }

  // `jitter` is a random whole number of seconds below MAX_JITTER.
  predicate RequiresRefresh(tr: TokenRequest, now: int, jitter: nat)
    requires jitter < MAX_JITTER
  {
    match tr.spec.expirationSeconds
    case None => false
    case Some(secs) =>
      var exp := tr.status.expiration;
      var iat := exp + Seconds(Wrap(-secs));
      || now > iat + Wrap(MAX_TTL - Seconds(jitter))
      || now > exp + Wrap(Seconds(Wrap(-Quotient(Wrap(secs * 20), 100))) - Seconds(jitter))
  }

  function Min(a: int, b: int): int {
    if a <= b then a else b
  }

  // The moment, in nanoseconds, after which a token with the given lifetime is refreshed.
  function RefreshAfter(tr: TokenRequest, secs: int, jitter: nat): int {
    tr.status.expiration - secs * SECOND + Min(86_400, secs - Quotient(secs * 20, 100)) * SECOND - jitter * SECOND
  }

  // Lifetimes that the arithmetic handles without wrapping around.
  predicate Representable(secs: int) {
    -0x1_0000_0000 <= secs <= 0x1_0000_0000
  }

  // Nothing wraps around, so the refresh falls due at 80% of the lifetime or after a day,
  // whichever is earlier, less the jitter.
  lemma RefreshIsDue(tr: TokenRequest, secs: int, now: int, jitter: nat)
    requires tr.spec.expirationSeconds == Some(secs) && Representable(secs) && jitter < MAX_JITTER
    ensures RequiresRefresh(tr, now, jitter) <==> now > RefreshAfter(tr, secs, jitter)
  {
    var fifth := Quotient(secs * 20, 100);
    assert -0x1_0000_0000 <= fifth <= 0x1_0000_0000;
    assert Seconds(Wrap(-secs)) == -secs * SECOND;
    assert Seconds(jitter) == jitter * SECOND;
    assert Seconds(Wrap(-Quotient(Wrap(secs * 20), 100))) == -fifth * SECOND;
  }

  // The same in seconds, for lifetimes that are not negative: the token is due once it is a day old, or
  // once a fifth of its lifetime is left, the jitter of up to nine seconds taken off.
  lemma RefreshIsDueInSeconds(tr: TokenRequest, secs: int, now: int, jitter: nat)
    requires tr.spec.expirationSeconds == Some(secs) && 0 <= secs <= 0x1_0000_0000 && jitter < 10
    ensures
      var expiration, issued := tr.status.expiration, tr.status.expiration - secs * 1_000_000_000;
      RequiresRefresh(tr, now, jitter) <==>
        || now > issued + (86_400 - jitter) * 1_000_000_000
        || now > expiration - (secs / 5 + jitter) * 1_000_000_000
  {
    RefreshIsDue(tr, secs, now, jitter);
    assert Quotient(secs * 20, 100) == secs / 5;
  }

  lemma RefreshIsMonotone(tr: TokenRequest, secs: int, now: int, jitter: nat, now': int, jitter': nat)
    requires tr.spec.expirationSeconds == Some(secs) && Representable(secs)
    requires now <= now' && jitter <= jitter' < MAX_JITTER
    requires RequiresRefresh(tr, now, jitter)
    ensures RequiresRefresh(tr, now', jitter')
  {
    RefreshIsDue(tr, secs, now, jitter);
    RefreshIsDue(tr, secs, now', jitter');
  }

  // No clock reading and no jitter make the cache serve the token after it expired.
  ghost predicate NeverServedExpired(tr: TokenRequest) {
    forall now, jitter: nat | jitter < MAX_JITTER :: Expired(tr, now) ==> RequiresRefresh(tr, now, jitter)
  }

  predicate HasLifetime(tr: TokenRequest) {
    tr.spec.expirationSeconds.Some? && -5 < tr.spec.expirationSeconds.value <= 0x1_0000_0000
  }

  // Exactly the tokens that state a lifetime above minus five seconds: a missing lifetime is never
  // due for refresh, and division toward zero hides up to four negative seconds.
  lemma ServedUnexpiredExactly(tr: TokenRequest)
    requires tr.spec.expirationSeconds.Some? ==> Representable(tr.spec.expirationSeconds.value)
    ensures NeverServedExpired(tr) <==> HasLifetime(tr)
  {
    if HasLifetime(tr) {
      forall now, jitter: nat | jitter < MAX_JITTER && Expired(tr, now) ensures RequiresRefresh(tr, now, jitter) {
        RefreshIsDue(tr, tr.spec.expirationSeconds.value, now, jitter);
      }
    } else {
      var now := tr.status.expiration + 1;
      assert Expired(tr, now);
      if tr.spec.expirationSeconds.Some? {
        RefreshIsDue(tr, tr.spec.expirationSeconds.value, now, 0);
      }
      assert !RequiresRefresh(tr, now, 0);
    }
  }

  /******* Quoted strings *******/

  // Go's quoting of text. What counts as printable is left open.
  type Printable = char -> bool

  function ControlEscape(c: char): Option<char> {
    if c == '\U{7}' then Some('a')
    else if c == '\U{8}' then Some('b')
    else if c == '\U{C}' then Some('f')
    else if c == '\n' then Some('n')
    else if c == '\r' then Some('r')
    else if c == '\t' then Some('t')
    else if c == '\U{B}' then Some('v')
    else None
  }

  function QuoteChar(p: Printable, c: char): (s: string)
    ensures |s| > 0 && s[0] != '"'
  {
    if c == '"' || c == '\\' then ['\\', c]
    else if p(c) then [c]
    else if ControlEscape(c).Some? then ['\\', ControlEscape(c).value]
    else if c < ' ' || c == '\U{7F}' then ['\\', 'x'] + HexText(c as nat, 2)
    else if c < '\U{10000}' then ['\\', 'u'] + HexText(c as nat, 4)
    else ['\\', 'U'] + HexText(c as nat, 8)
  }

  function QuoteChars(p: Printable, s: string): string {
    if |s| == 0 then "" else QuoteChar(p, s[0]) + QuoteChars(p, s[1..])
  }

  function Quote(p: Printable, s: string): string {
    "\"" + QuoteChars(p, s) + "\""
  }

  function ControlMeaning(c: char): Option<char> {
    match c
    case '"' => Some('"')
    case '\\' => Some('\\')
    case 'a' => Some('\U{7}')
    case 'b' => Some('\U{8}')
    case 'f' => Some('\U{C}')
    case 'n' => Some('\n')
    case 'r' => Some('\r')
    case 't' => Some('\t')
    case 'v' => Some('\U{B}')
    case _ => None
  }

  function HexWidth(c: char): nat {
    match c
    case 'x' => 2
    case 'u' => 4
    case 'U' => 8
    case _ => 0
  }

  function UnquoteChar(s: string): (r: Option<(char, string)>)
    ensures r.Some? ==> |r.value.1| < |s|
  {
    if |s| == 0 then None
    else if s[0] != '\\' then Some((s[0], s[1..]))
    else if |s| == 1 then None
    else
      var width := HexWidth(s[1]);
      if width == 0 then
        var c :- ControlMeaning(s[1]);
        Some((c, s[2..]))
      else if |s| < 2 + width then None
      else
        var n :- ParseHex(s[2..2 + width]);
        if n < 0xD800 || 0xE000 <= n < 0x11_0000 then Some((n as char, s[2 + width..])) else None
  }

  function Unquote(s: string): Option<(string, string)> {
    if |s| == 0 then None
    else if s[0] == '"' then Some(("", s[1..]))
    else
      var (c, rest) :- UnquoteChar(s);
      var (cs, after) :- Unquote(rest);
      Some(([c] + cs, after))
  }

  lemma UnquoteHex(c: char, mark: char, width: nat, rest: string)
    requires HexWidth(mark) == width > 0
    requires c as nat < Power16(width)
    ensures UnquoteChar(['\\', mark] + HexText(c as nat, width) + rest) == Some((c, rest))
  {
    var s := ['\\', mark] + HexText(c as nat, width) + rest;
    ParseHexText(c as nat, width);
    assert s[2..2 + width] == HexText(c as nat, width);
    assert s[2 + width..] == rest;
  }

  lemma Powers()
    ensures Power16(2) == 256 && Power16(4) == 0x1_0000 && Power16(8) == 0x1_0000_0000
  {
    assert Power16(4) == 16 * 16 * Power16(2);
    assert Power16(6) == 16 * 16 * Power16(4);
  }

  lemma UnquoteQuotedChar(p: Printable, c: char, rest: string)
    ensures UnquoteChar(QuoteChar(p, c) + rest) == Some((c, rest))
  {
    Powers();
    var s := QuoteChar(p, c) + rest;
    if c == '"' || c == '\\' {
      assert s[2..] == rest;
    } else if p(c) {
      assert s[1..] == rest;
    } else if ControlEscape(c).Some? {
      assert s[2..] == rest;
    } else if c < ' ' || c == '\U{7F}' {
      UnquoteHex(c, 'x', 2, rest);
    } else if c < '\U{10000}' {
      UnquoteHex(c, 'u', 4, rest);
    } else {
      UnquoteHex(c, 'U', 8, rest);
    }
  }

  lemma QuoteCharsSplit(first: string, others: string, rest: string)
    ensures first + others + "\"" + rest == first + (others + "\"" + rest)
  {
  }

  lemma {:induction false} UnquoteQuoted(p: Printable, s: string, rest: string)
    ensures Unquote(QuoteChars(p, s) + "\"" + rest) == Some((s, rest))
  {
    if |s| == 0 {
      assert ("\"" + rest)[1..] == rest;
      assert QuoteChars(p, s) + "\"" + rest == "\"" + rest;
    } else {
      var tail := QuoteChars(p, s[1..]) + "\"" + rest;
      QuoteCharsSplit(QuoteChar(p, s[0]), QuoteChars(p, s[1..]), rest);
      UnquoteQuotedChar(p, s[0], tail);
      UnquoteQuoted(p, s[1..], rest);
      assert s == [s[0]] + s[1..];
    }
  }

  lemma AfterQuote(chars: string, r: string)
    ensures ("\"" + chars + "\"" + r)[1..] == chars + "\"" + r
  {
  }

  // A quoted string at the front of a text is determined by the text.
  lemma QuoteSplits(p: Printable, a: string, r: string, b: string, t: string)
    requires Quote(p, a) + r == Quote(p, b) + t
    ensures a == b && r == t
  {
    AfterQuote(QuoteChars(p, a), r);
    AfterQuote(QuoteChars(p, b), t);
    UnquoteQuoted(p, a, r);
    UnquoteQuoted(p, b, t);
  }

  /******* The cache key *******/

  function ListRest(p: Printable, items: seq<string>): string {
    if |items| == 0 then "}" else ", " + (Quote(p, items[0]) + ListRest(p, items[1..]))
  }

  function ItemsText(p: Printable, l: seq<string>): string {
    if |l| == 0 then "}" else Quote(p, l[0]) + ListRest(p, l[1..])
  }

  const NIL_LIST := "[]string(nil)"
  const OPEN_LIST := "[]string{"

  function ListText(p: Printable, items: Option<seq<string>>): string {
    match items
    case None => NIL_LIST
    case Some(l) => OPEN_LIST + ItemsText(p, l)
  }

  function ReferenceText(p: Printable, ref: BoundReference): string {
    "v1.BoundObjectReference{Kind:" + (Quote(p, ref.kind) + (", APIVersion:" + (Quote(p, ref.apiVersion)
    + (", Name:" + (Quote(p, ref.name) + (", UID:" + (Quote(p, ref.uid) + "}")))))))
  }

  function EffectiveExpiry(spec: RequestSpec): int {
    match spec.expirationSeconds
    case None => 0
    case Some(secs) => secs
  }

  function EffectiveReference(spec: RequestSpec): BoundReference {
    match spec.boundRef
    case None => NO_REFERENCE
    case Some(ref) => ref
  }

  function KeyFunc(p: Printable, name: string, namespace: string, spec: RequestSpec): string {
    Quote(p, name) + ("/" + (Quote(p, namespace) + ("/" + (ListText(p, spec.audiences)
    + ("/" + (IntText(EffectiveExpiry(spec)) + ("/" + ReferenceText(p, EffectiveReference(spec)))))))))
  }

  // Requests that the key treats as one.
  predicate SameRequest(a: RequestSpec, b: RequestSpec) {
    && a.audiences == b.audiences
    && EffectiveExpiry(a) == EffectiveExpiry(b) && EffectiveReference(a) == EffectiveReference(b)
  }

  lemma PrefixSplits(prefix: string, r: string, t: string)
    requires prefix + r == prefix + t
    ensures r == t
  {
    assert (prefix + r)[|prefix|..] == r && (prefix + t)[|prefix|..] == t;
  }

  lemma InnerSplits(prefix: string, x: string, r: string, y: string, t: string)
    requires prefix + x + r == prefix + y + t
    ensures x + r == y + t
  {
    assert (prefix + x + r)[|prefix|..] == x + r && (prefix + y + t)[|prefix|..] == y + t;
  }

  lemma ListRestStart(p: Printable, l: seq<string>, r: string)
    ensures
      var s := ListRest(p, l) + r;
      && |s| > 0 && (s[0] == '}' <==> |l| == 0)
      && s == if |l| == 0 then "}" + r else ", " + (Quote(p, l[0]) + (ListRest(p, l[1..]) + r))
  {
    if |l| > 0 {
      Regroup(", ", Quote(p, l[0]), ListRest(p, l[1..]), r);
    }
  }

  lemma Regroup(a: string, b: string, c: string, d: string)
    ensures a + (b + c) + d == a + (b + (c + d))
  {
  }

  lemma {:induction false} ListRestSplits(p: Printable, a: seq<string>, r: string, b: seq<string>, t: string)
    requires ListRest(p, a) + r == ListRest(p, b) + t
    ensures a == b && r == t
  {
    ListRestStart(p, a, r);
    ListRestStart(p, b, t);
    if |a| == 0 {
      PrefixSplits("}", r, t);
    } else {
      FieldSplits(p, ", ", a[0], ListRest(p, a[1..]) + r, b[0], ListRest(p, b[1..]) + t);
      ListRestSplits(p, a[1..], r, b[1..], t);
      SameHeadAndTail(a, b);
    }
  }

  lemma ListTextStart(p: Printable, a: Option<seq<string>>, r: string)
    ensures |ListText(p, a) + r| > 8 && ((ListText(p, a) + r)[8] == '{' <==> a.Some?)
  {
    if a.Some? {
      assert OPEN_LIST[8] == '{';
    } else {
      assert NIL_LIST[8] == '(';
    }
  }

  lemma ListTextSplits(p: Printable, a: Option<seq<string>>, r: string, b: Option<seq<string>>, t: string)
    requires ListText(p, a) + r == ListText(p, b) + t
    ensures a == b && r == t
  {
    ListTextStart(p, a, r);
    ListTextStart(p, b, t);
    if a.None? {
      PrefixSplits(NIL_LIST, r, t);
    } else {
      InnerSplits(OPEN_LIST, ItemsText(p, a.value), r, ItemsText(p, b.value), t);
      ItemsSplit(p, a.value, r, b.value, t);
    }
  }

  lemma ItemsStart(p: Printable, l: seq<string>, r: string)
    ensures
      var s := ItemsText(p, l) + r;
      && |s| > 0 && (s[0] == '}' <==> |l| == 0)
      && s == if |l| == 0 then "}" + r else Quote(p, l[0]) + (ListRest(p, l[1..]) + r)
  {
    if |l| > 0 {
      assert Quote(p, l[0])[0] == '"';
    }
  }

  lemma SameHeadAndTail(a: seq<string>, b: seq<string>)
    requires |a| > 0 && |b| > 0 && a[0] == b[0] && a[1..] == b[1..]
    ensures a == b
  {
    assert a == [a[0]] + a[1..] && b == [b[0]] + b[1..];
  }

  lemma ItemsSplit(p: Printable, a: seq<string>, r: string, b: seq<string>, t: string)
    requires ItemsText(p, a) + r == ItemsText(p, b) + t
    ensures a == b && r == t
  {
    ItemsStart(p, a, r);
    ItemsStart(p, b, t);
    if |a| == 0 {
      PrefixSplits("}", r, t);
    } else {
      QuoteSplits(p, a[0], ListRest(p, a[1..]) + r, b[0], ListRest(p, b[1..]) + t);
      ListRestSplits(p, a[1..], r, b[1..], t);
      SameHeadAndTail(a, b);
    }
  }

  lemma FieldSplits(p: Printable, prefix: string, a: string, r: string, b: string, t: string)
    requires prefix + (Quote(p, a) + r) == prefix + (Quote(p, b) + t)
    ensures a == b && r == t
  {
    PrefixSplits(prefix, Quote(p, a) + r, Quote(p, b) + t);
    QuoteSplits(p, a, r, b, t);
  }

  lemma ReferenceTextInjective(p: Printable, a: BoundReference, b: BoundReference)
    requires ReferenceText(p, a) == ReferenceText(p, b)
    ensures a == b
  {
    var a3, b3 := ", UID:" + (Quote(p, a.uid) + "}"), ", UID:" + (Quote(p, b.uid) + "}");
    var a2, b2 := ", Name:" + (Quote(p, a.name) + a3), ", Name:" + (Quote(p, b.name) + b3);
    var a1, b1 := ", APIVersion:" + (Quote(p, a.apiVersion) + a2), ", APIVersion:" + (Quote(p, b.apiVersion) + b2);
    FieldSplits(p, "v1.BoundObjectReference{Kind:", a.kind, a1, b.kind, b1);
    FieldSplits(p, ", APIVersion:", a.apiVersion, a2, b.apiVersion, b2);
    FieldSplits(p, ", Name:", a.name, a3, b.name, b3);
    FieldSplits(p, ", UID:", a.uid, "}", b.uid, "}");
  }

  lemma NumberSplits(m: int, r: string, n: int, t: string)
    requires IntText(m) + ("/" + r) == IntText(n) + ("/" + t)
    ensures m == n && r == t
  {
    IntTextExcludes(m, '/');
    IntTextExcludes(n, '/');
    assert IntText(m) + ("/" + r) == IntText(m) + ['/'] + r;
    assert IntText(n) + ("/" + t) == IntText(n) + ['/'] + t;
    CutAt(IntText(m), '/', r);
    CutAt(IntText(n), '/', t);
    ParseIntText(m);
    ParseIntText(n);
  }

  // Equal keys come from equal accounts and requests, whatever characters the names contain.
  lemma KeyFuncInjective(p: Printable, name: string, namespace: string, spec: RequestSpec,
                         name': string, namespace': string, spec': RequestSpec)
    ensures KeyFunc(p, name, namespace, spec) == KeyFunc(p, name', namespace', spec') <==>
            name == name' && namespace == namespace' && SameRequest(spec, spec')
  {
    if KeyFunc(p, name, namespace, spec) == KeyFunc(p, name', namespace', spec') {
      var e, e' := ReferenceText(p, EffectiveReference(spec)), ReferenceText(p, EffectiveReference(spec'));
      var d, d' := IntText(EffectiveExpiry(spec)) + ("/" + e), IntText(EffectiveExpiry(spec')) + ("/" + e');
      var c, c' := ListText(p, spec.audiences) + ("/" + d), ListText(p, spec'.audiences) + ("/" + d');
      var b, b' := Quote(p, namespace) + ("/" + c), Quote(p, namespace') + ("/" + c');
      QuoteSplits(p, name, "/" + b, name', "/" + b');
      PrefixSplits("/", b, b');
      QuoteSplits(p, namespace, "/" + c, namespace', "/" + c');
      PrefixSplits("/", c, c');
      ListTextSplits(p, spec.audiences, "/" + d, spec'.audiences, "/" + d');
      PrefixSplits("/", d, d');
      NumberSplits(EffectiveExpiry(spec), e, EffectiveExpiry(spec'), e');
      ReferenceTextInjective(p, EffectiveReference(spec), EffectiveReference(spec'));
    }
  }
}
