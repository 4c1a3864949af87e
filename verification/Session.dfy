/** The signed session cookie (app/session.py), on the UTF-8 bytes of its fields. */
module Session {
  import opened Common

  type Byte = x: int | 0 <= x < 256
  type Bytes = seq<Byte>

  const SEPARATOR: Byte := 0x7C
  const MINUS: Byte := 0x2D
  const ZERO: Byte := 0x30
  const SECOND := 1_000_000

  // ----- unpadded base64url (sections 3.2 and 5 of RFC 4648) -----

  type Sextet = x: int | 0 <= x < 64

  function Symbol(v: Sextet): char {
    if v < 26 then 'A' + v as char
    else if v < 52 then 'a' + (v - 26) as char
    else if v < 62 then '0' + (v - 52) as char
    else if v == 62 then '-' else '_'
  }

  function Value(c: char): Option<Sextet> {
    if 'A' <= c <= 'Z' then Some((c - 'A') as int)
    else if 'a' <= c <= 'z' then Some((c - 'a') as int + 26)
    else if '0' <= c <= '9' then Some((c - '0') as int + 52)
    else if c == '-' then Some(62)
    else if c == '_' then Some(63)
    else None
  }

  /** The four characters of up to three bytes. */
  function Quad(b: Bytes): (q: string)
    requires 1 <= |b| <= 3
    ensures |q| == 4
  {
    var second := if |b| > 1 then b[1] else 0;
    var third := if |b| > 2 then b[2] else 0;
    [Symbol(b[0] / 4),
     Symbol(b[0] % 4 * 16 + second / 16),
     if |b| > 1 then Symbol(second % 16 * 4 + third / 64) else '=',
     if |b| > 2 then Symbol(third % 64) else '=']
  }

  function Padded(b: Bytes): string {
    if b == [] then "" else if |b| <= 3 then Quad(b) else Quad(b[..3]) + Padded(b[3..])
  }

  /** `s.rstrip("=")` */
  function Unpad(s: string): string {
    if s != "" && s[|s| - 1] == '=' then Unpad(s[..|s| - 1]) else s
  }

  /** `"=" * (-n % 4)` */
  function Pads(n: nat): string {
    if n % 4 == 0 then "" else if n % 4 == 1 then "===" else if n % 4 == 2 then "==" else "="
  }

  function Encode(raw: Bytes): string {
    Unpad(Padded(raw))
  }

  /** The bytes of four characters; the last four may end in padding. */
  function DecodeQuad(s: string, last: bool): Option<Bytes>
    requires |s| == 4
  {
    if Value(s[0]).None? || Value(s[1]).None? then None
    else
      var p, q := Value(s[0]).value, Value(s[1]).value;
      var first := p * 4 + q / 16;
      if last && s[2] == '=' && s[3] == '=' then Some([first])
      else if Value(s[2]).None? then None
      else
        var r := Value(s[2]).value;
        var second := q % 16 * 16 + r / 4;
        if last && s[3] == '=' then Some([first, second])
        else if Value(s[3]).None? then None
        else Some([first, second, r % 4 * 64 + Value(s[3]).value])
  }

  function DecodePadded(s: string): Option<Bytes> {
    if s == "" then Some([])
    else if |s| < 4 then None
    else
      var head, tail := DecodeQuad(s[..4], |s| == 4), DecodePadded(s[4..]);
      if head.Some? && tail.Some? then Some(head.value + tail.value) else None
  }

  function Decode(text: string): Option<Bytes> {
    DecodePadded(text + Pads(|text|))
  }

  lemma SymbolRoundTrip(v: Sextet)
    ensures Value(Symbol(v)) == Some(v) && Symbol(v) != '=' && Symbol(v) != '.'
  {
  }

  lemma Bits(a: Byte, b: Byte, c: Byte)
    ensures a / 4 * 4 + (a % 4 * 16 + b / 16) / 16 == a
    ensures (a % 4 * 16 + b / 16) % 16 * 16 + (b % 16 * 4 + c / 64) / 4 == b
    ensures (b % 16 * 4 + c / 64) % 4 * 64 + c % 64 == c
  {
  }

  lemma QuadRoundTrip(b: Bytes, last: bool)
    requires 1 <= |b| <= 3 && (|b| == 3 || last)
    ensures DecodeQuad(Quad(b), last) == Some(b)
  {
    hide Symbol, Value;
    var second := if |b| > 1 then b[1] else 0;
    var third := if |b| > 2 then b[2] else 0;
    Bits(b[0], second, third);
    SymbolRoundTrip(b[0] / 4);
    SymbolRoundTrip(b[0] % 4 * 16 + second / 16);
    SymbolRoundTrip(second % 16 * 4 + third / 64);
    SymbolRoundTrip(third % 64);
    assert b == if |b| == 1 then [b[0]] else if |b| == 2 then [b[0], second] else [b[0], second, third];
  }

  lemma {:induction false} PaddedRoundTrip(b: Bytes)
    ensures DecodePadded(Padded(b)) == Some(b)
  {
    hide Quad, DecodeQuad;
    var s := Padded(b);
    if b == [] {
    } else if |b| <= 3 {
      QuadRoundTrip(b, true);
      assert s[..4] == s && s[4..] == "";
      assert DecodePadded("") == Some([]) && b + [] == b;
    } else {
      QuadRoundTrip(b[..3], false);
      PaddedRoundTrip(b[3..]);
      assert s[..4] == Quad(b[..3]) && s[4..] == Padded(b[3..]);
      PaddedIsNotEmpty(b[3..]);
      assert b == b[..3] + b[3..];
    }
  }

  lemma PaddedIsNotEmpty(b: Bytes)
    ensures Padded(b) == "" <==> b == []
  {
    hide Quad;
  }

  lemma {:induction false} UnpadTail(q: string, s: string)
    requires q == "" || q[|q| - 1] != '='
    ensures Unpad(q + s) == q + Unpad(s)
  {
    if s == "" {
      assert q + s == q;
    } else if s[|s| - 1] == '=' {
      assert (q + s)[..|q + s| - 1] == q + s[..|s| - 1];
      UnpadTail(q, s[..|s| - 1]);
    }
  }

  lemma QuadPads(b: Bytes)
    requires 1 <= |b| <= 3
    ensures Quad(b)[1 + |b|..] == Pads(1 + |b|)
    ensures Quad(b)[|b|] != '='
  {
    hide Symbol;
    forall v: Sextet ensures Symbol(v) != '=' { SymbolRoundTrip(v); }
  }

  lemma OnlyPads(n: nat)
    ensures Unpad(Pads(n)) == ""
  {
    assert "==="[..2] == "==" && "=="[..1] == "=" && "="[..0] == "";
  }

  lemma UnpadQuad(b: Bytes)
    requires 1 <= |b| <= 3
    ensures Unpad(Quad(b)) == Quad(b)[..1 + |b|]
  {
    hide Quad, Pads, Unpad;
    var q := Quad(b);
    QuadPads(b);
    OnlyPads(1 + |b|);
    assert q == q[..1 + |b|] + q[1 + |b|..];
    UnpadTail(q[..1 + |b|], q[1 + |b|..]);
    assert q[..1 + |b|] + "" == q[..1 + |b|];
  }

  lemma PadsByRest(n: nat)
    ensures Pads(4 + n) == Pads(n)
  {
  }

  /** Padding to a multiple of four puts back exactly what was taken off. */
  lemma {:induction false} PadsComeBack(b: Bytes)
    ensures var text := Unpad(Padded(b)); text + Pads(|text|) == Padded(b)
  {
    hide Quad, Pads, Unpad;
    if b == [] {
      NothingToUnpad();
    } else if |b| <= 3 {
      UnpadQuad(b);
      QuadPads(b);
      assert Quad(b) == Quad(b)[..1 + |b|] + Quad(b)[1 + |b|..];
    } else {
      PadsComeBack(b[3..]);
      var text := Unpad(Padded(b[3..]));
      QuadPads(b[..3]);
      UnpadTail(Quad(b[..3]), Padded(b[3..]));
      PadsByRest(|text|);
      assert (Quad(b[..3]) + text) + Pads(|text|) == Quad(b[..3]) + (text + Pads(|text|));
    }
  }

  lemma NothingToUnpad()
    ensures Unpad("") == "" && Pads(0) == ""
  {
  }

  /** Decoding inverts encoding, for all bytes. */
  lemma EncodeRoundTrip(raw: Bytes)
    ensures Decode(Encode(raw)) == Some(raw)
  {
    PadsComeBack(raw);
    PaddedRoundTrip(raw);
  }

  lemma {:induction false} NoDotInPadded(b: Bytes)
    ensures '.' !in Padded(b)
  {
    hide Symbol;
    forall v: Sextet ensures Symbol(v) != '.' { SymbolRoundTrip(v); }
    if |b| > 3 {
      NoDotInPadded(b[3..]);
    }
  }

  lemma {:induction false} UnpadIsPrefix(s: string)
    ensures Unpad(s) <= s
  {
    if s != "" && s[|s| - 1] == '=' {
      UnpadIsPrefix(s[..|s| - 1]);
    }
  }

  lemma NoDotInEncoded(raw: Bytes)
    ensures '.' !in Encode(raw)
  {
    NoDotInPadded(raw);
    UnpadIsPrefix(Padded(raw));
  }

  // ----- decimal numbers -----

  function Digits(n: nat): (r: Bytes)
    ensures r != [] && forall c :: c in r ==> ZERO <= c < ZERO + 10
  {
    if n < 10 then [ZERO + n] else Digits(n / 10) + [ZERO + n % 10]
  }

  /** `str(n)` */
  function Printed(n: int): Bytes {
    if n < 0 then [MINUS] + Digits(-n) else Digits(n)
  }

  function ParsedDigits(b: Bytes): Option<int> {
    if b == [] || !(ZERO <= b[|b| - 1] < ZERO + 10) then None
    else if |b| == 1 then Some(b[0] - ZERO)
    else
      var before := ParsedDigits(b[..|b| - 1]);
      if before.None? then None else Some(before.value * 10 + (b[|b| - 1] - ZERO))
  }

  function Parsed(b: Bytes): Option<int> {
    if b != [] && b[0] == MINUS
    then var n := ParsedDigits(b[1..]); if n.Some? then Some(-n.value) else None
    else ParsedDigits(b)
  }

  lemma {:induction false} DigitsRoundTrip(n: nat)
    ensures ParsedDigits(Digits(n)) == Some(n)
  {
    if n >= 10 {
      DigitsRoundTrip(n / 10);
      assert Digits(n)[..|Digits(n)| - 1] == Digits(n / 10);
    }
  }

  lemma NumberRoundTrip(n: int)
    ensures Parsed(Printed(n)) == Some(n)
    ensures SEPARATOR !in Printed(n)
  {
    hide Digits, ParsedDigits;
    if n < 0 {
      DigitsRoundTrip(-n);
      assert Printed(n)[1..] == Digits(-n);
    } else {
      DigitsRoundTrip(n);
      assert Digits(n)[0] in Digits(n);
    }
  }

  // ----- fields -----

  function Joined(fields: seq<Bytes>): Bytes {
    if fields == [] then [] else if |fields| == 1 then fields[0] else fields[0] + [SEPARATOR] + Joined(fields[1..])
  }

  function Fields(b: Bytes): (r: seq<Bytes>)
    ensures r != []
  {
    if b == [] then [[]]
    else if b[0] == SEPARATOR then [[]] + Fields(b[1..])
    else var rest := Fields(b[1..]); [[b[0]] + rest[0]] + rest[1..]
  }

  lemma {:induction false} FieldsOfPrefix(a: Bytes, rest: Bytes)
    requires SEPARATOR !in a
    ensures Fields(a + [SEPARATOR] + rest) == [a] + Fields(rest)
  {
    var b := a + [SEPARATOR] + rest;
    if a == [] {
      assert b[1..] == rest;
    } else {
      assert b[1..] == a[1..] + [SEPARATOR] + rest;
      FieldsOfPrefix(a[1..], rest);
      assert b[0] == a[0] && a == [a[0]] + a[1..];
      var behind := Fields(b[1..]);
      assert behind[0] == a[1..] && behind[1..] == Fields(rest);
    }
  }

  lemma {:induction false} OneField(a: Bytes)
    requires SEPARATOR !in a
    ensures Fields(a) == [a]
  {
    if a != [] {
      OneField(a[1..]);
      assert a == [a[0]] + a[1..] && Fields(a[1..])[1..] == [];
    }
  }

  /** Splitting inverts joining when no field contains the separator. */
  lemma {:induction false} FieldsRoundTrip(fields: seq<Bytes>)
    requires fields != [] && forall f :: f in fields ==> SEPARATOR !in f
    ensures Fields(Joined(fields)) == fields
  {
    assert fields[0] in fields;
    if |fields| == 1 {
      OneField(fields[0]);
    } else {
      FieldsRoundTrip(fields[1..]);
      FieldsOfPrefix(fields[0], Joined(fields[1..]));
    }
  }

  function Separators(b: Bytes): nat {
    if b == [] then 0 else (if b[0] == SEPARATOR then 1 else 0) + Separators(b[1..])
  }

  lemma {:induction false} FieldCount(b: Bytes)
    ensures |Fields(b)| == 1 + Separators(b)
  {
    if b != [] {
      FieldCount(b[1..]);
    }
  }

  lemma {:induction false} SeparatorsAdd(a: Bytes, b: Bytes)
    ensures Separators(a + b) == Separators(a) + Separators(b)
  {
    if a == [] {
      assert a + b == b;
    } else {
      assert (a + b)[1..] == a[1..] + b;
      SeparatorsAdd(a[1..], b);
    }
  }

  lemma {:induction false} SeparatorCounts(a: Bytes)
    ensures Separators(a) == 0 <==> SEPARATOR !in a
  {
    if a != [] {
      SeparatorCounts(a[1..]);
    }
  }

  /** Any separator inside a field makes a field too many. */
  lemma {:induction false} JoinedSeparators(fields: seq<Bytes>)
    requires fields != []
    ensures Separators(Joined(fields)) >= |fields| - 1
    ensures (exists f :: f in fields && SEPARATOR in f) ==> Separators(Joined(fields)) >= |fields|
  {
    SeparatorCounts(fields[0]);
    if |fields| > 1 {
      JoinedSeparators(fields[1..]);
      SeparatorsAdd(fields[0] + [SEPARATOR], Joined(fields[1..]));
      SeparatorsAdd(fields[0], [SEPARATOR]);
      assert [SEPARATOR][1..] == [];
      assert Separators([SEPARATOR]) == 1;
      assert fields == [fields[0]] + fields[1..];
    }
  }

  // ----- the cookie -----

  datatype SessionData = SessionData(sessionId: Bytes, identity: Bytes, issuedAt: int, expiresAt: int)

  /** The keyed hash of a payload, and which byte strings are UTF-8. */
  datatype Keys = Keys(sign: string -> string, readable: Bytes -> bool)

  /** A hexadecimal digest. */
  ghost predicate IsKeyed(keys: Keys) {
    forall payload :: '.' !in keys.sign(payload)
  }

  function Payload(sessionId: Bytes, identity: Bytes, issued: int, expires: int): Bytes {
    Joined([sessionId, identity, Printed(issued), Printed(expires)])
  }

  /** The bytes that are signed: four fields between vertical bars. */
  lemma SignedBytes(sessionId: Bytes, identity: Bytes, issued: int, expires: int)
    ensures Payload(sessionId, identity, issued, expires)
         == sessionId + [0x7C] + identity + [0x7C] + Printed(issued) + [0x7C] + Printed(expires)
  {
    hide Printed;
    var times := [Printed(issued), Printed(expires)];
    assert times[1..] == [Printed(expires)];
    assert Joined(times) == Printed(issued) + [0x7C] + Printed(expires);
    assert ([identity] + times)[1..] == times;
    assert Joined([identity] + times) == identity + [0x7C] + (Printed(issued) + [0x7C] + Printed(expires));
    assert [sessionId, identity, Printed(issued), Printed(expires)] == [sessionId] + ([identity] + times);
    assert ([sessionId] + ([identity] + times))[1..] == [identity] + times;
  }

  /** Times are microseconds since the epoch; the cookie carries whole seconds. */
  function Create(keys: Keys, sessionId: Bytes, identity: Bytes, now: nat, ttl: int): (string, SessionData) {
    var issued := now / SECOND;
    var expires := issued + ttl;
    var payload := Encode(Payload(sessionId, identity, issued, expires));
    (payload + "." + keys.sign(payload), SessionData(sessionId, identity, now, expires * SECOND))
  }

  /** `value.rpartition(".")`, given that there is a dot. */
  function LastDot(s: string): (i: nat)
    requires '.' in s
    ensures i < |s| && s[i] == '.' && '.' !in s[i + 1..]
  {
    if s[|s| - 1] == '.' then |s| - 1
    else
      assert s == s[..|s| - 1] + [s[|s| - 1]];
      LastDot(s[..|s| - 1])
  }

  function Opened(keys: Keys, payload: string): Option<(Bytes, Bytes, int, int)> {
    var raw := Decode(payload);
    if raw.None? || !keys.readable(raw.value) then None
    else
      var fields := Fields(raw.value);
      if |fields| != 4 || Parsed(fields[2]).None? || Parsed(fields[3]).None? then None
      else Some((fields[0], fields[1], Parsed(fields[2]).value, Parsed(fields[3]).value))
  }

  function Verify(keys: Keys, cookie: Option<string>, now: nat): Option<SessionData> {
    if cookie.None? || '.' !in cookie.value then None
    else
      var dot := LastDot(cookie.value);
      var payload, signature := cookie.value[..dot], cookie.value[dot + 1..];
      if signature != keys.sign(payload) then None
      else
        var fields := Opened(keys, payload);
        if fields.None? || fields.value.3 <= now / SECOND then None
        else Some(SessionData(fields.value.0, fields.value.1, fields.value.2 * SECOND, fields.value.3 * SECOND))
  }

  lemma {:induction false} DotIsFound(payload: string, signature: string)
    requires '.' !in signature
    ensures '.' in payload + "." + signature
    ensures LastDot(payload + "." + signature) == |payload|
  {
    var s := payload + "." + signature;
    assert s[|payload|] == '.';
    if signature != "" {
      assert s[|s| - 1] == signature[|signature| - 1];
      assert s[..|s| - 1] == payload + "." + signature[..|signature| - 1];
      DotIsFound(payload, signature[..|signature| - 1]);
    }
  }

  lemma OpenedPayload(keys: Keys, sessionId: Bytes, identity: Bytes, issued: int, expires: int)
    requires SEPARATOR !in sessionId
    requires keys.readable(Payload(sessionId, identity, issued, expires))
    ensures Opened(keys, Encode(Payload(sessionId, identity, issued, expires)))
         == if SEPARATOR in identity then None else Some((sessionId, identity, issued, expires))
  {
    hide Encode, Decode, Fields, Joined, Parsed, Printed;
    var fields := [sessionId, identity, Printed(issued), Printed(expires)];
    var raw := Payload(sessionId, identity, issued, expires);
    EncodeRoundTrip(raw);
    NumberRoundTrip(issued);
    NumberRoundTrip(expires);
    if SEPARATOR in identity {
      assert identity in fields;
      JoinedSeparators(fields);
      FieldCount(raw);
    } else {
      FieldsRoundTrip(fields);
    }
  }

  /** A fresh cookie gives back its session id, identity and expiry, and the second it was issued in, exactly
      while the clock is before the expiry, for identities without the separator. Otherwise it gives nothing. */
  lemma FreshCookieVerifies(keys: Keys, sessionId: Bytes, identity: Bytes, issued: nat, ttl: int, now: nat)
    requires IsKeyed(keys) && SEPARATOR !in sessionId
    requires keys.readable(Payload(sessionId, identity, issued / SECOND, issued / SECOND + ttl))
    ensures Verify(keys, Some(Create(keys, sessionId, identity, issued, ttl).0), now)
         == if SEPARATOR !in identity && now / SECOND < issued / SECOND + ttl
            then Some(Create(keys, sessionId, identity, issued, ttl).1.(issuedAt := issued / SECOND * SECOND))
            else None
  {
    hide Encode, Payload, Opened, LastDot;
    var start, expires := issued / SECOND, issued / SECOND + ttl;
    var payload := Encode(Payload(sessionId, identity, start, expires));
    var signature := keys.sign(payload);
    DotIsFound(payload, signature);
    var cookie := payload + "." + signature;
    assert cookie[..|payload|] == payload && cookie[|payload| + 1..] == signature;
    OpenedPayload(keys, sessionId, identity, start, expires);
  }

  /** Only a signed payload is ever accepted: a cookie that verifies is its payload with that payload's own
      signature, and it has not expired. */
  lemma AcceptedIsSigned(keys: Keys, cookie: string, now: nat)
    requires Verify(keys, Some(cookie), now).Some?
    ensures exists payload :: cookie == payload + "." + keys.sign(payload) && Opened(keys, payload).Some?
    ensures Verify(keys, Some(cookie), now).value.expiresAt > now / SECOND * SECOND
  {
    hide Opened, LastDot;
    var dot := LastDot(cookie);
    var payload := cookie[..dot];
    assert cookie == payload + "." + cookie[dot + 1..];
  }

  /** With a fresh cookie's payload, every other signature is refused. */
  lemma ForgedSignatureIsRefused(keys: Keys, payload: string, signature: string, now: nat)
    requires IsKeyed(keys) && '.' !in signature
    ensures Verify(keys, Some(payload + "." + signature), now).Some? ==> signature == keys.sign(payload)
  {
    hide Opened, LastDot;
    DotIsFound(payload, signature);
    var cookie := payload + "." + signature;
    assert cookie[..|payload|] == payload && cookie[|payload| + 1..] == signature;
  }

  /** A cookie can be split in one way only: whatever is read before and after a dot is the payload and the signature. */
  lemma CookieSplitsOneWay(keys: Keys, raw: Bytes, payload: string, signature: string)
    requires IsKeyed(keys) && Encode(raw) + "." + keys.sign(Encode(raw)) == payload + "." + signature
    ensures payload == Encode(raw) && signature == keys.sign(Encode(raw))
  {
    hide Encode;
    NoDotInEncoded(raw);
    SplitOnce(Encode(raw), keys.sign(Encode(raw)), payload, signature);
  }

  lemma SplitOnce(a: string, b: string, c: string, d: string)
    requires '.' !in a && '.' !in b && a + "." + b == c + "." + d
    ensures a == c && b == d
  {
    var s := a + "." + b;
    OnlyDot(a, b);
    assert s[|c|] == '.';
    assert s[..|a|] == a && s[..|c|] == c;
    assert s[|a| + 1..] == b && s[|c| + 1..] == d;
  }

  lemma OnlyDot(a: string, b: string)
    requires '.' !in a && '.' !in b
    ensures var s := a + "." + b; forall i :: 0 <= i < |s| && s[i] == '.' ==> i == |a|
  {
  }

  // ----- the formats -----

  /** The alphabet of section 5 of RFC 4648. */
  const CAPITALS := "ABCDEFGHIJKLMNOPQRSTUVWXYZ"
  const SMALL := "abcdefghijklmnopqrstuvwxyz"
  const FIGURES := "0123456789-_"

  lemma Capital(v: nat)
    requires v < 26
    ensures |CAPITALS| == 26 && CAPITALS[v] == 'A' + v as char
  {
  }

  lemma SmallLetter(v: nat)
    requires v < 26
    ensures |SMALL| == 26 && SMALL[v] == 'a' + v as char
  {
  }

  lemma SymbolIsOfAlphabet(v: Sextet)
    ensures |CAPITALS + SMALL + FIGURES| == 64 && Symbol(v) == (CAPITALS + SMALL + FIGURES)[v]
  {
    Capital(0);
    SmallLetter(0);
    if v < 26 {
      Capital(v);
    } else if v < 52 {
      SmallLetter(v - 26);
    } else {
      assert (CAPITALS + SMALL + FIGURES)[v] == FIGURES[v - 52];
    }
  }

  /** Three bytes as one number of 24 bits are the four sextets of the quad as one number. */
  lemma QuadIsNumber(b: Bytes)
    requires |b| == 3
    ensures var q := Quad(b); var x: int, y: int, z: int := b[0], b[1], b[2];
            && (forall i :: 0 <= i < 4 ==> Value(q[i]).Some?)
            && var s: int, t: int, u: int, v: int := Value(q[0]).value, Value(q[1]).value, Value(q[2]).value, Value(q[3]).value;
               ((s * 64 + t) * 64 + u) * 64 + v == (x * 256 + y) * 256 + z
  {
    hide Symbol, Value;
    SymbolRoundTrip(b[0] / 4);
    SymbolRoundTrip(b[0] % 4 * 16 + b[1] / 16);
    SymbolRoundTrip(b[1] % 16 * 4 + b[2] / 64);
    SymbolRoundTrip(b[2] % 64);
  }

  /** The value of decimal digits, read from the left. */
  function Decimal(digits: Bytes): int {
    if digits == [] then 0
    else
      var d: int := digits[|digits| - 1];
      10 * Decimal(digits[..|digits| - 1]) + d - 0x30
  }

  lemma {:induction false} PrintedIsDecimal(n: nat)
    ensures Decimal(Printed(n)) == n && forall c :: c in Printed(n) ==> 0x30 <= c <= 0x39
  {
    if n >= 10 {
      PrintedIsDecimal(n / 10);
      assert Digits(n)[..|Digits(n)| - 1] == Digits(n / 10);
    } else {
      assert Decimal([]) == 0;
    }
  }

  /** Exactly runs of decimal digits are read, as the numbers that they denote. */
  lemma {:induction false} ParsedIsDecimal(b: Bytes)
    ensures ParsedDigits(b).Some? <==> b != [] && forall i :: 0 <= i < |b| ==> 0x30 <= b[i] <= 0x39
    ensures ParsedDigits(b).Some? ==> ParsedDigits(b).value == Decimal(b)
  {
    if |b| == 1 {
      assert Decimal([]) == 0 && b[..0] == [];
    } else if b != [] {
      ParsedIsDecimal(b[..|b| - 1]);
      assert ParsedDigits(b).Some? <==> 0x30 <= b[|b| - 1] <= 0x39 && ParsedDigits(b[..|b| - 1]).Some?;
    }
  }

  /** Padding is read only as the last character, or the last two. */
  lemma {:induction false} PaddingIsLast(s: string, i: nat)
    requires DecodePadded(s).Some? && i < |s| && s[i] == '='
    ensures |s| % 4 == 0 && |s| - 2 <= i && s[|s| - 1] == '='
  {
    hide Value;
    NoPadValue();
    if |s| > 4 && i >= 4 {
      PaddingIsLast(s[4..], i - 4);
    }
  }

  lemma NoPadValue()
    ensures Value('=').None?
  {
  }
}
