/** Byte codecs of Node's `Buffer`: UTF-8, base64 and base64url (sections 4 and 5 of RFC 4648),
    and decimal printing. */
module Codec {
  import opened Text

  type Byte = n: int | 0 <= n < 256
  type Bytes = seq<Byte>

  // ---- decimal ----

  function Digit(d: nat): (c: char)
    requires d < 10
    ensures IsDigit(c)
  {
    (48 + d) as char
  }

  /** `String(n)` for a non-negative integer. */
  function Decimal(n: nat): (s: string)
    ensures s != "" && forall i :: 0 <= i < |s| ==> IsDigit(s[i])
    ensures s[0] == '0' ==> |s| == 1
  {
    if n < 10 then [Digit(n)] else Decimal(n / 10) + [Digit(n % 10)]
  }

  function Value(s: string): (n: nat)
    requires forall i :: 0 <= i < |s| ==> IsDigit(s[i])
  {
    if s == "" then 0 else assert IsDigit(s[|s| - 1]); 10 * Value(s[..|s| - 1]) + (s[|s| - 1] as int - 48)
  }

  lemma {:induction false} ValueOfDecimal(n: nat)
    ensures Value(Decimal(n)) == n
  {
    var s := Decimal(n);
    if n < 10 {
      assert s[..0] == "" && Value(s) == 10 * Value(s[..0]) + (s[0] as int - 48);
    } else {
      assert s[..|s| - 1] == Decimal(n / 10);
      ValueOfDecimal(n / 10);
    }
  }

  lemma DecimalInjective(m: nat, n: nat)
    requires Decimal(m) == Decimal(n)
    ensures m == n
  {
    ValueOfDecimal(m);
    ValueOfDecimal(n);
  }

  // ---- UTF-8 ----

  function EncodeChar(c: char): (b: Bytes)
    ensures 1 <= |b| <= 4
  {
    var n := c as int;
    if n < 0x80 then [n]
    else if n < 0x800 then [0xC0 + n / 64, 0x80 + n % 64]
    else
      var m := n / 64;
      if n < 0x1_0000 then [0xE0 + m / 64, 0x80 + m % 64, 0x80 + n % 64]
      else
        var l := m / 64;
        [0xF0 + l / 64, 0x80 + l % 64, 0x80 + m % 64, 0x80 + n % 64]
  }

  /** `Buffer.from(s)`. */
  function EncodeText(s: string): (b: Bytes) {
    if s == "" then [] else EncodeChar(s[0]) + EncodeText(s[1..])
  }

  predicate Tail(b: Byte) { 0x80 <= b < 0xC0 }

  function Code2(b: Bytes): int
    requires |b| >= 2
  {
    (b[0] as int - 0xC0) * 64 + (b[1] as int - 0x80)
  }

  function Code3(b: Bytes): int
    requires |b| >= 3
  {
    (b[0] as int - 0xE0) * 4096 + (b[1] as int - 0x80) * 64 + (b[2] as int - 0x80)
  }

  function Code4(b: Bytes): int
    requires |b| >= 4
  {
    (b[0] as int - 0xF0) * 262144 + (b[1] as int - 0x80) * 4096 + (b[2] as int - 0x80) * 64 + (b[3] as int - 0x80)
  }

  predicate Is2(b: Bytes) { |b| >= 2 && 0xC2 <= b[0] < 0xE0 && Tail(b[1]) }

  predicate Is3(b: Bytes) {
    && |b| >= 3 && 0xE0 <= b[0] < 0xF0 && Tail(b[1]) && Tail(b[2])
    && 0x800 <= Code3(b) && !(0xD800 <= Code3(b) < 0xE000)
  }

  predicate Is4(b: Bytes) {
    && |b| >= 4 && 0xF0 <= b[0] < 0xF5 && Tail(b[1]) && Tail(b[2]) && Tail(b[3])
    && 0x1_0000 <= Code4(b) < 0x11_0000
  }

  /** `toString()`: a byte that starts no well-formed character becomes U+FFFD. */
  function DecodeText(b: Bytes): (s: string)
    decreases |b|
  {
    if b == [] then ""
    else if b[0] < 0x80 then [b[0] as char] + DecodeText(b[1..])
    else if Is2(b) then [Code2(b) as char] + DecodeText(b[2..])
    else if Is3(b) then [Code3(b) as char] + DecodeText(b[3..])
    else if Is4(b) then [Code4(b) as char] + DecodeText(b[4..])
    else [0xFFFD as char] + DecodeText(b[1..])
  }

  /** The first character of `b` is the `k`-byte one with code `n`. */
  predicate Leads(b: Bytes, k: nat, n: int) {
    if k == 1 then |b| >= 1 && b[0] < 0x80 && n == b[0]
    else if k == 2 then Is2(b) && n == Code2(b)
    else if k == 3 then Is3(b) && n == Code3(b)
    else k == 4 && Is4(b) && n == Code4(b)
  }

  lemma EncodedLeads(c: char)
    ensures Leads(EncodeChar(c), |EncodeChar(c)|, c as int)
  {
    var n, b := c as int, EncodeChar(c);
    if 0x80 <= n < 0x800 {
      assert Code2(b) == n;
    } else if 0x800 <= n < 0x1_0000 {
      assert Code3(b) == n;
    } else if 0x1_0000 <= n {
      assert Code4(b) == n;
    }
  }

  lemma LeadsExtends(p: Bytes, t: Bytes, n: int)
    requires Leads(p, |p|, n)
    ensures Leads(p + t, |p|, n)
  {
    assert forall i :: 0 <= i < |p| ==> (p + t)[i] == p[i];
  }

  lemma DecodeLed(b: Bytes, k: nat, c: char)
    requires Leads(b, k, c as int)
    ensures DecodeText(b) == [c] + DecodeText(b[k..])
  {
  }

  lemma DecodeFirst(c: char, t: Bytes)
    ensures DecodeText(EncodeChar(c) + t) == [c] + DecodeText(t)
  {
    var p := EncodeChar(c);
    EncodedLeads(c);
    LeadsExtends(p, t, c as int);
    DecodeLed(p + t, |p|, c);
    assert (p + t)[|p|..] == t;
  }

  /** Text survives being stored as bytes. */
  lemma {:induction false} TextRoundTrip(s: string)
    ensures DecodeText(EncodeText(s)) == s
  {
    if s != "" {
      TextRoundTrip(s[1..]);
      DecodeFirst(s[0], EncodeText(s[1..]));
    }
  }

  // ---- base64 ----

  type Sextet = n: int | 0 <= n < 64

  /** Six bits at a time, most significant first; the last group is filled with zero bits. */
  function Sextets(b: Bytes): (d: seq<Sextet>)
    ensures |d| % 4 != 1
  {
    if |b| == 0 then []
    else
      var x: int := b[0];
      if |b| == 1 then [x / 4, x % 4 * 16] else
      var y: int := b[1];
      if |b| == 2 then [x / 4, x % 4 * 16 + y / 16, y % 16 * 4] else
      var z: int := b[2];
      [x / 4, x % 4 * 16 + y / 16, y % 16 * 4 + z / 64, z % 64] + Sextets(b[3..])
  }

  function Joined(d: seq<Sextet>): (b: Bytes) {
    if |d| < 2 then []
    else
      var w: int, x: int := d[0], d[1];
      if |d| == 2 then [w * 4 + x / 16] else
      var y: int := d[2];
      if |d| == 3 then [w * 4 + x / 16, x % 16 * 16 + y / 4] else
      var z: int := d[3];
      [w * 4 + x / 16, x % 16 * 16 + y / 4, y % 4 * 64 + z] + Joined(d[4..])
  }

  lemma {:induction false} JoinedSextets(b: Bytes)
    ensures Joined(Sextets(b)) == b
  {
    if |b| >= 3 {
      var d := Sextets(b);
      assert d[4..] == Sextets(b[3..]);
      JoinedSextets(b[3..]);
      assert b == [b[0], b[1], b[2]] + b[3..];
    }
  }

  function Symbol(url: bool, d: Sextet): (c: char)
    ensures IsAlnum(c) || c in "+/-_"
  {
    if d < 26 then (65 + d) as char
    else if d < 52 then (71 + d) as char
    else if d < 62 then (d - 4) as char
    else if d == 62 then (if url then '-' else '+')
    else (if url then '_' else '/')
  }

  /** Node reads both alphabets, whichever was asked for. */
  function SymbolValue(c: char): (d: Option<Sextet>) {
    if 'A' <= c <= 'Z' then Some(c as int - 65)
    else if 'a' <= c <= 'z' then Some(c as int - 71)
    else if IsDigit(c) then Some(c as int + 4)
    else if c == '+' || c == '-' then Some(62)
    else if c == '/' || c == '_' then Some(63)
    else None
  }

  function Symbols(url: bool, d: seq<Sextet>): (s: string)
    ensures |s| == |d|
    ensures forall i :: 0 <= i < |s| ==> IsAlnum(s[i]) || s[i] in "+/-_"
  {
    if d == [] then "" else [Symbol(url, d[0])] + Symbols(url, d[1..])
  }

  /** Padding ends the text; a character outside the alphabet is skipped. */
  function Values(s: string): (d: seq<Sextet>) {
    if s == "" || s[0] == '=' then []
    else
      var v := SymbolValue(s[0]);
      if v.Some? then [v.value] + Values(s[1..]) else Values(s[1..])
  }

  function Padding(n: nat): string { if n % 4 == 2 then "==" else if n % 4 == 3 then "=" else "" }

  function Base64(b: Bytes): (s: string) {
    var t := Symbols(false, Sextets(b));
    t + Padding(|t|)
  }

  function Base64Url(b: Bytes): (s: string) { Symbols(true, Sextets(b)) }

  /** `Buffer.from(s, 'base64')` and `Buffer.from(s, 'base64url')`. */
  function FromBase64(s: string): (b: Bytes) { Joined(Values(s)) }

  lemma SymbolBack(url: bool, d: Sextet)
    ensures SymbolValue(Symbol(url, d)) == Some(d) && Symbol(url, d) != '='
  {
  }

  lemma {:induction false} ValuesOfSymbols(url: bool, d: seq<Sextet>, pad: string)
    requires pad == "" || pad[0] == '='
    ensures Values(Symbols(url, d) + pad) == d
  {
    hide Symbol, SymbolValue, Symbols, Values;
    if d == [] {
      SymbolsNext(url, d);
      assert "" + pad == pad;
      NoValues(pad);
    } else {
      var rest := Symbols(url, d[1..]) + pad;
      SymbolsNext(url, d);
      assert Symbols(url, d) + pad == [Symbol(url, d[0])] + rest;
      SymbolBack(url, d[0]);
      ValuesNext(Symbol(url, d[0]), rest, d[0]);
      ValuesOfSymbols(url, d[1..], pad);
    }
  }

  lemma NoValues(pad: string)
    requires pad == "" || pad[0] == '='
    ensures Values(pad) == []
  {
  }

  lemma SymbolsNext(url: bool, d: seq<Sextet>)
    ensures Symbols(url, d) == if d == [] then "" else [Symbol(url, d[0])] + Symbols(url, d[1..])
  {
    hide Symbol;
  }

  lemma ValuesNext(c: char, rest: string, v: Sextet)
    requires c != '=' && SymbolValue(c) == Some(v)
    ensures Values([c] + rest) == [v] + Values(rest)
  {
    hide SymbolValue;
    assert ([c] + rest)[1..] == rest;
  }

  /** Both codecs give every byte string back, whatever its length. */
  lemma Base64RoundTrip(b: Bytes)
    ensures FromBase64(Base64(b)) == b
    ensures FromBase64(Base64Url(b)) == b
  {
    var d := Sextets(b);
    ValuesOfSymbols(false, d, Padding(|d|));
    ValuesOfSymbols(true, d, "");
    assert Symbols(true, d) + "" == Symbols(true, d);
    JoinedSextets(b);
  }

  lemma Base64UrlInjective(a: Bytes, b: Bytes)
    requires Base64Url(a) == Base64Url(b)
    ensures a == b
  {
    Base64RoundTrip(a);
    Base64RoundTrip(b);
  }

  /** A base64url text is never cut by a dot, and is empty only for no bytes. */
  lemma Base64UrlShape(b: Bytes)
    ensures '.' !in Base64Url(b)
    ensures b != [] ==> Base64Url(b) != ""
  {
  }
}
