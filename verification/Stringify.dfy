/** `JSON.stringify` for the values the code writes: strings, numbers and byte arrays. */
module Stringify {
  import opened Text
  import opened Json
  import opened Codec

  // ---- strings ----

  function HexDigit(d: nat): (c: char)
    requires d < 16
    ensures IsHex(c) && HexVal(c) == d
  {
    if d < 10 then (48 + d) as char else (87 + d) as char
  }

  function EscapeChar(c: char): (p: string)
    ensures p != ""
  {
    var n := c as int;
    if n == 34 then "\\\"" else if n == 92 then "\\\\"
    else if n == 8 then "\\b" else if n == 9 then "\\t" else if n == 10 then "\\n"
    else if n == 12 then "\\f" else if n == 13 then "\\r"
    else if n < 32 then ['\\', 'u', '0', '0', HexDigit(n / 16), HexDigit(n % 16)]
    else [c]
  }

  function Escape(s: string): string {
    if s == "" then "" else EscapeChar(s[0]) + Escape(s[1..])
  }

  function UnitsOf(s: string): (us: seq<int>)
    ensures s != "" ==> us != []
  {
    if s == "" then [] else Units(s[0]) + UnitsOf(s[1..])
  }

  lemma EscapedItem(c: char)
    ensures ItemLen(EscapeChar(c)) == |EscapeChar(c)| && ItemUnits(EscapeChar(c)) == Units(c)
  {
  }

  /** An escaped string spells the string. */
  lemma {:induction false} EscapeRoundTrip(s: string)
    ensures Decode(Escape(s)) == Some(UnitsOf(s))
  {
    if s != "" {
      EscapedItem(s[0]);
      EscapeRoundTrip(s[1..]);
      DecodeItem(EscapeChar(s[0]), Escape(s[1..]));
    }
  }

  // ---- numbers ----

  lemma {:induction false} AllDigits(s: string)
    requires forall i :: 0 <= i < |s| ==> IsDigit(s[i])
    ensures Digits(s) == |s| && AtomLen(s) == |s|
  {
    if s != "" { AllDigits(s[1..]); }
  }

  lemma DecimalIsAtom(n: nat)
    ensures IsAtom(Decimal(n))
  {
    var s := Decimal(n);
    AllDigits(s);
    assert IsDigit(s[0]) && s[|s|..] == "";
  }

  // ---- byte arrays ----

  /** `JSON.stringify(Array.from(bytes))` */
  function ArrayText(b: Bytes): string {
    if b == [] then "[]" else ['['] + (Decimal(b[0]) + ArrayRest(b[1..]))
  }

  function ArrayRest(b: Bytes): string {
    if b == [] then "]" else [','] + (Decimal(b[0]) + ArrayRest(b[1..]))
  }

  /** `Uint8Array.from` of a parsed array of non-negative integers. */
  function EntryBytes(es: seq<Entry>): (b: Option<Bytes>) {
    if es == [] then Some([]) else
    var rest := EntryBytes(es[1..]);
    if rest.None? || !es[0].value.Atom? || !(forall i :: 0 <= i < |es[0].value.text| ==> IsDigit(es[0].value.text[i]))
    then None else Some([Value(es[0].value.text) % 256] + rest.value)
  }

  function ParseBytes(text: string): (b: Option<Bytes>) {
    var j := Parse(text);
    if j.Some? && j.value.Node? && !j.value.obj then EntryBytes(j.value.entries) else None
  }

  function ArrayDoc(b: Bytes): Val { Group(false, if b == [] then Blank("") else Full(ArrayItems(b))) }

  function ArrayItems(b: Bytes): Items
    requires b != []
  {
    Items("", NoLabel, AtomTok(Decimal(b[0])), "", if |b| == 1 then Done else Next(ArrayItems(b[1..])))
  }

  lemma {:induction false} ItemsPrinted(b: Bytes)
    requires b != []
    ensures PrintItems(false, ArrayItems(b), "") == Decimal(b[0]) + ArrayRest(b[1..])
    ensures WellFormedItems(false, ArrayItems(b)) && StrictItems(ArrayItems(b))
  {
    DecimalIsAtom(b[0]);
    var l := ArrayItems(b);
    if |b| > 1 {
      ItemsPrinted(b[1..]);
      assert PrintRest(false, l.rest, "") == ArrayRest(b[1..]);
    } else {
      assert b[1..] == [];
      assert PrintRest(false, l.rest, "") == ArrayRest([]);
    }
    assert "" + PrintRest(false, l.rest, "") == PrintRest(false, l.rest, "");
    assert PrintItems(false, l, "") == "" + (Decimal(b[0]) + PrintRest(false, l.rest, ""));
  }

  lemma EntryBytesStep(n: Byte, es: seq<Entry>, b: Bytes)
    requires EntryBytes(es) == Some(b)
    ensures EntryBytes([Entry([], Atom(Decimal(n)))] + es) == Some([n] + b)
  {
    hide Decimal, Value;
    ValueOfDecimal(n);
    var e := Entry([], Atom(Decimal(n)));
    assert ([e] + es)[0] == e && ([e] + es)[1..] == es;
  }

  lemma {:induction false} ItemsRead(b: Bytes)
    requires b != [] && WellFormedItems(false, ArrayItems(b))
    ensures EntryBytes(ItemsMeaning(false, ArrayItems(b))) == Some(b)
  {
    var l := ArrayItems(b);
    var rest := RestMeaning(false, l.rest);
    if |b| > 1 {
      ItemsRead(b[1..]);
    } else {
      assert rest == [] && b[1..] == [];
    }
    assert EntryBytes(rest) == Some(b[1..]);
    assert Meaning(l.v) == Atom(Decimal(b[0]));
    EntryBytesStep(b[0], rest, b[1..]);
    assert [b[0]] + b[1..] == b;
  }

  /** A byte array of any length written as JSON is read back as the same bytes. */
  lemma BytesRoundTrip(b: Bytes)
    ensures ParseBytes(ArrayText(b)) == Some(b)
  {
    var d := ArrayDoc(b);
    if b != [] {
      ItemsPrinted(b);
      ItemsRead(b);
    }
    assert Print(d, "") == ArrayText(b);
    ParsePrint(d);
  }
}
