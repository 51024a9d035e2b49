/** JSON texts: a strict parser (sections 2 to 7 of RFC 8259) and concrete documents that record
    every choice a writer has (white space, spelling of strings and numbers, trailing commas). */
module Json {
  import opened Text

  // ---- values ----

  /** Numbers and literals are kept as spelled; a string is its UTF-16 code units. An object and
      an array are both a list of entries; array entries have the empty label. */
  datatype Json = Atom(text: string) | Str(units: seq<int>) | Node(obj: bool, entries: seq<Entry>)
  datatype Entry = Entry(name: seq<int>, value: Json)

  function Opener(obj: bool): char { if obj then '{' else '[' }
  function Closer(obj: bool): char { if obj then '}' else ']' }

  // ---- tokens ----

  predicate IsWs(c: char) { c == ' ' || c == '\t' || c == '\n' || c == '\r' }

  predicate AllWs(s: string) { forall i :: 0 <= i < |s| ==> IsWs(s[i]) }

  function SkipWs(s: string): (t: string)
    ensures |t| <= |s|
  {
    if s != "" && IsWs(s[0]) then SkipWs(s[1..]) else s
  }

  predicate IsAtomChar(c: char) { IsAlnum(c) || c == '-' || c == '+' || c == '.' }

  function AtomLen(s: string): (n: nat)
    ensures n <= |s|
  {
    if s != "" && IsAtomChar(s[0]) then 1 + AtomLen(s[1..]) else 0
  }

  function Digits(s: string): (n: nat)
    ensures n <= |s|
  {
    if s != "" && IsDigit(s[0]) then 1 + Digits(s[1..]) else 0
  }

  /** `int = 0 / [1-9] DIGIT*`, then optional fraction and exponent. */
  predicate IsUnsigned(s: string) {
    var n := Digits(s);
    n > 0 && (s[0] == '0' ==> n == 1) && IsFraction(s[n..])
  }

  predicate IsFraction(s: string) {
    if s != "" && s[0] == '.' then Digits(s[1..]) > 0 && IsExponent(s[1 + Digits(s[1..])..])
    else IsExponent(s)
  }

  predicate IsExponent(s: string) {
    s == "" || (
      (s[0] == 'e' || s[0] == 'E') &&
      var t := if |s| > 1 && (s[1] == '+' || s[1] == '-') then s[2..] else s[1..];
      t != "" && Digits(t) == |t|)
  }

  predicate IsNumber(s: string) { s != "" && IsUnsigned(if s[0] == '-' then s[1..] else s) }

  predicate IsAtom(s: string) {
    && (s == "true" || s == "false" || s == "null" || IsNumber(s))
    && AtomLen(s) == |s|
  }

  function Units(c: char): (us: seq<int>)
    ensures |us| >= 1
  {
    var n := c as int;
    if n < 0x1_0000 then [n] else [0xD800 + (n - 0x1_0000) / 1024, 0xDC00 + (n - 0x1_0000) % 1024]
  }

  predicate IsHex(c: char) { IsDigit(c) || 'a' <= c <= 'f' || 'A' <= c <= 'F' }

  function HexVal(c: char): int {
    if IsDigit(c) then c as int - 48 else if 'a' <= c <= 'f' then c as int - 87 else c as int - 55
  }

  function Escaped(c: char): Option<int> {
    match c
    case '"' => Some(34) case '\\' => Some(92) case '/' => Some(47) case 'b' => Some(8)
    case 'f' => Some(12) case 'n' => Some(10) case 'r' => Some(13) case 't' => Some(9)
    case _ => None
  }

  /** How many characters the first item of a string body takes; 0 if it is malformed. */
  function ItemLen(s: string): (n: nat)
    requires s != ""
    ensures n <= |s|
  {
    if s[0] == '"' || s[0] < ' ' then 0
    else if s[0] != '\\' then 1
    else if |s| < 2 then 0
    else if Escaped(s[1]).Some? then 2
    else if s[1] == 'u' && |s| >= 6 && IsHex(s[2]) && IsHex(s[3]) && IsHex(s[4]) && IsHex(s[5]) then 6
    else 0
  }

  function ItemUnits(s: string): (us: seq<int>)
    requires s != "" && ItemLen(s) > 0
    ensures |us| >= 1
  {
    if s[0] != '\\' then Units(s[0])
    else if Escaped(s[1]).Some? then [Escaped(s[1]).value]
    else [((HexVal(s[2]) * 16 + HexVal(s[3])) * 16 + HexVal(s[4])) * 16 + HexVal(s[5])]
  }

  /** The code units a string body spells, if it is well formed. */
  function Decode(s: string): (us: Option<seq<int>>) {
    if s == "" then Some([])
    else if ItemLen(s) == 0 then None
    else
      var rest := Decode(s[ItemLen(s)..]);
      if rest.None? then None else Some(ItemUnits(s) + rest.value)
  }

  /** Where the closing quote of a string body is. */
  function QuoteAt(s: string): (n: Option<nat>)
    ensures n.Some? ==> n.value < |s|
  {
    if s == "" then None
    else if s[0] == '"' then Some(0)
    else
      var k := if s[0] == '\\' then 2 else 1;
      if |s| < k then None else
      var n := QuoteAt(s[k..]);
      if n.None? then None else Some(k + n.value)
  }

  // ---- the parser ----

  datatype Parsed<+T> = Fail | Got(v: T, rest: string)

  function StringBody(s: string): (r: Parsed<string>)
    ensures r.Got? ==> |r.rest| < |s|
  {
    if s == "" || s[0] != '"' then Fail else
    var n := QuoteAt(s[1..]);
    if n.None? then Fail else Got(s[1..1 + n.value], s[n.value + 2..])
  }

  function ParseString(s: string): (r: Parsed<seq<int>>)
    ensures r.Got? ==> |r.rest| < |s|
  {
    var b := StringBody(s);
    if b.Fail? then Fail else
    var us := Decode(b.v);
    if us.None? then Fail else Got(us.value, b.rest)
  }

  function ParseLabel(obj: bool, s: string): (r: Parsed<seq<int>>)
    ensures r.Got? ==> |r.rest| <= |s|
  {
    if !obj then Got([], s) else
    var k := ParseString(s);
    if k.Fail? then Fail else
    var t := SkipWs(k.rest);
    if t == "" || t[0] != ':' then Fail else Got(k.v, SkipWs(t[1..]))
  }

  function ParseValue(s: string): (r: Parsed<Json>)
    ensures r.Got? ==> |r.rest| < |s|
    decreases |s|, 0
  {
    if s == "" then Fail
    else if s[0] == '"' then
      var r := ParseString(s);
      if r.Fail? then Fail else Got(Str(r.v), r.rest)
    else if s[0] == '{' || s[0] == '[' then
      var r := ParseBody(s[0] == '{', s[1..]);
      if r.Fail? then Fail else Got(Node(s[0] == '{', r.v), r.rest)
    else
      var n := AtomLen(s);
      if n > 0 && IsAtom(s[..n]) then Got(Atom(s[..n]), s[n..]) else Fail
  }

  function ParseBody(obj: bool, s: string): (r: Parsed<seq<Entry>>)
    ensures r.Got? ==> |r.rest| < |s|
    decreases |s|, 2
  {
    var t := SkipWs(s);
    if t != "" && t[0] == Closer(obj) then Got([], t[1..]) else ParseEntries(obj, t)
  }

  function ParseEntries(obj: bool, s: string): (r: Parsed<seq<Entry>>)
    ensures r.Got? ==> |r.rest| < |s|
    decreases |s|, 1
  {
    var l := ParseLabel(obj, s);
    if l.Fail? then Fail else
    var v := ParseValue(l.rest);
    if v.Fail? then Fail else
    var t := SkipWs(v.rest);
    if t == "" then Fail
    else if t[0] == Closer(obj) then Got([Entry(l.v, v.v)], t[1..])
    else if t[0] == ',' then
      var more := ParseEntries(obj, SkipWs(t[1..]));
      if more.Fail? then Fail else Got([Entry(l.v, v.v)] + more.v, more.rest)
    else Fail
  }

  /** `JSON.parse`. */
  function Parse(s: string): Option<Json> {
    var r := ParseValue(SkipWs(s));
    if r.Got? && SkipWs(r.rest) == "" then Some(r.v) else None
  }

  // ---- concrete documents ----

  datatype Label = NoLabel | Label(lex: string, before: string, after: string)
  datatype Val = AtomTok(text: string) | StrTok(lex: string) | Group(obj: bool, body: Body)
  datatype Body = Blank(ws: string) | Full(list: Items)
  datatype Items = Items(ws: string, key: Label, v: Val, after: string, rest: Rest)
  datatype Rest = Done | Trailing(ws: string) | Next(list: Items)

  // Printing is written in front of what follows it, `t`.

  function PrintString(lex: string, t: string): string { ['"'] + (lex + (['"'] + t)) }

  function PrintLabel(l: Label, t: string): string {
    match l
    case NoLabel => t
    case Label(lex, before, after) => PrintString(lex, before + ([':'] + (after + t)))
  }

  function Print(v: Val, t: string): (s: string)
    decreases v
  {
    match v
    case AtomTok(text) => text + t
    case StrTok(lex) => PrintString(lex, t)
    case Group(obj, body) => [Opener(obj)] + PrintBody(obj, body, t)
  }

  function PrintBody(obj: bool, b: Body, t: string): (s: string)
    decreases b
  {
    match b
    case Blank(ws) => ws + ([Closer(obj)] + t)
    case Full(list) => PrintItems(obj, list, t)
  }

  function PrintItems(obj: bool, l: Items, t: string): (s: string)
    decreases l
  {
    l.ws + PrintLabel(l.key, Print(l.v, l.after + PrintRest(obj, l.rest, t)))
  }

  function PrintRest(obj: bool, r: Rest, t: string): (s: string)
    decreases r
  {
    match r
    case Done => [Closer(obj)] + t
    case Trailing(ws) => [','] + (ws + ([Closer(obj)] + t))
    case Next(list) => [','] + PrintItems(obj, list, t)
  }

  // ---- well-formed documents ----

  /** White space is JSON's, except behind a trailing comma, where any `\s` may stand. */
  predicate WellFormed(v: Val)
    decreases v
  {
    match v
    case AtomTok(text) => IsAtom(text)
    case StrTok(lex) => Decode(lex).Some?
    case Group(obj, body) => WellFormedBody(obj, body)
  }

  predicate WellFormedBody(obj: bool, b: Body)
    decreases b
  {
    match b
    case Blank(ws) => AllWs(ws)
    case Full(list) => WellFormedItems(obj, list)
  }

  predicate WellFormedLabel(obj: bool, l: Label) {
    match l
    case NoLabel => !obj
    case Label(lex, before, after) => obj && Decode(lex).Some? && AllWs(before) && AllWs(after)
  }

  predicate WellFormedItems(obj: bool, l: Items)
    decreases l
  {
    AllWs(l.ws) && WellFormedLabel(obj, l.key) && WellFormed(l.v) && AllWs(l.after) && WellFormedRest(obj, l.rest)
  }

  predicate WellFormedRest(obj: bool, r: Rest)
    decreases r
  {
    match r
    case Done => true
    case Trailing(ws) => forall i :: 0 <= i < |ws| ==> IsSpace(ws[i])
    case Next(list) => WellFormedItems(obj, list)
  }

  /** No trailing commas anywhere. */
  predicate Strict(v: Val)
    decreases v
  {
    v.Group? ==> StrictBody(v.body)
  }

  predicate StrictBody(b: Body)
    decreases b
  {
    b.Full? ==> StrictItems(b.list)
  }

  predicate StrictItems(l: Items)
    decreases l
  {
    Strict(l.v) && StrictRest(l.rest)
  }

  predicate StrictRest(r: Rest)
    decreases r
  {
    !r.Trailing? && (r.Next? ==> StrictItems(r.list))
  }

  // ---- what a document means ----

  function Meaning(v: Val): Json
    requires WellFormed(v)
    decreases v
  {
    match v
    case AtomTok(text) => Atom(text)
    case StrTok(lex) => Str(Decode(lex).value)
    case Group(obj, body) => Node(obj, BodyMeaning(obj, body))
  }

  function BodyMeaning(obj: bool, b: Body): seq<Entry>
    requires WellFormedBody(obj, b)
    decreases b
  {
    if b.Blank? then [] else ItemsMeaning(obj, b.list)
  }

  function LabelMeaning(obj: bool, l: Label): seq<int>
    requires WellFormedLabel(obj, l)
  {
    if l.NoLabel? then [] else Decode(l.lex).value
  }

  function ItemsMeaning(obj: bool, l: Items): seq<Entry>
    requires WellFormedItems(obj, l)
    decreases l
  {
    [Entry(LabelMeaning(obj, l.key), Meaning(l.v))] + RestMeaning(obj, l.rest)
  }

  function RestMeaning(obj: bool, r: Rest): seq<Entry>
    requires WellFormedRest(obj, r)
    decreases r
  {
    if r.Next? then ItemsMeaning(obj, r.list) else []
  }

  // ---- the parser reads every strict document ----

  lemma {:induction false} SkipWsOver(ws: string, t: string)
    requires AllWs(ws) && (t != "" ==> !IsWs(t[0]))
    ensures SkipWs(ws + t) == t
  {
    if ws == "" {
      assert ws + t == t;
    } else {
      assert (ws + t)[1..] == ws[1..] + t;
      SkipWsOver(ws[1..], t);
    }
  }

  lemma {:induction false} AtomLenOver(a: string, t: string)
    requires AtomLen(a) == |a| && (t != "" ==> !IsAtomChar(t[0]))
    ensures AtomLen(a + t) == |a|
  {
    if a == "" {
      assert a + t == t;
    } else {
      assert (a + t)[1..] == a[1..] + t;
      AtomLenOver(a[1..], t);
    }
  }

  predicate Plain(c: char) { c != '"' && c != '\\' }

  lemma {:induction false} PlainRun(p: string, s: string)
    requires forall i :: 0 <= i < |p| ==> Plain(p[i])
    requires QuoteAt(s).Some?
    ensures QuoteAt(p + s) == Some(|p| + QuoteAt(s).value)
  {
    if p == "" {
      assert p + s == s;
    } else {
      assert (p + s)[1..] == p[1..] + s;
      PlainRun(p[1..], s);
    }
  }

  lemma EscapeStep(p: string, s: string)
    requires |p| >= 2 && p[0] == '\\' && QuoteAt(s).Some?
    requires forall i :: 2 <= i < |p| ==> Plain(p[i])
    ensures QuoteAt(p + s) == Some(|p| + QuoteAt(s).value)
  {
    assert (p + s)[2..] == p[2..] + s;
    PlainRun(p[2..], s);
  }

  lemma ItemStep(lex: string, s: string)
    requires lex != "" && ItemLen(lex) > 0 && QuoteAt(s).Some?
    ensures QuoteAt(lex[..ItemLen(lex)] + s) == Some(ItemLen(lex) + QuoteAt(s).value)
  {
    if lex[0] == '\\' {
      EscapeStep(lex[..ItemLen(lex)], s);
    } else {
      PlainRun(lex[..1], s);
    }
  }

  lemma DecodeTail(lex: string)
    requires lex != "" && Decode(lex).Some?
    ensures ItemLen(lex) > 0 && Decode(lex[ItemLen(lex)..]).Some?
  {
  }

  lemma DecodePlain(c: char, s: string)
    requires c != '"' && c != '\\' && c >= ' '
    ensures Decode([c] + s) == if Decode(s).None? then None else Some(Units(c) + Decode(s).value)
  {
    assert ([c] + s)[1..] == s;
  }

  lemma DecodeItem(p: string, s: string)
    requires p != "" && ItemLen(p) == |p|
    ensures ItemLen(p + s) == |p| && ItemUnits(p + s) == ItemUnits(p)
    ensures Decode(p + s) == if Decode(s).None? then None else Some(ItemUnits(p) + Decode(s).value)
  {
    assert forall i :: 0 <= i < |p| ==> (p + s)[i] == p[i];
    assert (p + s)[|p|..] == s;
  }

  lemma {:induction false} QuoteAtOver(lex: string, t: string)
    requires Decode(lex).Some?
    ensures QuoteAt(lex + (['"'] + t)) == Some(|lex|)
    decreases |lex|
  {
    var q := ['"'] + t;
    if lex == "" {
      assert lex + q == q;
    } else {
      DecodeTail(lex);
      var n := ItemLen(lex);
      QuoteAtOver(lex[n..], t);
      ItemStep(lex, lex[n..] + q);
      Regroup(lex, n, q);
    }
  }

  lemma StringBodyOver(lex: string, t: string)
    requires QuoteAt(lex + (['"'] + t)) == Some(|lex|)
    ensures StringBody(PrintString(lex, t)) == Got(lex, t)
  {
    var q := ['"'] + t;
    var x := lex + q;
    var s := ['"'] + x;
    assert s[1..] == x;
    assert x[..|lex|] == lex && x[|lex|..] == q && q[1..] == t;
    assert s[1..1 + |lex|] == x[..|lex|];
    assert s[|lex| + 2..] == x[|lex| + 1..] == q[1..];
  }

  lemma ParseStringOver(lex: string, t: string)
    requires Decode(lex).Some?
    ensures ParseString(PrintString(lex, t)) == Got(Decode(lex).value, t)
  {
    QuoteAtOver(lex, t);
    StringBodyOver(lex, t);
  }

  lemma ParseLabelOver(obj: bool, l: Label, t: string)
    requires WellFormedLabel(obj, l) && t != "" && !IsWs(t[0])
    ensures ParseLabel(obj, PrintLabel(l, t)) == Got(LabelMeaning(obj, l), t)
  {
    if l.Label? {
      var u := l.after + t;
      var colon := [':'] + u;
      ParseStringOver(l.lex, l.before + colon);
      SkipWsOver(l.before, colon);
      assert colon[1..] == u;
      SkipWsOver(l.after, t);
    }
  }

  /** A value or a labelled value starts with none of: white space, comma, a closer. */
  predicate StartsItem(s: string) {
    s != "" && !IsSpace(s[0]) && !IsWs(s[0]) && s[0] != ',' && s[0] != '}' && s[0] != ']'
  }

  lemma PrintStarts(v: Val, t: string)
    requires WellFormed(v)
    ensures StartsItem(Print(v, t))
  {
    if v.AtomTok? { assert IsAtomChar(v.text[0]); }
  }

  lemma LabelledStarts(obj: bool, l: Label, v: Val, t: string)
    requires WellFormed(v) && WellFormedLabel(obj, l)
    ensures StartsItem(PrintLabel(l, Print(v, t)))
  {
    PrintStarts(v, t);
  }

  lemma ParseAtomOver(text: string, t: string)
    requires IsAtom(text) && (t != "" ==> !IsAtomChar(t[0]))
    ensures ParseValue(text + t) == Got(Atom(text), t)
  {
    AtomLenOver(text, t);
    assert IsAtomChar(text[0]);
    assert (text + t)[..|text|] == text && (text + t)[|text|..] == t;
  }

  /** One entry and what comes behind it. */
  lemma EntryStep(obj: bool, s: string, name: seq<int>, u: string, v: Json, w: string)
    requires ParseLabel(obj, s) == Got(name, u) && ParseValue(u) == Got(v, w) && SkipWs(w) != ""
    ensures var x := SkipWs(w);
      ParseEntries(obj, s) ==
        if x[0] == Closer(obj) then Got([Entry(name, v)], x[1..])
        else if x[0] != ',' then Fail
        else match ParseEntries(obj, SkipWs(x[1..]))
             case Fail => Fail
             case Got(es, t) => Got([Entry(name, v)] + es, t)
  {
  }

  lemma {:induction false} ParsePrinted(v: Val, t: string)
    requires WellFormed(v) && Strict(v)
    requires v.AtomTok? && t != "" ==> !IsAtomChar(t[0])
    ensures ParseValue(Print(v, t)) == Got(Meaning(v), t)
    decreases v
  {
    hide IsAtom, Decode, WellFormedBody, StrictBody, PrintBody, ParseBody, BodyMeaning, ParseString, IsAtomChar;
    match v
    case AtomTok(text) =>
      ParseAtomOver(text, t);
    case StrTok(lex) =>
      ParseStringOver(lex, t);
      ValueIsString(PrintString(lex, t));
    case Group(obj, body) =>
      ParsePrintedBody(obj, body, t);
      ValueIsGroup(obj, PrintBody(obj, body, t));
  }

  lemma ValueIsString(s: string)
    requires s != "" && s[0] == '"'
    ensures ParseValue(s) == match ParseString(s) case Fail => Fail case Got(units, rest) => Got(Str(units), rest)
  {
    hide ParseString;
  }

  lemma ValueIsGroup(obj: bool, s: string)
    ensures ParseValue([Opener(obj)] + s)
         == match ParseBody(obj, s) case Fail => Fail case Got(es, rest) => Got(Node(obj, es), rest)
  {
    assert ([Opener(obj)] + s)[1..] == s;
    hide ParseBody;
  }

  lemma {:induction false} ParsePrintedBody(obj: bool, b: Body, t: string)
    requires WellFormedBody(obj, b) && StrictBody(b)
    ensures ParseBody(obj, PrintBody(obj, b, t)) == Got(BodyMeaning(obj, b), t)
    decreases b
  {
    match b
    case Blank(ws) =>
      var c := [Closer(obj)] + t;
      SkipWsOver(ws, c);
      assert c[1..] == t;
    case Full(list) =>
      ParsePrintedItems(obj, list, t);
  }

  lemma {:induction false} ParsePrintedItems(obj: bool, l: Items, t: string)
    requires WellFormedItems(obj, l) && StrictItems(l)
    ensures StartsItem(SkipWs(PrintItems(obj, l, t)))
    ensures ParseEntries(obj, SkipWs(PrintItems(obj, l, t))) == Got(ItemsMeaning(obj, l), t)
    decreases l
  {
    hide Print, PrintLabel, PrintRest, SkipWs, ParseLabel, ParseValue, ParseEntries, Meaning, LabelMeaning, RestMeaning,
      WellFormed, WellFormedLabel, WellFormedRest, Strict, AllWs;
    var r := PrintRest(obj, l.rest, t);
    var a := l.after + r;
    var u, name, v := Print(l.v, a), LabelMeaning(obj, l.key), Meaning(l.v);
    ParsePrintedRest(obj, l.rest, t);
    AfterStops(obj, l.after, r);
    PrintStarts(l.v, a);
    LabelledStarts(obj, l.key, l.v, a);
    SkipWsOver(l.ws, PrintLabel(l.key, u));
    ParseLabelOver(obj, l.key, u);
    ParsePrinted(l.v, a);
    EntryStep(obj, PrintLabel(l.key, u), name, u, v, a);
    if !l.rest.Next? { MeaningOfRest(obj, l.rest, Entry(name, v)); }
  }

  /** White space behind a value stops it and is skipped. */
  lemma AfterStops(obj: bool, after: string, r: string)
    requires AllWs(after) && r != "" && (r[0] == ',' || r[0] == Closer(obj))
    ensures after + r != "" && !IsAtomChar((after + r)[0]) && SkipWs(after + r) == r
  {
    SkipWsOver(after, r);
  }

  lemma MeaningOfRest(obj: bool, r: Rest, e: Entry)
    requires WellFormedRest(obj, r) && !r.Next?
    ensures [e] + RestMeaning(obj, r) == [e]
  {
  }

  lemma {:induction false} ParsePrintedRest(obj: bool, r: Rest, t: string)
    requires WellFormedRest(obj, r) && StrictRest(r)
    ensures var s := PrintRest(obj, r, t);
      && s != "" && (s[0] == if r.Next? then ',' else Closer(obj))
      && (r.Done? ==> s[1..] == t)
      && (r.Next? ==> ParseEntries(obj, SkipWs(s[1..])) == Got(RestMeaning(obj, r), t))
    decreases r
  {
    if r.Next? {
      assert PrintRest(obj, r, t)[1..] == PrintItems(obj, r.list, t);
      ParsePrintedItems(obj, r.list, t);
    }
  }

  /** Reading back what was written gives what it means. */
  lemma ParsePrint(v: Val)
    requires WellFormed(v) && Strict(v)
    ensures Parse(Print(v, "")) == Some(Meaning(v))
  {
    PrintStarts(v, "");
    ParsePrinted(v, "");
  }

  // ---- and reads nothing else ----

  lemma {:induction false} SkipWsSplits(s: string) returns (ws: string)
    ensures AllWs(ws) && s == ws + SkipWs(s)
  {
    if s != "" && IsWs(s[0]) {
      var ws' := SkipWsSplits(s[1..]);
      ws := [s[0]] + ws';
      assert s == [s[0]] + s[1..];
    } else {
      ws := "";
    }
  }

  lemma {:induction false} QuoteIsThere(s: string)
    requires QuoteAt(s).Some?
    ensures s[QuoteAt(s).value] == '"'
    decreases |s|
  {
    if s[0] != '"' { QuoteIsThere(s[if s[0] == '\\' then 2 else 1..]); }
  }

  lemma StringParsed(s: string)
    requires StringBody(s).Got?
    ensures s == PrintString(StringBody(s).v, StringBody(s).rest)
  {
    hide QuoteAt;
    var b := StringBody(s);
    QuoteIsThere(s[1..]);
    assert s[|b.v| + 1] == s[1..][|b.v|];
  }

  lemma LabelParsed(obj: bool, s: string) returns (l: Label)
    requires ParseLabel(obj, s).Got?
    ensures WellFormedLabel(obj, l) && LabelMeaning(obj, l) == ParseLabel(obj, s).v
    ensures s == PrintLabel(l, ParseLabel(obj, s).rest)
  {
    hide StringBody, Decode, SkipWs, PrintString, AllWs;
    if obj {
      var b := StringBody(s);
      StringParsed(s);
      var before := SkipWsSplits(b.rest);
      var t := SkipWs(b.rest);
      var after := SkipWsSplits(t[1..]);
      assert t == [':'] + t[1..];
      l := Label(b.v, before, after);
    } else {
      l := NoLabel;
    }
  }

  /** A text the parser takes a value from is a strict document of that value, and the rest. */
  lemma {:induction false} ValueParsed(s: string) returns (v: Val)
    requires ParseValue(s).Got?
    ensures WellFormed(v) && Strict(v) && Meaning(v) == ParseValue(s).v
    ensures s == Print(v, ParseValue(s).rest)
    decreases |s|, 0
  {
    hide IsAtom, Decode, WellFormedBody, StrictBody, PrintBody, ParseBody, BodyMeaning, StringBody, PrintString,
      AtomLen;
    if s[0] == '"' {
      StringParsed(s);
      v := StrTok(StringBody(s).v);
    } else if s[0] == '{' || s[0] == '[' {
      var b := BodyParsed(s[0] == '{', s[1..]);
      v := Group(s[0] == '{', b);
      assert s == [s[0]] + s[1..];
    } else {
      v := AtomTok(s[..AtomLen(s)]);
    }
  }

  lemma {:induction false} BodyParsed(obj: bool, s: string) returns (b: Body)
    requires ParseBody(obj, s).Got?
    ensures WellFormedBody(obj, b) && StrictBody(b) && BodyMeaning(obj, b) == ParseBody(obj, s).v
    ensures s == PrintBody(obj, b, ParseBody(obj, s).rest)
    decreases |s|, 2
  {
    hide SkipWs, AllWs, ParseEntries, WellFormedItems, StrictItems, ItemsMeaning, PrintItems;
    var t := SkipWs(s);
    var ws := SkipWsSplits(s);
    if t != "" && t[0] == Closer(obj) {
      b := Blank(ws);
      assert t == [Closer(obj)] + t[1..];
    } else {
      var l := EntriesParsed(obj, t);
      SpacedItems(obj, l, ws, ParseEntries(obj, t).rest);
      b := Full(l.(ws := ws));
    }
  }

  /** White space in front of the items. */
  lemma SpacedItems(obj: bool, l: Items, ws: string, t: string)
    requires l.ws == "" && AllWs(ws) && WellFormedItems(obj, l) && StrictItems(l)
    ensures var l' := l.(ws := ws);
      && WellFormedItems(obj, l') && StrictItems(l') && ItemsMeaning(obj, l') == ItemsMeaning(obj, l)
      && PrintItems(obj, l', t) == ws + PrintItems(obj, l, t)
  {
    hide Print, PrintLabel, PrintRest, WellFormed, WellFormedLabel, WellFormedRest, Strict, StrictRest, Meaning,
      LabelMeaning, RestMeaning, AllWs;
    var p := PrintLabel(l.key, Print(l.v, l.after + PrintRest(obj, l.rest, t)));
    assert "" + p == p;
  }

  lemma {:induction false} EntriesParsed(obj: bool, s: string) returns (l: Items)
    requires ParseEntries(obj, s).Got?
    ensures l.ws == "" && WellFormedItems(obj, l) && StrictItems(l) && ItemsMeaning(obj, l) == ParseEntries(obj, s).v
    ensures s == PrintItems(obj, l, ParseEntries(obj, s).rest)
    decreases |s|, 1
  {
    hide SkipWs, ParseLabel, ParseValue, WellFormed, Strict, Meaning, Print, PrintLabel, PrintRest, WellFormedLabel,
      WellFormedRest, StrictRest, LabelMeaning, RestMeaning;
    var k := ParseLabel(obj, s);
    var v := ParseValue(k.rest);
    var key := LabelParsed(obj, s);
    var val := ValueParsed(k.rest);
    var after := SkipWsSplits(v.rest);
    var rest := RestParsed(obj, SkipWs(v.rest));
    l := Items("", key, val, after, rest);
  }

  lemma {:induction false} RestParsed(obj: bool, s: string) returns (r: Rest)
    requires s != "" && (s[0] == Closer(obj) || (s[0] == ',' && ParseEntries(obj, SkipWs(s[1..])).Got?))
    ensures WellFormedRest(obj, r) && StrictRest(r)
    ensures if s[0] == Closer(obj) then RestMeaning(obj, r) == [] && s == PrintRest(obj, r, s[1..])
            else var more := ParseEntries(obj, SkipWs(s[1..]));
              RestMeaning(obj, r) == more.v && s == PrintRest(obj, r, more.rest)
    decreases |s|, 0
  {
    hide SkipWs, AllWs, ParseEntries, WellFormedItems, StrictItems, ItemsMeaning, PrintItems;
    assert s == [s[0]] + s[1..];
    if s[0] == Closer(obj) {
      r := Done;
    } else {
      var u := SkipWs(s[1..]);
      var ws := SkipWsSplits(s[1..]);
      var l := EntriesParsed(obj, u);
      SpacedItems(obj, l, ws, ParseEntries(obj, u).rest);
      r := Next(l.(ws := ws));
    }
  }

  /** `s` is the strict document `v` in white space. */
  predicate IsDocument(s: string, before: string, v: Val, after: string) {
    AllWs(before) && AllWs(after) && WellFormed(v) && Strict(v) && s == before + Print(v, after)
  }

  lemma DocumentParses(s: string, before: string, v: Val, after: string)
    requires IsDocument(s, before, v, after)
    ensures Parse(s) == Some(Meaning(v))
  {
    hide Print, Meaning, WellFormed, Strict, ParseValue;
    PrintStarts(v, after);
    SkipWsOver(before, Print(v, after));
    ParsePrinted(v, after);
    SkipWsOver(after, "");
    assert after + "" == after;
  }

  lemma ParsedIsDocument(s: string) returns (before: string, v: Val, after: string)
    requires Parse(s).Some?
    ensures IsDocument(s, before, v, after) && Meaning(v) == Parse(s).value
  {
    hide Print, Meaning, WellFormed, Strict, ParseValue, SkipWs, AllWs;
    before := SkipWsSplits(s);
    v := ValueParsed(SkipWs(s));
    after := ParseValue(SkipWs(s)).rest;
    var ws := SkipWsSplits(after);
    assert ws + "" == ws;
  }

  /** The parser reads `tree` from a text if and only if the text is a strict document that means it. */
  lemma ParseIff(s: string, tree: Json)
    ensures Parse(s) == Some(tree) <==>
            exists before, v, after :: IsDocument(s, before, v, after) && Meaning(v) == tree
  {
    hide Parse, Meaning, WellFormed, Strict, Print, AllWs;
    if Parse(s).Some? { var before, v, after := ParsedIsDocument(s); }
    forall before, v, after | IsDocument(s, before, v, after) ensures Parse(s) == Some(Meaning(v)) {
      DocumentParses(s, before, v, after);
    }
  }
}
