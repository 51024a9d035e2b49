/** The extraction and repair of a model-written JSON object in utils-launcher.js. */
module JsonRepair {
  import opened Text
  import opened Json
  import R = Regex

  // ---- the code ----

  /** `/,\s*c/` */
  function CommaRx(c: char): R.Rx {
    R.Cat(R.Ch(R.Lit(',')), R.Cat(R.Rep(R.Space, 0, R.Unbounded), R.Ch(R.Lit(c))))
  }

  /** `.replace(/,\s*}/g, '}').replace(/,\s*]/g, ']')` */
  function Repair(s: string): string {
    R.ReplaceAll(CommaRx(']'), R.ReplaceAll(CommaRx('}'), s, 0, "}"), 0, "]")
  }

  datatype Extracted = NoObject | Malformed | Config(tree: Json)

  /** From the first `{` to the last `}` of the trimmed reply. */
  function Slice(response: string): Option<string> {
    var raw := Trim(response);
    var start, end := IndexOf(raw, '{'), LastIndexOf(raw, '}');
    if start.None? || end.None? then None
    else Some(if start.value <= end.value then raw[start.value..end.value + 1] else "")
  }

  function Read(text: string): Extracted {
    var tree := Parse(text);
    if tree.None? then Malformed else Config(tree.value)
  }

  function Extract(response: string): Extracted {
    var text := Slice(response);
    if text.None? then NoObject else Read(Repair(text.value))
  }

  // ---- one pass, without the regular expression ----

  predicate IsCloser(c: char) { c == '}' || c == ']' }

  /** Spaces and then `c` are next. */
  predicate CloserNext(c: char, s: string) {
    var t := TrimLeft(s);
    t != "" && t[0] == c
  }

  /** Every comma that only white space separates from `c` disappears, with that white space. */
  function Drop(c: char, s: string): (t: string)
    decreases |s|
  {
    if s == "" then ""
    else if s[0] == ',' && CloserNext(c, s[1..]) then [c] + Drop(c, TrimLeft(s[1..])[1..])
    else [s[0]] + Drop(c, s[1..])
  }

  lemma {:induction false} TrimLeftIsRunEnd(s: string, i: nat)
    requires i <= |s|
    ensures TrimLeft(s[i..]) == s[R.RunEnd(R.Space, s, i)..]
    decreases |s| - i
  {
    if i < |s| && IsSpace(s[i]) {
      assert s[i..][1..] == s[i + 1..];
      TrimLeftIsRunEnd(s, i + 1);
    }
  }

  lemma CloserRejectsSpace(c: char, s: string)
    requires IsCloser(c)
    ensures R.Rejects(R.Ch(R.Lit(c)), R.Space, s)
  {
  }

  /** Where the text behind the white space at `i` starts. */
  function PastSpaces(s: string, i: nat): (e: nat)
    requires i <= |s|
    ensures i <= e <= |s|
  {
    |s| - |TrimLeft(s[i..])|
  }

  lemma PastSpacesIsRunEnd(c: char, s: string, i: nat)
    requires i <= |s|
    ensures var e := R.RunEnd(R.Space, s, i);
      PastSpaces(s, i) == e && (CloserNext(c, s[i..]) <==> e < |s| && s[e] == c)
  {
    TrimLeftIsRunEnd(s, i);
  }

  lemma CharOutcomes(c: char, s: string, i: nat)
    requires i <= |s| && !IsAlnum(c)
    ensures R.Outcomes(R.Ch(R.Lit(c)), s, i, map[])
         == if i < |s| && s[i] == c then [R.Outcome(i + 1, map[])] else []
  {
  }

  lemma SpacesThenCloser(c: char, s: string, i: nat)
    requires IsCloser(c) && i <= |s|
    ensures R.Outcomes(R.Cat(R.Rep(R.Space, 0, R.Unbounded), R.Ch(R.Lit(c))), s, i, map[])
         == if CloserNext(c, s[i..]) then [R.Outcome(PastSpaces(s, i) + 1, map[])] else []
  {
    hide IsSpace, TrimLeft, CloserNext, R.Rejects, R.RunEnd, R.Outcomes, R.Then;
    var close := R.Ch(R.Lit(c));
    CloserRejectsSpace(c, s);
    R.GreedyCommits(R.Space, 0, R.Unbounded, close, s, i, map[]);
    PastSpacesIsRunEnd(c, s, i);
    CharOutcomes(c, s, PastSpaces(s, i));
  }

  lemma CommaFirst(c: char, s: string, i: nat)
    requires IsCloser(c) && i < |s|
    ensures R.First(CommaRx(c), s, i)
         == if s[i] == ',' && CloserNext(c, s[i + 1..]) then Some(R.Found(i, PastSpaces(s, i + 1) + 1, map[]))
            else None
  {
    var os := if s[i] == ',' then [R.Outcome(i + 1, map[])] else [];
    var ps := if s[i] == ',' && CloserNext(c, s[i + 1..]) then [R.Outcome(PastSpaces(s, i + 1) + 1, map[])] else [];
    CharOutcomes(',', s, i);
    SpacesThenCloser(c, s, i + 1);
    R.FirstThen(R.Ch(R.Lit(',')), R.Cat(R.Rep(R.Space, 0, R.Unbounded), R.Ch(R.Lit(c))), s, i, os, ps);
  }

  /** At `j`, `rx` matches a comma, white space and `c`, and nothing else. */
  ghost predicate FindsComma(rx: R.Rx, c: char, s: string, j: nat) {
    j < |s| &&
    R.First(rx, s, j) == if s[j] == ',' && CloserNext(c, s[j + 1..])
                         then Some(R.Found(j, PastSpaces(s, j + 1) + 1, map[])) else None
  }

  lemma DropStep(c: char, u: string)
    ensures Drop(c, "") == ""
    ensures u != "" ==>
      Drop(c, u) == if u[0] == ',' && CloserNext(c, u[1..]) then [c] + Drop(c, TrimLeft(u[1..])[1..])
                          else [u[0]] + Drop(c, u[1..])
  {
    hide IsSpace, TrimLeft;
  }

  lemma DropAt(c: char, s: string, i: nat)
    requires i < |s|
    ensures Drop(c, s[i..]) == if s[i] == ',' && CloserNext(c, s[i + 1..])
                               then [c] + Drop(c, s[PastSpaces(s, i + 1) + 1..])
                               else [s[i]] + Drop(c, s[i + 1..])
    ensures CloserNext(c, s[i + 1..]) ==> PastSpaces(s, i + 1) < |s|
  {
    hide IsSpace, TrimLeft, Drop;
    var u := s[i..];
    assert u[0] == s[i] && u[1..] == s[i + 1..];
    DropStep(c, u);
    if CloserNext(c, s[i + 1..]) { SkippedSuffix(s, i + 1); }
  }

  lemma ReplaceStep(rx: R.Rx, s: string, i: nat, sub: string)
    requires i < |s|
    ensures var m := R.First(rx, s, i);
      R.ReplaceAll(rx, s, i, sub) == if m.Some? && m.value.end > i then sub + R.ReplaceAll(rx, s, m.value.end, sub)
                                     else [s[i]] + R.ReplaceAll(rx, s, i + 1, sub)
  {
    hide R.Outcomes;
  }

  lemma ReplaceDone(rx: R.Rx, s: string, sub: string)
    ensures R.ReplaceAll(rx, s, |s|, sub) == ""
  {
  }

  lemma {:induction false} ReplaceIsDropFrom(c: char, rx: R.Rx, s: string, i: nat)
    requires i <= |s| && forall j: nat :: j < |s| ==> FindsComma(rx, c, s, j)
    ensures R.ReplaceAll(rx, s, i, [c]) == Drop(c, s[i..])
    decreases |s| - i
  {
    hide IsSpace, TrimLeft, Drop, CloserNext, R.Outcomes, R.First, R.ReplaceAll;
    if i < |s| {
      assert FindsComma(rx, c, s, i);
      ReplaceStep(rx, s, i, [c]);
      DropAt(c, s, i);
      if s[i] == ',' && CloserNext(c, s[i + 1..]) {
        ReplaceIsDropFrom(c, rx, s, PastSpaces(s, i + 1) + 1);
      } else {
        ReplaceIsDropFrom(c, rx, s, i + 1);
      }
    } else {
      ReplaceDone(rx, s, [c]);
      DropStep(c, "");
      assert s[i..] == "";
    }
  }

  lemma SkippedSuffix(s: string, i: nat)
    requires i <= |s| && TrimLeft(s[i..]) != ""
    ensures TrimLeft(s[i..])[1..] == s[PastSpaces(s, i) + 1..]
  {
    TrimLeftIsRunEnd(s, i);
  }

  lemma ReplaceIsDrop(c: char, s: string)
    requires IsCloser(c)
    ensures R.ReplaceAll(CommaRx(c), s, 0, [c]) == Drop(c, s)
  {
    forall j: nat | j < |s| ensures FindsComma(CommaRx(c), c, s, j) { CommaFirst(c, s, j); }
    ReplaceIsDropFrom(c, CommaRx(c), s, 0);
    assert s[0..] == s;
  }

  /** The two global replaces are two passes of `Drop`. */
  lemma RepairIsDrop(s: string)
    ensures Repair(s) == Drop(']', Drop('}', s))
  {
    ReplaceIsDrop('}', s);
    ReplaceIsDrop(']', Drop('}', s));
  }

  // ---- what a pass does to a document ----

  function DropIn(c: char, v: Val): Val
    decreases v
  {
    match v
    case AtomTok(_) => v
    case StrTok(lex) => StrTok(Drop(c, lex))
    case Group(obj, body) => Group(obj, DropInBody(c, obj, body))
  }

  function DropInBody(c: char, obj: bool, b: Body): Body
    decreases b
  {
    if b.Blank? then b else Full(DropInItems(c, obj, b.list))
  }

  function DropInLabel(c: char, l: Label): Label {
    if l.NoLabel? then l else l.(lex := Drop(c, l.lex))
  }

  function DropInItems(c: char, obj: bool, l: Items): Items
    decreases l
  {
    Items(l.ws, DropInLabel(c, l.key), DropIn(c, l.v), l.after, DropInRest(c, obj, l.rest))
  }

  function DropInRest(c: char, obj: bool, r: Rest): Rest
    decreases r
  {
    match r
    case Done => Done
    case Trailing(_) => if Closer(obj) == c then Done else r
    case Next(list) => Next(DropInItems(c, obj, list))
  }

  lemma {:induction false} TrimLeftOver(p: string, t: string)
    requires t != "" && !IsSpace(t[0])
    ensures TrimLeft(p + t) == TrimLeft(p) + t
  {
    if p == "" {
      assert p + t == t;
    } else {
      assert (p + t)[1..] == p[1..] + t;
      TrimLeftOver(p[1..], t);
    }
  }

  lemma {:induction false} AllSkipped(p: string)
    requires forall i :: 0 <= i < |p| ==> IsSpace(p[i])
    ensures TrimLeft(p) == ""
  {
    if p != "" { AllSkipped(p[1..]); }
  }

  lemma {:induction false} DropCopies(c: char, p: string, t: string)
    requires forall i :: 0 <= i < |p| ==> p[i] != ','
    ensures Drop(c, p + t) == p + Drop(c, t)
  {
    if p == "" {
      assert p + t == t;
    } else {
      assert (p + t)[1..] == p[1..] + t;
      DropCopies(c, p[1..], t);
    }
  }

  lemma CloserNextOver(c: char, lex: string, q: string)
    requires IsCloser(c) && q != "" && q[0] == '"'
    ensures CloserNext(c, lex + q) <==> CloserNext(c, lex)
    ensures CloserNext(c, lex) ==> 0 < |TrimLeft(lex)| <= |lex| && TrimLeft(lex + q)[1..] == TrimLeft(lex)[1..] + q
  {
    TrimLeftOver(lex, q);
    hide TrimLeft;
  }

  /** A closing quote keeps a comma inside a string from meeting a closer outside it. */
  lemma {:induction false} DropString(c: char, lex: string, q: string, dropped: string)
    requires IsCloser(c) && q != "" && q[0] == '"' && Drop(c, q) == dropped
    ensures Drop(c, lex + q) == Drop(c, lex) + dropped
    decreases |lex|
  {
    hide IsSpace, TrimLeft, Drop, CloserNext;
    if lex == "" {
      assert lex + q == q;
      DropStep(c, "");
    } else {
      var rest := lex[1..];
      assert (lex + q)[0] == lex[0] && (lex + q)[1..] == rest + q;
      CloserNextOver(c, rest, q);
      DropStep(c, lex + q);
      DropStep(c, lex);
      if lex[0] == ',' && CloserNext(c, rest) {
        DropString(c, TrimLeft(rest)[1..], q, dropped);
        Regrouped([c], Drop(c, TrimLeft(rest)[1..]), dropped);
      } else {
        DropString(c, rest, q, dropped);
        Regrouped([lex[0]], Drop(c, rest), dropped);
      }
    }
  }

  lemma DropPrintedString(c: char, lex: string, t: string)
    requires IsCloser(c)
    ensures Drop(c, PrintString(lex, t)) == PrintString(Drop(c, lex), Drop(c, t))
  {
    hide IsSpace, TrimLeft, Drop, CloserNext;
    var q := ['"'] + t;
    var x := lex + q;
    assert (['"'] + x)[1..] == x && q[1..] == t;
    DropStep(c, ['"'] + x);
    DropStep(c, q);
    DropString(c, lex, q, ['"'] + Drop(c, t));
  }

  lemma DropPrintedLabel(c: char, obj: bool, l: Label, t: string)
    requires IsCloser(c) && WellFormedLabel(obj, l)
    ensures Drop(c, PrintLabel(l, t)) == PrintLabel(DropInLabel(c, l), Drop(c, t))
  {
    if l.Label? {
      DropPrintedString(c, l.lex, l.before + ([':'] + (l.after + t)));
      DropCopies(c, l.before, [':'] + (l.after + t));
      DropCopies(c, [':'], l.after + t);
      DropCopies(c, l.after, t);
    }
  }

  lemma {:induction false} DropPrinted(c: char, v: Val, t: string)
    requires IsCloser(c) && WellFormed(v)
    ensures Drop(c, Print(v, t)) == Print(DropIn(c, v), Drop(c, t))
    decreases v
  {
    match v
    case AtomTok(text) =>
      AtomHasNoComma(text);
      DropCopies(c, text, t);
    case StrTok(lex) =>
      DropPrintedString(c, lex, t);
    case Group(obj, body) =>
      DropPrintedBody(c, obj, body, t);
      DropCopies(c, [Opener(obj)], PrintBody(obj, body, t));
  }

  lemma {:induction false} AtomHasNoComma(a: string)
    requires AtomLen(a) == |a|
    ensures forall i :: 0 <= i < |a| ==> a[i] != ','
  {
    if a != "" {
      AtomHasNoComma(a[1..]);
      forall i | 0 <= i < |a| ensures a[i] != ',' {
        if i > 0 { assert a[i] == a[1..][i - 1]; }
      }
    }
  }

  lemma {:induction false} DropPrintedBody(c: char, obj: bool, b: Body, t: string)
    requires IsCloser(c) && WellFormedBody(obj, b)
    ensures Drop(c, PrintBody(obj, b, t)) == PrintBody(obj, DropInBody(c, obj, b), Drop(c, t))
    decreases b
  {
    match b
    case Blank(ws) =>
      DropCopies(c, ws, [Closer(obj)] + t);
      DropCopies(c, [Closer(obj)], t);
    case Full(list) =>
      DropPrintedItems(c, obj, list, t);
  }

  lemma {:induction false} DropPrintedItems(c: char, obj: bool, l: Items, t: string)
    requires IsCloser(c) && WellFormedItems(obj, l)
    ensures Drop(c, PrintItems(obj, l, t)) == PrintItems(obj, DropInItems(c, obj, l), Drop(c, t))
    decreases l
  {
    var r := PrintRest(obj, l.rest, t);
    DropCopies(c, l.ws, PrintLabel(l.key, Print(l.v, l.after + r)));
    DropPrintedLabel(c, obj, l.key, Print(l.v, l.after + r));
    DropPrinted(c, l.v, l.after + r);
    DropCopies(c, l.after, r);
    DropPrintedRest(c, obj, l.rest, t);
  }

  lemma {:induction false} DropPrintedRest(c: char, obj: bool, r: Rest, t: string)
    requires IsCloser(c) && WellFormedRest(obj, r)
    ensures Drop(c, PrintRest(obj, r, t)) == PrintRest(obj, DropInRest(c, obj, r), Drop(c, t))
    decreases r
  {
    match r
    case Done =>
      DropCopies(c, [Closer(obj)], t);
    case Trailing(ws) =>
      DropTrailing(c, obj, ws, t);
    case Next(list) =>
      SeparatorStays(c, obj, list, t);
      DropPrintedItems(c, obj, list, t);
  }

  lemma DropTrailing(c: char, obj: bool, ws: string, t: string)
    requires IsCloser(c) && forall i :: 0 <= i < |ws| ==> IsSpace(ws[i])
    ensures Drop(c, PrintRest(obj, Trailing(ws), t))
         == PrintRest(obj, DropInRest(c, obj, Trailing(ws)), Drop(c, t))
  {
    var x := [Closer(obj)] + t;
    assert ([','] + (ws + x))[1..] == ws + x;
    TrimLeftOver(ws, x);
    AllSkipped(ws);
    assert "" + x == x && x[1..] == t;
    if Closer(obj) != c {
      DropCopies(c, ws, x);
      DropCopies(c, [Closer(obj)], t);
    }
  }

  /** A comma in front of another entry is not followed by a closer. */
  lemma SeparatorStays(c: char, obj: bool, l: Items, t: string)
    requires IsCloser(c) && WellFormedItems(obj, l)
    ensures Drop(c, [','] + PrintItems(obj, l, t)) == [','] + Drop(c, PrintItems(obj, l, t))
  {
    var x := PrintItems(obj, l, t);
    assert ([','] + x)[1..] == x;
    var y := PrintLabel(l.key, Print(l.v, l.after + PrintRest(obj, l.rest, t)));
    LabelledStarts(obj, l.key, l.v, l.after + PrintRest(obj, l.rest, t));
    TrimLeftOver(l.ws, y);
    AllSkipped(l.ws);
    assert "" + y == y;
  }

  // ---- what a pass does to a string ----

  /** At `i`: a comma, any white space, and `c`. */
  predicate PatternAt(c: char, s: string, i: nat) {
    i < |s| && s[i] == ',' && CloserNext(c, s[i + 1..])
  }

  ghost predicate HasPattern(c: char, s: string) { exists i: nat :: PatternAt(c, s, i) }

  lemma PatternHeadTail(c: char, s: string)
    requires s != ""
    ensures HasPattern(c, s) <==> PatternAt(c, s, 0) || HasPattern(c, s[1..])
  {
    if HasPattern(c, s) && !PatternAt(c, s, 0) {
      var i: nat :| PatternAt(c, s, i);
      assert s[i + 1..] == s[1..][i..];
      assert PatternAt(c, s[1..], i - 1);
    }
    if HasPattern(c, s[1..]) {
      var i: nat :| PatternAt(c, s[1..], i);
      assert s[1..][i + 1..] == s[i + 2..];
      assert PatternAt(c, s, i + 1);
    }
  }

  /** A pass changes a text exactly if the pattern occurs in it, and then shortens it. */
  lemma {:induction false} DropChangesIff(c: char, s: string)
    requires IsCloser(c)
    ensures HasPattern(c, s) <==> Drop(c, s) != s
    ensures Drop(c, s) != s ==> |Drop(c, s)| < |s|
    decreases |s|
  {
    if s != "" {
      PatternHeadTail(c, s);
      if PatternAt(c, s, 0) {
        DropChangesIff(c, TrimLeft(s[1..])[1..]);
      } else {
        DropChangesIff(c, s[1..]);
        assert Drop(c, s)[1..] == Drop(c, s[1..]);
      }
    }
  }

  lemma {:induction false} TrimLeftDecodes(s: string)
    requires Decode(s).Some?
    ensures Decode(TrimLeft(s)).Some? && |Decode(TrimLeft(s)).value| <= |Decode(s).value|
  {
    if s != "" && IsSpace(s[0]) {
      DecodeTail(s);
      TrimLeftDecodes(s[1..]);
    }
  }

  lemma ItemHasNoComma(s: string)
    requires s != "" && ItemLen(s) > 1
    ensures forall i :: 0 <= i < ItemLen(s) ==> s[i] != ','
  {
  }

  /** A pass keeps a string body well formed; it spells fewer code units unless nothing changed. */
  lemma {:induction false} DropDecodes(c: char, s: string)
    requires IsCloser(c) && Decode(s).Some?
    ensures Decode(Drop(c, s)).Some?
    ensures |Decode(Drop(c, s)).value| <= |Decode(s).value|
    ensures Drop(c, s) != s ==> |Decode(Drop(c, s)).value| < |Decode(s).value|
    decreases |s|
  {
    if s != "" {
      DecodeTail(s);
      if PatternAt(c, s, 0) {
        TrimLeftDecodes(s[1..]);
        var u := TrimLeft(s[1..]);
        DecodeTail(u);
        DropDecodes(c, u[1..]);
        DecodePlain(c, Drop(c, u[1..]));
      } else {
        var n := ItemLen(s);
        var p := s[..n];
        assert p + s[n..] == s;
        DropItem(c, s);
        DropDecodes(c, s[n..]);
        ItemPrefix(s);
        DecodeItem(p, Drop(c, s[n..]));
        DecodeItem(p, s[n..]);
      }
    }
  }

  lemma ItemPrefix(s: string)
    requires s != "" && ItemLen(s) > 0
    ensures ItemLen(s[..ItemLen(s)]) == ItemLen(s)
  {
  }

  lemma DropItem(c: char, s: string)
    requires s != "" && ItemLen(s) > 0 && !PatternAt(c, s, 0)
    ensures Drop(c, s) == s[..ItemLen(s)] + Drop(c, s[ItemLen(s)..])
  {
    var n := ItemLen(s);
    assert s[..n] + s[n..] == s;
    if n > 1 {
      ItemHasNoComma(s);
      DropCopies(c, s[..n], s[n..]);
    } else {
      assert s[..1] == [s[0]];
    }
  }

  // ---- the repaired document ----

  function RepairLex(lex: string): string { Drop(']', Drop('}', lex)) }

  ghost predicate Clean(lex: string) { !HasPattern('}', lex) && !HasPattern(']', lex) }

  lemma LexKeptIff(lex: string)
    requires Decode(lex).Some?
    ensures Decode(RepairLex(lex)).Some?
    ensures Decode(RepairLex(lex)) == Decode(lex) <==> Clean(lex)
  {
    var l := Drop('}', lex);
    DropDecodes('}', lex);
    DropDecodes(']', l);
    DropChangesIff('}', lex);
    DropChangesIff(']', l);
  }

  function RepairLabel(l: Label): Label {
    if l.NoLabel? then l else l.(lex := RepairLex(l.lex))
  }

  /** The document after both passes: no trailing commas, every string body repaired. */
  function Repaired(v: Val): Val
    decreases v
  {
    match v
    case AtomTok(_) => v
    case StrTok(lex) => StrTok(RepairLex(lex))
    case Group(obj, body) => Group(obj, RepairedBody(body))
  }

  function RepairedBody(b: Body): Body
    decreases b
  {
    if b.Blank? then b else Full(RepairedItems(b.list))
  }

  function RepairedItems(l: Items): Items
    decreases l
  {
    Items(l.ws, RepairLabel(l.key), Repaired(l.v), l.after, RepairedRest(l.rest))
  }

  function RepairedRest(r: Rest): Rest
    decreases r
  {
    if r.Next? then Next(RepairedItems(r.list)) else Done
  }

  lemma {:induction false} TwoPasses(v: Val)
    ensures DropIn(']', DropIn('}', v)) == Repaired(v)
    decreases v
  {
    if v.Group? { TwoPassesBody(v.obj, v.body); }
  }

  lemma {:induction false} TwoPassesBody(obj: bool, b: Body)
    ensures DropInBody(']', obj, DropInBody('}', obj, b)) == RepairedBody(b)
    decreases b
  {
    if b.Full? { TwoPassesItems(obj, b.list); }
  }

  lemma {:induction false} TwoPassesItems(obj: bool, l: Items)
    ensures DropInItems(']', obj, DropInItems('}', obj, l)) == RepairedItems(l)
    decreases l
  {
    TwoPasses(l.v);
    TwoPassesRest(obj, l.rest);
  }

  lemma {:induction false} TwoPassesRest(obj: bool, r: Rest)
    ensures DropInRest(']', obj, DropInRest('}', obj, r)) == RepairedRest(r)
    decreases r
  {
    if r.Next? { TwoPassesItems(obj, r.list); }
  }

  lemma {:induction false} PassKeepsForm(c: char, v: Val)
    requires IsCloser(c) && WellFormed(v)
    ensures WellFormed(DropIn(c, v))
    decreases v
  {
    match v
    case AtomTok(_) =>
    case StrTok(lex) => DropDecodes(c, lex);
    case Group(obj, body) => PassKeepsBodyForm(c, obj, body);
  }

  lemma {:induction false} PassKeepsBodyForm(c: char, obj: bool, b: Body)
    requires IsCloser(c) && WellFormedBody(obj, b)
    ensures WellFormedBody(obj, DropInBody(c, obj, b))
    decreases b
  {
    if b.Full? { PassKeepsItemsForm(c, obj, b.list); }
  }

  lemma {:induction false} PassKeepsItemsForm(c: char, obj: bool, l: Items)
    requires IsCloser(c) && WellFormedItems(obj, l)
    ensures WellFormedItems(obj, DropInItems(c, obj, l))
    decreases l
  {
    if l.key.Label? { DropDecodes(c, l.key.lex); }
    PassKeepsForm(c, l.v);
    PassKeepsRestForm(c, obj, l.rest);
  }

  lemma {:induction false} PassKeepsRestForm(c: char, obj: bool, r: Rest)
    requires IsCloser(c) && WellFormedRest(obj, r)
    ensures WellFormedRest(obj, DropInRest(c, obj, r))
    decreases r
  {
    if r.Next? { PassKeepsItemsForm(c, obj, r.list); }
  }

  lemma {:induction false} RepairedIsStrict(v: Val)
    ensures Strict(Repaired(v))
    decreases v
  {
    if v.Group? && v.body.Full? { RepairedItemsAreStrict(v.body.list); }
  }

  lemma {:induction false} RepairedItemsAreStrict(l: Items)
    ensures StrictItems(RepairedItems(l))
    decreases l
  {
    RepairedIsStrict(l.v);
    if l.rest.Next? { RepairedItemsAreStrict(l.rest.list); }
  }

  // ---- when the meaning is kept ----

  /** No string of the document, name or value, contains the pattern. */
  ghost predicate AllClean(v: Val)
    decreases v
  {
    match v
    case AtomTok(_) => true
    case StrTok(lex) => Clean(lex)
    case Group(_, body) => AllCleanBody(body)
  }

  ghost predicate AllCleanBody(b: Body)
    decreases b
  {
    b.Full? ==> AllCleanItems(b.list)
  }

  ghost predicate AllCleanItems(l: Items)
    decreases l
  {
    (l.key.Label? ==> Clean(l.key.lex)) && AllClean(l.v) && AllCleanRest(l.rest)
  }

  ghost predicate AllCleanRest(r: Rest)
    decreases r
  {
    r.Next? ==> AllCleanItems(r.list)
  }

  lemma ConsEqual<T>(a: T, s: seq<T>, b: T, t: seq<T>)
    ensures [a] + s == [b] + t <==> a == b && s == t
  {
    if [a] + s == [b] + t {
      assert ([a] + s)[0] == ([b] + t)[0];
      assert ([a] + s)[1..] == s && ([b] + t)[1..] == t;
    }
  }

  lemma {:induction false} MeaningKeptIff(v: Val)
    requires WellFormed(v) && WellFormed(Repaired(v))
    ensures Meaning(Repaired(v)) == Meaning(v) <==> AllClean(v)
    decreases v
  {
    match v
    case AtomTok(_) =>
    case StrTok(lex) => LexKeptIff(lex);
    case Group(obj, body) => BodyKeptIff(obj, body);
  }

  lemma {:induction false} BodyKeptIff(obj: bool, b: Body)
    requires WellFormedBody(obj, b) && WellFormedBody(obj, RepairedBody(b))
    ensures BodyMeaning(obj, RepairedBody(b)) == BodyMeaning(obj, b) <==> AllCleanBody(b)
    decreases b
  {
    if b.Full? { ItemsKeptIff(obj, b.list); }
  }

  lemma {:induction false} ItemsKeptIff(obj: bool, l: Items)
    requires WellFormedItems(obj, l) && WellFormedItems(obj, RepairedItems(l))
    ensures ItemsMeaning(obj, RepairedItems(l)) == ItemsMeaning(obj, l) <==> AllCleanItems(l)
    decreases l
  {
    var k := RepairedItems(l);
    if l.key.Label? { LexKeptIff(l.key.lex); }
    MeaningKeptIff(l.v);
    RestKeptIff(obj, l.rest);
    ConsEqual(Entry(LabelMeaning(obj, k.key), Meaning(k.v)), RestMeaning(obj, k.rest),
              Entry(LabelMeaning(obj, l.key), Meaning(l.v)), RestMeaning(obj, l.rest));
  }

  lemma {:induction false} RestKeptIff(obj: bool, r: Rest)
    requires WellFormedRest(obj, r) && WellFormedRest(obj, RepairedRest(r))
    ensures RestMeaning(obj, RepairedRest(r)) == RestMeaning(obj, r) <==> AllCleanRest(r)
    decreases r
  {
    if r.Next? { ItemsKeptIff(obj, r.list); }
  }

  // ---- the document in its prose ----

  lemma {:induction false} PrintAppends(v: Val, t: string)
    ensures Print(v, t) == Print(v, "") + t
    decreases v
  {
    match v
    case AtomTok(text) => assert text + "" == text;
    case StrTok(lex) => StringAppends(lex, "", t);
    case Group(obj, body) => BodyAppends(obj, body, t);
  }

  lemma StringAppends(lex: string, a: string, t: string)
    ensures PrintString(lex, a + t) == PrintString(lex, a) + t
  {
  }

  lemma LabelAppends(l: Label, a: string, t: string)
    ensures PrintLabel(l, a + t) == PrintLabel(l, a) + t
  {
    if l.Label? {
      var x := l.before + ([':'] + (l.after + a));
      assert l.before + ([':'] + (l.after + (a + t))) == x + t;
      StringAppends(l.lex, x, t);
    }
  }

  predicate EndsWith(s: string, c: char) { s != "" && s[|s| - 1] == c }

  lemma EndsAppended(a: string, s: string, c: char)
    requires EndsWith(s, c)
    ensures EndsWith(a + s, c)
  {
  }

  lemma Regrouped(a: string, b: string, c: string)
    ensures a + (b + c) == (a + b) + c
  {
  }

  lemma {:induction false} BodyAppends(obj: bool, b: Body, t: string)
    ensures PrintBody(obj, b, t) == PrintBody(obj, b, "") + t && EndsWith(PrintBody(obj, b, ""), Closer(obj))
    decreases b
  {
    if b.Full? {
      ItemsAppend(obj, b.list, t);
    } else {
      BlankAppends(b.ws, Closer(obj), t);
    }
  }

  lemma BlankAppends(ws: string, c: char, t: string)
    ensures ws + ([c] + t) == (ws + ([c] + "")) + t && EndsWith(ws + ([c] + ""), c)
  {
    assert [c] + "" == [c];
  }

  lemma {:induction false} ItemsAppend(obj: bool, l: Items, t: string)
    ensures PrintItems(obj, l, t) == PrintItems(obj, l, "") + t && EndsWith(PrintItems(obj, l, ""), Closer(obj))
    decreases l
  {
    hide Print, PrintLabel, PrintRest, EndsWith, Closer;
    var r, c := PrintRest(obj, l.rest, ""), Closer(obj);
    var a, x := l.after + r, Print(l.v, "");
    RestAppends(obj, l.rest, t);
    Regrouped(l.after, r, t);
    PrintAppends(l.v, a + t);
    PrintAppends(l.v, a);
    LabelAppends(l.key, x, a + t);
    LabelAppends(l.key, x, a);
    ItemText(l.ws, PrintLabel(l.key, x), a, t, c, r, l.after);
  }

  lemma ItemText(ws: string, x: string, a: string, t: string, c: char, r: string, after: string)
    requires a == after + r && EndsWith(r, c)
    ensures ws + (x + (a + t)) == (ws + (x + a)) + t && EndsWith(ws + (x + a), c)
  {
    hide EndsWith;
    EndsAppended(after, r, c);
    EndsAppended(x, a, c);
    EndsAppended(ws, x + a, c);
    Regrouped(x, a, t);
    Regrouped(ws, x + a, t);
  }

  lemma {:induction false} RestAppends(obj: bool, r: Rest, t: string)
    ensures PrintRest(obj, r, t) == PrintRest(obj, r, "") + t && EndsWith(PrintRest(obj, r, ""), Closer(obj))
    decreases r
  {
    hide PrintItems, EndsWith, Closer;
    var c := Closer(obj);
    match r
    case Done =>
      BlankAppends("", c, t);
      assert "" + ([c] + t) == [c] + t && "" + ([c] + "") == [c] + "";
    case Trailing(ws) =>
      BlankAppends(ws, c, t);
      Regrouped([','], ws + ([c] + ""), t);
      EndsAppended([','], ws + ([c] + ""), c);
    case Next(list) =>
      ItemsAppend(obj, list, t);
      Regrouped([','], PrintItems(obj, list, ""), t);
      EndsAppended([','], PrintItems(obj, list, ""), c);
  }

  lemma DocumentEnds(v: Val)
    requires v.Group? && v.obj
    ensures var doc := Print(v, ""); |doc| > 1 && doc[0] == '{' && doc[|doc| - 1] == '}'
  {
    BodyAppends(v.obj, v.body, "");
  }

  /** The slice from the first `{` to the last `}` of the trimmed reply is the document. */
  lemma SliceIsDocument(pre: string, doc: string, post: string)
    requires |doc| > 1 && doc[0] == '{' && doc[|doc| - 1] == '}' && '{' !in pre && '}' !in post
    ensures Slice(pre + doc + post) == Some(doc)
  {
    var a, b := TrimAround(pre, doc, post);
    var p, q := pre[a..], post[..b];
    assert forall c :: c in p ==> c in pre;
    assert forall c :: c in q ==> c in post;
    BracesFound(p, doc, q);
  }

  lemma BracesFound(p: string, doc: string, q: string)
    requires |doc| > 1 && doc[0] == '{' && doc[|doc| - 1] == '}' && '{' !in p && '}' !in q
    ensures var raw := p + doc + q;
      && IndexOf(raw, '{') == Some(|p|) && LastIndexOf(raw, '}') == Some(|p| + |doc| - 1)
      && raw[|p|..|p| + |doc|] == doc
  {
    var raw := p + doc + q;
    assert raw == p + (['{'] + (doc[1..] + q));
    IndexOfPast(p, '{', doc[1..] + q);
    var d := doc[..|doc| - 1];
    assert raw == ((p + d) + ['}']) + q;
    LastIndexOfBefore(p + d, '}', q);
  }

  lemma RepairPrinted(v: Val)
    requires WellFormed(v)
    ensures WellFormed(Repaired(v)) && Repair(Print(v, "")) == Print(Repaired(v), "")
  {
    PassKeepsForm('}', v);
    PassKeepsForm(']', DropIn('}', v));
    RepairIsDrop(Print(v, ""));
    DropPrinted('}', v, "");
    DropPrinted(']', DropIn('}', v), "");
    TwoPasses(v);
  }

  lemma ExtractOf(pre: string, doc: string, post: string, tree: Json)
    requires |doc| > 1 && doc[0] == '{' && doc[|doc| - 1] == '}' && '{' !in pre && '}' !in post
    requires Parse(Repair(doc)) == Some(tree)
    ensures Extract(pre + doc + post) == Config(tree)
  {
    SliceIsDocument(pre, doc, post);
  }

  /** What the code makes of any object document in brace-free prose, trailing commas or not. */
  lemma ExtractGives(pre: string, v: Val, post: string)
    requires WellFormed(v) && v.Group? && v.obj && '{' !in pre && '}' !in post
    ensures WellFormed(Repaired(v)) && Extract(pre + Print(v, post)) == Config(Meaning(Repaired(v)))
  {
    hide Print, Repaired, Meaning, WellFormed, Strict, Extract, Repair, Parse;
    var doc := Print(v, "");
    RepairPrinted(v);
    RepairedIsStrict(v);
    ParsePrint(Repaired(v));
    PrintAppends(v, post);
    DocumentEnds(v);
    assert pre + (doc + post) == pre + doc + post;
    ExtractOf(pre, doc, post, Meaning(Repaired(v)));
  }

  /** The tree that was written is the tree that is read, whatever white space and single trailing
      commas were used, exactly if no string in it contains a comma-white-space-closer pattern. */
  lemma RepairPreservesMeaningIff(pre: string, v: Val, post: string)
    requires WellFormed(v) && v.Group? && v.obj && '{' !in pre && '}' !in post
    ensures Extract(pre + Print(v, post)) == Config(Meaning(v)) <==> AllClean(v)
  {
    ExtractGives(pre, v, post);
    MeaningKeptIff(v);
  }

  /** A reply is turned away unread if and only if it lacks one of the two braces. */
  lemma NoObjectIff(response: string)
    ensures Extract(response) == NoObject <==> '{' !in response || '}' !in response
  {
    hide IsSpace, Trim, Repair, Parse;
    var raw := Trim(response);
    BracesAreNoSpace();
    TrimKeeps(response, '{');
    TrimKeeps(response, '}');
    IndexOfIff(raw, '{');
    LastIndexOfIff(raw, '}');
  }

  lemma BracesAreNoSpace()
    ensures !IsSpace('{') && !IsSpace('}')
  {
  }

  function OneItem(name: string, lex: string): Items { Items("", Label(name, "", ""), StrTok(lex), "", Done) }

  /** `{"name":"lex"}` */
  function OneString(name: string, lex: string): Val { Group(true, Full(OneItem(name, lex))) }

  lemma OneStringMeans(name: string, lex: string)
    requires Decode(name).Some? && Decode(lex).Some?
    ensures WellFormed(OneString(name, lex)) && Strict(OneString(name, lex))
    ensures Meaning(OneString(name, lex)) == Node(true, [Entry(Decode(name).value, Str(Decode(lex).value))])
  {
    hide Decode;
    var item := OneItem(name, lex);
    assert WellFormed(item.v) && Strict(item.v) && WellFormedRest(true, item.rest) && StrictRest(item.rest);
    assert WellFormedItems(true, item) && StrictItems(item);
    assert RestMeaning(true, item.rest) == [] && Meaning(item.v) == Str(Decode(lex).value);
    assert ItemsMeaning(true, item) == [Entry(Decode(name).value, Str(Decode(lex).value))];
  }

  lemma OnePlainDecodes(c: char)
    requires c != '"' && c != '\\' && c >= ' '
    ensures Decode([c]) == Some(Units(c))
  {
    DecodePlain(c, "");
    assert [c] + "" == [c] && Units(c) + [] == Units(c);
  }

  lemma LettersDecode()
    ensures Decode("a") == Some([97]) && Decode("}") == Some([125]) && Decode(",}") == Some([44, 125])
  {
    hide Decode;
    OnePlainDecodes('a');
    OnePlainDecodes('}');
    DecodePlain(',', ['}']);
    assert "a" == ['a'] && "}" == ['}'] && ",}" == [','] + ['}'];
    assert Units(',') + Units('}') == [44, 125];
  }

  lemma LettersDropped()
    ensures RepairLex("a") == "a" && RepairLex(",}") == "}"
  {
    hide TrimLeft, Drop;
    OneKept('}', 'a');
    OneKept(']', 'a');
    OneKept(']', '}');
    DropStep('}', ",}");
    NoSpaces('}');
    assert ",}"[1..] == ['}'] && ['}'][1..] == "" && ['}'] + "" == ['}'];
    assert "a" == ['a'] && "}" == ['}'];
  }

  lemma OneKept(c: char, d: char)
    requires d != ','
    ensures Drop(c, [d]) == [d]
  {
    DropStep(c, [d]);
    assert [d][1..] == "";
  }

  lemma NoSpaces(c: char)
    requires !IsSpace(c)
    ensures TrimLeft([c]) == [c]
  {
  }

  lemma OneStringPrinted(name: string, lex: string)
    ensures Print(OneString(name, lex), "") == "{\"" + name + "\":\"" + lex + "\"}"
  {
    var item := OneItem(name, lex);
    assert PrintRest(true, Done, "") == "}";
    assert Print(item.v, "" + "}") == ['"'] + (lex + (['"'] + "}"));
    assert PrintItems(true, item, "") == "\"" + name + "\":\"" + lex + "\"}";
  }

  lemma OneStringRepaired(name: string, lex: string)
    ensures Repaired(OneString(name, lex)) == OneString(RepairLex(name), RepairLex(lex))
  {
    hide RepairLex;
    var item := OneItem(name, lex);
    assert RepairedRest(item.rest) == Done && Repaired(item.v) == StrTok(RepairLex(lex));
    assert RepairedItems(item) == OneItem(RepairLex(name), RepairLex(lex));
  }

  /** A reply it misreads: the object `{"a":",}"}` holds one string of two characters and comes back with one. */
  lemma CommaInStringIsLost()
    ensures Parse("{\"a\":\",}\"}") == Some(Node(true, [Entry([97], Str([44, 125]))]))
    ensures Extract("{\"a\":\",}\"}") == Config(Node(true, [Entry([97], Str([125]))]))
  {
    hide Decode, Parse, Extract, RepairLex, IsSpace, ParseValue, Print, Meaning, WellFormed, Strict;
    var name, v, reply := "a", OneString("a", ",}"), "{\"a\":\",}\"}";
    LettersDecode();
    LettersDropped();
    OneStringMeans(name, ",}");
    OneStringMeans(name, "}");
    OneStringPrinted(name, ",}");
    assert Print(v, "") == reply && "" + reply == reply;
    ParsePrint(v);
    ExtractGives("", v, "");
    OneStringRepaired(name, ",}");
  }
}
