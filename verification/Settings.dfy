/** A scanner for the two settings patterns of commands.js, `auto` and `risk`, that takes every run of white space whole
    and never backs up; on every text it reads what the patterns capture. */
module Settings {
  import opened Text
  import opened Regex
  import opened Commands

  // ---- the scanner ----

  const ON_OFF := ["on", "off"]
  const LEVELS := ["low", "med", "high"]

  /** Where the first of the words that stands at `e`, in any case, ends. */
  function WordEnd(ws: seq<string>, s: string, e: nat): (end: Option<nat>)
    requires e <= |s|
    ensures end.Some? ==> e <= end.value <= |s|
  {
    if ws == [] then None else if WordAt(ws[0], s, e) then Some(e + |ws[0]|) else WordEnd(ws[1..], s, e)
  }

  /** White space, and then one of the words up to a word boundary. */
  function ReadTail(ws: seq<string>, s: string, i: nat): Option<string>
    requires i <= |s|
  {
    var e := RunEnd(Space, s, i);
    var end := WordEnd(ws, s, e);
    if end.Some? && IsEdge(s, end.value) then Some(s[e..end.value]) else None
  }

  /** `w` behind a word boundary, an optional `opt`, and the tail. */
  function SettingAt(w: string, opt: string, ws: seq<string>, s: string, i: nat): Option<string>
    requires i <= |s|
  {
    if !IsEdge(s, i) || !WordAt(w, s, i) then None
    else ReadTail(ws, s, i + |w| + if opt != "" && WordAt(opt, s, i + |w|) then |opt| else 0)
  }

  function SettingsAt(w: string, opt: string, ws: seq<string>, s: string): (at: seq<Option<string>>)
    ensures |at| == |s| + 1 && forall i :: 0 <= i <= |s| ==> at[i] == SettingAt(w, opt, ws, s, i)
  {
    seq(|s| + 1, i requires 0 <= i <= |s| => SettingAt(w, opt, ws, s, i))
  }

  /** The leftmost `auto` or `autotrade` with its `on` or `off`. */
  function ScanAuto(s: string): Option<string> { Leftmost(SettingsAt("auto", "trade", ON_OFF, s), 0) }

  /** The leftmost `risk` with its level. */
  function ScanRisk(s: string): Option<string> { Leftmost(SettingsAt("risk", "", LEVELS, s), 0) }

  // ---- one of several words ----

  /** `r` reads exactly the first of the words that stands there. */
  ghost predicate Reads(r: Rx, s: string, ws: seq<string>) {
    forall e: nat, caps: Caps {:trigger Outcomes(r, s, e, caps)} :: e <= |s| ==>
      Outcomes(r, s, e, caps) == if WordEnd(ws, s, e).Some? then [Outcome(WordEnd(ws, s, e).value, caps)] else []
  }

  lemma WordReads(w: string, s: string)
    ensures Reads(Word(w), s, [w])
  {
    forall e: nat, caps: Caps | e <= |s|
      ensures Outcomes(Word(w), s, e, caps)
           == if WordEnd([w], s, e).Some? then [Outcome(WordEnd([w], s, e).value, caps)] else []
    {
      WordOutcomes(w, s, e, caps);
      OneWordEnd(w, s, e);
    }
  }

  lemma OneWordEnd(w: string, s: string, e: nat)
    requires e <= |s|
    ensures WordEnd([w], s, e) == if WordAt(w, s, e) then Some(e + |w|) else None
  {
    hide WordAt;
    assert [w][1..] == [];
  }

  /** `w` never stands where one of the others does. */
  ghost predicate Excludes(w: string, ws: seq<string>, s: string) {
    forall e: nat :: e <= |s| && WordAt(w, s, e) ==> WordEnd(ws, s, e) == None
  }

  lemma AltReads(w: string, r: Rx, s: string, ws: seq<string>)
    requires Reads(r, s, ws) && Excludes(w, ws, s)
    ensures Reads(Alt(Word(w), r), s, [w] + ws)
  {
    hide Word, WordAt, Outcomes, WordEnd;
    forall e: nat, caps: Caps | e <= |s|
      ensures Outcomes(Alt(Word(w), r), s, e, caps)
           == if WordEnd([w] + ws, s, e).Some? then [Outcome(WordEnd([w] + ws, s, e).value, caps)] else []
    {
      AltOutcomes(Word(w), r, s, e, caps);
      WordOutcomes(w, s, e, caps);
      WordEndNext(w, ws, s, e);
    }
  }

  lemma WordEndNext(w: string, ws: seq<string>, s: string, e: nat)
    requires e <= |s|
    ensures WordEnd([w] + ws, s, e) == if WordAt(w, s, e) then Some(e + |w|) else WordEnd(ws, s, e)
  {
    hide WordAt;
    assert ([w] + ws)[0] == w && ([w] + ws)[1..] == ws;
  }

  /** Two words that differ in a letter never stand at the same place. */
  lemma Differ(v: string, w: string, k: nat, s: string, e: nat)
    requires e <= |s| && k < |v| && k < |w| && Lower(v[k]) != Lower(w[k]) && WordAt(v, s, e)
    ensures !WordAt(w, s, e)
  {
    assert Lower(s[e + k]) == Lower(v[k]);
  }

  // ---- the tail ----

  /** `\s*(...)\b` */
  function SettingTail(words: Rx): Rx { Cat(Rep(Space, 0, Unbounded), Cat(Group(1, words), WordEdge)) }

  predicate Lettered(ws: seq<string>) { forall k :: 0 <= k < |ws| ==> ws[k] != "" && IsAlnum(ws[k][0]) }

  lemma {:induction false} NoWordAtSpace(ws: seq<string>, s: string, e: nat)
    requires e < |s| && IsSpace(s[e]) && Lettered(ws)
    ensures WordEnd(ws, s, e) == None
  {
    if ws != [] {
      assert e + |ws[0]| <= |s| ==> Lower(s[e + 0]) != Lower(ws[0][0]);
      NoWordAtSpace(ws[1..], s, e);
    }
  }

  /** The group and the boundary behind it. */
  lemma GroupReads(words: Rx, ws: seq<string>, s: string, e: nat, caps: Caps)
    requires e <= |s| && Reads(words, s, ws)
    ensures var end := WordEnd(ws, s, e);
      Outcomes(Cat(Group(1, words), WordEdge), s, e, caps)
      == if end.Some? && IsEdge(s, end.value) then [Outcome(end.value, caps[1 := s[e..end.value]])] else []
  {
    var end, os := WordEnd(ws, s, e), Outcomes(Group(1, words), s, e, caps);
    assert Outcomes(words, s, e, caps) == if end.Some? then [Outcome(end.value, caps)] else [];
    hide WordEnd, IsEdge;
    if end.Some? {
      assert os == [Outcome(end.value, caps[1 := s[e..end.value]])];
      ThenFirst(os, WordEdge, s, e);
    }
  }

  lemma GroupRejects(words: Rx, ws: seq<string>, s: string)
    requires Reads(words, s, ws) && Lettered(ws)
    ensures Rejects(Cat(Group(1, words), WordEdge), Space, s)
  {
    hide Reads, Lettered, WordEnd, Outcomes;
    forall e: nat, caps: Caps | e < |s| && Space(s[e])
      ensures Outcomes(Cat(Group(1, words), WordEdge), s, e, caps) == []
    {
      NoWordAtSpace(ws, s, e);
      GroupReads(words, ws, s, e, caps);
    }
  }

  /** What the tail pattern does is what the scanner reads. */
  lemma TailReads(words: Rx, ws: seq<string>, s: string, i: nat)
    requires i <= |s| && Reads(words, s, ws) && Lettered(ws)
    ensures var e := RunEnd(Space, s, i);
      var end := WordEnd(ws, s, e);
      Outcomes(SettingTail(words), s, i, map[])
      == if ReadTail(ws, s, i).Some? then [Outcome(end.value, map[1 := s[e..end.value]])] else []
  {
    hide Reads, Lettered, WordEnd, Outcomes, RunEnd, Rejects, IsEdge;
    var e := RunEnd(Space, s, i);
    GroupRejects(words, ws, s);
    GreedyCommits(Space, 0, Unbounded, Cat(Group(1, words), WordEdge), s, i, map[]);
    GroupReads(words, ws, s, e, map[]);
  }

  // ---- the whole patterns ----

  /** What a match has captured. */
  function Captured(m: Option<Found>): Option<string> { if m.Some? then Some(Cap(m, 1)) else None }

  function CapturedFirst(os: seq<Outcome>): Option<string> {
    if os == [] then None else Some(if 1 in os[0].caps then os[0].caps[1] else "")
  }

  lemma TailCaptured(words: Rx, ws: seq<string>, s: string, i: nat)
    requires i <= |s| && Reads(words, s, ws) && Lettered(ws)
    ensures CapturedFirst(Outcomes(SettingTail(words), s, i, map[])) == ReadTail(ws, s, i)
    ensures ReadTail(ws, s, i) == None ==> Outcomes(SettingTail(words), s, i, map[]) == []
  {
    hide Reads, Lettered, WordEnd, Outcomes, RunEnd, IsEdge;
    TailReads(words, ws, s, i);
  }

  /** An expression behind a word boundary and a word. */
  lemma Headed(w: string, rest: Rx, s: string, i: nat)
    requires i <= |s|
    ensures Outcomes(Cat(WordEdge, Cat(Word(w), rest)), s, i, map[])
         == if IsEdge(s, i) && WordAt(w, s, i) then Outcomes(rest, s, i + |w|, map[]) else []
  {
    hide Word, Outcomes, IsEdge;
    WordOutcomes(w, s, i, map[]);
    EdgeOutcomes(s, i);
    SingleThen(Word(w), rest, s, i, Outcomes(Word(w), s, i, map[]));
    SingleThen(WordEdge, Cat(Word(w), rest), s, i, Outcomes(WordEdge, s, i, map[]));
  }

  /** Nothing is read where the optional word stands: it is no white space and begins differently. */
  lemma NothingInstead(opt: string, ws: seq<string>, s: string, i: nat)
    requires i <= |s| && opt != "" && IsAlnum(opt[0]) && WordAt(opt, s, i) && Lettered(ws)
    requires forall k :: 0 <= k < |ws| ==> Lower(ws[k][0]) != Lower(opt[0])
    ensures ReadTail(ws, s, i) == None
  {
    assert Lower(s[i + 0]) == Lower(opt[0]);
    assert RunEnd(Space, s, i) == i;
    NoneBegin(opt, ws, s, i);
  }

  lemma {:induction false} NoneBegin(opt: string, ws: seq<string>, s: string, i: nat)
    requires i <= |s| && opt != "" && WordAt(opt, s, i) && Lettered(ws)
    requires forall k :: 0 <= k < |ws| ==> Lower(ws[k][0]) != Lower(opt[0])
    ensures WordEnd(ws, s, i) == None
  {
    if ws != [] {
      Differ(opt, ws[0], 0, s, i);
      NoneBegin(opt, ws[1..], s, i);
    }
  }

  /** Behind the head: the optional word is taken if it is there. */
  lemma OptionalCaptured(opt: string, words: Rx, ws: seq<string>, s: string, i: nat)
    requires i <= |s| && Reads(words, s, ws) && Lettered(ws) && opt != "" && IsAlnum(opt[0])
    requires forall k :: 0 <= k < |ws| ==> Lower(ws[k][0]) != Lower(opt[0])
    ensures CapturedFirst(Outcomes(Cat(Optional(Word(opt)), SettingTail(words)), s, i, map[]))
         == ReadTail(ws, s, i + if WordAt(opt, s, i) then |opt| else 0)
  {
    hide Reads, Outcomes, ReadTail, SettingTail, Word, Optional;
    var tail := SettingTail(words);
    WordOutcomes(opt, s, i, map[]);
    OptionalOutcomes(Word(opt), s, i);
    TailCaptured(words, ws, s, i);
    if WordAt(opt, s, i) {
      NothingInstead(opt, ws, s, i);
      TailCaptured(words, ws, s, i + |opt|);
      CatTwo(Optional(Word(opt)), tail, s, i, Outcome(i + |opt|, map[]), Outcome(i, map[]));
    } else {
      CatOne(Optional(Word(opt)), tail, s, i, Outcome(i, map[]));
    }
  }

  lemma FirstCaptured(r: Rx, s: string, i: nat)
    requires i <= |s|
    ensures Captured(First(r, s, i)) == CapturedFirst(Outcomes(r, s, i, map[]))
  {
    hide Outcomes;
  }

  lemma {:induction false} LeftmostCaptured(found: seq<Option<Found>>, at: seq<Option<string>>, i: nat)
    requires |found| == |at| && i <= |at| && forall j :: 0 <= j < |at| ==> Captured(found[j]) == at[j]
    ensures Captured(Leftmost(found, i)) == Leftmost(at, i)
    decreases |at| - i
  {
    if i < |at| { LeftmostCaptured(found, at, i + 1); }
  }

  lemma ReadEverywhere(r: Rx, s: string, at: seq<Option<string>>)
    requires |at| == |s| + 1 && forall i: nat :: i <= |s| ==> Captured(First(r, s, i)) == at[i]
    ensures Captured(Exec(r, s)) == Leftmost(at, 0)
  {
    hide First;
    LeftmostCaptured(Firsts(r, s), at, 0);
  }

  lemma AutoLike(w: string, opt: string, words: Rx, ws: seq<string>, s: string)
    requires Reads(words, s, ws) && Lettered(ws) && opt != "" && IsAlnum(opt[0])
    requires forall k :: 0 <= k < |ws| ==> Lower(ws[k][0]) != Lower(opt[0])
    ensures var r := Cat(WordEdge, Cat(Word(w), Cat(Optional(Word(opt)), SettingTail(words))));
      Captured(Exec(r, s)) == Leftmost(SettingsAt(w, opt, ws, s), 0)
  {
    hide Reads, Outcomes, ReadTail, SettingTail, Word, Optional, First, Exec, Lettered, IsEdge;
    var rest := Cat(Optional(Word(opt)), SettingTail(words));
    var r := Cat(WordEdge, Cat(Word(w), rest));
    forall i: nat | i <= |s| ensures Captured(First(r, s, i)) == SettingAt(w, opt, ws, s, i) {
      FirstCaptured(r, s, i);
      Headed(w, rest, s, i);
      if IsEdge(s, i) && WordAt(w, s, i) { OptionalCaptured(opt, words, ws, s, i + |w|); }
    }
    ReadEverywhere(r, s, SettingsAt(w, opt, ws, s));
  }

  lemma RiskLike(w: string, words: Rx, ws: seq<string>, s: string)
    requires Reads(words, s, ws) && Lettered(ws)
    ensures var r := Cat(WordEdge, Cat(Word(w), SettingTail(words)));
      Captured(Exec(r, s)) == Leftmost(SettingsAt(w, "", ws, s), 0)
  {
    hide Reads, Outcomes, ReadTail, SettingTail, Word, First, Exec, Lettered, IsEdge;
    var r := Cat(WordEdge, Cat(Word(w), SettingTail(words)));
    forall i: nat | i <= |s| ensures Captured(First(r, s, i)) == SettingAt(w, "", ws, s, i) {
      FirstCaptured(r, s, i);
      Headed(w, SettingTail(words), s, i);
      if IsEdge(s, i) && WordAt(w, s, i) { TailCaptured(words, ws, s, i + |w|); }
    }
    ReadEverywhere(r, s, SettingsAt(w, "", ws, s));
  }

  const AUTO_WORDS := Alt(Word("on"), Word("off"))
  const RISK_WORDS := Alt(Word("low"), Alt(Word("med"), Word("high")))

  lemma AutoWordsRead(s: string)
    ensures Reads(AUTO_WORDS, s, ON_OFF)
  {
    hide Reads, Word;
    var on, off := "on", "off";
    WordReads(off, s);
    forall e: nat | e <= |s| && WordAt(on, s, e) ensures WordEnd([off], s, e) == None {
      Differ(on, off, 1, s, e);
      OneWordEnd(off, s, e);
    }
    AltReads(on, Word(off), s, [off]);
    assert [on] + [off] == ON_OFF;
  }

  lemma RiskWordsRead(s: string)
    ensures Reads(RISK_WORDS, s, LEVELS)
  {
    hide Reads, Word;
    var low, med, high := "low", "med", "high";
    WordReads(high, s);
    forall e: nat | e <= |s| && WordAt(med, s, e) ensures WordEnd([high], s, e) == None {
      Differ(med, high, 0, s, e);
      OneWordEnd(high, s, e);
    }
    AltReads(med, Word(high), s, [high]);
    forall e: nat | e <= |s| && WordAt(low, s, e) ensures WordEnd([med] + [high], s, e) == None {
      Differ(low, med, 0, s, e);
      Differ(low, high, 0, s, e);
      OneWordEnd(high, s, e);
      assert ([med] + [high])[1..] == [high];
    }
    AltReads(low, Alt(Word(med), Word(high)), s, [med] + [high]);
    assert [low] + ([med] + [high]) == LEVELS;
  }

  /** On every text the scanner reads what the leftmost match of the pattern captures. */
  lemma ScannerReadsSettings(s: string)
    ensures Captured(Exec(AUTO_RX, s)) == ScanAuto(s)
    ensures Captured(Exec(RISK_RX, s)) == ScanRisk(s)
  {
    hide Reads, Word, Exec, Captured;
    AutoWordsRead(s);
    RiskWordsRead(s);
    AutoLike("auto", "trade", AUTO_WORDS, ON_OFF, s);
    RiskLike("risk", RISK_WORDS, LEVELS, s);
  }
}
