/** The text-command recognisers of commands.js: the patterns, the precedence chain of
    `handleMessage`, and a scanner that never backtracks. */
module Commands {
  import opened Text
  import opened Regex

  // ---- the patterns, as written ----

  const SPACES := Rep(Space, 1, Unbounded)
  const MINT := Group(1, Rep(Alnum, 32, AtMost(44)))
  const AMOUNT := Group(2, Rep(DigitDot, 1, Unbounded))
  const TRADE_TAIL := Cat(SPACES, Cat(MINT, Cat(SPACES, AMOUNT)))

  /** `(?:\/w|w)\s+([A-Za-z0-9]{32,44})\s+([\d.]+)` */
  function TradeRx(w: string): Rx { Cat(Alt(Word("/" + w), Word(w)), TRADE_TAIL) }

  /** The same without the slash alternative. */
  function PlainTradeRx(w: string): Rx { Cat(Word(w), TRADE_TAIL) }

  const BUY := "buy"
  const SELL := "sell"

  const DEP_RX := Bounded(Group(1, Alt(Word("deposit"), Word("wallet"))))
  const BAL_RX := Bounded(Word("balance"))
  const PORT_RX := Bounded(Alt(Word("holdings"), Alt(Word("portfolio"), Word("how much i hold"))))
  const PRICE_RX := Bounded(Alt(Cat(Word("sol"), Cat(Optional(Word("ana")), Word(" price"))), Word("price of solana")))
  const AUTO_RX := Cat(WordEdge, Cat(Word("auto"), Cat(Optional(Word("trade")),
                     Cat(Rep(Space, 0, Unbounded), Cat(Group(1, Alt(Word("on"), Word("off"))), WordEdge)))))
  const RISK_RX := Cat(WordEdge, Cat(Word("risk"),
                     Cat(Rep(Space, 0, Unbounded),
                       Cat(Group(1, Alt(Word("low"), Alt(Word("med"), Word("high")))), WordEdge))))

  // ---- the precedence chain ----

  datatype Cmd =
    | Buy(mint: string, amount: string)
    | Sell(mint: string, amount: string)
    | Deposit | Balance | Portfolio | Price
    | Auto(val: string) | Risk(val: string)
    | NoCmd

  function Cap(m: Option<Found>, n: nat): string {
    if m.Some? && n in m.value.caps then m.value.caps[n] else ""
  }

  /** Removes every mention of the agent and trims; with no handle configured the text is kept. */
  function StripMention(handle: string, txt: string): string {
    if handle == "" then txt else Trim(ReplaceAll(Word("@" + handle), txt, 0, ""))
  }

  /** The first pattern of the chain that matches decides; `risk` is looked at after `auto` and wins. */
  function Classify(handle: string, txt: string): Cmd {
    var clean := StripMention(handle, txt);
    var buy, sell := Exec(TradeRx(BUY), clean), Exec(TradeRx(SELL), clean);
    if buy.Some? then Buy(Cap(buy, 1), Cap(buy, 2))
    else if sell.Some? then Sell(Cap(sell, 1), Cap(sell, 2))
    else if Test(DEP_RX, clean) then Deposit
    else if Test(BAL_RX, clean) then Balance
    else if Test(PORT_RX, clean) then Portfolio
    else if Test(PRICE_RX, clean) then Price
    else Setting(clean)
  }

  function Setting(clean: string): Cmd {
    var a, b := Exec(AUTO_RX, clean), Exec(RISK_RX, clean);
    if b.Some? then Risk(Cap(b, 1)) else if a.Some? then Auto(Cap(a, 1)) else NoCmd
  }

  // ---- the scanner ----

  datatype Trade = Trade(mint: string, amount: string)

  /** Reads spaces, a mint of 32 to 44 characters, spaces and an amount; each run is taken whole. */
  function ScanTail(s: string, i: nat): (t: Option<Trade>)
    requires i <= |s|
  {
    var m0 := RunEnd(Space, s, i);
    var m1 := RunEnd(Alnum, s, m0);
    var a0 := RunEnd(Space, s, m1);
    var a1 := RunEnd(DigitDot, s, a0);
    if i < m0 && 32 <= m1 - m0 <= 44 && m1 < a0 && a0 < a1 then Some(Trade(s[m0..m1], s[a0..a1])) else None
  }

  /** Where a head that matches at `i` ends: with `slash` the slashed form is tried first. */
  function HeadEnd(w: string, s: string, i: nat, slash: bool): (e: Option<nat>)
    requires i <= |s|
    ensures e.Some? ==> e.value <= |s|
  {
    if slash && WordAt("/" + w, s, i) then Some(i + 1 + |w|)
    else if WordAt(w, s, i) then Some(i + |w|) else None
  }

  /** What is read at one position: a head and the tail behind it. */
  function TradeAt(w: string, s: string, i: nat, slash: bool): Option<Trade>
    requires i <= |s|
  {
    var e := HeadEnd(w, s, i, slash);
    if e.Some? then ScanTail(s, e.value) else None
  }

  function Readings(w: string, s: string, slash: bool): (at: seq<Option<Trade>>)
    ensures |at| == |s| + 1 && forall i :: 0 <= i <= |s| ==> at[i] == TradeAt(w, s, i, slash)
  {
    seq(|s| + 1, i requires 0 <= i <= |s| => TradeAt(w, s, i, slash))
  }

  /** The leftmost occurrence of `w`, without a slash, that a trade tail follows. */
  function Scan(w: string, s: string): (t: Option<Trade>) { Leftmost(Readings(w, s, false), 0) }

  function CapturedTrade(m: Option<Found>): Option<Trade> {
    if m.Some? then Some(Trade(Cap(m, 1), Cap(m, 2))) else None
  }

  // ---- scanner refines pattern ----

  lemma AmountRejectsSpace(s: string)
    ensures Rejects(AMOUNT, Space, s)
  {
    forall e: nat, caps: Caps | e < |s| && Space(s[e]) ensures Outcomes(AMOUNT, s, e, caps) == [] {
      RepEndsCommitted(DigitDot, 1, Unbounded, s, e);
      assert RepEnds(DigitDot, 1, Unbounded, s, e) == [];
      assert Outcomes(Rep(DigitDot, 1, Unbounded), s, e, caps) == [];
    }
  }

  lemma SpacesThenRejects(b: Rx, s: string)
    ensures Rejects(Cat(SPACES, b), Alnum, s)
  {
    forall e: nat, caps: Caps | e < |s| && Alnum(s[e]) ensures Outcomes(Cat(SPACES, b), s, e, caps) == [] {
      assert RepEnds(Space, 1, Unbounded, s, e) == [];
      assert Outcomes(SPACES, s, e, caps) == [];
    }
  }

  lemma MintThenRejects(b: Rx, s: string)
    ensures Rejects(Cat(MINT, b), Space, s)
  {
    forall e: nat, caps: Caps | e < |s| && Space(s[e]) ensures Outcomes(Cat(MINT, b), s, e, caps) == [] {
      assert RepEnds(Alnum, 32, AtMost(44), s, e) == [];
      assert Outcomes(Rep(Alnum, 32, AtMost(44)), s, e, caps) == [];
      assert Outcomes(MINT, s, e, caps) == [];
    }
  }

  lemma AmountOutcomes(s: string, i: nat, caps: Caps)
    requires i <= |s|
    ensures var os, e := Outcomes(AMOUNT, s, i, caps), RunEnd(DigitDot, s, i);
      && (os != [] <==> i < e)
      && (os != [] ==> os[0].caps == caps[2 := s[i..e]])
  {
    RepEndsCommitted(DigitDot, 1, Unbounded, s, i);
  }

  lemma BeforeAmount(s: string, i: nat, caps: Caps)
    requires i <= |s|
    ensures var os, e := Outcomes(Cat(SPACES, AMOUNT), s, i, caps), RunEnd(Space, s, i);
      os == if i < e then Outcomes(AMOUNT, s, e, caps) else []
  {
    hide Outcomes, RunEnd, Rejects;
    AmountRejectsSpace(s);
    var amount := AMOUNT;
    GreedyCommits(Space, 1, Unbounded, amount, s, i, caps);
  }

  lemma BeforeMint(b: Rx, s: string, i: nat, caps: Caps)
    requires i <= |s| && Rejects(b, Alnum, s)
    ensures var os, m0 := Outcomes(Cat(SPACES, Cat(MINT, b)), s, i, caps), RunEnd(Space, s, i);
      var m1 := RunEnd(Alnum, s, m0);
      os == if i < m0 && 32 <= m1 - m0 <= 44 then Outcomes(b, s, m1, caps[1 := s[m0..m1]]) else []
  {
    hide Outcomes, RunEnd, Rejects;
    MintThenRejects(b, s);
    GreedyCommits(Space, 1, Unbounded, Cat(MINT, b), s, i, caps);
    GreedyCaptureCommits(1, Alnum, 32, AtMost(44), b, s, RunEnd(Space, s, i), caps);
  }

  /** What the backtracking engine does with the tail is what the scanner reads. */
  lemma TailOutcomes(s: string, i: nat)
    requires i <= |s|
    ensures CapturedTrade(First(TRADE_TAIL, s, i)) == ScanTail(s, i)
  {
    hide Outcomes, RunEnd, Rejects;
    var b := Cat(SPACES, AMOUNT);
    SpacesThenRejects(AMOUNT, s);
    BeforeMint(b, s, i, map[]);
    var m0 := RunEnd(Space, s, i);
    var m1 := RunEnd(Alnum, s, m0);
    var caps: Caps := map[][1 := s[m0..m1]];
    BeforeAmount(s, m1, caps);
    AmountOutcomes(s, RunEnd(Space, s, m1), caps);
  }

  function AtMostOne(e: Option<nat>): seq<Outcome> {
    if e.Some? then [Outcome(e.value, map[])] else []
  }

  lemma HeadOutcomes(w: string, s: string, i: nat)
    requires i <= |s| && w != "" && Lower(w[0]) != '/'
    ensures Outcomes(Alt(Word("/" + w), Word(w)), s, i, map[]) == AtMostOne(HeadEnd(w, s, i, true))
    ensures Outcomes(Word(w), s, i, map[]) == AtMostOne(HeadEnd(w, s, i, false))
  {
    hide Word, WordAt, Outcomes;
    WordOutcomes("/" + w, s, i, map[]);
    WordOutcomes(w, s, i, map[]);
    AltOutcomes(Word("/" + w), Word(w), s, i, map[]);
    SlashedWord(w, s, i);
    assert |"/" + w| == 1 + |w|;
  }

  lemma SlashedWord(w: string, s: string, i: nat)
    requires i <= |s| && w != "" && Lower(w[0]) != '/'
    ensures WordAt("/" + w, s, i) ==> !WordAt(w, s, i) && WordAt(w, s, i + 1)
  {
    if WordAt("/" + w, s, i) {
      assert Lower(s[i + 0]) == Lower(("/" + w)[0]);
      forall j | 0 <= j < |w| ensures Lower(s[i + 1 + j]) == Lower(w[j]) {
        assert Lower(s[i + (1 + j)]) == Lower(("/" + w)[1 + j]);
      }
    }
  }

  lemma {:induction false} LeftmostCaptured(found: seq<Option<Found>>, at: seq<Option<Trade>>, i: nat)
    requires |found| == |at| && i <= |at|
    requires forall j :: 0 <= j < |at| ==> CapturedTrade(found[j]) == at[j]
    ensures CapturedTrade(Leftmost(found, i)) == Leftmost(at, i)
    decreases |at| - i
  {
    if i < |at| { LeftmostCaptured(found, at, i + 1); }
  }

  predicate OneEarly(early: seq<Option<Trade>>, at: seq<Option<Trade>>, j: nat)
    requires j < |early| == |at|
  {
    early[j] == at[j] || (at[j] == None && j + 1 < |at| && early[j] == at[j + 1])
  }

  /** Reading something one position early changes no leftmost reading. */
  lemma {:induction false} EarlyReading(early: seq<Option<Trade>>, at: seq<Option<Trade>>, i: nat)
    requires |early| == |at| && i <= |at|
    requires forall j: nat :: j < |at| ==> OneEarly(early, at, j)
    ensures Leftmost(early, i) == Leftmost(at, i)
    decreases |at| - i
  {
    if i < |at| {
      assert OneEarly(early, at, i);
      EarlyReading(early, at, i + 1);
    }
  }

  ghost predicate TailReads(tail: Rx, s: string, e: nat) {
    e <= |s| && CapturedTrade(First(tail, s, e)) == ScanTail(s, e)
  }

  lemma HeadThenTail(head: Rx, tail: Rx, s: string, j: nat, e: Option<nat>)
    requires j <= |s| && Outcomes(head, s, j, map[]) == AtMostOne(e)
    requires e.Some? ==> TailReads(tail, s, e.value)
    ensures CapturedTrade(First(Cat(head, tail), s, j)) == if e.Some? then ScanTail(s, e.value) else None
  {
    SingleThen(head, tail, s, j, AtMostOne(e));
  }

  lemma ReadEverywhere(w: string, r: Rx, s: string, slash: bool)
    requires forall j: nat :: j <= |s| ==> CapturedTrade(First(r, s, j)) == TradeAt(w, s, j, slash)
    ensures CapturedTrade(Exec(r, s)) == Leftmost(Readings(w, s, slash), 0)
  {
    LeftmostCaptured(Firsts(r, s), Readings(w, s, slash), 0);
  }

  /** The slash alternative only reads one position earlier. */
  lemma SlashReadsEarly(w: string, s: string)
    requires w != "" && Lower(w[0]) != '/'
    ensures Leftmost(Readings(w, s, true), 0) == Leftmost(Readings(w, s, false), 0)
  {
    var early, at := Readings(w, s, true), Readings(w, s, false);
    forall j: nat | j < |at| ensures OneEarly(early, at, j) {
      SlashedWord(w, s, j);
    }
    EarlyReading(early, at, 0);
  }

  lemma ScannerRefines(w: string, s: string)
    requires w != "" && Lower(w[0]) != '/'
    ensures CapturedTrade(Exec(TradeRx(w), s)) == Scan(w, s)
    ensures CapturedTrade(Exec(PlainTradeRx(w), s)) == Scan(w, s)
  {
    var slashed, plain, tail := Alt(Word("/" + w), Word(w)), Word(w), TRADE_TAIL;
    forall e: nat | e <= |s| ensures TailReads(tail, s, e) { TailOutcomes(s, e); }
    forall j: nat | j <= |s|
      ensures CapturedTrade(First(Cat(slashed, tail), s, j)) == TradeAt(w, s, j, true)
      ensures CapturedTrade(First(Cat(plain, tail), s, j)) == TradeAt(w, s, j, false)
    {
      HeadOutcomes(w, s, j);
      HeadThenTail(slashed, tail, s, j, HeadEnd(w, s, j, true));
      HeadThenTail(plain, tail, s, j, HeadEnd(w, s, j, false));
    }
    ReadEverywhere(w, TradeRx(w), s, true);
    ReadEverywhere(w, PlainTradeRx(w), s, false);
    SlashReadsEarly(w, s);
  }

  /** On every text the scanner returns the captures of the backtracking pattern, and so does the
      pattern without its slash alternative. */
  lemma ScannerRefinesPattern(s: string)
    ensures CapturedTrade(Exec(TradeRx(BUY), s)) == Scan(BUY, s)
    ensures CapturedTrade(Exec(TradeRx(SELL), s)) == Scan(SELL, s)
    ensures CapturedTrade(Exec(TradeRx(BUY), s)) == CapturedTrade(Exec(PlainTradeRx(BUY), s))
    ensures CapturedTrade(Exec(TradeRx(SELL), s)) == CapturedTrade(Exec(PlainTradeRx(SELL), s))
  {
    ScannerRefines(BUY, s);
    ScannerRefines(SELL, s);
  }

  // ---- printed commands come back ----

  predicate IsMint(m: string) { 32 <= |m| <= 44 && forall j :: 0 <= j < |m| ==> IsAlnum(m[j]) }

  predicate IsAmount(a: string) { a != "" && forall j :: 0 <= j < |a| ==> DigitDot(a[j]) }

  function Print(w: string, m: string, a: string): string { w + " " + m + " " + a }

  lemma RunEndIs(k: Class, s: string, i: nat, e: nat)
    requires i <= e <= |s|
    requires forall j :: i <= j < e ==> k(s[j])
    requires e < |s| ==> !k(s[e])
    ensures RunEnd(k, s, i) == e
  {
  }

  /** Where the parts of a printed command lie. */
  lemma Layout(w: string, m: string, a: string)
    requires IsMint(m) && IsAmount(a)
    ensures var s, m0, m1 := Print(w, m, a), |w| + 1, |w| + 1 + |m|;
      && |s| == m1 + 1 + |a| && s[|w|] == s[m1] == ' '
      && (forall j :: 0 <= j < |w| ==> s[j] == w[j])
      && (forall j :: m0 <= j < m1 ==> IsAlnum(s[j]))
      && (forall j :: m1 + 1 <= j < |s| ==> DigitDot(s[j]))
      && s[m0..m1] == m && s[m1 + 1..] == a
  {
    var s, m0, m1 := Print(w, m, a), |w| + 1, |w| + 1 + |m|;
    assert s[m0..m1] == m && s[m1 + 1..] == a;
    forall j | m0 <= j < m1 ensures IsAlnum(s[j]) { assert s[j] == s[m0..m1][j - m0]; }
    forall j | m1 + 1 <= j < |s| ensures DigitDot(s[j]) { assert s[j] == s[m1 + 1..][j - (m1 + 1)]; }
  }

  /** The tail read behind a word is the mint and the amount, whole. */
  lemma PrintedTail(w: string, m: string, a: string)
    requires IsMint(m) && IsAmount(a)
    ensures ScanTail(Print(w, m, a), |w|) == Some(Trade(m, a))
  {
    hide Print, RunEnd;
    var s, m0, m1 := Print(w, m, a), |w| + 1, |w| + 1 + |m|;
    Layout(w, m, a);
    PrintedRuns(s, |w|, m0, m1);
    assert s[m1 + 1..|s|] == a;
  }

  /** Blanks, alphanumerics, a blank, digits and dots: the runs of a printed tail. */
  lemma PrintedRuns(s: string, i: nat, m0: nat, m1: nat)
    requires m0 == i + 1 && m0 < m1 < |s| - 1 && s[i] == s[m1] == ' '
    requires forall j :: m0 <= j < m1 ==> IsAlnum(s[j])
    requires forall j :: m1 + 1 <= j < |s| ==> DigitDot(s[j])
    ensures RunEnd(Space, s, i) == m0 && RunEnd(Alnum, s, m0) == m1
    ensures RunEnd(Space, s, m1) == m1 + 1 && RunEnd(DigitDot, s, m1 + 1) == |s|
  {
    hide RunEnd;
    RunEndIs(Space, s, i, m0);
    RunEndIs(Alnum, s, m0, m1);
    RunEndIs(Space, s, m1, m1 + 1);
    RunEndIs(DigitDot, s, m1 + 1, |s|);
  }

  /** No tail can start past the first blank: only one blank is left and a tail needs two. */
  lemma NoLaterTail(w: string, m: string, a: string, i: nat)
    requires IsMint(m) && IsAmount(a)
    requires |w| < i <= |Print(w, m, a)|
    ensures ScanTail(Print(w, m, a), i) == None
  {
    var s := Print(w, m, a);
    var b := |w| + 1 + |m|;
    Layout(w, m, a);
    var m0 := RunEnd(Space, s, i);
    var m1 := RunEnd(Alnum, s, m0);
    var a0 := RunEnd(Space, s, m1);
    assert forall j :: |w| < j < |s| && Space(s[j]) ==> j == b;
    assert i < m0 ==> Space(s[i]) && i == b;
    assert m1 < a0 ==> Space(s[m1]) && m1 == b;
  }

  lemma {:induction false} NothingRead<T>(at: seq<Option<T>>, i: nat)
    requires i <= |at| && forall j :: i <= j < |at| ==> at[j] == None
    ensures Leftmost(at, i) == None
    decreases |at| - i
  {
    if i < |at| { NothingRead(at, i + 1); }
  }

  lemma {:induction false} NoMentionToStrip(r: Rx, s: string, i: nat)
    requires i <= |s|
    requires forall j: nat :: i <= j < |s| ==> First(r, s, j) == None
    ensures ReplaceAll(r, s, i, "") == s[i..]
    decreases |s| - i
  {
    if i < |s| { NoMentionToStrip(r, s, i + 1); }
  }

  /** No occurrence of `w` starts in `s` from `i` up to `k`. */
  predicate NoneIn(w: string, s: string, i: nat, k: nat)
    requires k <= |s|
  {
    forall j: nat :: i <= j < k ==> !WordAt(w, s, j)
  }

  /** The texts between the occurrences of `w`, found from left to right, in `s` from `i` on. */
  predicate Between(w: string, s: string, i: nat, gaps: seq<string>)
    requires i <= |s|
    decreases |gaps|
  {
    gaps != [] && var k := i + |gaps[0]|;
    && k <= |s| && gaps[0] == s[i..k]
    && NoneIn(w, s, i, k)
    && if |gaps| == 1 then k == |s| else WordAt(w, s, k) && Between(w, s, k + |w|, gaps[1..])
  }

  function Joined(gaps: seq<string>): string { if gaps == [] then "" else gaps[0] + Joined(gaps[1..]) }

  lemma WordFirst(w: string, s: string, i: nat)
    requires i <= |s|
    ensures First(Word(w), s, i) == if WordAt(w, s, i) then Some(Found(i, i + |w|, map[])) else None
    ensures WordAt(w, s, i) ==> i + |w| <= |s|
  {
    hide Word, Outcomes;
    WordOutcomes(w, s, i, map[]);
  }

  lemma NoneGrows(w: string, s: string, i: nat, k: nat)
    requires i < k <= |s| && !WordAt(w, s, i) && NoneIn(w, s, i + 1, k)
    ensures NoneIn(w, s, i, k)
  {
    hide WordAt;
  }

  /** The gaps with one more character in front. */
  function Longer(c: char, gaps: seq<string>): (more: seq<string>)
    requires gaps != []
    ensures |more| == |gaps| && more[0] == [c] + gaps[0] && more[1..] == gaps[1..]
  {
    [[c] + gaps[0]] + gaps[1..]
  }

  lemma JoinedLonger(c: char, gaps: seq<string>)
    requires gaps != []
    ensures Joined(Longer(c, gaps)) == [c] + Joined(gaps)
  {
    hide Longer;
    assert ([c] + gaps[0]) + Joined(gaps[1..]) == [c] + (gaps[0] + Joined(gaps[1..]));
  }

  lemma OneMore(s: string, i: nat, k: nat)
    requires i < k <= |s|
    ensures s[i..k] == [s[i]] + s[i + 1..k]
  {
  }

  /** A character that no occurrence starts at goes to the front of the first gap. */
  lemma BetweenLonger(w: string, s: string, i: nat, gaps: seq<string>)
    requires i < |s| && !WordAt(w, s, i) && Between(w, s, i + 1, gaps)
    ensures Between(w, s, i, Longer(s[i], gaps))
  {
    hide WordAt, NoneIn, Longer;
    var k := i + 1 + |gaps[0]|;
    NoneGrows(w, s, i, k);
    OneMore(s, i, k);
  }

  lemma {:induction false} RemovedLeavesGaps(w: string, s: string, i: nat) returns (gaps: seq<string>)
    requires w != "" && i <= |s|
    ensures Between(w, s, i, gaps) && ReplaceAll(Word(w), s, i, "") == Joined(gaps)
    decreases |s| - i
  {
    hide WordAt, Word, First, Longer;
    if i == |s| {
      gaps := [""];
    } else {
      WordFirst(w, s, i);
      if WordAt(w, s, i) {
        var rest := RemovedLeavesGaps(w, s, i + |w|);
        gaps := [""] + rest;
        assert gaps[1..] == rest;
      } else {
        var rest := RemovedLeavesGaps(w, s, i + 1);
        BetweenLonger(w, s, i, rest);
        JoinedLonger(s[i], rest);
        gaps := Longer(s[i], rest);
      }
    }
  }

  /** Every mention goes and everything between the mentions stays, in order, trimmed at the two ends; without a
      handle the text stays as it is. */
  lemma MentionsRemoved(handle: string, txt: string) returns (gaps: seq<string>)
    ensures Between("@" + handle, txt, 0, gaps)
    ensures StripMention(handle, txt) == if handle == "" then txt else Trim(Joined(gaps))
  {
    hide Between, Word, Joined;
    gaps := RemovedLeavesGaps("@" + handle, txt, 0);
  }

  predicate Lacks(s: string, c: char) { forall i :: 0 <= i < |s| ==> Lower(s[i]) != c }

  /** A text without a mention that begins and ends with something other than white space stays as it is. */
  lemma CleanText(handle: string, s: string)
    requires s != "" && !IsSpace(s[0]) && !IsSpace(s[|s| - 1]) && Lacks(s, '@')
    ensures StripMention(handle, s) == s
  {
    var at := "@" + handle;
    forall j: nat | j < |s| ensures First(Word(at), s, j) == None {
      WordOutcomes(at, s, j, map[]);
      assert Lower(s[j + 0]) != Lower(at[0]);
    }
    NoMentionToStrip(Word(at), s, 0);
    TrimIsIdentity(s);
  }

  lemma PrintedIsClean(handle: string, w: string, m: string, a: string)
    requires IsMint(m) && IsAmount(a) && w != ""
    requires forall j :: 0 <= j < |w| ==> IsAlnum(w[j])
    ensures StripMention(handle, Print(w, m, a)) == Print(w, m, a)
  {
    Layout(w, m, a);
    CleanText(handle, Print(w, m, a));
  }

  /** The head of the chain in terms of the scanner. */
  lemma TradesComeFirst(handle: string, txt: string)
    ensures var clean := StripMention(handle, txt);
      var b, s := Scan(BUY, clean), Scan(SELL, clean);
      && (b.Some? ==> Classify(handle, txt) == Buy(b.value.mint, b.value.amount))
      && (b.None? && s.Some? ==> Classify(handle, txt) == Sell(s.value.mint, s.value.amount))
      && (b.None? && s.None? ==> !Classify(handle, txt).Buy? && !Classify(handle, txt).Sell?)
  {
    hide Exec, Test, StripMention, Scan, TradeRx, PlainTradeRx, Word, Bounded, Optional;
    ScannerRefinesPattern(StripMention(handle, txt));
  }

  /** A printed command is scanned at its very beginning. */
  lemma PrintedScan(w: string, m: string, a: string)
    requires IsMint(m) && IsAmount(a)
    ensures Scan(w, Print(w, m, a)) == Some(Trade(m, a))
  {
    hide Print, IsMint, IsAmount, ScanTail;
    PrintedTail(w, m, a);
    PrintedHead(w, m, a);
  }

  lemma PrintedHead(w: string, m: string, a: string)
    ensures WordAt(w, Print(w, m, a), 0)
  {
    assert Print(w, m, a)[..|w|] == w;
    forall j | 0 <= j < |w| ensures Lower(Print(w, m, a)[0 + j]) == Lower(w[j]) {
      assert Print(w, m, a)[..|w|][j] == w[j];
    }
  }

  lemma PrintedBuy(handle: string, m: string, a: string)
    requires IsMint(m) && IsAmount(a)
    ensures Classify(handle, Print(BUY, m, a)) == Buy(m, a)
  {
    hide Classify, StripMention, Scan, Print, IsMint, IsAmount;
    PrintedIsClean(handle, BUY, m, a);
    PrintedScan(BUY, m, a);
    TradesComeFirst(handle, Print(BUY, m, a));
  }

  lemma NoBuyInSell(m: string, a: string)
    requires IsMint(m) && IsAmount(a)
    ensures forall j: nat :: j <= |Print(SELL, m, a)| ==> TradeAt(BUY, Print(SELL, m, a), j, false) == None
  {
    var s := Print(SELL, m, a);
    forall j: nat | j <= |s| ensures TradeAt(BUY, s, j, false) == None {
      if WordAt(BUY, s, j) {
        assert Lower(s[j + 0]) == Lower(BUY[0]);
        assert s[0] == 's' && s[1] == 'e';
        NoLaterTail(SELL, m, a, j + |BUY|);
      }
    }
  }

  lemma PrintedSell(handle: string, m: string, a: string)
    requires IsMint(m) && IsAmount(a)
    ensures Classify(handle, Print(SELL, m, a)) == Sell(m, a)
  {
    hide Classify, StripMention, Scan, Print, IsMint, IsAmount;
    PrintedIsClean(handle, SELL, m, a);
    PrintedScan(SELL, m, a);
    NoBuyScanned(m, a);
    TradesComeFirst(handle, Print(SELL, m, a));
  }

  lemma NoBuyScanned(m: string, a: string)
    requires IsMint(m) && IsAmount(a)
    ensures Scan(BUY, Print(SELL, m, a)) == None
  {
    hide TradeAt, Print, IsMint, IsAmount;
    NoBuyInSell(m, a);
    NothingRead(Readings(BUY, Print(SELL, m, a), false), 0);
  }

  /** Printing a trade command and running the whole chain gives back its side, mint and amount;
      in particular a printed sell is never taken by the buy pattern, whatever mint it names. */
  lemma CommandRoundTrip(handle: string, m: string, a: string)
    requires IsMint(m) && IsAmount(a)
    ensures Classify(handle, Print(BUY, m, a)) == Buy(m, a)
    ensures Classify(handle, Print(SELL, m, a)) == Sell(m, a)
  {
    hide Classify, Print, IsMint, IsAmount;
    PrintedBuy(handle, m, a);
    PrintedSell(handle, m, a);
  }
}
