/** The two settings a user can change by message in commands.js, `auto` and `risk`: which texts reach them through the
    chain, and what they then set. */
module Preferences {
  import opened Text
  import opened Regex
  import opened Commands
  import opened Settings
  import opened Chain
  import W = WriteBehind

  // ---- every text ----

  /** A message reaches the settings if and only if it asks for nothing else, and then the scanners decide. */
  lemma SettingsDecide(handle: string, txt: string)
    ensures var c, clean := Classify(handle, txt), StripMention(handle, txt);
      && (c.Auto? || c.Risk? || c.NoCmd? <==> NothingElse(clean))
      && (NothingElse(clean) ==> c == SettingAsked(clean))
  {
    hide Classify, StripMention, Scan, AnyAlone, ScanAuto, ScanRisk;
    ChainByWords(handle, txt);
  }

  /** Wherever in the text they stand, a risk level wins over a state. */
  lemma RiskWinsOverAuto(handle: string, txt: string)
    ensures var c, clean := Classify(handle, txt), StripMention(handle, txt);
      var level := ScanRisk(clean);
      level.Some? ==> !c.Auto? && (NothingElse(clean) ==> c == Risk(level.value))
  {
    hide Classify, StripMention, NothingElse, ScanAuto, ScanRisk;
    SettingsDecide(handle, txt);
  }

  predicate IsOnOff(val: string) { LowerAll(val) in ON_OFF }

  predicate IsLevel(val: string) { LowerAll(val) in LEVELS }

  predicate LowerCase(ws: seq<string>) { forall k :: 0 <= k < |ws| ==> LowerAll(ws[k]) == ws[k] }

  lemma {:induction false} WordEndReads(ws: seq<string>, s: string, e: nat)
    requires e <= |s| && WordEnd(ws, s, e).Some? && LowerCase(ws)
    ensures LowerAll(s[e..WordEnd(ws, s, e).value]) in ws
  {
    if WordAt(ws[0], s, e) {
      assert LowerAll(s[e..e + |ws[0]|]) == ws[0];
    } else {
      WordEndReads(ws[1..], s, e);
    }
  }

  lemma ReadsOneOf(w: string, opt: string, ws: seq<string>, s: string)
    requires LowerCase(ws)
    ensures var m := Leftmost(SettingsAt(w, opt, ws, s), 0); m.Some? ==> LowerAll(m.value) in ws
  {
    hide LowerAll, LowerCase, WordEnd, RunEnd, IsEdge, WordAt;
    var at := SettingsAt(w, opt, ws, s);
    LeftmostIsOne(at, 0);
    if Leftmost(at, 0).Some? {
      var i :| 0 <= i < |at| && at[i] == Leftmost(at, 0);
      SettingIsRead(w, opt, ws, s, i);
    }
  }

  lemma SettingIsRead(w: string, opt: string, ws: seq<string>, s: string, i: nat)
    requires i <= |s| && LowerCase(ws) && SettingAt(w, opt, ws, s, i).Some?
    ensures LowerAll(SettingAt(w, opt, ws, s, i).value) in ws
  {
    hide LowerAll, LowerCase, WordEnd, RunEnd, IsEdge;
    var k := i + |w| + if opt != "" && WordAt(opt, s, i + |w|) then |opt| else 0;
    WordEndReads(ws, s, RunEnd(Space, s, k));
  }

  lemma {:induction false} LeftmostIsOne<T>(at: seq<Option<T>>, i: nat)
    requires i <= |at|
    ensures Leftmost(at, i).Some? ==> exists j :: i <= j < |at| && at[j] == Leftmost(at, i)
    decreases |at| - i
  {
    if i < |at| && at[i].None? { LeftmostIsOne(at, i + 1); }
  }

  lemma LowerFixed(w: string)
    requires forall i :: 0 <= i < |w| ==> Lower(w[i]) == w[i]
    ensures LowerAll(w) == w
  {
  }

  lemma WordsAreLower()
    ensures LowerCase(ON_OFF) && LowerCase(LEVELS)
  {
    hide LowerAll;
    LowerFixed("on");
    LowerFixed("off");
    LowerFixed("low");
    LowerFixed("med");
    LowerFixed("high");
  }

  /** Whatever the message, a setting it reaches carries what the scanner read: one of its own words, in some case. */
  lemma SettingsCapture(handle: string, txt: string)
    ensures var c, clean := Classify(handle, txt), StripMention(handle, txt);
      && (c.Auto? ==> ScanAuto(clean) == Some(c.val) && IsOnOff(c.val))
      && (c.Risk? ==> ScanRisk(clean) == Some(c.val) && IsLevel(c.val))
  {
    hide Classify, StripMention, NothingElse, LowerAll, LowerCase, SettingsAt;
    var clean := StripMention(handle, txt);
    SettingsDecide(handle, txt);
    WordsAreLower();
    ReadsOneOf("auto", "trade", ON_OFF, clean);
    ReadsOneOf("risk", "", LEVELS, clean);
  }

  // ---- what is then set ----

  /** What `handleMessage` does for a setting: `toggleAuto` with `val === 'on'`, `setRisk` with `val`. */
  function Applied(c: Cmd, st: W.State, h: string): (st': W.State)
    requires (c.Auto? || c.Risk?) && h in st.users
    ensures h in st'.users
  {
    W.Next(st, if c.Auto? then W.Toggle(h, Some(c.val == "on")) else W.SetRisk(h, c.val))
  }

  /** For every message that reaches `auto`, the user's record says on afterwards if and only if the first state in the
      text is `on` in lower case; so what was asked for, in any case, is what is set, unless `on` was typed with a
      capital. */
  lemma AutoObeyedIff(handle: string, txt: string, c: Cmd, st: W.State, h: string)
    requires c.Auto? && h in st.users
    ensures c == Classify(handle, txt) ==>
      var after := Applied(c, st, h).users[h];
      && ScanAuto(StripMention(handle, txt)) == Some(c.val)
      && (after.auto <==> c.val == "on")
      && after.risk == st.users[h].risk
      && ((after.auto <==> LowerAll(c.val) == "on") <==> c.val == "on" || LowerAll(c.val) == "off")
  {
    hide Classify, StripMention, LowerAll, ScanAuto, ScanRisk;
    SettingsCapture(handle, txt);
    LowerFixed("on");
  }

  /** A level is stored as typed; it is reported as what it means in lower case if and only if it is `low` or `high` in
      lower case or any spelling of `med`. */
  lemma RiskReportedIff(handle: string, txt: string, c: Cmd, st: W.State, h: string)
    requires c.Risk? && h in st.users
    ensures c == Classify(handle, txt) ==>
      var after := Applied(c, st, h).users[h];
      && ScanRisk(StripMention(handle, txt)) == Some(c.val)
      && after.risk == c.val && after.auto == st.users[h].auto
      && (W.RiskName(c.val) == W.RiskName(LowerAll(c.val)) <==>
            c.val == "low" || c.val == "high" || LowerAll(c.val) == "med")
      && (W.RiskName(after.risk) == "conservative" <==> ScanRisk(StripMention(handle, txt)) == Some("low"))
      && (W.RiskName(after.risk) == "aggressive" <==> ScanRisk(StripMention(handle, txt)) == Some("high"))
      && (W.RiskName(after.risk) == "balanced" <==> c.val != "low" && c.val != "high")
  {
    hide Classify, StripMention, LowerAll, ScanAuto, ScanRisk;
    SettingsCapture(handle, txt);
    LowerFixed("low");
    LowerFixed("med");
    LowerFixed("high");
  }

  // ---- messages that say nothing else ----

  /** `w` occurs nowhere in `s`, in any case. */
  predicate Absent(w: string, s: string) { forall e: nat :: e <= |s| ==> !WordAt(w, s, e) }

  lemma LackingWord(w: string, k: nat, c: char, s: string)
    requires k < |w| && c == Lower(w[k]) && Lacks(s, c)
    ensures Absent(w, s)
  {
    forall e: nat | e + |w| <= |s| ensures !WordAt(w, s, e) {
      assert Lower(s[e + k]) != Lower(w[k]);
    }
  }

  lemma NoScan(w: string, s: string)
    requires Absent(w, s)
    ensures Scan(w, s) == None
  {
    NothingRead(Readings(w, s, false), 0);
  }

  lemma NoneAlone(s: string, ws: seq<string>)
    requires forall k :: 0 <= k < |ws| ==> Absent(ws[k], s)
    ensures !AnyAlone(s, ws)
  {
    hide IsEdge, WordAt;
    forall k, i: nat | 0 <= k < |ws| ensures !AloneAt(ws[k], s, i) {
      assert Absent(ws[k], s);
    }
  }

  /** Without these letters and words there is nothing else in the text. */
  lemma NothingElseIn(s: string)
    requires Lacks(s, 'b') && Lacks(s, 'p') && Lacks(s, 'c')
    requires Absent("sell", s) && Absent("wallet", s) && Absent("holdings", s)
    ensures NothingElse(s)
  {
    hide Lacks, Absent, AnyAlone, Scan;
    LackingWord("buy", 0, 'b', s);
    LackingWord("deposit", 2, 'p', s);
    LackingWord("balance", 0, 'b', s);
    LackingWord("portfolio", 0, 'p', s);
    LackingWord("how much i hold", 6, 'c', s);
    LackingWord("sol price", 4, 'p', s);
    LackingWord("solana price", 7, 'p', s);
    LackingWord("price of solana", 0, 'p', s);
    NoScan(BUY, s);
    NoScan(SELL, s);
    NoneAlone(s, DEPOSIT_WORDS);
    NoneAlone(s, BALANCE_WORDS);
    NoneAlone(s, PORTFOLIO_WORDS);
    NoneAlone(s, PRICE_WORDS);
  }

  predicate AllSpace(ws: string) { forall i :: 0 <= i < |ws| ==> IsSpace(ws[i]) }

  /** White space and these letters, in any case, are all there is. */
  predicate Over(s: string, letters: string) { forall i :: 0 <= i < |s| ==> IsSpace(s[i]) || Lower(s[i]) in letters }

  lemma OverLacks(s: string, letters: string, c: char)
    requires Over(s, letters) && c !in letters && !IsSpace(c)
    ensures Lacks(s, c)
  {
  }

  /** A spelling of a word has the letters of that word. */
  lemma OverSpelling(x: string, w: string, letters: string)
    requires LowerAll(x) == w && forall c :: c in w ==> c in letters
    ensures Over(x, letters)
  {
    hide LowerAll;
    forall i | 0 <= i < |x| ensures Lower(x[i]) in letters {
      assert LowerAll(x)[i] in w;
    }
  }

  /** A message: a head, white space or none, and a value, each a spelling of a word. */
  lemma OverMessage(head: string, ws: string, val: string, letters: string)
    requires Over(head, letters) && AllSpace(ws) && Over(val, letters)
    ensures Over(head + ws + val, letters)
  {
    var s := head + ws + val;
    forall i | 0 <= i < |s| ensures IsSpace(s[i]) || Lower(s[i]) in letters {
      if i < |head| { assert s[i] == head[i]; }
      else if i < |head| + |ws| { assert s[i] == ws[i - |head|]; }
      else { assert s[i] == val[i - |head| - |ws|]; }
    }
  }

  /** `x` spells the word `w`, in any case. */
  predicate Spells(x: string, w: string) { LowerAll(x) == w == LowerAll(w) }

  lemma SpellsAt(x: string, w: string, i: nat)
    requires Spells(x, w) && i < |x|
    ensures |w| == |x| && Lower(x[i]) == Lower(w[i]) == w[i]
  {
    hide LowerAll;
    assert LowerAll(x)[i] == LowerAll(w)[i];
  }

  /** A spelling stands in the text wherever it is put. */
  lemma SpellingStands(x: string, w: string, s: string, e: nat)
    requires Spells(x, w) && e + |x| <= |s| && s[e..e + |x|] == x
    ensures |w| == |x| && WordAt(w, s, e)
  {
    assert |LowerAll(x)| == |w|;
    hide Spells;
    forall j | 0 <= j < |w| ensures Lower(s[e + j]) == Lower(w[j]) {
      assert s[e + j] == s[e..e + |x|][j];
      SpellsAt(x, w, j);
    }
  }

  /** Where the parts of a message lie. */
  lemma Parts(head: string, ws: string, val: string)
    requires AllSpace(ws) && val != "" && !IsSpace(val[0])
    ensures var s, e := head + ws + val, |head| + |ws|;
      && |s| == e + |val| && s[0..|head|] == head && s[e..|s|] == val && RunEnd(Space, s, |head|) == e
  {
    var s, e := head + ws + val, |head| + |ws|;
    assert s[..|head|] == head && s[e..] == val;
    assert forall j :: |head| <= j < e ==> s[j] == ws[j - |head|];
    assert s[e] == val[0];
    RunEndIs(Space, s, |head|, e);
  }

  lemma {:induction false} WordEndIs(ws: seq<string>, k: nat, s: string, e: nat)
    requires k < |ws| && e <= |s| && WordAt(ws[k], s, e) && forall j :: 0 <= j < k ==> !WordAt(ws[j], s, e)
    ensures WordEnd(ws, s, e) == Some(e + |ws[k]|)
  {
    hide WordAt;
    if k > 0 { WordEndIs(ws[1..], k - 1, s, e); }
  }

  predicate Wordy(x: string) { x != "" && IsAlnum(x[0]) && IsAlnum(x[|x| - 1]) }

  lemma SpellingIsWordy(x: string, w: string)
    requires Spells(x, w) && Wordy(w)
    ensures Wordy(x) && !IsSpace(x[0]) && !IsSpace(x[|x| - 1])
  {
    assert |LowerAll(x)| == |w|;
    SpellsAt(x, w, 0);
    SpellsAt(x, w, |x| - 1);
  }

  /** The value of a message is read whole. */
  lemma TailOfMessage(head: string, ws: string, val: string, words: seq<string>, k: nat)
    requires AllSpace(ws) && k < |words| && Spells(val, words[k]) && Wordy(words[k])
    requires forall j :: 0 <= j < k ==> !WordAt(words[j], head + ws + val, |head| + |ws|)
    ensures ReadTail(words, head + ws + val, |head|) == Some(val)
  {
    hide Spells, WordAt, WordEnd, RunEnd;
    var s, e := head + ws + val, |head| + |ws|;
    SpellingIsWordy(val, words[k]);
    Parts(head, ws, val);
    SpellingStands(val, words[k], s, e);
    WordEndIs(words, k, s, e);
    assert IsEdge(s, |s|);
  }

  /** A message whose head is read at its very beginning. */
  lemma ReadAtOnce(w: string, opt: string, words: seq<string>, s: string, val: string)
    requires SettingAt(w, opt, words, s, 0) == Some(val)
    ensures Leftmost(SettingsAt(w, opt, words, s), 0) == Some(val)
  {
    hide SettingAt;
  }

  lemma NeverRead(w: string, opt: string, words: seq<string>, s: string)
    requires Absent(w, s)
    ensures Leftmost(SettingsAt(w, opt, words, s), 0) == None
  {
    hide WordAt, IsEdge, ReadTail;
    NothingRead(SettingsAt(w, opt, words, s), 0);
  }

  lemma MessageIsClean(handle: string, head: string, ws: string, val: string)
    requires Wordy(head) && Wordy(val) && Lacks(head + ws + val, '@')
    ensures StripMention(handle, head + ws + val) == head + ws + val
  {
    hide StripMention, Lacks;
    var s := head + ws + val;
    assert s[0] == head[0] && s[|s| - 1] == val[|val| - 1];
    CleanText(handle, s);
  }

  // ---- auto ----

  const AUTO_LETTERS := "autordenf"

  lemma AutoOver(head: string, w: string, ws: string, val: string, v: string)
    requires Spells(head, w) && Spells(val, v) && (w == "auto" || w == "autotrade") && (v == "on" || v == "off")
    requires AllSpace(ws)
    ensures Over(head + ws + val, AUTO_LETTERS)
  {
    hide LowerAll, Over;
    OverSpelling(head, w, AUTO_LETTERS);
    OverSpelling(val, v, AUTO_LETTERS);
    OverMessage(head, ws, val, AUTO_LETTERS);
  }

  lemma AutoSaysNothingElse(s: string)
    requires Over(s, AUTO_LETTERS)
    ensures NothingElse(s) && Lacks(s, '@') && ScanRisk(s) == None
  {
    hide Over, Lacks, Absent, NothingElse, SettingsAt;
    var letters := AUTO_LETTERS;
    forall c | c in {'b', 'p', 'c', '@', 's', 'w', 'h', 'k'} ensures Lacks(s, c) { OverLacks(s, letters, c); }
    LackingWord("sell", 0, 's', s);
    LackingWord("wallet", 0, 'w', s);
    LackingWord("holdings", 0, 'h', s);
    LackingWord("risk", 3, 'k', s);
    NothingElseIn(s);
    NeverRead("risk", "", LEVELS, s);
  }

  /** The long form is the short one with `trade` behind it. */
  lemma LongHead(head: string, auto: string, trade: string) returns (first: string, second: string)
    requires Spells(head, auto + trade) && Spells(auto, auto) && Spells(trade, trade)
    ensures head == first + second && Spells(first, auto) && Spells(second, trade)
  {
    hide LowerAll;
    first, second := head[..|auto|], head[|auto|..];
    LowerParts(head, |auto|);
    assert (auto + trade)[..|auto|] == auto && (auto + trade)[|auto|..] == trade;
  }

  lemma LowerParts(x: string, n: nat)
    requires n <= |x|
    ensures LowerAll(x[..n]) == LowerAll(x)[..n] && LowerAll(x[n..]) == LowerAll(x)[n..]
  {
    hide LowerAll;
  }

  /** What comes behind a short head is no `trade`. */
  lemma NoTradeHere(head: string, ws: string, val: string, v: string, trade: string)
    requires AllSpace(ws) && Spells(val, v) && Wordy(v) && trade != "" && IsAlnum(trade[0]) && v[0] != Lower(trade[0])
    ensures !WordAt(trade, head + ws + val, |head|)
  {
    var s := head + ws + val;
    SpellingIsWordy(val, v);
    SpellsAt(val, v, 0);
    hide Spells;
    assert s[|head|] == if ws == "" then val[0] else ws[0];
    assert |head| + |trade| <= |s| ==> Lower(s[|head| + 0]) != Lower(trade[0]);
  }

  lemma EdgeAtStart(head: string, rest: string)
    requires Wordy(head)
    ensures IsEdge(head + rest, 0)
  {
  }

  lemma ShortAutoRead(head: string, ws: string, val: string, auto: string, trade: string, v: string, words: seq<string>,
                      k: nat)
    requires Spells(head, auto) && Wordy(auto) && AllSpace(ws) && k < |words| && Spells(val, v) && Wordy(v)
    requires v == words[k] && forall j :: 0 <= j < k ==> !WordAt(words[j], head + ws + val, |head| + |ws|)
    requires trade != "" && IsAlnum(trade[0]) && v[0] != Lower(trade[0])
    ensures SettingAt(auto, trade, words, head + ws + val, 0) == Some(val)
  {
    hide Spells, WordAt, ReadTail, IsEdge;
    var s := head + ws + val;
    assert s == head + (ws + val) && s[0..|head|] == head;
    SpellingIsWordy(head, auto);
    EdgeAtStart(head, ws + val);
    SpellingStands(head, auto, s, 0);
    NoTradeHere(head, ws, val, v, trade);
    TailOfMessage(head, ws, val, words, k);
  }

  lemma LongAutoRead(first: string, second: string, ws: string, val: string, auto: string, trade: string,
                     words: seq<string>, k: nat)
    requires Spells(first, auto) && Wordy(auto) && Spells(second, trade) && trade != "" && AllSpace(ws)
    requires k < |words| && Spells(val, words[k]) && Wordy(words[k])
    requires forall j :: 0 <= j < k ==> !WordAt(words[j], first + second + ws + val, |first + second| + |ws|)
    ensures SettingAt(auto, trade, words, first + second + ws + val, 0) == Some(val)
  {
    hide Spells, WordAt, ReadTail, IsEdge;
    var head := first + second;
    var s := head + ws + val;
    assert s == first + (second + ws + val) && s[0..|first|] == first && s[|first|..|head|] == second;
    SpellingIsWordy(first, auto);
    EdgeAtStart(first, second + ws + val);
    SpellingStands(first, auto, s, 0);
    SpellingStands(second, trade, s, |first|);
    TailOfMessage(head, ws, val, words, k);
  }

  predicate IsAutoHead(head: string) { LowerAll(head) == "auto" || LowerAll(head) == "autotrade" }

  /** Which of the two words it is, and that the one before it is not there. */
  lemma StateFound(pre: string, val: string, v: string) returns (k: nat)
    requires (v == "on" || v == "off") && Spells(val, v)
    ensures k < 2 && ON_OFF[k] == v && forall j :: 0 <= j < k ==> !WordAt(ON_OFF[j], pre + val, |pre|)
  {
    hide WordAt, Spells;
    k := if v == "on" then 0 else 1;
    var s, on := pre + val, "on";
    ValueStands(pre, val, v);
    if k == 1 { Differ(v, on, 1, s, |pre|); }
  }

  lemma ValueStands(pre: string, val: string, v: string)
    requires Spells(val, v)
    ensures WordAt(v, pre + val, |pre|)
  {
    hide WordAt, Spells;
    assert (pre + val)[|pre|..|pre| + |val|] == val;
    SpellingStands(val, v, pre + val, |pre|);
  }

  lemma AutoRead(head: string, ws: string, val: string)
    requires IsAutoHead(head) && AllSpace(ws) && IsOnOff(val)
    ensures ScanAuto(head + ws + val) == Some(val)
  {
    hide LowerAll, WordAt, SettingAt, SettingsAt;
    var auto, trade, w, v := "auto", "trade", LowerAll(head), LowerAll(val);
    LowerFixed(auto);
    LowerFixed(trade);
    LowerFixed(w);
    LowerFixed(v);
    var k := StateFound(head + ws, val, v);
    assert head + ws + val == (head + ws) + val;
    if w == auto {
      ShortAutoRead(head, ws, val, auto, trade, v, ON_OFF, k);
    } else {
      assert w == auto + trade;
      var first, second := LongHead(head, auto, trade);
      LongAutoRead(first, second, ws, val, auto, trade, ON_OFF, k);
    }
    ReadAtOnce(auto, trade, ON_OFF, head + ws + val, val);
  }

  /** `auto` or `autotrade`, white space or none, and `on` or `off`, each in any case, reach the setting through the
      whole chain with the last word as it was typed. */
  lemma AutoRoundTrip(handle: string, head: string, ws: string, val: string)
    requires IsAutoHead(head) && AllSpace(ws) && IsOnOff(val)
    ensures Classify(handle, head + ws + val) == Auto(val)
  {
    hide Classify, StripMention, NothingElse, LowerAll, AllSpace, ScanAuto, ScanRisk, Over, Lacks;
    var w, v := LowerAll(head), LowerAll(val);
    LowerFixed(w);
    LowerFixed(v);
    AutoOver(head, w, ws, val, v);
    AutoSaysNothingElse(head + ws + val);
    AutoRead(head, ws, val);
    SpellingIsWordy(head, w);
    SpellingIsWordy(val, v);
    MessageIsClean(handle, head, ws, val);
    SettingsDecide(handle, head + ws + val);
  }

  lemma CapitalsLowered(x: string, w: string)
    requires |x| == |w| && forall i :: 0 <= i < |x| ==> Lower(x[i]) == w[i]
    ensures LowerAll(x) == w
  {
    hide LowerAll;
  }

  /** `auto ON` switches auto-trading off. */
  lemma CapitalOnSwitchesOff(handle: string, st: W.State, h: string)
    requires h in st.users
    ensures Classify(handle, "auto ON") == Auto("ON")
    ensures !Applied(Auto("ON"), st, h).users[h].auto
  {
    hide Classify, LowerAll;
    LowerFixed("auto");
    CapitalsLowered("ON", "on");
    AutoRoundTrip(handle, "auto", " ", "ON");
    assert "auto" + " " + "ON" == "auto ON";
  }

  // ---- risk ----

  const RISK_LETTERS := "risklowmedhg"

  lemma RiskOver(head: string, w: string, ws: string, val: string, v: string)
    requires Spells(head, w) && w == "risk" && Spells(val, v) && v in LEVELS && AllSpace(ws)
    ensures Over(head + ws + val, RISK_LETTERS) && (Lacks(head + ws + val, 'e') || Lacks(head + ws + val, 'l'))
  {
    hide LowerAll, Over, Lacks;
    OverSpelling(head, w, RISK_LETTERS);
    OverSpelling(val, v, RISK_LETTERS);
    OverMessage(head, ws, val, RISK_LETTERS);
    var some := if v == "med" then "riskmed" else "risklowhg";
    var c := if v == "med" then 'l' else 'e';
    OverSpelling(head, w, some);
    OverSpelling(val, v, some);
    OverMessage(head, ws, val, some);
    OverLacks(head + ws + val, some, c);
  }

  lemma RiskSaysNothingElse(s: string)
    requires Over(s, RISK_LETTERS) && (Lacks(s, 'e') || Lacks(s, 'l'))
    ensures NothingElse(s) && Lacks(s, '@')
  {
    hide Over, Lacks, Absent, NothingElse;
    var letters := RISK_LETTERS;
    forall c | c in {'b', 'p', 'c', '@', 'a', 'n'} ensures Lacks(s, c) { OverLacks(s, letters, c); }
    if Lacks(s, 'e') { LackingWord("sell", 1, 'e', s); } else { LackingWord("sell", 2, 'l', s); }
    LackingWord("wallet", 1, 'a', s);
    LackingWord("holdings", 5, 'n', s);
    NothingElseIn(s);
  }

  lemma LevelFound(pre: string, val: string, v: string) returns (k: nat)
    requires v in LEVELS && Spells(val, v)
    ensures k < 3 && LEVELS[k] == v && forall j :: 0 <= j < k ==> !WordAt(LEVELS[j], pre + val, |pre|)
  {
    hide WordAt, Spells;
    k := if v == "low" then 0 else if v == "med" then 1 else 2;
    var s, low, med := pre + val, "low", "med";
    ValueStands(pre, val, v);
    if k > 0 { Differ(v, low, 0, s, |pre|); }
    if k > 1 { Differ(v, med, 0, s, |pre|); }
  }

  lemma RiskRead(head: string, ws: string, val: string)
    requires LowerAll(head) == "risk" && AllSpace(ws) && IsLevel(val)
    ensures ScanRisk(head + ws + val) == Some(val)
  {
    hide LowerAll, WordAt, SettingsAt, ReadTail, IsEdge;
    var s, risk, v := head + ws + val, "risk", LowerAll(val);
    LowerFixed(risk);
    LowerFixed(v);
    var k := LevelFound(head + ws, val, v);
    assert s == (head + ws) + val && s == head + (ws + val) && s[0..|head|] == head;
    SpellingIsWordy(head, risk);
    EdgeAtStart(head, ws + val);
    SpellingStands(head, risk, s, 0);
    TailOfMessage(head, ws, val, LEVELS, k);
    ReadAtOnce(risk, "", LEVELS, s, val);
  }

  /** `risk`, white space or none, and a level, each in any case, reach the setting with the level as it was typed. */
  lemma RiskRoundTrip(handle: string, head: string, ws: string, val: string)
    requires LowerAll(head) == "risk" && AllSpace(ws) && IsLevel(val)
    ensures Classify(handle, head + ws + val) == Risk(val)
  {
    hide Classify, StripMention, NothingElse, LowerAll, AllSpace, ScanAuto, ScanRisk, Over, Lacks;
    var risk, v := "risk", LowerAll(val);
    LowerFixed(risk);
    LowerFixed(v);
    RiskOver(head, risk, ws, val, v);
    RiskSaysNothingElse(head + ws + val);
    RiskRead(head, ws, val);
    SpellingIsWordy(head, risk);
    SpellingIsWordy(val, v);
    MessageIsClean(handle, head, ws, val);
    SettingsDecide(handle, head + ws + val);
  }

  /** `risk HIGH` is taken and reported as balanced. */
  lemma CapitalHighIsBalanced(handle: string, st: W.State, h: string)
    requires h in st.users
    ensures Classify(handle, "risk HIGH") == Risk("HIGH")
    ensures W.RiskName(Applied(Risk("HIGH"), st, h).users[h].risk) == "balanced"
  {
    hide Classify, LowerAll;
    LowerFixed("risk");
    CapitalsLowered("HIGH", "high");
    RiskRoundTrip(handle, "risk", " ", "HIGH");
    assert "risk" + " " + "HIGH" == "risk HIGH";
  }
}
