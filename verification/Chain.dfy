/** The whole precedence chain of `handleMessage` in commands.js, in terms of the words a text contains instead of
    regular expressions. */
module Chain {
  import opened Text
  import opened Regex
  import opened Commands
  import opened Settings

  /** `w` stands at `i`, in any case, up to a word boundary. */
  predicate Stops(w: string, s: string, i: nat) { i <= |s| && WordAt(w, s, i) && IsEdge(s, i + |w|) }

  /** And from one. */
  predicate AloneAt(w: string, s: string, i: nat) { Stops(w, s, i) && IsEdge(s, i) }

  ghost predicate Alone(w: string, s: string) { exists i: nat :: AloneAt(w, s, i) }

  // ---- bounded patterns ----

  /** Some outcome ends at a word boundary. */
  predicate AtEdge(os: seq<Outcome>, s: string) {
    exists j :: 0 <= j < |os| && os[j].end <= |s| && IsEdge(s, os[j].end)
  }

  lemma {:induction false} EdgeTail(os: seq<Outcome>, s: string, i: nat)
    requires i <= |s| && Within(os, s, i)
    ensures Then(os, WordEdge, s, i) != [] <==> AtEdge(os, s)
    decreases |os|
  {
    if os != [] {
      EdgeTail(os[1..], s, i);
      if AtEdge(os[1..], s) {
        var j :| 0 <= j < |os[1..]| && os[1..][j].end <= |s| && IsEdge(s, os[1..][j].end);
        assert os[j + 1] == os[1..][j];
      }
      if AtEdge(os, s) {
        var j :| 0 <= j < |os| && os[j].end <= |s| && IsEdge(s, os[j].end);
        assert j > 0 ==> os[1..][j - 1] == os[j];
      }
    }
  }

  /** `r` matches at `i` up to a word boundary. */
  predicate EndsAtEdge(r: Rx, s: string, i: nat) { i <= |s| && AtEdge(Outcomes(r, s, i, map[]), s) }

  lemma BoundedIff(r: Rx, s: string, i: nat)
    requires i <= |s|
    ensures First(Bounded(r), s, i).Some? <==> IsEdge(s, i) && EndsAtEdge(r, s, i)
  {
    EdgeTail(Outcomes(r, s, i, map[]), s, i);
    hide AtEdge;
    EdgeFirst(Cat(r, WordEdge), s, i);
  }

  lemma EdgeFirst(r: Rx, s: string, i: nat)
    requires i <= |s|
    ensures Outcomes(Cat(WordEdge, r), s, i, map[]) == if IsEdge(s, i) then Outcomes(r, s, i, map[]) else []
  {
    EdgeOutcomes(s, i);
    hide Outcomes, IsEdge;
    SingleThen(WordEdge, r, s, i, Outcomes(WordEdge, s, i, map[]));
  }

  lemma WordEnds(w: string, s: string, i: nat)
    requires i <= |s|
    ensures EndsAtEdge(Word(w), s, i) <==> Stops(w, s, i)
  {
    WordOutcomes(w, s, i, map[]);
    hide Word, WordAt, IsEdge;
    if WordAt(w, s, i) {
      assert Outcomes(Word(w), s, i, map[])[0] == Outcome(i + |w|, map[]);
    }
  }

  lemma AltEnds(a: Rx, b: Rx, s: string, i: nat)
    requires i <= |s|
    ensures EndsAtEdge(Alt(a, b), s, i) <==> EndsAtEdge(a, s, i) || EndsAtEdge(b, s, i)
  {
    var x, y := Outcomes(a, s, i, map[]), Outcomes(b, s, i, map[]);
    AltOutcomes(a, b, s, i, map[]);
    hide Outcomes, IsEdge;
    EdgeConcat(x, y, s);
  }

  lemma EdgeConcat(x: seq<Outcome>, y: seq<Outcome>, s: string)
    ensures AtEdge(x + y, s) <==> AtEdge(x, s) || AtEdge(y, s)
  {
    hide IsEdge;
    if AtEdge(x, s) {
      var j :| 0 <= j < |x| && x[j].end <= |s| && IsEdge(s, x[j].end);
      assert (x + y)[j] == x[j];
    }
    if AtEdge(y, s) {
      var j :| 0 <= j < |y| && y[j].end <= |s| && IsEdge(s, y[j].end);
      assert (x + y)[|x| + j] == y[j];
    }
  }

  lemma GroupEnds(n: nat, r: Rx, s: string, i: nat)
    requires i <= |s|
    ensures EndsAtEdge(Group(n, r), s, i) <==> EndsAtEdge(r, s, i)
  {
    var os, cs := Outcomes(r, s, i, map[]), Outcomes(Group(n, r), s, i, map[]);
    assert |cs| == |os| && forall j :: 0 <= j < |os| ==> cs[j].end == os[j].end;
    hide Outcomes, IsEdge;
    SameEnds(os, cs, s);
  }

  lemma SameEnds(x: seq<Outcome>, y: seq<Outcome>, s: string)
    requires |x| == |y| && forall j :: 0 <= j < |x| ==> y[j].end == x[j].end
    ensures AtEdge(x, s) <==> AtEdge(y, s)
  {
    hide IsEdge;
    if AtEdge(x, s) {
      var j :| 0 <= j < |x| && x[j].end <= |s| && IsEdge(s, x[j].end);
      assert y[j].end == x[j].end;
    }
    if AtEdge(y, s) {
      var j :| 0 <= j < |y| && y[j].end <= |s| && IsEdge(s, y[j].end);
      assert x[j].end == y[j].end;
    }
  }

  // ---- testing anywhere ----

  lemma {:induction false} LeftmostIff<T>(at: seq<Option<T>>, i: nat)
    requires i <= |at|
    ensures Leftmost(at, i).Some? <==> exists j :: i <= j < |at| && at[j].Some?
    decreases |at| - i
  {
    if i < |at| && at[i].None? { LeftmostIff(at, i + 1); }
  }

  lemma TestIff(r: Rx, s: string)
    ensures Test(r, s) <==> exists i: nat :: i <= |s| && First(r, s, i).Some?
  {
    hide First;
    LeftmostIff(Firsts(r, s), 0);
    if Test(r, s) {
      var j :| 0 <= j < |Firsts(r, s)| && Firsts(r, s)[j].Some?;
      assert First(r, s, j).Some?;
    }
    if i: nat :| i <= |s| && First(r, s, i).Some? {
      assert Firsts(r, s)[i].Some?;
    }
  }

  ghost predicate AnyStops(s: string, ws: seq<string>, i: nat) { exists k :: 0 <= k < |ws| && Stops(ws[k], s, i) }

  ghost predicate AnyAlone(s: string, ws: seq<string>) { exists k :: 0 <= k < |ws| && Alone(ws[k], s) }

  /** Wherever it starts, `r` up to a word boundary is one of the words up to a word boundary. */
  ghost predicate IsAnyOf(r: Rx, s: string, ws: seq<string>) {
    forall i: nat :: i <= |s| ==> (EndsAtEdge(r, s, i) <==> AnyStops(s, ws, i))
  }

  /** A bounded pattern of words matches if and only if one of them stands alone in the text. */
  lemma BoundedTest(r: Rx, s: string, ws: seq<string>)
    requires IsAnyOf(r, s, ws)
    ensures Test(Bounded(r), s) <==> AnyAlone(s, ws)
  {
    hide First, EndsAtEdge, IsEdge, Test, Bounded, WordAt;
    TestIff(Bounded(r), s);
    if Test(Bounded(r), s) {
      var i: nat :| i <= |s| && First(Bounded(r), s, i).Some?;
      BoundedIff(r, s, i);
      var k :| 0 <= k < |ws| && Stops(ws[k], s, i);
      assert AloneAt(ws[k], s, i);
    }
    if AnyAlone(s, ws) {
      var k :| 0 <= k < |ws| && Alone(ws[k], s);
      var i: nat :| AloneAt(ws[k], s, i);
      BoundedIff(r, s, i);
      assert AnyStops(s, ws, i);
      assert First(Bounded(r), s, i).Some?;
    }
  }

  lemma WordIs(w: string, s: string)
    ensures IsAnyOf(Word(w), s, [w])
  {
    hide EndsAtEdge, Stops, Word;
    forall i: nat | i <= |s| ensures EndsAtEdge(Word(w), s, i) <==> AnyStops(s, [w], i) {
      WordEnds(w, s, i);
      assert Stops(w, s, i) ==> Stops([w][0], s, i);
    }
  }

  lemma AltIs(a: Rx, b: Rx, s: string, ws: seq<string>, vs: seq<string>)
    requires IsAnyOf(a, s, ws) && IsAnyOf(b, s, vs)
    ensures IsAnyOf(Alt(a, b), s, ws + vs)
  {
    hide EndsAtEdge, Stops;
    forall i: nat | i <= |s| ensures EndsAtEdge(Alt(a, b), s, i) <==> AnyStops(s, ws + vs, i) {
      AltEnds(a, b, s, i);
      AnyConcat(s, ws, vs, i);
    }
  }

  lemma AnyConcat(s: string, ws: seq<string>, vs: seq<string>, i: nat)
    ensures AnyStops(s, ws + vs, i) <==> AnyStops(s, ws, i) || AnyStops(s, vs, i)
  {
    hide Stops;
    var both := ws + vs;
    if AnyStops(s, ws, i) {
      var k :| 0 <= k < |ws| && Stops(ws[k], s, i);
      assert both[k] == ws[k];
    }
    if AnyStops(s, vs, i) {
      var k :| 0 <= k < |vs| && Stops(vs[k], s, i);
      assert both[|ws| + k] == vs[k];
    }
  }

  lemma GroupIs(n: nat, r: Rx, s: string, ws: seq<string>)
    requires IsAnyOf(r, s, ws)
    ensures IsAnyOf(Group(n, r), s, ws)
  {
    hide EndsAtEdge, AnyStops;
    forall i: nat | i <= |s| ensures EndsAtEdge(Group(n, r), s, i) <==> AnyStops(s, ws, i) { GroupEnds(n, r, s, i); }
  }

  // ---- an optional part in the middle ----

  lemma WordConcat(a: string, b: string, s: string, i: nat)
    requires i <= |s|
    ensures WordAt(a + b, s, i) <==> WordAt(a, s, i) && WordAt(b, s, i + |a|)
  {
    var w := a + b;
    if WordAt(w, s, i) {
      forall j | 0 <= j < |a| ensures Lower(s[i + j]) == Lower(a[j]) { assert w[j] == a[j]; }
      forall j | 0 <= j < |b| ensures Lower(s[i + |a| + j]) == Lower(b[j]) {
        assert w[|a| + j] == b[j] && Lower(s[i + (|a| + j)]) == Lower(w[|a| + j]);
      }
    }
    if WordAt(a, s, i) && WordAt(b, s, i + |a|) {
      forall j | 0 <= j < |w| ensures Lower(s[i + j]) == Lower(w[j]) {
        if j < |a| {
          assert w[j] == a[j];
        } else {
          assert w[j] == b[j - |a|] && Lower(s[i + |a| + (j - |a|)]) == Lower(b[j - |a|]);
        }
      }
    }
  }

  /** A word and then `r`, up to a word boundary. */
  lemma WordThenEnds(w: string, r: Rx, s: string, i: nat)
    requires i <= |s|
    ensures EndsAtEdge(Cat(Word(w), r), s, i) <==> WordAt(w, s, i) && EndsAtEdge(r, s, i + |w|)
  {
    hide Word, IsEdge, Outcomes, AtEdge;
    WordOutcomes(w, s, i, map[]);
    SingleThen(Word(w), r, s, i, Outcomes(Word(w), s, i, map[]));
    NoEdge(s);
  }

  lemma NoEdge(s: string)
    ensures !AtEdge([], s)
  {
  }

  /** `(?:w)?r` is `wr` or `r`. */
  lemma OptionalEnds(w: string, r: Rx, s: string, i: nat)
    requires i <= |s|
    ensures EndsAtEdge(Cat(Optional(Word(w)), r), s, i)
       <==> (WordAt(w, s, i) && EndsAtEdge(r, s, i + |w|)) || EndsAtEdge(r, s, i)
  {
    hide Word, IsEdge, Outcomes, AtEdge, Optional;
    WordOutcomes(w, s, i, map[]);
    OptionalOutcomes(Word(w), s, i);
    var here := Outcome(i, map[]);
    if WordAt(w, s, i) {
      CatTwo(Optional(Word(w)), r, s, i, Outcome(i + |w|, map[]), here);
      EdgeConcat(Outcomes(r, s, i + |w|, map[]), Outcomes(r, s, i, map[]), s);
    } else {
      CatOne(Optional(Word(w)), r, s, i, here);
    }
  }

  lemma StopsConcat(a: string, b: string, s: string, i: nat)
    requires i <= |s|
    ensures Stops(a + b, s, i) <==> WordAt(a, s, i) && Stops(b, s, i + |a|)
  {
    WordConcat(a, b, s, i);
    hide WordAt, IsEdge;
  }

  /** `u(?:w)?v` is one of two words. */
  lemma OptionalIs(u: string, w: string, v: string, s: string)
    ensures IsAnyOf(Cat(Word(u), Cat(Optional(Word(w)), Word(v))), s, [u + v, u + (w + v)])
  {
    hide Word, WordAt, IsEdge, Optional, EndsAtEdge, Stops;
    var r, ws := Cat(Optional(Word(w)), Word(v)), [u + v, u + (w + v)];
    forall i: nat | i <= |s| ensures EndsAtEdge(Cat(Word(u), r), s, i) <==> AnyStops(s, ws, i) {
      WordThenEnds(u, r, s, i);
      StopsConcat(u, v, s, i);
      StopsConcat(u, w + v, s, i);
      if WordAt(u, s, i) {
        WithinWord(u, s, i);
        var k := i + |u|;
        OptionalEnds(w, Word(v), s, k);
        StopsConcat(w, v, s, k);
        WordEnds(v, s, k);
        if WordAt(w, s, k) {
          WithinWord(w, s, k);
          WordEnds(v, s, k + |w|);
        }
      }
      assert AnyStops(s, ws, i) <==> Stops(ws[0], s, i) || Stops(ws[1], s, i);
    }
  }

  lemma WithinWord(w: string, s: string, i: nat)
    requires i <= |s| && WordAt(w, s, i)
    ensures i + |w| <= |s|
  {
  }

  // ---- the chain ----

  const DEPOSIT_WORDS := ["deposit", "wallet"]
  const BALANCE_WORDS := ["balance"]
  const PORTFOLIO_WORDS := ["holdings", "portfolio", "how much i hold"]
  const PRICE_WORDS := ["sol price", "solana price", "price of solana"]

  lemma DepositIff(s: string)
    ensures Test(DEP_RX, s) <==> AnyAlone(s, DEPOSIT_WORDS)
  {
    hide Word, IsAnyOf, AnyAlone, Test, Bounded;
    var a, b := "deposit", "wallet";
    WordIs(a, s);
    WordIs(b, s);
    AltIs(Word(a), Word(b), s, [a], [b]);
    GroupIs(1, Alt(Word(a), Word(b)), s, [a] + [b]);
    assert [a] + [b] == DEPOSIT_WORDS;
    BoundedTest(Group(1, Alt(Word(a), Word(b))), s, DEPOSIT_WORDS);
  }

  lemma BalanceIff(s: string)
    ensures Test(BAL_RX, s) <==> AnyAlone(s, BALANCE_WORDS)
  {
    hide Word, IsAnyOf, AnyAlone, Test, Bounded;
    var a := "balance";
    WordIs(a, s);
    BoundedTest(Word(a), s, BALANCE_WORDS);
  }

  lemma PortfolioIff(s: string)
    ensures Test(PORT_RX, s) <==> AnyAlone(s, PORTFOLIO_WORDS)
  {
    hide Word, IsAnyOf, AnyAlone, Test, Bounded;
    var a, b, c := "holdings", "portfolio", "how much i hold";
    WordIs(a, s);
    WordIs(b, s);
    WordIs(c, s);
    AltIs(Word(b), Word(c), s, [b], [c]);
    AltIs(Word(a), Alt(Word(b), Word(c)), s, [a], [b] + [c]);
    assert [a] + ([b] + [c]) == PORTFOLIO_WORDS;
    BoundedTest(Alt(Word(a), Alt(Word(b), Word(c))), s, PORTFOLIO_WORDS);
  }

  lemma PriceIff(s: string)
    ensures Test(PRICE_RX, s) <==> AnyAlone(s, PRICE_WORDS)
  {
    hide Word, IsAnyOf, AnyAlone, Test, Bounded, Optional;
    var u, w, v, c := "sol", "ana", " price", "price of solana";
    var r := Cat(Word(u), Cat(Optional(Word(w)), Word(v)));
    OptionalIs(u, w, v, s);
    WordIs(c, s);
    AltIs(r, Word(c), s, [u + v, u + (w + v)], [c]);
    assert u + v == "sol price" && u + (w + v) == "solana price";
    assert [u + v, u + (w + v)] + [c] == PRICE_WORDS;
    BoundedTest(Alt(r, Word(c)), s, PRICE_WORDS);
  }

  /** The setting a text asks for: a risk level wins over a state. */
  function SettingAsked(clean: string): Cmd {
    if ScanRisk(clean).Some? then Risk(ScanRisk(clean).value)
    else if ScanAuto(clean).Some? then Auto(ScanAuto(clean).value)
    else NoCmd
  }

  /** Nothing the chain tries before the settings. */
  ghost predicate NothingElse(clean: string) {
    && Scan(BUY, clean) == None && Scan(SELL, clean) == None
    && !AnyAlone(clean, DEPOSIT_WORDS) && !AnyAlone(clean, BALANCE_WORDS)
    && !AnyAlone(clean, PORTFOLIO_WORDS) && !AnyAlone(clean, PRICE_WORDS)
  }

  /** The command the words of a text ask for. */
  ghost function Asked(clean: string): Cmd {
    if Scan(BUY, clean).Some? then Buy(Scan(BUY, clean).value.mint, Scan(BUY, clean).value.amount)
    else if Scan(SELL, clean).Some? then Sell(Scan(SELL, clean).value.mint, Scan(SELL, clean).value.amount)
    else if AnyAlone(clean, DEPOSIT_WORDS) then Deposit
    else if AnyAlone(clean, BALANCE_WORDS) then Balance
    else if AnyAlone(clean, PORTFOLIO_WORDS) then Portfolio
    else if AnyAlone(clean, PRICE_WORDS) then Price
    else SettingAsked(clean)
  }

  lemma SettingIs(clean: string)
    ensures Setting(clean) == SettingAsked(clean)
  {
    hide Exec, ScanAuto, ScanRisk, Cap, Word;
    ScannerReadsSettings(clean);
  }

  /** On every text the chain of patterns finds the command its words ask for: a trade where the scanner reads one,
      then the first of four groups of words of which one stands alone, then the setting its scanner reads. */
  lemma ChainByWords(handle: string, txt: string)
    ensures Classify(handle, txt) == Asked(StripMention(handle, txt))
  {
    hide Exec, Test, StripMention, Scan, TradeRx, PlainTradeRx, Word, Bounded, Optional, AnyAlone, Setting,
      SettingAsked;
    var clean := StripMention(handle, txt);
    ScannerRefinesPattern(clean);
    DepositIff(clean);
    BalanceIff(clean);
    PortfolioIff(clean);
    PriceIff(clean);
    SettingIs(clean);
  }
}
