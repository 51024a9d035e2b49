/** The trade job of worker.js over an unreliable network, with the swap and transfer helpers of
    utils-solana.js and the retry loop of retry.js. */
module TradeJob {
  import opened Text
  import opened Codec
  import opened UserDb
  import Stringify

  // ---- network and ledger ----

  /** What becomes of one attempt: it fails before anything is sent; what is sent is lost; it lands
      but the reply is lost; it lands and is confirmed. */
  datatype Fate = NotSent | Lost | LandedSilently | Confirmed

  /** The fate of the attempt made at each tick: any schedule at all. */
  type Net = nat -> Fate

  predicate Lands(f: Fate) { f == LandedSilently || f == Confirmed }

  datatype Tx = FuelSwap | TradeSwap | Burn(amount: int) | DevFee(amount: int)

  /** What the chain and the job see: a signed transaction goes out, a signature enters the ledger
      for the first time, a helper returns normally, balances are stored. */
  datatype Event = Sent(sig: nat, tx: Tx) | Landed(sig: nat, tx: Tx) | Returned(tx: Tx) | Persisted

  /** Events of a call, whether it returned normally, ticks and signatures used up. */
  datatype Outcome = Outcome(events: seq<Event>, ok: bool, ticks: nat, sigs: nat)

  // ---- retry ----

  /** The events of one attempt; a signature that already landed does not land again. */
  function Attempt(f: Fate, sig: nat, tx: Tx, already: bool): seq<Event> {
    (if f == NotSent then [] else [Sent(sig, tx)])
    + (if Lands(f) && !already then [Landed(sig, tx)] else [])
    + (if f == Confirmed then [Returned(tx)] else [])
  }

  /** `withRetry` around a send: with `anew` every attempt signs a new transaction, otherwise all
      attempts send the same one. */
  function Retry(net: Net, t: nat, sig: nat, tx: Tx, anew: bool, left: nat, already: bool): (o: Outcome)
    ensures o.ticks <= left && o.sigs <= left
    ensures o.ok ==> o.events != [] && o.events[|o.events| - 1] == Returned(tx)
    decreases left
  {
    if left == 0 then Outcome([], false, 0, 0) else
    var now := Attempt(net(t), sig, tx, already);
    if net(t) == Confirmed then Outcome(now, true, 1, 1) else
    var next := Retry(net, t + 1, if anew then sig + 1 else sig, tx, anew, left - 1,
                      !anew && (already || Lands(net(t))));
    Outcome(now + next.events, next.ok, 1 + next.ticks, 1 + next.sigs)
  }

  /** One unfolding of the retry. */
  lemma RetryStep(net: Net, t: nat, sig: nat, tx: Tx, anew: bool, left: nat, already: bool)
    requires left > 0
    ensures var now := Attempt(net(t), sig, tx, already);
      var next := Retry(net, t + 1, if anew then sig + 1 else sig, tx, anew, left - 1,
                        !anew && (already || Lands(net(t))));
      Retry(net, t, sig, tx, anew, left, already)
      == if net(t) == Confirmed then Outcome(now, true, 1, 1)
         else Outcome(now + next.events, next.ok, 1 + next.ticks, 1 + next.sigs)
  {
  }

  lemma RetryNone(net: Net, t: nat, sig: nat, tx: Tx, anew: bool, already: bool)
    ensures Retry(net, t, sig, tx, anew, 0, already) == Outcome([], false, 0, 0)
  {
  }

  const ATTEMPTS := 3

  // ---- swap, transfer, burn ----

  datatype Quote = NoRoute | Route(out: nat)

  /** `executeSwap`: nothing happens without a route; otherwise each attempt builds a new swap. */
  function Swap(net: Net, t: nat, sig: nat, route: Quote, tx: Tx): Outcome {
    if route.NoRoute? then Outcome([], true, 0, 0) else Retry(net, t, sig, tx, true, ATTEMPTS, false)
  }

  /** `transfer`: an amount that does not fit u64 and failing reads stop it before signing; then one
      signed transaction is sent up to three times. */
  function Transfer(net: Net, t: nat, sig: nat, tx: Tx, amount: int): Outcome {
    if amount < 0 || net(t) != Confirmed then Outcome([], false, 1, 0) else
    var o := Retry(net, t + 1, sig, tx, false, ATTEMPTS, false);
    Outcome(o.events, o.ok, 1 + o.ticks, 1)
  }

  function BurnShare(out: nat, pct: real): int { (out as real * pct).Floor }

  /** Continue with `b`, which starts where `a` stopped, only if `a` returned normally. */
  function AndThen(a: Outcome, b: Outcome): Outcome {
    if a.ok then Outcome(a.events + b.events, b.ok, a.ticks + b.ticks, a.sigs + b.sigs) else a
  }

  function BurnAndDev(net: Net, t: nat, sig: nat, out: nat, pct: real): Outcome {
    var burn := BurnShare(out, pct);
    var first := Transfer(net, t, sig, Burn(burn), burn);
    AndThen(first, Transfer(net, t + first.ticks, sig + first.sigs, DevFee(out - burn), out - burn))
  }

  // ---- the job ----

  /** Fuel swap, burn and dev fee; a missing route lets the swap return and then throws. */
  function FuelStage(net: Net, t: nat, sig: nat, fuel: Quote, pct: real): Outcome {
    var s := Swap(net, t, sig, fuel, FuelSwap);
    if fuel.NoRoute? then s.(ok := false)
    else AndThen(s, BurnAndDev(net, t + s.ticks, sig + s.sigs, fuel.out, pct))
  }

  /** The trade itself, then refresh (which may fail) and persist. */
  function TradeStage(net: Net, t: nat, sig: nat, trade: Quote): Outcome {
    var s := Swap(net, t, sig, trade, TradeSwap);
    AndThen(s, if net(t + s.ticks) == Confirmed then Outcome([Persisted], true, 1, 0) else Outcome([], false, 1, 0))
  }

  /** The whole job: no key, no job. */
  function Job(net: Net, t: nat, sig: nat, key: Option<Bytes>, fuel: Quote, trade: Quote, pct: real): Outcome {
    if key.None? then Outcome([], false, 0, 0) else
    var f := FuelStage(net, t, sig, fuel, pct);
    AndThen(f, TradeStage(net, t + f.ticks, sig + f.sigs, trade))
  }

  // ---- counting ----

  predicate IsLanding(e: Event, tx: Tx) { e.Landed? && e.tx == tx }

  /** How often transactions of the shape of `tx` entered the ledger. */
  function Landings(es: seq<Event>, tx: Tx): nat {
    if es == [] then 0 else (if IsLanding(es[0], tx) then 1 else 0) + Landings(es[1..], tx)
  }

  /** The NXR that left the wallet. */
  function Debited(es: seq<Event>): int {
    if es == [] then 0 else
    (if es[0].Landed? && (es[0].tx.Burn? || es[0].tx.DevFee?) then es[0].tx.amount else 0) + Debited(es[1..])
  }

  lemma {:induction false} LandingsAppend(a: seq<Event>, b: seq<Event>, tx: Tx)
    ensures Landings(a + b, tx) == Landings(a, tx) + Landings(b, tx)
    ensures Debited(a + b) == Debited(a) + Debited(b)
  {
    if a == [] {
      assert a + b == b;
    } else {
      assert (a + b)[1..] == a[1..] + b;
      LandingsAppend(a[1..], b, tx);
    }
  }

  /** Every event of a call is about the one transaction it sends. */
  predicate OnlyAbout(es: seq<Event>, tx: Tx) {
    forall i :: 0 <= i < |es| ==> !es[i].Persisted? && es[i].tx == tx
  }

  lemma OnlyAboutAppend(a: seq<Event>, b: seq<Event>, tx: Tx)
    requires OnlyAbout(a, tx) && OnlyAbout(b, tx)
    ensures OnlyAbout(a + b, tx)
  {
  }

  lemma {:induction false} RetryOnlyAbout(net: Net, t: nat, sig: nat, tx: Tx, anew: bool, left: nat, already: bool)
    ensures OnlyAbout(Retry(net, t, sig, tx, anew, left, already).events, tx)
    decreases left
  {
    if left > 0 {
      var now := Attempt(net(t), sig, tx, already);
      assert OnlyAbout(now, tx);
      hide OnlyAbout, Attempt;
      if net(t) != Confirmed {
        var sig', already' := if anew then sig + 1 else sig, !anew && (already || Lands(net(t)));
        RetryOnlyAbout(net, t + 1, sig', tx, anew, left - 1, already');
        OnlyAboutAppend(now, Retry(net, t + 1, sig', tx, anew, left - 1, already').events, tx);
      }
    }
  }

  lemma AttemptLandings(f: Fate, sig: nat, tx: Tx, already: bool)
    ensures Landings(Attempt(f, sig, tx, already), tx) == if Lands(f) && !already then 1 else 0
  {
    var es := Attempt(f, sig, tx, already);
    var b := if Lands(f) && !already then [Landed(sig, tx)] else [];
    var a: seq<Event> := if f == NotSent then [] else [Sent(sig, tx)];
    var c := if f == Confirmed then [Returned(tx)] else [];
    LandingsAppend(a + b, c, tx);
    LandingsAppend(a, b, tx);
    assert Landings(a, tx) == 0 && Landings(c, tx) == 0;
    assert Landings(b, tx) == if Lands(f) && !already then 1 else 0;
  }

  // ---- delivery ----

  /** One signed transaction, however often it is sent, lands at most once, and has landed exactly
      once when the call returns normally. */
  lemma {:induction false} SameTxOnce(net: Net, t: nat, sig: nat, tx: Tx, left: nat, already: bool)
    ensures var o := Retry(net, t, sig, tx, false, left, already);
      var n := Landings(o.events, tx) + if already then 1 else 0;
      n <= 1 && (o.ok ==> n == 1)
    decreases left
  {
    hide Attempt, Landings, Retry;
    if left == 0 {
      RetryNone(net, t, sig, tx, false, already);
      NothingLanded(tx);
    } else {
      RetryStep(net, t, sig, tx, false, left, already);
      AttemptLandings(net(t), sig, tx, already);
      if net(t) != Confirmed {
        var already' := already || Lands(net(t));
        SameTxOnce(net, t + 1, sig, tx, left - 1, already');
        LandingsAppend(Attempt(net(t), sig, tx, already),
                       Retry(net, t + 1, sig, tx, false, left - 1, already').events, tx);
      }
    }
  }

  /** A new transaction on every attempt lands up to once per attempt. */
  lemma {:induction false} FreshTxBounds(net: Net, t: nat, sig: nat, tx: Tx, left: nat)
    ensures var o := Retry(net, t, sig, tx, true, left, false);
      Landings(o.events, tx) <= left && (o.ok ==> Landings(o.events, tx) >= 1)
    decreases left
  {
    hide Attempt, Landings, Retry;
    if left == 0 {
      RetryNone(net, t, sig, tx, true, false);
      NothingLanded(tx);
    } else {
      RetryStep(net, t, sig, tx, true, left, false);
      AttemptLandings(net(t), sig, tx, false);
      if net(t) != Confirmed {
        FreshTxBounds(net, t + 1, sig + 1, tx, left - 1);
        LandingsAppend(Attempt(net(t), sig, tx, false),
                       Retry(net, t + 1, sig + 1, tx, true, left - 1, false).events, tx);
      }
    }
  }

  /** For every schedule: `transfer` debits at most once and exactly once on normal return;
      `executeSwap` with a route lands 1 to 3 times on normal return and 0 to 3 times on throw. */
  lemma DeliveryBounds(net: Net, t: nat, sig: nat, tx: Tx, amount: int, out: nat)
    ensures var o := Transfer(net, t, sig, tx, amount);
      Landings(o.events, tx) <= 1 && (o.ok ==> Landings(o.events, tx) == 1)
    ensures var o := Swap(net, t, sig, Route(out), tx);
      Landings(o.events, tx) <= 3 && (o.ok ==> 1 <= Landings(o.events, tx))
  {
    hide Retry;
    SameTxOnce(net, t + 1, sig, tx, ATTEMPTS, false);
    FreshTxBounds(net, t, sig, tx, ATTEMPTS);
  }

  /** The schedule whose first `silent` attempts land unnoticed; the next one is confirmed or lost. */
  function Silent(silent: nat, acked: bool): Net {
    t => if t < silent then LandedSilently else if acked then Confirmed else Lost
  }

  ghost predicate IsSilent(net: Net, silent: nat, acked: bool) {
    forall u: nat :: net(u) == if u < silent then LandedSilently else if acked then Confirmed else Lost
  }

  lemma {:induction false} SilentLandings(net: Net, silent: nat, acked: bool, t: nat, sig: nat, tx: Tx, left: nat)
    requires IsSilent(net, silent, acked)
    requires t <= silent <= t + left && (acked ==> silent < t + left)
    ensures var o := Retry(net, t, sig, tx, true, left, false);
      o.ok == acked && Landings(o.events, tx) == silent - t + if acked then 1 else 0
    decreases left
  {
    hide Attempt, Landings, Retry;
    if left == 0 {
      RetryNone(net, t, sig, tx, true, false);
      NothingLanded(tx);
    } else {
      var now, rest := Attempt(net(t), sig, tx, false), Retry(net, t + 1, sig + 1, tx, true, left - 1, false);
      RetryStep(net, t, sig, tx, true, left, false);
      AttemptLandings(net(t), sig, tx, false);
      LandingsAppend(now, rest.events, tx);
      if t < silent {
        SilentLandings(net, silent, acked, t + 1, sig + 1, tx, left - 1);
      } else if !acked {
        LostLandings(net, t + 1, sig + 1, tx, left - 1);
      }
    }
  }

  lemma NothingLanded(tx: Tx)
    ensures Landings([], tx) == 0 && Debited([]) == 0
  {
  }

  lemma {:induction false} LostLandings(net: Net, t: nat, sig: nat, tx: Tx, left: nat)
    requires forall u :: u >= t ==> net(u) == Lost
    ensures var o := Retry(net, t, sig, tx, true, left, false); !o.ok && Landings(o.events, tx) == 0
    decreases left
  {
    if left > 0 {
      var rest := Retry(net, t + 1, sig + 1, tx, true, left - 1, false);
      RetryStep(net, t, sig, tx, true, left, false);
      hide Attempt, Landings, Retry;
      AttemptLandings(net(t), sig, tx, false);
      LandingsAppend(Attempt(net(t), sig, tx, false), rest.events, tx);
      LostLandings(net, t + 1, sig + 1, tx, left - 1);
    }
  }

  /** The bounds on swaps are met: every number of landings in them happens on some schedule. */
  lemma SwapBoundsAreTight(n: nat, sig: nat, tx: Tx, out: nat)
    requires n <= 3
    ensures exists net: Net :: !Swap(net, 0, sig, Route(out), tx).ok
                             && Landings(Swap(net, 0, sig, Route(out), tx).events, tx) == n
    ensures n >= 1 ==> exists net: Net :: Swap(net, 0, sig, Route(out), tx).ok
                             && Landings(Swap(net, 0, sig, Route(out), tx).events, tx) == n
  {
    hide Retry, Landings;
    var lost := Silent(n, false);
    SilentLandings(lost, n, false, 0, sig, tx, ATTEMPTS);
    assert !Swap(lost, 0, sig, Route(out), tx).ok && Landings(Swap(lost, 0, sig, Route(out), tx).events, tx) == n;
    if n >= 1 {
      var kept := Silent(n - 1, true);
      SilentLandings(kept, n - 1, true, 0, sig, tx, ATTEMPTS);
      assert Swap(kept, 0, sig, Route(out), tx).ok && Landings(Swap(kept, 0, sig, Route(out), tx).events, tx) == n;
    }
  }

  // ---- safety of the whole job ----

  /** What must have happened before any trade swap goes out: a fuel route was found, the fuel swap
      returned, and the burn and the dev fee each landed once and together are the fuel bought. */
  ghost predicate FuelSettled(before: seq<Event>, fuel: Quote, pct: real) {
    fuel.Route? && Returned(FuelSwap) in before && exists b :: PaidOut(before, b, fuel.out, pct)
  }

  /** `b` is the fraction `pct` of `out`, rounded down. */
  predicate IsShare(b: int, out: nat, pct: real) { b as real <= out as real * pct < b as real + 1.0 }

  /** Whatever was burned is `b`, and whatever was paid to dev is the rest. */
  predicate Pays(es: seq<Event>, b: int, out: nat) {
    forall i :: 0 <= i < |es| && es[i].Landed? ==>
      (es[i].tx.Burn? ==> es[i].tx.amount == b) && (es[i].tx.DevFee? ==> es[i].tx.amount == out - b)
  }

  /** The share `b` was burned once and the rest paid to dev once, and nothing else left the wallet. */
  predicate PaidOut(es: seq<Event>, b: int, out: nat, pct: real) {
    && IsShare(b, out, pct) && 0 <= b <= out && Pays(es, b, out)
    && Landings(es, Burn(b)) == 1 && Landings(es, DevFee(out - b)) == 1 && Debited(es) == out
  }

  lemma ShareIs(out: nat, pct: real)
    ensures IsShare(BurnShare(out, pct), out, pct)
  {
  }

  lemma PaysAppend(a: seq<Event>, c: seq<Event>, b: int, out: nat)
    requires Pays(a, b, out) && Pays(c, b, out)
    ensures Pays(a + c, b, out)
  {
  }

  lemma OnlyAboutPays(es: seq<Event>, tx: Tx, b: int, out: nat)
    requires OnlyAbout(es, tx) && (tx.Burn? ==> tx.amount == b) && (tx.DevFee? ==> tx.amount == out - b)
    ensures Pays(es, b, out)
  {
  }

  lemma {:induction false} OnlyAboutCounts(es: seq<Event>, tx: Tx, other: Tx)
    requires OnlyAbout(es, tx)
    ensures other != tx ==> Landings(es, other) == 0
    ensures !(tx.Burn? || tx.DevFee?) ==> Debited(es) == 0
    ensures (tx.Burn? || tx.DevFee?) && Landings(es, tx) == 0 ==> Debited(es) == 0
    ensures (tx.Burn? || tx.DevFee?) && Landings(es, tx) == 1 ==> Debited(es) == tx.amount
  {
    if es != [] {
      assert !es[0].Persisted? && es[0].tx == tx;
      assert OnlyAbout(es[1..], tx);
      OnlyAboutCounts(es[1..], tx, other);
    }
  }

  lemma TransferEffect(net: Net, t: nat, sig: nat, tx: Tx, other: Tx)
    requires tx.Burn? || tx.DevFee?
    ensures var o := Transfer(net, t, sig, tx, tx.amount);
      && OnlyAbout(o.events, tx) && (other != tx ==> Landings(o.events, other) == 0)
      && Landings(o.events, tx) <= 1 && (o.ok ==> Landings(o.events, tx) == 1 && tx.amount >= 0)
      && Debited(o.events) == if Landings(o.events, tx) == 1 then tx.amount else 0
  {
    hide Retry;
    RetryOnlyAbout(net, t + 1, sig, tx, false, ATTEMPTS, false);
    SameTxOnce(net, t + 1, sig, tx, ATTEMPTS, false);
    var o := Transfer(net, t, sig, tx, tx.amount);
    OnlyAboutCounts(o.events, tx, other);
    hide Retry;
  }

  lemma BurnAndDevDetail(net: Net, t: nat, sig: nat, out: nat, pct: real)
    ensures var o, burn := BurnAndDev(net, t, sig, out, pct), BurnShare(out, pct);
      && NoTrade(o.events) && Pays(o.events, burn, out)
      && Landings(o.events, Burn(burn)) <= 1 && Landings(o.events, DevFee(out - burn)) <= 1
      && (o.ok ==> PaidOut(o.events, burn, out, pct))
      && (0.0 <= pct <= 1.0 ==> 0 <= Debited(o.events) <= out)
  {
    hide Transfer, Landings, Debited, Pays, OnlyAbout, NoTrade;
    var burn := BurnShare(out, pct);
    if 0.0 <= pct <= 1.0 { ShareWithin(out, pct); }
    ShareIs(out, pct);
    hide BurnShare, IsShare;
    var b, d := Burn(burn), DevFee(out - burn);
    var first := Transfer(net, t, sig, b, burn);
    TransferEffect(net, t, sig, b, d);
    OnlyAboutPays(first.events, b, burn, out);
    OnlyAboutNoTrade(first.events, b);
    var t2, s2 := t + first.ticks, sig + first.sigs;
    var second := Transfer(net, t2, s2, d, out - burn);
    TransferEffect(net, t2, s2, d, b);
    OnlyAboutPays(second.events, d, burn, out);
    OnlyAboutNoTrade(second.events, d);
    LandingsAppend(first.events, second.events, b);
    LandingsAppend(first.events, second.events, d);
    PaysAppend(first.events, second.events, burn, out);
    NoTradeAppend(first.events, second.events);
  }

  lemma OnlyAboutNoTrade(es: seq<Event>, tx: Tx)
    requires OnlyAbout(es, tx) && !tx.TradeSwap?
    ensures NoTrade(es)
  {
  }

  lemma {:induction false} SomeLanded(es: seq<Event>, tx: Tx) returns (i: nat)
    requires Landings(es, tx) > 0
    ensures i < |es| && es[i].Landed? && es[i].tx == tx
  {
    if IsLanding(es[0], tx) {
      i := 0;
    } else {
      var k := SomeLanded(es[1..], tx);
      i := k + 1;
    }
  }

  /** Whatever `burnAndDev` lands, on success or not, is the rounded-down share burned and the rest paid to dev, each at
      most once; on success both have landed and add up to the amount. */
  lemma BurnAndDevEffect(net: Net, t: nat, sig: nat, out: nat, pct: real, tx: Tx)
    requires tx.Burn? || tx.DevFee?
    ensures var o := BurnAndDev(net, t, sig, out, pct);
      && Landings(o.events, tx) <= 1
      && (Landings(o.events, tx) > 0 ==> IsShare(if tx.Burn? then tx.amount else out - tx.amount, out, pct))
      && (o.ok ==> exists b :: PaidOut(o.events, b, out, pct))
      && NoTrade(o.events) && (0.0 <= pct <= 1.0 ==> 0 <= Debited(o.events) <= out)
  {
    hide BurnAndDev, Landings, Debited, IsShare, NoTrade;
    var o, burn := BurnAndDev(net, t, sig, out, pct), BurnShare(out, pct);
    BurnAndDevDetail(net, t, sig, out, pct);
    ShareIs(out, pct);
    hide BurnShare;
    if Landings(o.events, tx) > 0 {
      var i := SomeLanded(o.events, tx);
      assert tx == if tx.Burn? then Burn(burn) else DevFee(out - burn);
    }
  }

  lemma ShareWithin(out: nat, pct: real)
    requires 0.0 <= pct <= 1.0
    ensures 0 <= BurnShare(out, pct) <= out
  {
    assert 0.0 <= out as real * pct <= out as real;
  }

  predicate NoTrade(es: seq<Event>) {
    forall i :: 0 <= i < |es| ==> !es[i].Persisted? && !es[i].tx.TradeSwap?
  }

  predicate TradeOnly(es: seq<Event>) {
    forall i :: 0 <= i < |es| ==> es[i].Persisted? || es[i].tx.TradeSwap?
  }

  lemma NoTradeAppend(a: seq<Event>, b: seq<Event>)
    requires NoTrade(a) && NoTrade(b)
    ensures NoTrade(a + b)
  {
  }

  lemma SwapEffect(net: Net, t: nat, sig: nat, out: nat, tx: Tx)
    ensures var o := Swap(net, t, sig, Route(out), tx);
      OnlyAbout(o.events, tx) && (o.ok ==> Returned(tx) in o.events)
  {
    hide Retry;
    RetryOnlyAbout(net, t, sig, tx, true, ATTEMPTS, false);
  }

  lemma FuelSwapEffect(net: Net, t: nat, sig: nat, out: nat, other: Tx)
    requires other != FuelSwap
    ensures var o := Swap(net, t, sig, Route(out), FuelSwap);
      && NoTrade(o.events) && (o.ok ==> Returned(FuelSwap) in o.events)
      && Landings(o.events, other) == 0 && Debited(o.events) == 0 && OnlyAbout(o.events, FuelSwap)
  {
    hide Swap;
    SwapEffect(net, t, sig, out, FuelSwap);
    OnlyAboutCounts(Swap(net, t, sig, Route(out), FuelSwap).events, FuelSwap, other);
  }

  /** Fuel swap, then burn and dev fee: what the two give together. */
  lemma FuelTogether(s: Outcome, r: Outcome, out: nat, pct: real, b: int)
    requires NoTrade(s.events) && (s.ok ==> Returned(FuelSwap) in s.events) && Pays(s.events, b, out)
    requires Landings(s.events, Burn(b)) == Landings(s.events, DevFee(out - b)) == 0 && Debited(s.events) == 0
    requires NoTrade(r.events) && (r.ok ==> PaidOut(r.events, b, out, pct))
    requires 0.0 <= pct <= 1.0 ==> 0 <= Debited(r.events) <= out
    ensures var o := AndThen(s, r);
      && NoTrade(o.events)
      && (o.ok ==> FuelSettled(o.events, Route(out), pct))
      && (0.0 <= pct <= 1.0 ==> 0 <= Debited(o.events) <= out)
  {
    hide NoTrade, Landings, Debited, IsShare, Pays;
    NoTradeAppend(s.events, r.events);
    LandingsAppend(s.events, r.events, Burn(b));
    LandingsAppend(s.events, r.events, DevFee(out - b));
    if s.ok && r.ok {
      PaysAppend(s.events, r.events, b, out);
      assert PaidOut(s.events + r.events, b, out, pct);
    }
  }

  /** The fuel stage sends no trade swap; if it succeeds, the fuel is settled. */
  lemma FuelStageSettles(net: Net, t: nat, sig: nat, fuel: Quote, pct: real)
    ensures var o := FuelStage(net, t, sig, fuel, pct);
      && NoTrade(o.events)
      && (o.ok ==> FuelSettled(o.events, fuel, pct))
      && (0.0 <= pct <= 1.0 ==> 0 <= Debited(o.events) <= if fuel.Route? then fuel.out else 0)
  {
    hide Retry, BurnAndDev, Landings, Debited, BurnShare, AndThen, FuelSettled, PaidOut, Pays;
    NothingLanded(FuelSwap);
    if fuel.Route? {
      var burn := BurnShare(fuel.out, pct);
      var s := Swap(net, t, sig, fuel, FuelSwap);
      FuelSwapEffect(net, t, sig, fuel.out, Burn(burn));
      FuelSwapEffect(net, t, sig, fuel.out, DevFee(fuel.out - burn));
      OnlyAboutPays(s.events, FuelSwap, burn, fuel.out);
      BurnAndDevDetail(net, t + s.ticks, sig + s.sigs, fuel.out, pct);
      FuelTogether(s, BurnAndDev(net, t + s.ticks, sig + s.sigs, fuel.out, pct), fuel.out, pct, burn);
    }
  }

  lemma TradeSwapOnly(net: Net, t: nat, sig: nat, trade: Quote)
    ensures TradeOnly(Swap(net, t, sig, trade, TradeSwap).events)
  {
    hide Retry;
    if trade.Route? { SwapEffect(net, t, sig, trade.out, TradeSwap); }
  }

  lemma TradeOnlyAppend(a: seq<Event>, b: seq<Event>)
    requires TradeOnly(a) && TradeOnly(b)
    ensures TradeOnly(a + b)
  {
  }

  lemma TradeStageEvents(net: Net, t: nat, sig: nat, trade: Quote)
    ensures TradeOnly(TradeStage(net, t, sig, trade).events)
  {
    hide Swap, TradeOnly;
    TradeSwapOnly(net, t, sig, trade);
    PersistedOnly();
    var s := Swap(net, t, sig, trade, TradeSwap).events;
    TradeOnlyAppend(s, [Persisted]);
    TradeOnlyAppend(s, []);
  }

  lemma PersistedOnly()
    ensures TradeOnly([Persisted]) && TradeOnly([])
  {
  }

  lemma {:induction false} TradeEventsMoveNoFuel(es: seq<Event>, tx: Tx)
    requires TradeOnly(es)
    requires !tx.TradeSwap?
    ensures Landings(es, tx) == 0 && Debited(es) == 0
  {
    if es != [] { TradeEventsMoveNoFuel(es[1..], tx); }
  }

  lemma TradeOnlyPays(es: seq<Event>, b: int, out: nat)
    requires TradeOnly(es)
    ensures Pays(es, b, out)
  {
  }

  lemma SettledStays(before: seq<Event>, after: seq<Event>, fuel: Quote, pct: real)
    requires FuelSettled(before, fuel, pct)
    requires TradeOnly(after)
    ensures FuelSettled(before + after, fuel, pct)
  {
    hide Landings, Debited, IsShare, Pays, TradeOnly;
    var b :| PaidOut(before, b, fuel.out, pct);
    TradeEventsMoveNoFuel(after, Burn(b));
    TradeEventsMoveNoFuel(after, DevFee(fuel.out - b));
    LandingsAppend(before, after, Burn(b));
    LandingsAppend(before, after, DevFee(fuel.out - b));
    TradeOnlyPays(after, b, fuel.out);
    PaysAppend(before, after, b, fuel.out);
    assert PaidOut(before + after, b, fuel.out, pct);
  }

  /** On every run, under every schedule and burn fraction, whenever a trade swap is sent the fuel has
      been settled before it; and with a fraction in [0, 1] no run, finished or not, ever takes more
      NXR from the wallet than the fuel bought. */
  lemma TradeJobSafe(net: Net, t: nat, sig: nat, key: Option<Bytes>, fuel: Quote, trade: Quote, pct: real)
    ensures var es := Job(net, t, sig, key, fuel, trade, pct).events;
      forall i :: 0 <= i < |es| && es[i].Sent? && es[i].tx.TradeSwap? ==> FuelSettled(es[..i], fuel, pct)
    ensures 0.0 <= pct <= 1.0 ==>
      0 <= Debited(Job(net, t, sig, key, fuel, trade, pct).events) <= if fuel.Route? then fuel.out else 0
  {
    hide FuelStage, TradeStage, FuelSettled, Landings, Debited;
    NothingLanded(FuelSwap);
    if key.Some? {
      var f := FuelStage(net, t, sig, fuel, pct);
      var g := TradeStage(net, t + f.ticks, sig + f.sigs, trade);
      FuelStageSettles(net, t, sig, fuel, pct);
      TradeStageEvents(net, t + f.ticks, sig + f.sigs, trade);
      if f.ok {
        TradesComeAfter(f.events, g.events, fuel, pct);
        TradeEventsMoveNoFuel(g.events, FuelSwap);
        LandingsAppend(f.events, g.events, FuelSwap);
      }
    }
  }

  lemma TradesComeAfter(f: seq<Event>, g: seq<Event>, fuel: Quote, pct: real)
    requires NoTrade(f) && TradeOnly(g) && FuelSettled(f, fuel, pct)
    ensures forall i :: 0 <= i < |f + g| && (f + g)[i].Sent? && (f + g)[i].tx.TradeSwap? ==>
      FuelSettled((f + g)[..i], fuel, pct)
  {
    hide FuelSettled;
    var es := f + g;
    forall i | 0 <= i < |es| && es[i].Sent? && es[i].tx.TradeSwap? ensures FuelSettled(es[..i], fuel, pct) {
      assert i >= |f|;
      var after := g[..i - |f|];
      assert es[..i] == f + after;
      SettledStays(f, after, fuel, pct);
    }
  }

  // ---- what a finished job has done ----

  predicate NoPersist(es: seq<Event>) { forall i :: 0 <= i < |es| ==> !es[i].Persisted? }

  /** The trade stage: the swap's events, and the balances stored at the end if and only if all went well. */
  lemma TradeStageDone(net: Net, t: nat, sig: nat, trade: Quote)
    ensures var o, s := TradeStage(net, t, sig, trade), Swap(net, t, sig, trade, TradeSwap);
      && NoPersist(s.events) && o.events == s.events + (if o.ok then [Persisted] else [])
      && Landings(s.events, TradeSwap) <= (if trade.Route? then 3 else 0)
      && (o.ok && trade.Route? ==> 1 <= Landings(s.events, TradeSwap) && Returned(TradeSwap) in s.events)
  {
    hide Retry, Landings;
    NothingLanded(TradeSwap);
    if trade.Route? {
      DeliveryBounds(net, t, sig, TradeSwap, 0, trade.out);
      SwapEffect(net, t, sig, trade.out, TradeSwap);
    }
    var s := Swap(net, t, sig, trade, TradeSwap);
    assert NoPersist(s.events);
    assert s.events + [] == s.events;
  }

  lemma {:induction false} NoTradeYet(es: seq<Event>)
    requires NoTrade(es)
    ensures NoPersist(es) && Landings(es, TradeSwap) == 0
  {
    if es != [] {
      assert !es[0].Persisted? && !es[0].tx.TradeSwap?;
      NoTradeYet(es[1..]);
    }
  }

  lemma NoPersistAppend(a: seq<Event>, b: seq<Event>)
    requires NoPersist(a) && NoPersist(b)
    ensures NoPersist(a + b)
  {
  }

  /** What a job leaves behind, for every schedule: balances are stored if and only if it succeeds, once and as its very
      last event; a trade lands at most three times, and on success with a route at least once, its helper having
      returned before; without a route none lands. */
  lemma JobFinishes(net: Net, t: nat, sig: nat, key: Option<Bytes>, fuel: Quote, trade: Quote, pct: real)
    ensures var o := Job(net, t, sig, key, fuel, trade, pct);
      var es := o.events;
      && (if o.ok then es != [] && es[|es| - 1] == Persisted && NoPersist(es[..|es| - 1]) else NoPersist(es))
      && Landings(es, TradeSwap) <= (if trade.Route? then 3 else 0)
      && (o.ok && trade.Route? ==> 1 <= Landings(es, TradeSwap) && Returned(TradeSwap) in es[..|es| - 1])
  {
    hide FuelStage, TradeStage, Swap, Landings, NoPersist, NoTrade;
    NothingLanded(TradeSwap);
    NoTradeYet([]);
    if key.Some? {
      var f := FuelStage(net, t, sig, fuel, pct);
      var t2, s2 := t + f.ticks, sig + f.sigs;
      var g, s := TradeStage(net, t2, s2, trade), Swap(net, t2, s2, trade, TradeSwap).events;
      FuelStageSettles(net, t, sig, fuel, pct);
      NoTradeYet(f.events);
      TradeStageDone(net, t2, s2, trade);
      FinishedEvents(f.events, s, g.events, g.ok);
      if f.ok && g.ok && trade.Route? { InMiddle(f.events, s, Returned(TradeSwap)); }
    }
  }

  lemma InMiddle(f: seq<Event>, s: seq<Event>, e: Event)
    requires e in s
    ensures e in f + s
  {
  }

  lemma FinishedEvents(f: seq<Event>, s: seq<Event>, g: seq<Event>, ok: bool)
    requires NoPersist(f) && NoPersist(s) && g == s + (if ok then [Persisted] else [])
    requires Landings(f, TradeSwap) == 0
    ensures var es := f + g;
      && (if ok then es != [] && es[|es| - 1] == Persisted && es[..|es| - 1] == f + s && NoPersist(f + s)
          else NoPersist(es))
      && Landings(es, TradeSwap) == Landings(s, TradeSwap)
  {
    hide Landings, NoPersist;
    NoPersistAppend(f, s);
    LandingsAppend(f, g, TradeSwap);
    LandingsAppend(s, [Persisted], TradeSwap);
    PersistedLandsNothing();
    if ok { assert (f + (s + [Persisted]))[..|f + s|] == f + s; } else { assert s + [] == s; }
  }

  lemma PersistedLandsNothing()
    ensures Landings([Persisted], TradeSwap) == 0
  {
  }

  /** A transaction that goes through at the first attempt. */
  function Once(sig: nat, tx: Tx): seq<Event> { [Sent(sig, tx), Landed(sig, tx), Returned(tx)] }

  ghost predicate Calm(net: Net) { forall t: nat :: net(t) == Confirmed }

  lemma CalmRetry(net: Net, t: nat, sig: nat, tx: Tx, anew: bool, left: nat)
    requires Calm(net) && left > 0
    ensures Retry(net, t, sig, tx, anew, left, false) == Outcome(Once(sig, tx), true, 1, 1)
  {
    RetryStep(net, t, sig, tx, anew, left, false);
    hide Retry;
    assert Attempt(Confirmed, sig, tx, false) == Once(sig, tx);
  }

  lemma CalmSwap(net: Net, t: nat, sig: nat, out: nat, tx: Tx)
    requires Calm(net)
    ensures Swap(net, t, sig, Route(out), tx) == Outcome(Once(sig, tx), true, 1, 1)
  {
    hide Retry;
    CalmRetry(net, t, sig, tx, true, ATTEMPTS);
  }

  lemma CalmTransfer(net: Net, t: nat, sig: nat, tx: Tx, amount: int)
    requires Calm(net) && amount >= 0
    ensures Transfer(net, t, sig, tx, amount) == Outcome(Once(sig, tx), true, 2, 1)
  {
    hide Retry;
    CalmRetry(net, t + 1, sig, tx, false, ATTEMPTS);
  }

  /** With a key, both routes, a fraction in [0, 1] and every attempt confirmed, the job succeeds and does exactly this:
      fuel swap, burn of the rounded-down share, the rest to dev, the trade, each once, and the balances stored. */
  lemma CalmJob(net: Net, t: nat, sig: nat, key: Bytes, fuel: nat, trade: nat, pct: real, b: int)
    requires Calm(net) && 0.0 <= pct <= 1.0 && IsShare(b, fuel, pct)
    ensures var o := Job(net, t, sig, Some(key), Route(fuel), Route(trade), pct);
      && o.ok
      && o.events == Once(sig, FuelSwap) + (Once(sig + 1, Burn(b)) + Once(sig + 2, DevFee(fuel - b)))
                     + (Once(sig + 3, TradeSwap) + [Persisted])
  {
    hide FuelStage, TradeStage, Once, IsShare, Calm;
    CalmFuel(net, t, sig, fuel, pct, b);
    CalmTrade(net, t + 5, sig + 3, trade);
  }

  lemma CalmBurnAndDev(net: Net, t: nat, sig: nat, out: nat, pct: real, b: int)
    requires Calm(net) && 0.0 <= pct <= 1.0 && IsShare(b, out, pct)
    ensures BurnAndDev(net, t, sig, out, pct)
         == Outcome(Once(sig, Burn(b)) + Once(sig + 1, DevFee(out - b)), true, 4, 2)
  {
    ShareIs(out, pct);
    assert b == BurnShare(out, pct);
    ShareWithin(out, pct);
    hide Transfer, Once, BurnShare, IsShare, Calm;
    CalmTransfer(net, t, sig, Burn(b), b);
    CalmTransfer(net, t + 2, sig + 1, DevFee(out - b), out - b);
  }

  lemma CalmFuel(net: Net, t: nat, sig: nat, out: nat, pct: real, b: int)
    requires Calm(net) && 0.0 <= pct <= 1.0 && IsShare(b, out, pct)
    ensures FuelStage(net, t, sig, Route(out), pct)
         == Outcome(Once(sig, FuelSwap) + (Once(sig + 1, Burn(b)) + Once(sig + 2, DevFee(out - b))), true, 5, 3)
  {
    hide Swap, BurnAndDev, Once, IsShare, Calm;
    CalmSwap(net, t, sig, out, FuelSwap);
    CalmBurnAndDev(net, t + 1, sig + 1, out, pct, b);
  }

  lemma CalmTrade(net: Net, t: nat, sig: nat, out: nat)
    requires Calm(net)
    ensures TradeStage(net, t, sig, Route(out)) == Outcome(Once(sig, TradeSwap) + [Persisted], true, 2, 1)
  {
    hide Swap, Once, Calm;
    CalmSwap(net, t, sig, out, TradeSwap);
    CalmAt(net, t + 1);
  }

  lemma CalmAt(net: Net, t: nat)
    requires Calm(net)
    ensures net(t) == Confirmed
  {
  }

  // ---- the key the worker asks for ----

  /** worker.js parses `data.wallet` of what `getUser` returns. */
  function KeyFromUser(user: Option<Row>): Option<Bytes> {
    if user.Some? && "wallet" in user.value then Stringify.ParseBytes(user.value["wallet"]) else None
  }

  /** `getUser` has deleted that field, so the job as written stops before it sends anything. */
  lemma AsWrittenNothingIsSent(net: Net, t: nat, sig: nat, st: Store, h: string, fuel: Quote, trade: Quote, pct: real)
    ensures Job(net, t, sig, KeyFromUser(UserOf(st, h)), fuel, trade, pct) == Outcome([], false, 0, 0)
  {
  }

  // ---- the worker as an object ----

  const DELAY := 800

  function Pow2(n: nat): (p: nat)
    ensures p >= 1
  {
    if n == 0 then 1 else 2 * Pow2(n - 1)
  }

  /** Milliseconds slept after `n` failures: 800, then twice as long each time, also after the last. */
  function Slept(n: nat): nat { if n == 0 then 0 else Slept(n - 1) + DELAY * Pow2(n - 1) }

  lemma {:induction false} SleptClosedForm(n: nat)
    ensures Slept(n) == 800 * (Pow2(n) - 1)
  {
    if n > 0 { SleptClosedForm(n - 1); }
  }

  /** A retry that began at tick `t0` with signature `sig0` and log `first`, after `i` failed attempts: what it has done
      and what it would still do make up the whole. */
  datatype Progress = Progress(net: Net, tx: Tx, anew: bool, attempts: nat, t0: nat, sig0: nat, first: seq<Event>) {
    function Whole(): Outcome { Retry(net, t0, sig0, tx, anew, attempts, false) }

    function SigNow(i: nat): nat { if anew then sig0 + i else sig0 }

    ghost predicate Going(i: nat, already: bool, log: seq<Event>) {
      && i <= attempts
      && var rest := Retry(net, t0 + i, SigNow(i), tx, anew, attempts - i, already);
      && first + Whole().events == log + rest.events
      && Whole().ok == rest.ok && Whole().ticks == i + rest.ticks && Whole().sigs == i + rest.sigs
    }

    /** It has come to an end after `n` attempts. */
    ghost predicate Gone(n: nat, ok: bool, log: seq<Event>) {
      Whole().ok == ok && Whole().ticks == Whole().sigs == n && log == first + Whole().events
    }

    lemma Begins()
      ensures Going(0, false, first)
    {
    }

    lemma GoesOn(i: nat, already: bool, log: seq<Event>)
      requires i < attempts && Going(i, already, log)
      ensures var f := net(t0 + i);
        var now := log + Attempt(f, SigNow(i), tx, already);
        if f == Confirmed then Gone(i + 1, true, now) else Going(i + 1, !anew && (already || Lands(f)), now)
    {
      hide Retry, Attempt;
      var now := Attempt(net(t0 + i), SigNow(i), tx, already);
      var next := Retry(net, t0 + i + 1, SigNow(i + 1), tx, anew, attempts - i - 1,
                        !anew && (already || Lands(net(t0 + i))));
      RetryStep(net, t0 + i, SigNow(i), tx, anew, attempts - i, already);
      assert log + (now + next.events) == (log + now) + next.events;
    }

    lemma RunsOut(already: bool, log: seq<Event>)
      requires Going(attempts, already, log)
      ensures Gone(attempts, false, log)
    {
      RetryNone(net, t0 + attempts, SigNow(attempts), tx, anew, already);
      hide Retry;
      assert log + [] == log;
    }
  }

  lemma SleptNext(n: nat)
    ensures Slept(n + 1) == Slept(n) + DELAY * Pow2(n) && Pow2(n + 1) == 2 * Pow2(n)
    ensures Slept(0) == 0 && Pow2(0) == 1
  {
  }

  class Worker {
    const net: Net
    var tick: nat
    var nextSig: nat
    var landed: set<nat>
    var log: seq<Event>
    var waited: nat

    constructor (net: Net)
      ensures Valid() && log == [] && this.net == net
    {
      this.net := net;
      tick, nextSig, landed, log, waited := 0, 0, {}, [], 0;
    }

    /** Signatures in the ledger have been handed out. */
    predicate Valid()
      reads this
    {
      forall s :: s in landed ==> s < nextSig
    }

    /** One attempt; the ledger takes a signature only once. */
    method Send(sig: nat, tx: Tx) returns (ok: bool)
      modifies this`tick, this`landed, this`log
      ensures tick == old(tick) + 1 && ok == (net(old(tick)) == Confirmed)
      ensures log == old(log) + Attempt(net(old(tick)), sig, tx, sig in old(landed))
      ensures landed == old(landed) + if Lands(net(old(tick))) then {sig} else {}
    {
      var fate := net(tick);
      tick := tick + 1;
      if fate == NotSent { return false; }
      log := log + [Sent(sig, tx)];
      if Lands(fate) && sig !in landed {
        log := log + [Landed(sig, tx)];
        landed := landed + {sig};
      }
      if fate == Confirmed { log := log + [Returned(tx)]; }
      ok := fate == Confirmed;
    }

    /** The retried function: send, and for a swap sign the next transaction afresh. */
    method Try(sig: nat, tx: Tx, anew: bool) returns (ok: bool, next: nat)
      requires Valid() && sig <= nextSig && (sig == nextSig <==> anew)
      modifies this`tick, this`landed, this`log, this`nextSig
      ensures Valid() && tick == old(tick) + 1 && ok == (net(old(tick)) == Confirmed)
      ensures log == old(log) + Attempt(net(old(tick)), sig, tx, sig in old(landed))
      ensures next == (if anew then sig + 1 else sig) && nextSig == old(nextSig) + if anew then 1 else 0
      ensures next in landed <==> !anew && (sig in old(landed) || Lands(net(old(tick))))
    {
      hide Attempt;
      ok := Send(sig, tx);
      if anew { nextSig := nextSig + 1; }
      next := if anew then nextSig else sig;
    }

    method WithRetry(tx: Tx, anew: bool, attempts: nat) returns (ok: bool)
      requires Valid()
      modifies this
      ensures Valid()
      ensures var o := Retry(net, old(tick), old(nextSig), tx, anew, attempts, false);
        && ok == o.ok && log == old(log) + o.events && tick == old(tick) + o.ticks
        && nextSig == old(nextSig) + (if anew then o.sigs else 1)
        && waited == old(waited) + Slept(o.ticks - if ok then 1 else 0)
    {
      hide Retry, Attempt, Slept, Pow2, Progress.Going;
      ghost var p := Progress(net, tx, anew, attempts, tick, nextSig, log);
      var sig, i, delay := nextSig, 0, DELAY;
      if !anew { nextSig := nextSig + 1; }
      p.Begins();
      SleptNext(0);
      while i < attempts
        invariant 0 <= i <= attempts && Valid() && tick == p.t0 + i
        invariant delay == DELAY * Pow2(i) && waited == old(waited) + Slept(i)
        invariant sig == p.SigNow(i) && nextSig == p.sig0 + if anew then i else 1
        invariant p.Going(i, sig in landed, log)
      {
        p.GoesOn(i, sig in landed, log);
        ok, sig := Try(sig, tx, anew);
        if ok { return; }
        SleptNext(i);
        waited := waited + delay;
        delay := 2 * delay;
        i := i + 1;
      }
      p.RunsOut(sig in landed, log);
      ok := false;
    }

    method ExecuteSwap(route: Quote, tx: Tx) returns (ok: bool)
      requires Valid()
      modifies this
      ensures Valid()
      ensures var o := Swap(net, old(tick), old(nextSig), route, tx);
        ok == o.ok && log == old(log) + o.events && tick == old(tick) + o.ticks && nextSig == old(nextSig) + o.sigs
    {
      hide Retry;
      if route.NoRoute? { return true; }
      ok := WithRetry(tx, true, ATTEMPTS);
    }

    /** Reads decimals and block hash first; signs once, outside the retry. */
    method SendTransfer(tx: Tx, amount: int) returns (ok: bool)
      requires Valid()
      modifies this
      ensures Valid()
      ensures var o := Transfer(net, old(tick), old(nextSig), tx, amount);
        ok == o.ok && log == old(log) + o.events && tick == old(tick) + o.ticks && nextSig == old(nextSig) + o.sigs
    {
      hide Retry;
      var prepared := amount >= 0 && net(tick) == Confirmed;
      tick := tick + 1;
      if !prepared { return false; }
      ok := WithRetry(tx, false, ATTEMPTS);
    }

    method BurnThenDev(out: nat, pct: real) returns (ok: bool)
      requires Valid()
      modifies this
      ensures Valid() && old(log) <= log
      ensures ok ==> exists b :: PaidOut(log[|old(log)|..], b, out, pct)
      ensures var o := BurnAndDev(net, old(tick), old(nextSig), out, pct);
        ok == o.ok && log == old(log) + o.events && tick == old(tick) + o.ticks && nextSig == old(nextSig) + o.sigs
    {
      hide Transfer, PaidOut;
      ghost var o := BurnAndDev(net, tick, nextSig, out, pct);
      BurnAndDevEffect(net, tick, nextSig, out, pct, Burn(0));
      var burn := (out as real * pct).Floor;
      var dev := out - burn;
      ok := SendTransfer(Burn(burn), burn);
      if !ok { return; }
      ok := SendTransfer(DevFee(dev), dev);
      assert log == old(log) + o.events && log[|old(log)|..] == o.events;
    }

    method FuelUp(fuel: Quote, pct: real) returns (ok: bool)
      requires Valid()
      modifies this
      ensures Valid()
      ensures var o := FuelStage(net, old(tick), old(nextSig), fuel, pct);
        ok == o.ok && log == old(log) + o.events && tick == old(tick) + o.ticks && nextSig == old(nextSig) + o.sigs
    {
      hide Retry, BurnAndDev;
      ok := ExecuteSwap(fuel, FuelSwap);
      if !ok || fuel.NoRoute? { return false; }
      ok := BurnThenDev(fuel.out, pct);
    }

    method TradeAndPersist(trade: Quote) returns (ok: bool)
      requires Valid()
      modifies this
      ensures Valid()
      ensures var o := TradeStage(net, old(tick), old(nextSig), trade);
        ok == o.ok && log == old(log) + o.events && tick == old(tick) + o.ticks && nextSig == old(nextSig) + o.sigs
    {
      hide Swap;
      ok := ExecuteSwap(trade, TradeSwap);
      if !ok { return; }
      ok := net(tick) == Confirmed;
      tick := tick + 1;
      if ok { log := log + [Persisted]; }
      ghost var s := Swap(net, old(tick), old(nextSig), trade, TradeSwap);
      assert old(log) + s.events + [Persisted] == old(log) + (s.events + [Persisted]);
      assert s.events + [] == s.events;
    }

    /** The job of worker.js, start to finish. */
    method RunJob(key: Option<Bytes>, fuel: Quote, trade: Quote, pct: real) returns (ok: bool)
      requires Valid()
      modifies this
      ensures Valid() && old(log) <= log
      ensures var o := Job(net, old(tick), old(nextSig), key, fuel, trade, pct);
        ok == o.ok && log == old(log) + o.events
      ensures var es := log[|old(log)|..];
        (ok <==> Persisted in es) && (ok && trade.Route? ==> 1 <= Landings(es, TradeSwap) <= 3)
    {
      hide FuelStage, TradeStage, Landings;
      ghost var o := Job(net, tick, nextSig, key, fuel, trade, pct);
      JobFinishes(net, tick, nextSig, key, fuel, trade, pct);
      assert (log + o.events)[|log|..] == o.events;
      if key.None? { return false; }
      ok := FuelUp(fuel, pct);
      if !ok { return; }
      ok := TradeAndPersist(trade);
    }
  }
}
