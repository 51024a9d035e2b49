/** The auto-trade loop of one user: landed transactions notify the deposit watchers of utils-solana.js,
    whose callback in commands.js enqueues trade jobs, whose transactions notify the watchers again. */
module AutoTrade {
  import opened Text
  import opened Codec
  import opened TradeJob

  // ---- one subscription per account ----

  datatype Hook = SolHook(handle: string) | TokenHook(handle: string)

  ghost predicate HookedOnce(hooks: seq<Hook>, subscribed: set<string>) {
    forall h :: multiset(hooks)[h] == if h.handle in subscribed then 1 else 0
  }

  class Watchers {
    var subscribed: set<string>
    var hooks: seq<Hook>

    constructor ()
      ensures HookedOnce(hooks, subscribed) && subscribed == {}
    {
      subscribed, hooks := {}, [];
    }

    /** `watchDeposits`: however often it is called, and whatever handles it is called with, a user's
        wallet and token account have one subscription each. */
    method WatchDeposits(users: seq<string>)
      requires HookedOnce(hooks, subscribed)
      modifies this
      ensures HookedOnce(hooks, subscribed)
      ensures subscribed == old(subscribed) + set h | h in users
      ensures old(hooks) <= hooks
    {
      for i := 0 to |users|
        invariant HookedOnce(hooks, subscribed)
        invariant subscribed == old(subscribed) + set h | h in users[..i]
        invariant old(hooks) <= hooks
      {
        assert users[..i + 1] == users[..i] + [users[i]];
        if users[i] in subscribed { continue; }
        subscribed := subscribed + {users[i]};
        hooks := hooks + [SolHook(users[i]), TokenHook(users[i])];
      }
      assert users[..|users|] == users;
    }
  }

  // ---- the loop ----

  /** 0.05 SOL. */
  const THRESHOLD := 50_000_000

  /** Amounts in lamports. `sol` is what the agent remembers, `balance` what the chain holds. Notices wait
      for their callbacks; `readings` and `tokenReads` are callbacks between refresh and assignment,
      `deciding` those between persist and the auto-trade test. `queries` are balances read for the user's
      own commands and not yet assigned. `jobs` holds what every started job has still to do. */
  datatype World = World(
    balance: nat, sol: nat, auto: bool,
    solNotices: nat, tokenNotices: nat, readings: seq<nat>, tokenReads: nat, deciding: nat, queries: seq<nat>,
    queue: nat, jobs: seq<seq<Event>>, enqueued: nat, landed: nat)

  datatype Step =
    | SolNotice | SolRead(i: nat) | TokenNotice | TokenRead | Decide
    | Start(job: seq<Event>) | Work(j: nat, cost: nat, tellSol: bool, tellToken: bool)
    | Spend(cost: nat, tellSol: bool, tellToken: bool)
    | Toggle(on: bool) | Query | Answer(q: nat) | Manual

  /** What the user does from outside; everything else is the loop itself. */
  predicate External(s: Step) { s.Toggle? || s.Query? || s.Answer? || s.Manual? }

  ghost predicate IsJob(es: seq<Event>) {
    exists net: Net, key: Option<Bytes>, fuel: Quote, trade: Quote, pct: real, t: nat, sig: nat ::
      es == Job(net, t, sig, key, fuel, trade, pct).events
  }

  predicate Wants(w: World) { w.auto && w.sol > THRESHOLD }

  /** A transaction that lands costs at least `fee`, and no more than there is. */
  predicate Affordable(w: World, cost: nat, fee: nat) { fee <= cost <= w.balance }

  ghost predicate Enabled(w: World, s: Step, fee: nat) {
    match s
    case SolNotice => w.solNotices > 0
    case SolRead(i) => i < |w.readings|
    case TokenNotice => w.tokenNotices > 0
    case TokenRead => w.tokenReads > 0
    case Decide => w.deciding > 0
    case Start(job) => w.queue > 0 && IsJob(job)
    case Work(j, cost, _, _) =>
      j < |w.jobs| && w.jobs[j] != [] && (w.jobs[j][0].Landed? ==> Affordable(w, cost, fee))
    case Spend(cost, _, _) => Affordable(w, cost, fee)
    case Answer(q) => q < |w.queries|
    case _ => true
  }

  /** A landed transaction lowers the balance and notifies each watched account at most once. */
  function Land(w: World, cost: nat, tellSol: bool, tellToken: bool): World
    requires cost <= w.balance
  {
    w.(balance := w.balance - cost, landed := w.landed + 1,
       solNotices := w.solNotices + if tellSol then 1 else 0,
       tokenNotices := w.tokenNotices + if tellToken then 1 else 0)
  }

  function Next(w: World, s: Step, fee: nat): World
    requires Enabled(w, s, fee)
  {
    match s
    case SolNotice => w.(solNotices := w.solNotices - 1, readings := w.readings + [w.balance])
    case SolRead(i) =>
      w.(sol := w.readings[i], readings := w.readings[..i] + w.readings[i + 1..], deciding := w.deciding + 1)
    case TokenNotice => w.(tokenNotices := w.tokenNotices - 1, tokenReads := w.tokenReads + 1)
    case TokenRead => w.(tokenReads := w.tokenReads - 1, deciding := w.deciding + 1)
    case Decide =>
      var d := w.(deciding := w.deciding - 1);
      if Wants(w) then d.(queue := w.queue + 1, enqueued := w.enqueued + 1) else d
    case Start(job) => w.(queue := w.queue - 1, jobs := w.jobs + [job])
    case Work(j, cost, tellSol, tellToken) =>
      var after := w.(jobs := w.jobs[j := w.jobs[j][1..]]);
      if w.jobs[j][0].Landed? then Land(after, cost, tellSol, tellToken) else after
    case Spend(cost, tellSol, tellToken) => Land(w, cost, tellSol, tellToken)
    case Toggle(on) => w.(auto := on)
    case Query => w.(queries := w.queries + [w.balance])
    case Answer(q) => w.(sol := w.queries[q], queries := w.queries[..q] + w.queries[q + 1..])
    case Manual => w.(queue := w.queue + 1)
  }

  /** Every step of the run is possible where it is taken. */
  ghost predicate Legal(w: World, run: seq<Step>, fee: nat)
    decreases |run|
  {
    run == [] || (Enabled(w, run[0], fee) && Legal(Next(w, run[0], fee), run[1..], fee))
  }

  ghost function After(w: World, run: seq<Step>, fee: nat): World
    requires Legal(w, run, fee)
    decreases |run|
  {
    if run == [] then w else After(Next(w, run[0], fee), run[1..], fee)
  }

  // ---- how often it can enqueue ----

  /** Callbacks that may still reach the auto-trade test. */
  function Owed(w: World): nat { w.solNotices + w.tokenNotices + |w.readings| + w.tokenReads + w.deciding }

  lemma StepPays(w: World, s: Step, fee: nat)
    requires Enabled(w, s, fee)
    ensures var v := Next(w, s, fee);
      && w.landed <= v.landed && v.balance + fee * (v.landed - w.landed) <= w.balance
      && v.enqueued + Owed(v) <= w.enqueued + Owed(w) + 2 * (v.landed - w.landed)
  {
    assert forall k :: k == 0 || k == 1 ==> fee * k == if k == 0 then 0 else fee;
  }

  /** On every run, each enqueue is paid for by a landed transaction, two at most per transaction,
      and each landed transaction by its fee. */
  lemma {:induction false} RunPays(w: World, run: seq<Step>, fee: nat)
    requires Legal(w, run, fee)
    ensures var v := After(w, run, fee);
      && w.landed <= v.landed && v.balance + fee * (v.landed - w.landed) <= w.balance
      && v.enqueued + Owed(v) <= w.enqueued + Owed(w) + 2 * (v.landed - w.landed)
    decreases |run|
  {
    if run != [] {
      var u := Next(w, run[0], fee);
      StepPays(w, run[0], fee);
      RunPays(u, run[1..], fee);
      var v := After(w, run, fee);
      assert fee * (v.landed - w.landed) == fee * (v.landed - u.landed) + fee * (u.landed - w.landed);
    }
  }

  /** With no callback outstanding at the start, a run enqueues at most twice the number of transactions
      that the balance can pay for, whatever the jobs, the schedule and the user do. */
  lemma EnqueuesBounded(w: World, run: seq<Step>, fee: nat)
    requires fee > 0 && Owed(w) == 0 && Legal(w, run, fee)
    ensures var v := After(w, run, fee);
      v.enqueued - w.enqueued <= 2 * (v.landed - w.landed) <= 2 * (w.balance / fee)
  {
    RunPays(w, run, fee);
    var n := After(w, run, fee).landed - w.landed;
    DivideOut(n, w.balance, fee);
  }

  lemma Cancel(k: nat, m: int, n: int)
    requires k * m < k * n
    ensures m < n
  {
    assert k * (n - m) == k * n - k * m;
  }

  lemma DivideOut(n: nat, b: nat, fee: nat)
    requires fee > 0 && fee * n <= b
    ensures n <= b / fee
  {
    var q := b / fee;
    assert b == fee * q + b % fee;
    assert fee * (q + 1) == fee * q + fee;
    Cancel(fee, n, q + 1);
  }

  function Starts(run: seq<Step>): nat {
    if run == [] then 0 else (if run[0].Start? then 1 else 0) + Starts(run[1..])
  }

  function Manuals(run: seq<Step>): nat {
    if run == [] then 0 else (if run[0].Manual? then 1 else 0) + Manuals(run[1..])
  }

  lemma StepConserves(w: World, s: Step, fee: nat)
    requires Enabled(w, s, fee)
    ensures var v := Next(w, s, fee);
      && v.queue + Starts([s]) == w.queue + (v.enqueued - w.enqueued) + Manuals([s])
      && |v.jobs| == |w.jobs| + Starts([s])
  {
    assert [s][1..] == [];
  }

  /** On every run the jobs waiting and those started are those that waited, those enqueued automatically and those
      asked for by hand: none is lost and none is started twice. */
  lemma {:induction false} QueueConserved(w: World, run: seq<Step>, fee: nat)
    requires Legal(w, run, fee)
    ensures var v := After(w, run, fee);
      && v.queue + Starts(run) == w.queue + (v.enqueued - w.enqueued) + Manuals(run)
      && |v.jobs| == |w.jobs| + Starts(run)
    decreases |run|
  {
    if run != [] {
      var s := run[0];
      StepConserves(w, s, fee);
      assert [s][1..] == [] && Starts([s]) == (if s.Start? then 1 else 0) && Manuals([s]) == if s.Manual? then 1 else 0;
      hide Next, Enabled;
      QueueConserved(Next(w, s, fee), run[1..], fee);
    }
  }

  // ---- every run ends ----

  lemma {:induction false} RetryLength(net: Net, t: nat, sig: nat, tx: Tx, anew: bool, left: nat, already: bool)
    ensures |Retry(net, t, sig, tx, anew, left, already).events| <= 3 * left
    decreases left
  {
    if left > 0 {
      RetryLength(net, t + 1, if anew then sig + 1 else sig, tx, anew, left - 1, !anew && (already || Lands(net(t))));
    }
  }

  lemma SwapLength(net: Net, t: nat, sig: nat, route: Quote, tx: Tx)
    ensures |Swap(net, t, sig, route, tx).events| <= 9
  {
    hide Retry;
    RetryLength(net, t, sig, tx, true, ATTEMPTS, false);
  }

  lemma TransferLength(net: Net, t: nat, sig: nat, tx: Tx, amount: int)
    ensures |Transfer(net, t, sig, tx, amount).events| <= 9
  {
    hide Retry;
    RetryLength(net, t + 1, sig, tx, false, ATTEMPTS, false);
  }

  const JOB := 37

  /** A job is over after at most 37 events. */
  lemma JobLength(net: Net, t: nat, sig: nat, key: Option<Bytes>, fuel: Quote, trade: Quote, pct: real)
    ensures |Job(net, t, sig, key, fuel, trade, pct).events| <= JOB
  {
    hide Retry, Swap, Transfer, BurnShare;
    if key.Some? {
      var s := Swap(net, t, sig, fuel, FuelSwap);
      SwapLength(net, t, sig, fuel, FuelSwap);
      if fuel.Route? {
        var t1, sig1 := t + s.ticks, sig + s.sigs;
        var burn := BurnShare(fuel.out, pct);
        var b := Transfer(net, t1, sig1, Burn(burn), burn);
        TransferLength(net, t1, sig1, Burn(burn), burn);
        TransferLength(net, t1 + b.ticks, sig1 + b.sigs, DevFee(fuel.out - burn), fuel.out - burn);
      }
      var f := FuelStage(net, t, sig, fuel, pct);
      SwapLength(net, t + f.ticks, sig + f.sigs, trade, TradeSwap);
    }
  }

  lemma JobIsShort(es: seq<Event>)
    ensures IsJob(es) ==> |es| <= JOB
  {
    hide Job;
    if IsJob(es) {
      var net: Net, key: Option<Bytes>, fuel: Quote, trade: Quote, pct: real, t: nat, sig: nat :|
        es == Job(net, t, sig, key, fuel, trade, pct).events;
      JobLength(net, t, sig, key, fuel, trade, pct);
    }
  }

  /** What the started jobs have still to do. */
  function Left(jobs: seq<seq<Event>>): nat {
    if jobs == [] then 0 else Left(jobs[..|jobs| - 1]) + |jobs[|jobs| - 1]|
  }

  lemma {:induction false} LeftUpdate(jobs: seq<seq<Event>>, j: nat, es: seq<Event>)
    requires j < |jobs|
    ensures Left(jobs[j := es]) == Left(jobs) - |jobs[j]| + |es|
  {
    var front := jobs[..|jobs| - 1];
    if j < |front| {
      assert jobs[j := es][..|jobs| - 1] == front[j := es];
      LeftUpdate(front, j, es);
    } else {
      assert jobs[j := es][..|jobs| - 1] == front;
    }
  }

  /** How many transactions a balance can pay for. */
  function Transactions(balance: nat, fee: nat): nat
    requires fee > 0
  {
    balance / fee
  }

  /** What is still to come if nothing is added from outside: an affordable transaction can bring two notices, a
      notice a reading, a reading a decision, a decision a job, a job at most 37 events. */
  function Potential(w: World, fee: nat): nat
    requires fee > 0
  {
    85 * Transactions(w.balance, fee) + 42 * (w.solNotices + w.tokenNotices) + 41 * (|w.readings| + w.tokenReads)
    + 40 * w.deciding + 39 * w.queue + Left(w.jobs)
  }

  lemma LandingDrops(balance: nat, cost: nat, fee: nat)
    requires 0 < fee <= cost <= balance
    ensures Transactions(balance - cost, fee) <= Transactions(balance, fee) - 1
  {
    var q := (balance - cost) / fee;
    assert balance - cost == fee * q + (balance - cost) % fee;
    assert fee * (q + 1) == fee * q + fee <= balance;
    DivideOut(q + 1, balance, fee);
  }

  lemma LandDrops(w: World, cost: nat, tellSol: bool, tellToken: bool, fee: nat)
    requires fee > 0 && Affordable(w, cost, fee)
    ensures Potential(Land(w, cost, tellSol, tellToken), fee) < Potential(w, fee)
  {
    hide Transactions, Left;
    LandingDrops(w.balance, cost, fee);
  }

  lemma WorkDrops(w: World, j: nat, fee: nat)
    requires fee > 0 && j < |w.jobs| && w.jobs[j] != []
    ensures Potential(w.(jobs := w.jobs[j := w.jobs[j][1..]]), fee) == Potential(w, fee) - 1
  {
    hide Transactions, Left;
    LeftUpdate(w.jobs, j, w.jobs[j][1..]);
  }

  lemma StartDrops(w: World, job: seq<Event>, fee: nat)
    requires fee > 0 && w.queue > 0 && |job| <= JOB
    ensures Potential(w.(queue := w.queue - 1, jobs := w.jobs + [job]), fee) < Potential(w, fee)
  {
    hide Transactions;
    assert (w.jobs + [job])[..|w.jobs|] == w.jobs;
  }

  /** Outside, inside and added work of a step. */
  function Added(s: Step): int { if s.Manual? then 39 else if External(s) then 0 else -1 }

  /** Steps in which nothing lands and no job starts or works. */
  lemma CallbackDrops(w: World, s: Step, fee: nat)
    requires fee > 0 && Enabled(w, s, fee) && !s.Start? && !s.Work? && !s.Spend?
    ensures Potential(Next(w, s, fee), fee) <= Potential(w, fee) + Added(s)
  {
    hide Transactions, Left;
  }

  lemma StepDrops(w: World, s: Step, fee: nat)
    requires fee > 0 && Enabled(w, s, fee)
    ensures Potential(Next(w, s, fee), fee) <= Potential(w, fee) + Added(s)
  {
    hide IsJob, Potential;
    match s
    case Start(job) =>
      JobIsShort(job);
      StartDrops(w, job, fee);
    case Work(j, cost, tellSol, tellToken) =>
      WorkDrops(w, j, fee);
      var after := w.(jobs := w.jobs[j := w.jobs[j][1..]]);
      if w.jobs[j][0].Landed? { LandDrops(after, cost, tellSol, tellToken, fee); }
    case Spend(cost, tellSol, tellToken) =>
      LandDrops(w, cost, tellSol, tellToken, fee);
    case _ =>
      CallbackDrops(w, s, fee);
  }

  function Count(run: seq<Step>, f: Step -> bool): nat {
    if run == [] then 0 else (if f(run[0]) then 1 else 0) + Count(run[1..], f)
  }

  function Inner(): Step -> bool { (s: Step) => !External(s) }

  function ByHand(): Step -> bool { (s: Step) => s.Manual? }

  /** Every run ends: however the steps interleave, the loop takes only so many of its own steps, a number
      fixed by the balance and the work outstanding at the start, plus 39 for each trade the user asks for. */
  lemma {:induction false} LoopEnds(w: World, run: seq<Step>, fee: nat)
    requires fee > 0 && Legal(w, run, fee)
    ensures Count(run, Inner()) + Potential(After(w, run, fee), fee) <= Potential(w, fee) + 39 * Count(run, ByHand())
    decreases |run|
  {
    if run != [] {
      hide Potential, Enabled, Next;
      StepDrops(w, run[0], fee);
      LoopEnds(Next(w, run[0], fee), run[1..], fee);
    }
  }

  // ---- below the threshold ----

  predicate AllLow(balances: seq<nat>) { forall i :: 0 <= i < |balances| ==> balances[i] <= 50_000_000 }

  predicate Poor(w: World) {
    w.balance <= 50_000_000 && w.sol <= 50_000_000 && AllLow(w.readings) && AllLow(w.queries)
  }

  // ---- exactly when it can still enqueue ----

  /** Some run from here enqueues an automatic trade. */
  ghost predicate CanEnqueue(w: World, fee: nat) {
    exists run :: Legal(w, run, fee) && After(w, run, fee).enqueued > w.enqueued
  }

  /** A high balance can reach the memory, and a callback the test after it: a high reading does both; a high query, or
      a high balance to query, needs a callback outstanding or a transaction to cause one; a high memory needs one that
      leaves it as it is, the token account's. */
  predicate Armed(w: World, fee: nat) {
    || !AllLow(w.readings)
    || ((!AllLow(w.queries) || w.balance > 50_000_000) && (Owed(w) > 0 || fee <= w.balance))
    || (w.sol > 50_000_000 && (w.deciding > 0 || w.tokenReads > 0 || w.tokenNotices > 0 || fee <= w.balance))
  }

  lemma LowWithout(balances: seq<nat>, i: nat)
    requires AllLow(balances) && i < |balances|
    ensures AllLow(balances[..i] + balances[i + 1..]) && balances[i] <= THRESHOLD
  {
  }

  lemma LowWith(balances: seq<nat>, balance: nat)
    requires AllLow(balances) && balance <= THRESHOLD
    ensures AllLow(balances + [balance])
  {
  }

  lemma UnarmedLand(w: World, cost: nat, tellSol: bool, tellToken: bool, fee: nat)
    requires !Armed(w, fee) && Affordable(w, cost, fee)
    ensures var v := Land(w, cost, tellSol, tellToken); !Armed(v, fee) && v.enqueued == w.enqueued
  {
    hide AllLow;
  }

  lemma UnarmedStays(w: World, s: Step, fee: nat)
    requires !Armed(w, fee) && Enabled(w, s, fee)
    ensures !Armed(Next(w, s, fee), fee) && Next(w, s, fee).enqueued == w.enqueued
  {
    hide IsJob, AllLow;
    match s
    case SolNotice => LowWith(w.readings, w.balance);
    case SolRead(i) => LowWithout(w.readings, i);
    case Query => if w.balance <= THRESHOLD && AllLow(w.queries) { LowWith(w.queries, w.balance); }
    case Answer(q) => if AllLow(w.queries) { LowWithout(w.queries, q); }
    case Work(j, cost, tellSol, tellToken) =>
      var after := w.(jobs := w.jobs[j := w.jobs[j][1..]]);
      assert !Armed(after, fee);
      hide Armed;
      if w.jobs[j][0].Landed? { UnarmedLand(after, cost, tellSol, tellToken, fee); }
    case Spend(cost, tellSol, tellToken) => UnarmedLand(w, cost, tellSol, tellToken, fee);
    case _ =>
  }

  lemma {:induction false} UnarmedRun(w: World, run: seq<Step>, fee: nat)
    requires !Armed(w, fee) && Legal(w, run, fee)
    ensures After(w, run, fee).enqueued == w.enqueued
    decreases |run|
  {
    if run != [] {
      hide Armed, Next, Enabled;
      UnarmedStays(w, run[0], fee);
      UnarmedRun(Next(w, run[0], fee), run[1..], fee);
    }
  }

  lemma StepBack(w: World, s: Step, fee: nat)
    requires Enabled(w, s, fee) && Next(w, s, fee).enqueued >= w.enqueued && CanEnqueue(Next(w, s, fee), fee)
    ensures CanEnqueue(w, fee)
  {
    hide Enabled, Next;
    var v := Next(w, s, fee);
    var run :| Legal(v, run, fee) && After(v, run, fee).enqueued > v.enqueued;
    LegalStep(w, s, run, fee);
  }

  lemma DecideEnqueues(w: World, fee: nat)
    requires w.sol > THRESHOLD && w.deciding > 0
    ensures CanEnqueue(w, fee)
  {
    var on := Next(w, Toggle(true), fee);
    LegalStep(on, Decide, [], fee);
    assert After(on, [Decide] + [], fee).enqueued > on.enqueued;
    hide CanEnqueue, Legal, After;
    CanIf(on, [Decide] + [], fee);
    StepBack(w, Toggle(true), fee);
  }

  lemma CanIf(w: World, run: seq<Step>, fee: nat)
    requires Legal(w, run, fee) && After(w, run, fee).enqueued > w.enqueued
    ensures CanEnqueue(w, fee)
  {
  }

  /** A callback of the token account leaves a high memory as it is. */
  lemma TokenCallbackEnqueues(w: World, fee: nat)
    requires w.sol > THRESHOLD
    requires w.deciding > 0 || w.tokenReads > 0 || w.tokenNotices > 0 || fee <= w.balance
    ensures CanEnqueue(w, fee)
    decreases w.deciding == 0, w.tokenReads == 0, w.tokenNotices == 0
  {
    hide CanEnqueue;
    if w.deciding > 0 {
      DecideEnqueues(w, fee);
    } else {
      var s := if w.tokenReads > 0 then TokenRead else if w.tokenNotices > 0 then TokenNotice
               else Spend(fee, false, true);
      TokenCallbackEnqueues(Next(w, s, fee), fee);
      StepBack(w, s, fee);
    }
  }

  lemma ReadingEnqueues(w: World, i: nat, fee: nat)
    requires i < |w.readings| && w.readings[i] > THRESHOLD
    ensures CanEnqueue(w, fee)
  {
    hide CanEnqueue;
    DecideEnqueues(Next(w, SolRead(i), fee), fee);
    StepBack(w, SolRead(i), fee);
  }

  /** A high query can wait until a callback is about to decide. */
  lemma QueryEnqueues(w: World, q: nat, fee: nat)
    requires q < |w.queries| && w.queries[q] > THRESHOLD && (Owed(w) > 0 || fee <= w.balance)
    ensures CanEnqueue(w, fee)
    decreases w.deciding == 0, w.tokenReads == 0 && w.readings == [], Owed(w) == 0
  {
    hide CanEnqueue;
    if w.deciding > 0 {
      DecideEnqueues(Next(w, Answer(q), fee), fee);
      StepBack(w, Answer(q), fee);
    } else {
      var s := if w.tokenReads > 0 then TokenRead else if |w.readings| > 0 then SolRead(0)
               else if w.tokenNotices > 0 then TokenNotice else if w.solNotices > 0 then SolNotice
               else Spend(fee, false, true);
      QueryEnqueues(Next(w, s, fee), q, fee);
      StepBack(w, s, fee);
    }
  }

  lemma HighOne(balances: seq<nat>) returns (i: nat)
    requires !AllLow(balances)
    ensures i < |balances| && balances[i] > THRESHOLD
  {
    i :| i < |balances| && balances[i] > THRESHOLD;
  }

  lemma ArmedEnqueues(w: World, fee: nat)
    requires Armed(w, fee)
    ensures CanEnqueue(w, fee)
  {
    hide CanEnqueue;
    if !AllLow(w.readings) {
      var i := HighOne(w.readings);
      ReadingEnqueues(w, i, fee);
    } else if (!AllLow(w.queries) || w.balance > THRESHOLD) && (Owed(w) > 0 || fee <= w.balance) {
      if !AllLow(w.queries) {
        var q := HighOne(w.queries);
        QueryEnqueues(w, q, fee);
      } else {
        QueryEnqueues(Next(w, Query, fee), |w.queries|, fee);
        StepBack(w, Query, fee);
      }
    } else {
      TokenCallbackEnqueues(w, fee);
    }
  }

  /** An automatic trade can still be enqueued on some run if and only if the world is armed: no balance now, in memory
      or under way above 0.05 SOL, or no callback to bring it to the test, means never again. */
  lemma CanEnqueueIff(w: World, fee: nat)
    ensures CanEnqueue(w, fee) <==> Armed(w, fee)
  {
    hide Armed, Legal, After;
    if Armed(w, fee) { ArmedEnqueues(w, fee); }
    if CanEnqueue(w, fee) && !Armed(w, fee) {
      var run :| Legal(w, run, fee) && After(w, run, fee).enqueued > w.enqueued;
      UnarmedRun(w, run, fee);
    }
  }

  /** Once the chain, the memory and every balance read but not yet assigned are at or below 0.05 SOL, no run
      enqueues an automatic trade again, and they stay there. */
  lemma {:induction false} PoorIsFinal(w: World, run: seq<Step>, fee: nat)
    requires Poor(w) && Legal(w, run, fee)
    ensures Poor(After(w, run, fee)) && After(w, run, fee).enqueued == w.enqueued
    decreases |run|
  {
    UnarmedRun(w, run, fee);
    if run != [] {
      assert Poor(Next(w, run[0], fee));
      PoorIsFinal(Next(w, run[0], fee), run[1..], fee);
    }
  }

  /** One stale balance is enough: if a query under way has read more than that, the chain and the memory may be
      as low as they like and a waiting decision still enqueues. */
  lemma StaleAnswerEnqueues(w: World, q: nat, fee: nat)
    requires w.auto && w.deciding > 0 && q < |w.queries| && w.queries[q] > THRESHOLD
    ensures Legal(w, [Answer(q), Decide], fee) && After(w, [Answer(q), Decide], fee).enqueued == w.enqueued + 1
    ensures CanEnqueue(w, fee)
  {
    var v := Next(w, Answer(q), fee);
    LegalStep(v, Decide, [], fee);
    LegalStep(w, Answer(q), [Decide], fee);
    assert [Decide] + [] == [Decide] && [Answer(q)] + [Decide] == [Answer(q), Decide];
    assert !AllLow(w.queries);
    CanEnqueueIff(w, fee);
  }

  /** With auto-trading off and never switched on, no run enqueues an automatic trade. */
  lemma {:induction false} OffStaysOff(w: World, run: seq<Step>, fee: nat)
    requires !w.auto && Legal(w, run, fee) && forall i :: 0 <= i < |run| ==> run[i] != Toggle(true)
    ensures !After(w, run, fee).auto && After(w, run, fee).enqueued == w.enqueued
    decreases |run|
  {
    if run != [] { OffStaysOff(Next(w, run[0], fee), run[1..], fee); }
  }

  // ---- the bound is met ----

  /** One transaction and the callback of its wallet notice: a job is enqueued. */
  function SolHalf(fee: nat): seq<Step> { [Spend(fee, true, true), SolNotice, SolRead(0), Decide] }

  /** The callback of its token notice: another. */
  function TokenHalf(): seq<Step> { [TokenNotice, TokenRead, Decide] }

  function Rounds(n: nat, fee: nat): seq<Step> {
    if n == 0 then [] else SolHalf(fee) + (TokenHalf() + Rounds(n - 1, fee))
  }

  predicate Rich(w: World, n: nat, fee: nat) {
    w.auto && w.readings == [] && w.balance > 50_000_000 + n * fee
  }

  function AfterSol(w: World, fee: nat): World
    requires w.balance >= fee
  {
    w.(balance := w.balance - fee, sol := w.balance - fee, queue := w.queue + 1, enqueued := w.enqueued + 1,
       landed := w.landed + 1, tokenNotices := w.tokenNotices + 1)
  }

  function AfterToken(w: World): World
    requires w.tokenNotices > 0
  {
    w.(queue := w.queue + 1, enqueued := w.enqueued + 1, tokenNotices := w.tokenNotices - 1)
  }

  lemma LegalStep(w: World, s: Step, rest: seq<Step>, fee: nat)
    requires Enabled(w, s, fee) && Legal(Next(w, s, fee), rest, fee)
    ensures Legal(w, [s] + rest, fee) && After(w, [s] + rest, fee) == After(Next(w, s, fee), rest, fee)
  {
    assert ([s] + rest)[1..] == rest;
  }

  /** Two steps on. */
  lemma LegalSteps(w: World, s: Step, r: Step, rest: seq<Step>, fee: nat)
    requires Enabled(w, s, fee) && Enabled(Next(w, s, fee), r, fee)
    requires Legal(Next(Next(w, s, fee), r, fee), rest, fee)
    ensures Legal(w, [s, r] + rest, fee)
    ensures After(w, [s, r] + rest, fee) == After(Next(Next(w, s, fee), r, fee), rest, fee)
  {
    hide Legal, After, Enabled, Next;
    LegalStep(Next(w, s, fee), r, rest, fee);
    LegalStep(w, s, [r] + rest, fee);
    assert [s, r] + rest == [s] + ([r] + rest);
  }

  lemma SolRound(w: World, rest: seq<Step>, fee: nat)
    requires w.auto && w.readings == [] && w.balance > THRESHOLD + fee && Legal(AfterSol(w, fee), rest, fee)
    ensures Legal(w, SolHalf(fee) + rest, fee)
    ensures After(w, SolHalf(fee) + rest, fee) == After(AfterSol(w, fee), rest, fee)
  {
    hide Legal, After;
    var spend := Spend(fee, true, true);
    var w2 := Next(Next(w, spend, fee), SolNotice, fee);
    assert w2.readings == [w.balance - fee];
    assert Next(Next(w2, SolRead(0), fee), Decide, fee) == AfterSol(w, fee);
    LegalSteps(w2, SolRead(0), Decide, rest, fee);
    LegalSteps(w, spend, SolNotice, [SolRead(0), Decide] + rest, fee);
    assert SolHalf(fee) + rest == [spend, SolNotice] + ([SolRead(0), Decide] + rest);
  }

  lemma TokenRound(w: World, rest: seq<Step>, fee: nat)
    requires w.auto && w.sol > THRESHOLD && w.tokenNotices > 0 && Legal(AfterToken(w), rest, fee)
    ensures Legal(w, TokenHalf() + rest, fee) && After(w, TokenHalf() + rest, fee) == After(AfterToken(w), rest, fee)
  {
    hide Legal, After;
    var w2 := Next(Next(w, TokenNotice, fee), TokenRead, fee);
    assert Next(w2, Decide, fee) == AfterToken(w);
    LegalStep(w2, Decide, rest, fee);
    LegalSteps(w, TokenNotice, TokenRead, [Decide] + rest, fee);
    assert TokenHalf() + rest == [TokenNotice, TokenRead] + ([Decide] + rest);
  }

  lemma RichNext(w: World, n: nat, fee: nat)
    requires Rich(w, n, fee) && n > 0
    ensures w.auto && w.readings == [] && w.balance > THRESHOLD + fee
    ensures Rich(AfterToken(AfterSol(w, fee)), n - 1, fee)
  {
    assert n * fee == (n - 1) * fee + fee && (n - 1) * fee >= 0;
  }

  /** The factor two is not slack: a rich enough user can see `n` landed transactions enqueue `2n` jobs. */
  lemma {:induction false} TwiceIsReached(w: World, n: nat, fee: nat)
    requires Rich(w, n, fee)
    ensures Legal(w, Rounds(n, fee), fee)
    ensures var v := After(w, Rounds(n, fee), fee);
      v.landed == w.landed + n && v.enqueued == w.enqueued + 2 * n
    decreases n
  {
    if n == 0 {
      assert Rounds(n, fee) == [];
    } else {
      hide Legal, After, SolHalf, TokenHalf, Rich;
      RichNext(w, n, fee);
      var v := AfterSol(w, fee);
      var rest := Rounds(n - 1, fee);
      TwiceIsReached(AfterToken(v), n - 1, fee);
      TokenRound(v, rest, fee);
      SolRound(w, TokenHalf() + rest, fee);
    }
  }
}
