/** The captcha failure counter and the API keys of launcher/server.js: Redis keys with a time to live.
    A key is live strictly before the instant it expires; times are in seconds. */
module Captcha {
  const FAIL_TTL := 3600
  const KEY_TTL := 7200

  // ---- the counter ----

  datatype Counter = Counter(count: nat, expires: int)

  type Counters = map<string, Counter>

  /** `parseInt(await redis.get(...)) || 0` */
  function Attempts(cs: Counters, ip: string, now: int): nat {
    if ip in cs && now < cs[ip].expires then cs[ip].count else 0
  }

  function Required(attempts: nat): nat { if attempts > 5 then 2 else 1 }

  /** One request through the middleware, taken as a whole. */
  datatype Check = NoToken(ip: string, at: int) | Failed(ip: string, at: int) | Passed(ip: string, at: int)

  /** INCR of a missing or expired key starts at one; EXPIRE restarts the hour; success deletes. */
  function Next(cs: Counters, c: Check): Counters {
    match c
    case NoToken(_, _) => cs
    case Failed(ip, at) => cs[ip := Counter(Attempts(cs, ip, at) + 1, at + FAIL_TTL)]
    case Passed(ip, _) => cs - {ip}
  }

  function Run(cs: Counters, history: seq<Check>): Counters {
    if history == [] then cs else Next(Run(cs, history[..|history| - 1]), history[|history| - 1])
  }

  datatype Reply = Solve(n: nat) | Admitted

  class Gate {
    var counters: Counters

    constructor ()
      ensures counters == map[]
    {
      counters := map[];
    }

    method Middleware(c: Check) returns (r: Reply)
      modifies this
      ensures counters == Next(old(counters), c)
      ensures r == if c.Passed? then Admitted else Solve(Required(Attempts(old(counters), c.ip, c.at)))
    {
      var attempts := Attempts(counters, c.ip, c.at);
      var required := if attempts > 5 then 2 else 1;
      if c.NoToken? { return Solve(required); }
      if c.Failed? {
        counters := counters[c.ip := Counter(attempts + 1, c.at + FAIL_TTL)];
        return Solve(required);
      }
      counters := counters - {c.ip};
      r := Admitted;
    }
  }

  // ---- what the history says ----

  /** Times of the failures from `ip` since its last success, oldest first. */
  function FailuresSince(history: seq<Check>, ip: string): seq<int> {
    if history == [] then [] else
    var front, c := history[..|history| - 1], history[|history| - 1];
    if c.ip != ip || c.NoToken? then FailuresSince(front, ip)
    else if c.Failed? then FailuresSince(front, ip) + [c.at]
    else []
  }

  /** The gap after failure `i`: to the next failure, or to `now`. */
  function Gap(fs: seq<int>, i: nat, now: int): int
    requires i < |fs|
  {
    (if i + 1 < |fs| then fs[i + 1] else now) - fs[i]
  }

  /** The last `n` failures form a chain: no gap in it, nor the time since its end, is an hour. */
  predicate Chain(fs: seq<int>, n: nat, now: int) {
    n <= |fs| && forall i: nat :: |fs| - n <= i < |fs| ==> Gap(fs, i, now) < 3600
  }

  /** `n` is the length of the longest such chain. */
  ghost predicate IsStreak(fs: seq<int>, n: nat, now: int) {
    Chain(fs, n, now) && (n < |fs| ==> !Chain(fs, n + 1, now))
  }

  /** Extending a chain by one failure further back. */
  lemma ChainStep(fs: seq<int>, t: int, n: nat, now: int)
    ensures now - t < FAIL_TTL && IsStreak(fs, n, t) ==> IsStreak(fs + [t], n + 1, now)
    ensures now - t >= FAIL_TTL ==> IsStreak(fs + [t], 0, now)
  {
    var gs := fs + [t];
    assert Gap(gs, |fs|, now) == now - t;
    forall i: nat | i < |fs| ensures Gap(gs, i, now) == Gap(fs, i, t) {
    }
    if now - t < FAIL_TTL && IsStreak(fs, n, t) {
      if n < |fs| {
        var i: nat :| |fs| - (n + 1) <= i < |fs| && !(Gap(fs, i, t) < FAIL_TTL);
        assert !(Gap(gs, i, now) < FAIL_TTL);
      }
      assert Chain(gs, n + 1, now);
    }
  }

  /** After any history, the counter is the length of the longest chain of recent failures. */
  lemma {:induction false} CounterIsStreak(history: seq<Check>, ip: string, now: int)
    ensures IsStreak(FailuresSince(history, ip), Attempts(Run(map[], history), ip, now), now)
  {
    if history != [] {
      var front, c := history[..|history| - 1], history[|history| - 1];
      if c.ip == ip && c.Failed? {
        CounterIsStreak(front, ip, c.at);
        ChainStep(FailuresSince(front, ip), c.at, Attempts(Run(map[], front), ip, c.at), now);
      } else {
        CounterIsStreak(front, ip, now);
      }
    }
  }

  /** Two captchas are asked for exactly if more than five failures since the last success form an
      unbroken chain up to now. */
  lemma TwoRequiredIff(history: seq<Check>, ip: string, now: int)
    ensures Required(Attempts(Run(map[], history), ip, now)) == 2 <==> Chain(FailuresSince(history, ip), 6, now)
  {
    var fs, n := FailuresSince(history, ip), Attempts(Run(map[], history), ip, now);
    CounterIsStreak(history, ip, now);
    if n > 5 {
      ChainShrinks(fs, n, 6, now);
    } else if Chain(fs, 6, now) {
      ChainShrinks(fs, 6, n + 1, now);
    }
  }

  lemma ChainShrinks(fs: seq<int>, m: nat, n: nat, now: int)
    requires n <= m && Chain(fs, m, now)
    ensures Chain(fs, n, now)
  {
  }

  // ---- API keys ----

  datatype Issue = Issue(user: string, key: string, at: int)

  datatype Stored = Stored(key: string, expires: int)

  /** `SET apikey:<user> key EX 7200`, over and over. */
  function Keys(history: seq<Issue>): map<string, Stored> {
    if history == [] then map[] else
    var i := history[|history| - 1];
    Keys(history[..|history| - 1])[i.user := Stored(i.key, i.at + KEY_TTL)]
  }

  predicate Accepts(keys: map<string, Stored>, user: string, key: string, now: int) {
    user != "" && key != "" && user in keys && now < keys[user].expires && keys[user].key == key
  }

  /** Issue `i` is the last one to `user`. */
  predicate IsLastTo(history: seq<Issue>, i: nat, user: string) {
    i < |history| && history[i].user == user && forall j :: i < j < |history| ==> history[j].user != user
  }

  lemma {:induction false} LastIssueStored(history: seq<Issue>, i: nat, user: string)
    requires IsLastTo(history, i, user)
    ensures user in Keys(history) && Keys(history)[user] == Stored(history[i].key, history[i].at + KEY_TTL)
  {
    if i + 1 < |history| { LastIssueStored(history[..|history| - 1], i, user); }
  }

  lemma {:induction false} NeverIssued(history: seq<Issue>, user: string)
    requires forall i :: 0 <= i < |history| ==> history[i].user != user
    ensures user !in Keys(history)
  {
    if history != [] { NeverIssued(history[..|history| - 1], user); }
  }

  /** A key is accepted exactly if it is the last one issued to that user and two hours are not over;
      a user who was never issued one has none that is accepted. */
  lemma AcceptedIffLastIssued(history: seq<Issue>, user: string, key: string, now: int)
    ensures forall i: nat :: IsLastTo(history, i, user) ==>
      (Accepts(Keys(history), user, key, now) <==>
         user != "" && key != "" && key == history[i].key && now < history[i].at + 7200)
    ensures (forall i :: 0 <= i < |history| ==> history[i].user != user) ==> !Accepts(Keys(history), user, key, now)
  {
    forall i: nat | IsLastTo(history, i, user)
      ensures Accepts(Keys(history), user, key, now) <==>
        user != "" && key != "" && key == history[i].key && now < history[i].at + 7200
    {
      LastIssueStored(history, i, user);
    }
    if forall i :: 0 <= i < |history| ==> history[i].user != user { NeverIssued(history, user); }
  }
}
