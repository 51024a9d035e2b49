/** The bubble firewall of firewall.js: hit points that incidents take and quiet time gives back. */
module Firewall {
  /** Times in milliseconds. */
  datatype Config = Config(maxHp: real, healRate: real, healInterval: int, barLen: nat, autoExit: bool)

  predicate Sane(cfg: Config) { cfg.maxHp > 0.0 && cfg.healRate > 0.0 && cfg.healInterval > 0 }

  function Min(a: real, b: real): real { if a <= b then a else b }
  function Max(a: real, b: real): real { if a >= b then a else b }

  datatype State = State(hp: real, last: int)

  datatype Event = Incident(weight: real, at: int) | Tick(at: int)

  /** `record`, up to its first `await`. */
  function Recorded(s: State, weight: real, at: int): State { State(Max(0.0, s.hp - weight), at) }

  predicate Quiet(cfg: Config, last: int, at: int) { at - last > cfg.healInterval }

  /** The auto-heal interval. */
  function Healed(cfg: Config, s: State, at: int): State {
    if Quiet(cfg, s.last, at) && s.hp < cfg.maxHp then s.(hp := Min(cfg.maxHp, s.hp + cfg.healRate)) else s
  }

  function Next(cfg: Config, s: State, e: Event): State {
    match e
    case Incident(w, at) => Recorded(s, w, at)
    case Tick(at) => Healed(cfg, s, at)
  }

  function Run(cfg: Config, s: State, es: seq<Event>): State
    decreases |es|
  {
    if es == [] then s else Run(cfg, Next(cfg, s, es[0]), es[1..])
  }

  predicate Weighted(es: seq<Event>) { forall i :: 0 <= i < |es| && es[i].Incident? ==> es[i].weight > 0.0 }

  // ---- clamped shifts ----

  /** `x -> max(lo, min(hi, x + d))` */
  datatype Shift = Shift(lo: real, hi: real, d: real)

  predicate Proper(f: Shift) { f.lo <= f.hi }

  function Apply(f: Shift, x: real): real { Max(f.lo, Min(f.hi, x + f.d)) }

  /** First `f`, then `g`, as one clamped shift. */
  function Merge(f: Shift, g: Shift): Shift { Shift(Apply(g, f.lo), Apply(g, f.hi), f.d + g.d) }

  lemma MergeComposes(f: Shift, g: Shift, x: real)
    requires Proper(f) && Proper(g)
    ensures Proper(Merge(f, g)) && Apply(Merge(f, g), x) == Apply(g, Apply(f, x))
  {
  }

  lemma MergeAssociative(f: Shift, g: Shift, h: Shift)
    requires Proper(f) && Proper(g) && Proper(h)
    ensures Merge(Merge(f, g), h) == Merge(f, Merge(g, h))
  {
    MergeComposes(g, h, f.lo);
    MergeComposes(g, h, f.hi);
  }

  // ---- a run is one clamped shift ----

  function After(last: int, e: Event): int { if e.Incident? then e.at else last }

  function LastAfter(last: int, es: seq<Event>): int
    decreases |es|
  {
    if es == [] then last else LastAfter(After(last, es[0]), es[1..])
  }

  /** What one event does to HP does not depend on HP. */
  function Summary(cfg: Config, last: int, e: Event): Shift {
    match e
    case Incident(w, _) => Shift(0.0, cfg.maxHp, -w)
    case Tick(at) => Shift(0.0, cfg.maxHp, if Quiet(cfg, last, at) then cfg.healRate else 0.0)
  }

  /** The merge of the summaries of the events; of no event, the shift by nothing. */
  function Summaries(cfg: Config, last: int, es: seq<Event>): Shift
    decreases |es|
  {
    if es == [] then Shift(0.0, cfg.maxHp, 0.0)
    else if |es| == 1 then Summary(cfg, last, es[0])
    else Merge(Summary(cfg, last, es[0]), Summaries(cfg, After(last, es[0]), es[1..]))
  }

  lemma {:induction false} SummariesProper(cfg: Config, last: int, es: seq<Event>)
    requires Sane(cfg)
    ensures var f := Summaries(cfg, last, es); 0.0 <= f.lo <= f.hi <= cfg.maxHp
    decreases |es|
  {
    if |es| > 1 {
      SummariesProper(cfg, After(last, es[0]), es[1..]);
    }
  }

  /** The effect of any run on HP is the single clamped shift merged from its events. */
  lemma {:induction false} RunIsShift(cfg: Config, s: State, es: seq<Event>)
    requires Sane(cfg) && 0.0 <= s.hp <= cfg.maxHp && Weighted(es)
    ensures var end := Run(cfg, s, es);
      && end.hp == Apply(Summaries(cfg, s.last, es), s.hp) && 0.0 <= end.hp <= cfg.maxHp
      && end.last == LastAfter(s.last, es)
    decreases |es|
  {
    if es != [] {
      var f, g := Summary(cfg, s.last, es[0]), Summaries(cfg, After(s.last, es[0]), es[1..]);
      assert Next(cfg, s, es[0]).hp == Apply(f, s.hp);
      RunIsShift(cfg, Next(cfg, s, es[0]), es[1..]);
      SummariesProper(cfg, After(s.last, es[0]), es[1..]);
      MergeComposes(f, g, s.hp);
      if |es| == 1 { assert es[1..] == []; }
    }
  }

  /** Summaries of consecutive stretches merge into the summary of the whole. */
  lemma {:induction false} SummariesMerge(cfg: Config, last: int, a: seq<Event>, b: seq<Event>)
    requires Sane(cfg) && a != [] && b != []
    ensures Summaries(cfg, last, a + b) == Merge(Summaries(cfg, last, a), Summaries(cfg, LastAfter(last, a), b))
    decreases |a|
  {
    assert (a + b)[0] == a[0] && (a + b)[1..] == a[1..] + b;
    var last' := After(last, a[0]);
    if |a| == 1 {
      assert a[1..] + b == b && LastAfter(last', a[1..]) == last';
    } else {
      SummariesMerge(cfg, last', a[1..], b);
      SummariesProper(cfg, last', a[1..]);
      SummariesProper(cfg, LastAfter(last, a), b);
      MergeAssociative(Summary(cfg, last, a[0]), Summaries(cfg, last', a[1..]), Summaries(cfg, LastAfter(last, a), b));
    }
  }

  // ---- without healing ----

  function Total(es: seq<Event>): real {
    if es == [] then 0.0 else (if es[0].Incident? then es[0].weight else 0.0) + Total(es[1..])
  }

  /** Every tick falls within the heal interval of the latest incident. */
  predicate NeverQuiet(cfg: Config, last: int, es: seq<Event>)
    decreases |es|
  {
    es == [] || ((es[0].Tick? ==> !Quiet(cfg, last, es[0].at)) && NeverQuiet(cfg, After(last, es[0]), es[1..]))
  }

  /** If no tick can heal, HP is what the weights have left of it, never below zero. */
  lemma {:induction false} HpIsWhatIsLeft(cfg: Config, s: State, es: seq<Event>)
    requires Sane(cfg) && 0.0 <= s.hp <= cfg.maxHp && Weighted(es) && NeverQuiet(cfg, s.last, es)
    ensures Total(es) >= 0.0 && Run(cfg, s, es).hp == Max(0.0, s.hp - Total(es))
    decreases |es|
  {
    if es != [] { HpIsWhatIsLeft(cfg, Next(cfg, s, es[0]), es[1..]); }
  }

  /** Ticks, one after the other, at these times. */
  function Ticks(times: seq<int>): (es: seq<Event>)
    ensures |es| == |times|
  {
    seq(|times|, i requires 0 <= i < |times| => Tick(times[i]))
  }

  /** Without further incidents, every tick after the heal interval gives back the heal rate, up to the maximum. */
  lemma {:induction false} QuietTicksHeal(cfg: Config, s: State, times: seq<int>)
    requires Sane(cfg) && 0.0 <= s.hp <= cfg.maxHp
    requires forall i :: 0 <= i < |times| ==> times[i] - s.last > cfg.healInterval
    ensures Run(cfg, s, Ticks(times)).hp == Min(cfg.maxHp, s.hp + |times| as real * cfg.healRate)
    decreases |times|
  {
    if times != [] {
      var next, rest := Next(cfg, s, Tick(times[0])), times[1..];
      assert Ticks(times)[1..] == Ticks(rest);
      QuietTicksHeal(cfg, next, rest);
      assert |times| as real * cfg.healRate == |rest| as real * cfg.healRate + cfg.healRate;
      assert |rest| as real * cfg.healRate >= 0.0;
    }
  }

  // ---- the bar ----

  /** `Math.round`. */
  function Round(x: real): int { (x + 0.5).Floor }

  function Cells(n: nat, c: char): (s: string)
    ensures |s| == n && forall i :: 0 <= i < n ==> s[i] == c
  {
    seq(n, i => c)
  }

  lemma FilledFits(cfg: Config, hp: real)
    requires Sane(cfg) && 0.0 <= hp <= cfg.maxHp
    ensures 0 <= Round(hp / cfg.maxHp * cfg.barLen as real) <= cfg.barLen
    ensures var x := hp / cfg.maxHp * cfg.barLen as real; -0.5 < Round(x) as real - x <= 0.5
  {
    assert 0.0 <= hp / cfg.maxHp <= 1.0;
    assert 0.0 <= hp / cfg.maxHp * cfg.barLen as real <= cfg.barLen as real;
  }

  /** The cells of `bar()`: exactly `barLen` of them, filled ones first. */
  function Bar(cfg: Config, hp: real): (s: string)
    requires Sane(cfg) && 0.0 <= hp <= cfg.maxHp
    ensures |s| == cfg.barLen
    ensures var filled := Round(hp / cfg.maxHp * cfg.barLen as real);
      forall i :: 0 <= i < |s| ==> s[i] == if i < filled then '\U{2588}' else ' '
  {
    FilledFits(cfg, hp);
    var filled := Round(hp / cfg.maxHp * cfg.barLen as real);
    Cells(filled, '\U{2588}') + Cells(cfg.barLen - filled, ' ')
  }

  // ---- shutting down under interleaving ----

  /** `inflight` holds the issue times of the publishes that incidents are waiting for. */
  datatype Process = Process(fw: State, inflight: seq<int>, exited: bool)

  datatype Step = Hit(weight: real, at: int) | Published(k: nat, at: int) | HealTick(at: int)

  /** One atomic step, from `await` to `await`: a publish that resolves finds HP as it is then. */
  function Taken(cfg: Config, p: Process, step: Step): Process {
    if p.exited then p else
    match step
    case Hit(w, at) => Process(Recorded(p.fw, w, at), p.inflight + [at], false)
    case HealTick(at) => p.(fw := Healed(cfg, p.fw, at))
    case Published(k, at) =>
      if k >= |p.inflight| then p
      else Process(p.fw, p.inflight[..k] + p.inflight[k + 1..], p.fw.hp == 0.0 && cfg.autoExit)
  }

  function TakenAll(cfg: Config, p: Process, steps: seq<Step>): Process
    decreases |steps|
  {
    if steps == [] then p else TakenAll(cfg, Taken(cfg, p, steps[0]), steps[1..])
  }

  /** No publish is outstanding for longer than the heal interval, and weights are positive. */
  predicate Timely(cfg: Config, p: Process, steps: seq<Step>)
    decreases |steps|
  {
    steps == [] || (
      && (forall i :: 0 <= i < |p.inflight| ==> steps[0].at <= p.inflight[i] + cfg.healInterval)
      && (steps[0].Hit? ==> steps[0].weight > 0.0)
      && Timely(cfg, Taken(cfg, p, steps[0]), steps[1..]))
  }

  /** At zero HP the publish of the latest incident is still outstanding, or the process is gone. */
  predicate Doomed(p: Process) { p.fw.hp == 0.0 && (p.exited || p.fw.last in p.inflight) }

  predicate Consistent(p: Process) { p.fw.hp == 0.0 ==> Doomed(p) }

  lemma StepStaysConsistent(cfg: Config, p: Process, step: Step)
    requires Sane(cfg) && cfg.autoExit && Consistent(p) && p.fw.hp >= 0.0
    requires forall i :: 0 <= i < |p.inflight| ==> step.at <= p.inflight[i] + cfg.healInterval
    requires step.Hit? ==> step.weight > 0.0
    ensures var q := Taken(cfg, p, step); Consistent(q) && q.fw.hp >= 0.0 && (p.fw.hp == 0.0 ==> q.fw.hp == 0.0)
  {
    var q := Taken(cfg, p, step);
    if !p.exited && step.Hit? {
      assert q.inflight[|p.inflight|] == step.at;
    }
  }

  // ---- exactly when zero is final ----

  /** Until the process has exited, no tick comes later than the heal interval after the latest incident. */
  predicate NoHealBeforeExit(cfg: Config, p: Process, steps: seq<Step>)
    decreases |steps|
  {
    steps == [] || p.exited || (
      && !(steps[0].HealTick? && Quiet(cfg, p.fw.last, steps[0].at))
      && NoHealBeforeExit(cfg, Taken(cfg, p, steps[0]), steps[1..]))
  }

  predicate PositiveHits(steps: seq<Step>) { forall i :: 0 <= i < |steps| && steps[i].Hit? ==> steps[i].weight > 0.0 }

  /** HP is zero now and after every further step. */
  predicate StaysAtZero(cfg: Config, p: Process, steps: seq<Step>) {
    forall n :: 0 <= n <= |steps| ==> TakenAll(cfg, p, steps[..n]).fw.hp == 0.0
  }

  lemma StaysAtZeroStep(cfg: Config, p: Process, steps: seq<Step>)
    requires steps != []
    ensures StaysAtZero(cfg, p, steps) <==> p.fw.hp == 0.0 && StaysAtZero(cfg, Taken(cfg, p, steps[0]), steps[1..])
  {
    var q, rest := Taken(cfg, p, steps[0]), steps[1..];
    assert steps[..0] == [];
    forall n | 0 <= n <= |rest| ensures TakenAll(cfg, p, steps[..n + 1]) == TakenAll(cfg, q, rest[..n]) {
      assert steps[..n + 1][0] == steps[0] && steps[..n + 1][1..] == rest[..n];
    }
    if StaysAtZero(cfg, p, steps) {
      assert TakenAll(cfg, p, steps[..0]) == p;
      forall n | 0 <= n <= |rest| ensures TakenAll(cfg, q, rest[..n]).fw.hp == 0.0 {
        assert TakenAll(cfg, p, steps[..n + 1]).fw.hp == 0.0;
      }
    }
    if p.fw.hp == 0.0 && StaysAtZero(cfg, q, rest) {
      forall n | 0 <= n <= |steps| ensures TakenAll(cfg, p, steps[..n]).fw.hp == 0.0 {
        if n > 0 { assert TakenAll(cfg, q, rest[..n - 1]).fw.hp == 0.0; }
      }
    }
  }

  lemma {:induction false} ExitedStays(cfg: Config, p: Process, steps: seq<Step>)
    requires p.exited
    ensures TakenAll(cfg, p, steps) == p
    decreases |steps|
  {
    if steps != [] { ExitedStays(cfg, p, steps[1..]); }
  }

  /** Once HP is 0 it stays 0 over a whole run if and only if no quiet tick comes before the exit, whatever the
      publishes do and whether or not the process is set to exit. */
  lemma {:induction false} ZeroIsFinalIff(cfg: Config, p: Process, steps: seq<Step>)
    requires Sane(cfg) && p.fw.hp == 0.0 && PositiveHits(steps)
    ensures StaysAtZero(cfg, p, steps) <==> NoHealBeforeExit(cfg, p, steps)
    decreases |steps|
  {
    if steps == [] {
      assert steps[..0] == [];
    } else if p.exited {
      forall n | 0 <= n <= |steps| { ExitedStays(cfg, p, steps[..n]); }
    } else {
      StaysAtZeroStep(cfg, p, steps);
      var q, rest := Taken(cfg, p, steps[0]), steps[1..];
      if steps[0].HealTick? && Quiet(cfg, p.fw.last, steps[0].at) {
        NotAtZero(cfg, q, rest);
      } else {
        ZeroIsFinalIff(cfg, q, rest);
      }
    }
  }

  lemma NotAtZero(cfg: Config, p: Process, steps: seq<Step>)
    requires p.fw.hp != 0.0
    ensures !StaysAtZero(cfg, p, steps)
  {
    assert steps[..0] == [];
    assert TakenAll(cfg, p, steps[..0]) == p;
  }

  lemma {:induction false} RunStaysConsistent(cfg: Config, p: Process, steps: seq<Step>)
    requires Sane(cfg) && cfg.autoExit && Timely(cfg, p, steps) && Consistent(p) && p.fw.hp >= 0.0
    ensures Consistent(TakenAll(cfg, p, steps)) && TakenAll(cfg, p, steps).fw.hp >= 0.0 && PositiveHits(steps)
    decreases |steps|
  {
    if steps != [] {
      StepStaysConsistent(cfg, p, steps[0]);
      RunStaysConsistent(cfg, Taken(cfg, p, steps[0]), steps[1..]);
      forall i | 0 <= i < |steps| && steps[i].Hit? ensures steps[i].weight > 0.0 {
        if i > 0 { assert steps[i] == steps[1..][i - 1]; }
      }
    }
  }

  /** While every publish resolves within the heal interval, the outstanding one keeps every tick from being quiet. */
  lemma {:induction false} TimelyNeverHeals(cfg: Config, p: Process, steps: seq<Step>)
    requires Sane(cfg) && cfg.autoExit && Timely(cfg, p, steps) && Doomed(p)
    ensures NoHealBeforeExit(cfg, p, steps)
    decreases |steps|
  {
    if steps != [] && !p.exited {
      StepStaysConsistent(cfg, p, steps[0]);
      TimelyNeverHeals(cfg, Taken(cfg, p, steps[0]), steps[1..]);
    }
  }

  /** With auto-exit on and timely publishes: once HP is 0 it is 0 at every later step, until and when
      the process exits, however many incidents are in flight. */
  lemma ZeroIsFinal(cfg: Config, p: Process, steps: seq<Step>)
    requires Sane(cfg) && cfg.autoExit && Timely(cfg, p, steps) && Consistent(p) && p.fw.hp >= 0.0
    ensures var q := TakenAll(cfg, p, steps);
      && Consistent(q) && q.fw.hp >= 0.0 && (p.fw.hp == 0.0 ==> StaysAtZero(cfg, p, steps) && Doomed(q))
  {
    RunStaysConsistent(cfg, p, steps);
    if p.fw.hp == 0.0 {
      TimelyNeverHeals(cfg, p, steps);
      ZeroIsFinalIff(cfg, p, steps);
      assert steps[..|steps|] == steps;
    }
  }

  /** A process that is not set to exit never does, whatever its HP. */
  lemma {:induction false} NoExitUnlessSet(cfg: Config, p: Process, steps: seq<Step>)
    requires !cfg.autoExit && !p.exited
    ensures !TakenAll(cfg, p, steps).exited
    decreases |steps|
  {
    if steps != [] { NoExitUnlessSet(cfg, Taken(cfg, p, steps[0]), steps[1..]); }
  }

  predicate Started(cfg: Config, p: Process) { p.fw.hp == cfg.maxHp && p.inflight == [] && !p.exited }

  lemma {:induction false} TimelySplits(cfg: Config, p: Process, a: seq<Step>, b: seq<Step>)
    requires Timely(cfg, p, a + b)
    ensures Timely(cfg, p, a) && Timely(cfg, TakenAll(cfg, p, a), b)
    ensures TakenAll(cfg, p, a + b) == TakenAll(cfg, TakenAll(cfg, p, a), b)
    decreases |a|
  {
    if a == [] {
      assert a + b == b;
    } else {
      assert (a + b)[0] == a[0] && (a + b)[1..] == a[1..] + b;
      TimelySplits(cfg, Taken(cfg, p, a[0]), a[1..], b);
    }
  }

  /** From start-up on, over every interleaving: after HP has reached 0 no later step sees it above 0,
      and the next publish to resolve ends the process. */
  lemma ExitIsCertain(cfg: Config, p: Process, a: seq<Step>, b: seq<Step>)
    requires Sane(cfg) && cfg.autoExit && Started(cfg, p) && Timely(cfg, p, a + b)
    requires TakenAll(cfg, p, a).fw.hp == 0.0
    ensures var q := TakenAll(cfg, p, a + b);
      && q.fw.hp == 0.0 && (q.exited || q.inflight != [])
      && forall k: nat, at :: k < |q.inflight| ==> Taken(cfg, q, Published(k, at)).exited
  {
    TimelySplits(cfg, p, a, b);
    ZeroIsFinal(cfg, p, a);
    ZeroIsFinal(cfg, TakenAll(cfg, p, a), b);
  }

  /** The timing matters: if a publish takes longer than the heal interval, a tick can lift HP off zero
      first and the process lives on. */
  lemma LatePublishEscapes(cfg: Config, w: real, start: int)
    requires Sane(cfg) && w >= cfg.maxHp
    ensures var p := Process(State(cfg.maxHp, start), [], false);
      var late := start + cfg.healInterval + 1;
      var q := TakenAll(cfg, p, [Hit(w, start), HealTick(late), Published(0, late)]);
      TakenAll(cfg, p, [Hit(w, start)]).fw.hp == 0.0 && !q.exited && q.fw.hp > 0.0 && q.inflight == []
  {
    var p := Process(State(cfg.maxHp, start), [], false);
    var late := start + cfg.healInterval + 1;
    var hit, tick, published := Hit(w, start), HealTick(late), Published(0, late);
    var steps := [hit, tick, published];
    assert steps[1..] == [tick, published] && steps[1..][1..] == [published] && [published][1..] == [];
    assert [hit][1..] == [];
    var p1 := Taken(cfg, p, hit);
    assert p1.fw.hp == 0.0 && p1.inflight == [start];
    var p2 := Taken(cfg, p1, tick);
    assert p2.fw.hp > 0.0 && p2.inflight == [start];
    var p3 := Taken(cfg, p2, published);
    assert p3.inflight == [];
    assert TakenAll(cfg, p, steps) == TakenAll(cfg, p1, [tick, published]) == TakenAll(cfg, p2, [published]) == p3;
  }

  // ---- the module's own state ----

  class Bubble {
    const cfg: Config
    var hp: real
    var lastIncident: int
    var inflight: seq<int>
    var exited: bool

    constructor (cfg: Config, now: int)
      requires Sane(cfg)
      ensures this.cfg == cfg && Started(cfg, Now()) && lastIncident == now
    {
      this.cfg := cfg;
      hp, lastIncident, inflight, exited := cfg.maxHp, now, [], false;
    }

    function Now(): Process
      reads this
    {
      Process(State(hp, lastIncident), inflight, exited)
    }

    method Record(weight: real, now: int)
      requires !exited
      modifies this
      ensures Now() == Taken(cfg, old(Now()), Hit(weight, now))
    {
      hp := if hp - weight >= 0.0 then hp - weight else 0.0;
      lastIncident := now;
      inflight := inflight + [now];
    }

    method Resume(k: nat, now: int)
      requires !exited && k < |inflight|
      modifies this
      ensures Now() == Taken(cfg, old(Now()), Published(k, now))
    {
      inflight := inflight[..k] + inflight[k + 1..];
      if hp == 0.0 && cfg.autoExit { exited := true; }
    }

    method AutoHeal(now: int)
      requires !exited
      modifies this
      ensures Now() == Taken(cfg, old(Now()), HealTick(now))
    {
      if now - lastIncident > cfg.healInterval && hp < cfg.maxHp {
        hp := if hp + cfg.healRate <= cfg.maxHp then hp + cfg.healRate else cfg.maxHp;
      }
    }
  }
}
