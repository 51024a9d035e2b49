/** The quote cache of utils-solana.js: any number of callers of `quoteSOLto` interleave between their
    awaits and share Redis keys that live for 60 seconds. A key is live strictly before the instant it
    expires; times are in seconds. */
module QuoteCache {
  import opened Text

  const CACHE_TTL := 60

  /** An amount of lamports as JavaScript prints a number: whole or not, with an exponent or not, or `NaN`; never with
      a colon. */
  type Amount = s: string | ':' !in s witness "0"

  /** `quote:${mint}:${lamports}` */
  function Key(mint: string, lamports: Amount): string { ("quote:" + mint) + [':'] + lamports }

  datatype Slot = Slot(route: string, expires: int)

  /** A caller waits for the cache, then for the feed, then for the store, and then to be resumed. */
  datatype Phase = Looking | Fetching | Storing(route: string, fetched: int) | Answered(r: Result) | Over

  datatype Caller = Caller(mint: string, lamports: Amount, phase: Phase)

  datatype Fetch = Fetch(mint: string, lamports: Amount, at: int, answer: Option<string>)
  datatype Store = Store(mint: string, lamports: Amount, route: string, fetched: int, at: int)

  /** What a caller will return, decided when Redis or the feed served it. */
  datatype Result = Result(mint: string, lamports: Amount, route: Option<string>, at: int)

  /** A result, and when its caller was resumed to return it. */
  datatype Returned = Returned(r: Result, at: int)

  /** Cache and callers, the clock, and what has been fetched, stored, decided and returned so far. */
  datatype State = State(
    slots: map<string, Slot>,
    callers: map<nat, Caller>,
    now: int,
    fetches: set<Fetch>,
    stores: set<Store>,
    results: set<Result>,
    returned: set<Returned>)

  datatype Step =
    | Call(id: nat, mint: string, lamports: Amount, at: int)
    | CacheReplies(id: nat, at: int)
    | FeedReplies(id: nat, answer: Option<string>, at: int)
    | StoreReplies(id: nat, at: int)
    | Resumes(id: nat, at: int)

  function Answer(st: State, id: nat, route: Option<string>, at: int): State
    requires id in st.callers
  {
    var c := st.callers[id];
    var r := Result(c.mint, c.lamports, route, at);
    st.(callers := st.callers[id := c.(phase := Answered(r))], results := st.results + {r})
  }

  function Hit(slots: map<string, Slot>, key: string, at: int): Option<string> {
    if key in slots && at < slots[key].expires then Some(slots[key].route) else None
  }

  /** A step out of turn, or back in time, does nothing. */
  function Next(st: State, step: Step): State {
    if step.at < st.now then st else
    var st := st.(now := step.at);
    match step
    case Call(id, mint, lamports, _) =>
      if id in st.callers then st else st.(callers := st.callers[id := Caller(mint, lamports, Looking)])
    case CacheReplies(id, at) =>
      if id !in st.callers || !st.callers[id].phase.Looking? then st else
      var c := st.callers[id];
      var hit := Hit(st.slots, Key(c.mint, c.lamports), at);
      if hit.Some? then Answer(st, id, hit, at) else st.(callers := st.callers[id := c.(phase := Fetching)])
    case FeedReplies(id, answer, at) =>
      if id !in st.callers || !st.callers[id].phase.Fetching? then st else
      var c := st.callers[id];
      var st' := st.(fetches := st.fetches + {Fetch(c.mint, c.lamports, at, answer)});
      if answer.None? then Answer(st', id, None, at)
      else st'.(callers := st.callers[id := c.(phase := Storing(answer.value, at))])
    case StoreReplies(id, at) =>
      if id !in st.callers || !st.callers[id].phase.Storing? then st else
      var c := st.callers[id];
      var route := c.phase.route;
      Answer(st.(slots := st.slots[Key(c.mint, c.lamports) := Slot(route, at + CACHE_TTL)],
                 stores := st.stores + {Store(c.mint, c.lamports, route, c.phase.fetched, at)}),
             id, Some(route), at)
    case Resumes(id, at) =>
      if id !in st.callers || !st.callers[id].phase.Answered? then st else
      var c := st.callers[id];
      st.(callers := st.callers[id := c.(phase := Over)], returned := st.returned + {Returned(c.phase.r, at)})
  }

  function Run(st: State, steps: seq<Step>): State {
    if steps == [] then st else Next(Run(st, steps[..|steps| - 1]), steps[|steps| - 1])
  }

  function Empty(now: int): State { State(map[], map[], now, {}, {}, {}, {}) }

  // ---- keys ----

  /** A key names one mint and one amount; the last colon separates them, so any mint will do. */
  lemma KeyInjective(m1: string, l1: Amount, m2: string, l2: Amount)
    requires Key(m1, l1) == Key(m2, l2)
    ensures m1 == m2 && l1 == l2
  {
    var p1, p2, k := "quote:" + m1, "quote:" + m2, Key(m1, l1);
    LastIndexOfBefore(p1, ':', l1);
    LastIndexOfBefore(p2, ':', l2);
    assert k[..|p1|] == p1 && k[..|p2|] == p2;
    assert p1[6..] == m1 && p2[6..] == m2;
    assert k[|p1| + 1..] == l1 && k[|p2| + 1..] == l2;
  }

  // ---- where cached routes come from ----

  /** A store stores what the feed answered that caller, not before it answered. */
  predicate Honest(st: State, s: Store) {
    Fetch(s.mint, s.lamports, s.fetched, Some(s.route)) in st.fetches && s.fetched <= s.at <= st.now
  }

  /** The slot was last written by store `s`. */
  predicate WrittenBy(key: string, slot: Slot, s: Store) {
    Key(s.mint, s.lamports) == key && s.route == slot.route && s.at + CACHE_TTL == slot.expires
  }

  ghost predicate SlotKnown(st: State, key: string) {
    key in st.slots ==> exists s :: s in st.stores && WrittenBy(key, st.slots[key], s)
  }

  predicate CallerKnown(st: State, id: nat) {
    id in st.callers && st.callers[id].phase.Storing? ==>
      var c := st.callers[id];
      Fetch(c.mint, c.lamports, c.phase.fetched, Some(c.phase.route)) in st.fetches && c.phase.fetched <= st.now
  }

  /** The result is the feed's answer for that mint and amount, stored less than 60 s before. */
  predicate Backs(st: State, r: Result, s: Store) {
    && s.mint == r.mint && s.lamports == r.lamports && Some(s.route) == r.route
    && s.at <= r.at < s.at + 60
  }

  ghost predicate ResultKnown(st: State, r: Result) {
    if r.route.Some? then exists s :: s in st.stores && Backs(st, r, s)
    else Fetch(r.mint, r.lamports, r.at, None) in st.fetches
  }

  ghost predicate Inv(st: State) {
    && (forall s :: s in st.stores ==> Honest(st, s))
    && (forall key :: SlotKnown(st, key))
    && (forall id :: CallerKnown(st, id))
    && (forall r :: r in st.results ==> ResultKnown(st, r) && r.at <= st.now)
  }

  /** What is known stays known as the record grows. */
  predicate Grows(st: State, st': State) {
    st.fetches <= st'.fetches && st.stores <= st'.stores && st.now <= st'.now
  }

  lemma KnownStays(st: State, st': State, r: Result)
    requires Grows(st, st') && ResultKnown(st, r)
    ensures ResultKnown(st', r)
  {
    if r.route.Some? {
      var s :| s in st.stores && Backs(st, r, s);
      assert s in st'.stores && Backs(st', r, s);
    }
  }

  lemma SlotStays(st: State, st': State, key: string)
    requires Grows(st, st') && SlotKnown(st, key)
    requires key in st.slots && key in st'.slots && st'.slots[key] == st.slots[key]
    ensures SlotKnown(st', key)
  {
    var s :| s in st.stores && WrittenBy(key, st.slots[key], s);
    assert s in st'.stores && WrittenBy(key, st'.slots[key], s);
  }

  /** A live slot answers with a route the feed gave for this very mint and amount. */
  lemma HitIsBacked(st: State, mint: string, lamports: Amount, at: int) returns (s: Store)
    requires Inv(st) && st.now <= at && Hit(st.slots, Key(mint, lamports), at).Some?
    ensures s in st.stores && Backs(st, Result(mint, lamports, Hit(st.slots, Key(mint, lamports), at), at), s)
  {
    hide Key;
    var key := Key(mint, lamports);
    assert SlotKnown(st, key);
    s :| s in st.stores && WrittenBy(key, st.slots[key], s);
    KeyInjective(s.mint, s.lamports, mint, lamports);
    assert Honest(st, s);
  }

  /** Enough to keep the invariant: old knowledge is kept, and what is new is justified. */
  lemma InvFrom(st: State, st': State)
    requires Inv(st) && Grows(st, st')
    requires forall s :: s in st'.stores && s !in st.stores ==> Honest(st', s)
    requires forall key :: key in st'.slots && !(key in st.slots && st'.slots[key] == st.slots[key]) ==>
      SlotKnown(st', key)
    requires forall id :: CallerKnown(st', id)
    requires forall r :: r in st'.results && r !in st.results ==> ResultKnown(st', r) && r.at <= st'.now
    ensures Inv(st')
  {
    hide WrittenBy, Backs;
    forall s | s in st'.stores ensures Honest(st', s) {
      if s in st.stores { assert Honest(st, s); }
    }
    forall key ensures SlotKnown(st', key) {
      if key in st'.slots && key in st.slots && st'.slots[key] == st.slots[key] {
        assert SlotKnown(st, key);
        SlotStays(st, st', key);
      }
    }
    forall r | r in st'.results ensures ResultKnown(st', r) && r.at <= st'.now {
      if r in st.results { KnownStays(st, st', r); }
    }
  }

  lemma CacheStep(st: State, id: nat, at: int)
    requires Inv(st) && st.now <= at
    ensures Inv(Next(st, CacheReplies(id, at)))
  {
    hide Key, Inv;
    var st' := Next(st, CacheReplies(id, at));
    CallersKept(st, st', id);
    if id in st.callers && st.callers[id].phase.Looking? {
      var c := st.callers[id];
      var hit := Hit(st.slots, Key(c.mint, c.lamports), at);
      if hit.Some? {
        var s := HitIsBacked(st, c.mint, c.lamports, at);
        assert Backs(st', Result(c.mint, c.lamports, hit, at), s);
      }
    }
    InvFrom(st, st');
  }

  /** A caller that is not left storing needs no justification; the others keep theirs. */
  lemma CallersKept(st: State, st': State, id: nat)
    requires Inv(st) && Grows(st, st')
    requires forall j :: j != id && j in st'.callers ==> j in st.callers && st'.callers[j] == st.callers[j]
    requires id in st'.callers ==>
      !st'.callers[id].phase.Storing? || (id in st.callers && st'.callers[id] == st.callers[id])
    ensures forall j :: CallerKnown(st', j)
  {
    forall j ensures CallerKnown(st', j) { assert CallerKnown(st, j); }
  }

  lemma FeedStep(st: State, id: nat, answer: Option<string>, at: int)
    requires Inv(st) && st.now <= at
    ensures Inv(Next(st, FeedReplies(id, answer, at)))
  {
    var st' := Next(st, FeedReplies(id, answer, at));
    forall j ensures CallerKnown(st', j) { assert CallerKnown(st, j); }
    hide Inv;
    InvFrom(st, st');
  }

  lemma StoreStep(st: State, id: nat, at: int)
    requires Inv(st) && st.now <= at
    ensures Inv(Next(st, StoreReplies(id, at)))
  {
    hide Key, Inv;
    var st' := Next(st, StoreReplies(id, at));
    CallersKept(st, st', id);
    if id in st.callers && st.callers[id].phase.Storing? {
      CallerIsKnown(st, id);
      var c := st.callers[id];
      var s := Store(c.mint, c.lamports, c.phase.route, c.phase.fetched, at);
      assert WrittenBy(Key(c.mint, c.lamports), st'.slots[Key(c.mint, c.lamports)], s);
      assert Backs(st', Result(c.mint, c.lamports, Some(c.phase.route), at), s);
    }
    InvFrom(st, st');
  }

  lemma CallerIsKnown(st: State, id: nat)
    requires Inv(st)
    ensures CallerKnown(st, id)
  {
  }

  lemma CallStep(st: State, id: nat, mint: string, lamports: Amount, at: int)
    requires Inv(st) && st.now <= at
    ensures Inv(Next(st, Call(id, mint, lamports, at)))
  {
    var st' := Next(st, Call(id, mint, lamports, at));
    hide Inv;
    CallersKept(st, st', id);
    InvFrom(st, st');
  }

  lemma ResumeStep(st: State, id: nat, at: int)
    requires Inv(st) && st.now <= at
    ensures Inv(Next(st, Resumes(id, at)))
  {
    var st' := Next(st, Resumes(id, at));
    hide Inv;
    CallersKept(st, st', id);
    InvFrom(st, st');
  }

  /** What is returned, or waits to be, was decided before. */
  ghost predicate Decided(st: State) {
    && (forall id :: id in st.callers && st.callers[id].phase.Answered? ==>
          st.callers[id].phase.r in st.results && st.callers[id].phase.r.at <= st.now)
    && forall q :: q in st.returned ==> q.r in st.results && q.r.at <= q.at <= st.now
  }

  lemma StepDecided(st: State, step: Step)
    requires Decided(st)
    ensures Decided(Next(st, step))
  {
    hide Key, Hit;
  }

  lemma {:induction false} RunInv(now: int, steps: seq<Step>)
    ensures Inv(Run(Empty(now), steps)) && Decided(Run(Empty(now), steps))
  {
    if steps != [] {
      var front, step := steps[..|steps| - 1], steps[|steps| - 1];
      RunInv(now, front);
      var st := Run(Empty(now), front);
      if st.now <= step.at {
        match step
        case Call(id, mint, lamports, at) => CallStep(st, id, mint, lamports, at);
        case CacheReplies(id, at) => CacheStep(st, id, at);
        case FeedReplies(id, answer, at) => FeedStep(st, id, answer, at);
        case StoreReplies(id, at) => StoreStep(st, id, at);
        case Resumes(id, at) => ResumeStep(st, id, at);
      }
      StepDecided(st, step);
    }
  }

  /** `s` fetched what `q` returned, for the same mint and amount, recently enough. */
  predicate FreshBy(st: State, q: Returned, s: Store) {
    && s.mint == q.r.mint && s.lamports == q.r.lamports
    && Fetch(q.r.mint, q.r.lamports, s.fetched, q.r.route) in st.fetches
    && q.r.at <= q.at
    && s.fetched <= q.at < s.fetched + 60 + (s.at - s.fetched) + (q.at - q.r.at)
  }

  /** Under every interleaving, a route that is returned was the feed's answer for that same mint and amount,
      fetched less than 60 s plus the storing caller's fetch-to-store delay plus the returning caller's own
      reply delay before. */
  lemma RoutesAreFresh(now: int, steps: seq<Step>, q: Returned)
    requires q in Run(Empty(now), steps).returned && q.r.route.Some?
    ensures exists s :: s in Run(Empty(now), steps).stores && FreshBy(Run(Empty(now), steps), q, s)
  {
    RunInv(now, steps);
    var st := Run(Empty(now), steps);
    hide Run;
    assert ResultKnown(st, q.r);
    var s :| s in st.stores && Backs(st, q.r, s);
    assert Honest(st, s);
    assert FreshBy(st, q, s);
  }

  /** A null is never cached: whoever returns one was given one by the feed. */
  lemma NullsAreNotCached(now: int, steps: seq<Step>, q: Returned)
    requires q in Run(Empty(now), steps).returned && q.r.route.None?
    ensures Fetch(q.r.mint, q.r.lamports, q.r.at, None) in Run(Empty(now), steps).fetches && q.r.at <= q.at
  {
    RunInv(now, steps);
    hide Run;
    assert ResultKnown(Run(Empty(now), steps), q.r);
  }

  // ---- what is stored is served ----

  /** The last route stored for a mint and amount, and when. */
  function LastStored(st: State, steps: seq<Step>, mint: string, lamports: Amount): Option<(string, int)> {
    if steps == [] then None else
    var front, step := steps[..|steps| - 1], steps[|steps| - 1];
    var before := Run(st, front);
    if && step.StoreReplies? && before.now <= step.at && step.id in before.callers
       && var c := before.callers[step.id]; c.phase.Storing? && c.mint == mint && c.lamports == lamports
    then Some((before.callers[step.id].phase.route, step.at))
    else LastStored(st, front, mint, lamports)
  }

  /** One step changes the slot of a mint and amount if and only if it stores for them. */
  lemma SlotNext(st: State, step: Step, mint: string, lamports: Amount)
    ensures var key, st' := Key(mint, lamports), Next(st, step);
      if && step.StoreReplies? && st.now <= step.at && step.id in st.callers
         && var c := st.callers[step.id]; c.phase.Storing? && c.mint == mint && c.lamports == lamports
      then key in st'.slots && st'.slots[key] == Slot(st.callers[step.id].phase.route, step.at + 60)
      else (key in st'.slots <==> key in st.slots) && (key in st.slots ==> st'.slots[key] == st.slots[key])
  {
    hide Key, Hit;
    if step.StoreReplies? && step.id in st.callers {
      var c := st.callers[step.id];
      if Key(c.mint, c.lamports) == Key(mint, lamports) { KeyInjective(c.mint, c.lamports, mint, lamports); }
    }
  }

  lemma {:induction false} SlotIsLastStored(now: int, steps: seq<Step>, mint: string, lamports: Amount)
    ensures var key, st := Key(mint, lamports), Run(Empty(now), steps);
      var last := LastStored(Empty(now), steps, mint, lamports);
      (key in st.slots <==> last.Some?) && (last.Some? ==> st.slots[key] == Slot(last.value.0, last.value.1 + 60))
  {
    hide Key, Next;
    if steps != [] {
      var front, step := steps[..|steps| - 1], steps[|steps| - 1];
      SlotIsLastStored(now, front, mint, lamports);
      SlotNext(Run(Empty(now), front), step, mint, lamports);
    }
  }

  /** A lookup is answered from the cache if and only if less than 60 s have passed since the latest store for its mint
      and amount, and then with that store's route; otherwise it goes on to the feed. */
  lemma LookupServesLatest(now: int, steps: seq<Step>, id: nat, at: int)
    requires var st := Run(Empty(now), steps); st.now <= at && id in st.callers && st.callers[id].phase.Looking?
    ensures var st := Run(Empty(now), steps);
      var c := st.callers[id];
      var last := LastStored(Empty(now), steps, c.mint, c.lamports);
      var phase := Next(st, CacheReplies(id, at)).callers[id].phase;
      phase == if last.Some? && at < last.value.1 + 60 then Answered(Result(c.mint, c.lamports, Some(last.value.0), at))
               else Fetching
  {
    hide Run, LastStored, Key;
    var c := Run(Empty(now), steps).callers[id];
    SlotIsLastStored(now, steps, c.mint, c.lamports);
  }

  // ---- the function itself ----

  /** The four steps of one caller with nobody else around. */
  function Alone(slots: map<string, Slot>, mint: string, lamports: Amount, answer: Option<string>,
                 looked: int, fetched: int, stored: int): State {
    var st := Next(State(slots, map[], looked, {}, {}, {}, {}), Call(0, mint, lamports, looked));
    Next(Next(Next(st, CacheReplies(0, looked)), FeedReplies(0, answer, fetched)), StoreReplies(0, stored))
  }

  /** Only an answer is stored. */
  function Stored(slots: map<string, Slot>, key: string, answer: Option<string>, expires: int): map<string, Slot> {
    if answer.None? then slots else slots[key := Slot(answer.value, expires)]
  }

  lemma AloneGives(slots: map<string, Slot>, mint: string, lamports: Amount, answer: Option<string>,
                   looked: int, fetched: int, stored: int)
    requires looked <= fetched <= stored
    ensures var key, st := Key(mint, lamports), Alone(slots, mint, lamports, answer, looked, fetched, stored);
      if key in slots && looked < slots[key].expires
      then st.slots == slots && st.results == {Result(mint, lamports, Some(slots[key].route), looked)}
      else (&& st.slots == Stored(slots, key, answer, stored + 60)
            && st.results == {Result(mint, lamports, answer, if answer.None? then fetched else stored)})
  {
    hide Key;
  }

  class Quotes {
    var slots: map<string, Slot>

    constructor ()
      ensures slots == map[]
    {
      slots := map[];
    }

    /** `quoteSOLto` run through: it does what its steps do. */
    method QuoteSOLto(mint: string, lamports: Amount, answer: Option<string>, looked: int, fetched: int, stored: int)
      returns (route: Option<string>)
      requires looked <= fetched <= stored
      modifies this
      ensures var st := Alone(old(slots), mint, lamports, answer, looked, fetched, stored);
        slots == st.slots && exists at :: st.results == {Result(mint, lamports, route, at)}
      ensures var key, was := Key(mint, lamports), old(slots);
        if key in was && looked < was[key].expires then route == Some(was[key].route) && slots == was
        else route == answer && slots == Stored(was, key, answer, stored + 60)
    {
      hide Key, Alone;
      var key := Key(mint, lamports);
      AloneGives(slots, mint, lamports, answer, looked, fetched, stored);
      if key in slots && looked < slots[key].expires {
        route := Some(slots[key].route);
        return;
      }
      route := answer;
      if route.Some? {
        slots := slots[key := Slot(route.value, stored + CACHE_TTL)];
      }
    }
  }
}
