/** User state of commands.js: an in-memory record per handle, changed in place and written behind to
    Redis, while the trade worker writes balances of the same rows over its own connection.

    `persist` sends SADD and, when the reply arrives, HSET with the snapshot taken at the call. One
    connection serves commands and replies in order. Every step below is atomic: it runs from one
    `await` to the next. */
module WriteBehind {
  import opened Text

  datatype Rec = Rec(sol: real, tierBal: int, auto: bool, risk: string)

  const NEW_USER := Rec(0.0, 0, false, "med")

  /** A command of `persist`, with the snapshot it carries or will carry. */
  datatype Cmd = Sadd(h: string, snap: Rec) | Hset(h: string, snap: Rec)

  /** Memory, commands under way to Redis, SADD replies on their way back, stored rows; and, for the
      record, every snapshot `persist` was called with and those that reached the row, in order. */
  datatype State = State(
    users: map<string, Rec>,
    conn: seq<Cmd>,
    replies: seq<Cmd>,
    rows: map<string, Rec>,
    asked: map<string, seq<Rec>>,
    stored: map<string, seq<Rec>>)

  function Asked(st: State, h: string): seq<Rec> { if h in st.asked then st.asked[h] else [] }
  function Stored(st: State, h: string): seq<Rec> { if h in st.stored then st.stored[h] else [] }

  // ---- steps ----

  datatype Step =
    | Ensure(h: string)
    | Toggle(h: string, state: Option<bool>)
    | SetRisk(h: string, level: string)
    | Refresh(h: string, sol: real, tierBal: int)
    | SolChanged(h: string, sol: real)
    | TokenChanged(h: string, tierBal: int)
    | RedisRuns
    | ReplyArrives
    | WorkerWrites(h: string, sol: real, tierBal: int)

  /** Assign the record and call `persist`, which sends SADD at once. */
  function Change(st: State, h: string, r: Rec): State {
    st.(users := st.users[h := r], conn := st.conn + [Sadd(h, r)], asked := st.asked[h := Asked(st, h) + [r]])
  }

  /** The first command on the connection takes effect; SADD is answered. */
  function Executed(st: State): State {
    if st.conn == [] then st else
    var c := st.conn[0];
    match c
    case Sadd(_, _) => st.(conn := st.conn[1..], replies := st.replies + [c])
    case Hset(h, snap) => st.(conn := st.conn[1..], rows := st.rows[h := snap],
                               stored := st.stored[h := Stored(st, h) + [snap]])
  }

  /** The first reply resumes its `upsertUser`, which sends HSET. */
  function Resumed(st: State): State {
    if st.replies == [] then st else
    st.(replies := st.replies[1..], conn := st.conn + [Hset(st.replies[0].h, st.replies[0].snap)])
  }

  /** Setters and callbacks on a handle that is not in memory throw and change nothing; a worker job
      for a handle without a row throws. */
  function Next(st: State, step: Step): State {
    match step
    case Ensure(h) => if h in st.users then st else Change(st, h, NEW_USER)
    case Toggle(h, state) =>
      if h !in st.users then st
      else Change(st, h, st.users[h].(auto := if state.Some? then state.value else !st.users[h].auto))
    case SetRisk(h, level) => if h !in st.users then st else Change(st, h, st.users[h].(risk := level))
    case Refresh(h, sol, tierBal) =>
      if h !in st.users then st else Change(st, h, st.users[h].(sol := sol, tierBal := tierBal))
    case SolChanged(h, sol) => if h !in st.users then st else Change(st, h, st.users[h].(sol := sol))
    case TokenChanged(h, tierBal) => if h !in st.users then st else Change(st, h, st.users[h].(tierBal := tierBal))
    case RedisRuns => Executed(st)
    case ReplyArrives => Resumed(st)
    case WorkerWrites(h, sol, tierBal) =>
      if h !in st.rows then st
      else st.(rows := st.rows[h := st.rows[h].(sol := sol, tierBal := tierBal)])
  }

  function Run(st: State, steps: seq<Step>): State {
    if steps == [] then st else Next(Run(st, steps[..|steps| - 1]), steps[|steps| - 1])
  }

  /** Right after start-up: what is in memory was read from the rows, nothing is under way. */
  predicate Initial(st: State) {
    && st.conn == [] && st.replies == []
    && st.asked.Keys == st.users.Keys == st.stored.Keys
    && forall h :: h in st.users ==>
         h in st.rows && st.rows[h] == st.users[h] && st.asked[h] == st.stored[h] == [st.users[h]]
  }

  // ---- what is under way for a handle ----

  function Pick(cmds: seq<Cmd>, hset: bool, h: string): seq<Rec> {
    if cmds == [] then [] else
    (if cmds[0].Hset? == hset && cmds[0].h == h then [cmds[0].snap] else []) + Pick(cmds[1..], hset, h)
  }

  /** Snapshots not yet in the row, oldest first: an HSET was sent before any outstanding SADD reply,
      and a reply comes before any SADD still to be served. */
  function Pending(st: State, h: string): seq<Rec> {
    Pick(st.conn, true, h) + (Pick(st.replies, false, h) + Pick(st.conn, false, h))
  }

  lemma {:induction false} PickAppend(cmds: seq<Cmd>, c: Cmd, hset: bool, h: string)
    ensures Pick(cmds + [c], hset, h) == Pick(cmds, hset, h) + if c.Hset? == hset && c.h == h then [c.snap] else []
  {
    if cmds == [] {
      assert cmds + [c] == [c] && [c][1..] == [];
    } else {
      assert (cmds + [c])[1..] == cmds[1..] + [c];
      PickAppend(cmds[1..], c, hset, h);
    }
  }

  lemma PickHead(cmds: seq<Cmd>, hset: bool, h: string)
    requires cmds != []
    ensures Pick(cmds, hset, h)
         == (if cmds[0].Hset? == hset && cmds[0].h == h then [cmds[0].snap] else []) + Pick(cmds[1..], hset, h)
  {
  }

  lemma Regroups(a: seq<Rec>, b: seq<Rec>, c: seq<Rec>)
    ensures a + (b + c) == (a + b) + c
    ensures [] + a == a == a + []
  {
  }

  // ---- the invariant ----

  function Last(s: seq<Rec>): Rec
    requires s != []
  {
    s[|s| - 1]
  }

  /** The snapshots asked for are those stored and then those under way, in order; the newest one
      asked for is in memory; the row holds the preferences of the newest one stored. */
  predicate InvAt(st: State, h: string) {
    var asked, stored := Asked(st, h), Stored(st, h);
    && asked == stored + Pending(st, h)
    && (h in st.users <==> asked != [])
    && (asked != [] ==> st.users[h] == Last(asked))
    && (stored != [] ==> h in st.rows && st.rows[h].auto == Last(stored).auto && st.rows[h].risk == Last(stored).risk)
  }

  predicate RepliesAreSadds(st: State) { forall i :: 0 <= i < |st.replies| ==> st.replies[i].Sadd? }

  ghost predicate Inv(st: State) { RepliesAreSadds(st) && forall h :: InvAt(st, h) }

  /** As long as the worker stays away from a row, the row is the newest snapshot stored, whole. */
  predicate ExactAt(st: State, h: string) {
    Stored(st, h) != [] ==> h in st.rows && st.rows[h] == Last(Stored(st, h))
  }

  lemma InitialInv(st: State)
    requires Initial(st)
    ensures Inv(st) && forall h :: ExactAt(st, h)
  {
    forall h ensures InvAt(st, h) && ExactAt(st, h) {
      assert Pending(st, h) == [];
    }
  }

  lemma ChangeAsks(st: State, g: string, r: Rec, h: string)
    ensures var st' := Change(st, g, r);
      && Asked(st', h) == Asked(st, h) + (if g == h then [r] else []) && Stored(st', h) == Stored(st, h)
      && (h in st'.users <==> h in st.users || g == h) && (g == h ==> st'.users[h] == r)
      && (g != h && h in st.users ==> st'.users[h] == st.users[h]) && st'.rows == st.rows
  {
  }

  lemma ChangeKeeps(st: State, g: string, r: Rec, h: string)
    requires InvAt(st, h)
    ensures InvAt(Change(st, g, r), h) && Stored(Change(st, g, r), h) == Stored(st, h)
  {
    hide Pending, Change, Asked, Stored;
    ChangeAsks(st, g, r, h);
    ChangeQueues(st, g, r, h);
    Regroups(Asked(st, h), [], []);
    Regroups(Pending(st, h), [], []);
    Regroups(Stored(st, h), Pending(st, h), [r]);
  }

  lemma ChangeQueues(st: State, g: string, r: Rec, h: string)
    ensures Pending(Change(st, g, r), h) == Pending(st, h) + if g == h then [r] else []
  {
    hide Pick;
    PickAppend(st.conn, Sadd(g, r), true, h);
    PickAppend(st.conn, Sadd(g, r), false, h);
    var x, y, z := Pick(st.conn, true, h), Pick(st.replies, false, h), Pick(st.conn, false, h);
    var w := if g == h then [r] else [];
    Regroups(x, [], []);
    Regroups(y, z, w);
    Regroups(x, y + z, w);
  }

  /** Serving an SADD or resuming a reply only moves a snapshot along the line. */
  lemma SaddMoves(st: State, h: string)
    requires st.conn != [] && st.conn[0].Sadd?
    ensures Pending(Executed(st), h) == Pending(st, h)
  {
    hide Pick;
    var c := st.conn[0];
    var x, y, z := Pick(st.conn[1..], true, h), Pick(st.replies, false, h), Pick(st.conn[1..], false, h);
    var w := if c.h == h then [c.snap] else [];
    PickAppend(st.replies, c, false, h);
    PickHead(st.conn, false, h);
    PickHead(st.conn, true, h);
    Regroups(x, [], []);
    Regroups(y, w, z);
  }

  lemma ReplyMoves(st: State, h: string)
    requires st.replies != [] && st.replies[0].Sadd?
    ensures Pending(Resumed(st), h) == Pending(st, h)
  {
    hide Pick;
    var c := st.replies[0];
    var x, y, z := Pick(st.conn, true, h), Pick(st.replies[1..], false, h), Pick(st.conn, false, h);
    var w := if c.h == h then [c.snap] else [];
    PickAppend(st.conn, Hset(c.h, c.snap), true, h);
    PickAppend(st.conn, Hset(c.h, c.snap), false, h);
    PickHead(st.replies, false, h);
    Regroups(z, [], []);
    Regroups(w, y, z);
    Regroups(x, w, y + z);
  }

  /** Serving an HSET takes the oldest snapshot under way for its handle. */
  lemma HsetTakes(st: State, h: string)
    requires st.conn != [] && st.conn[0].Hset?
    ensures Pending(st, h) == (if st.conn[0].h == h then [st.conn[0].snap] else []) + Pending(Executed(st), h)
  {
    hide Pick;
    var c := st.conn[0];
    var x, y, z := Pick(st.conn[1..], true, h), Pick(st.replies, false, h), Pick(st.conn[1..], false, h);
    var w := if c.h == h then [c.snap] else [];
    PickHead(st.conn, true, h);
    PickHead(st.conn, false, h);
    Regroups(z, [], []);
    Regroups(w, x, y + z);
  }

  lemma HsetStores(st: State, h: string)
    requires st.conn != [] && st.conn[0].Hset?
    ensures var st', c := Executed(st), st.conn[0];
      && st'.users == st.users && Asked(st', h) == Asked(st, h)
      && Stored(st', h) == Stored(st, h) + (if c.h == h then [c.snap] else [])
      && (c.h == h ==> h in st'.rows && st'.rows[h] == c.snap)
      && (c.h != h && h in st.rows ==> h in st'.rows && st'.rows[h] == st.rows[h])
  {
  }

  /** The oldest snapshot under way becomes the newest one stored. */
  lemma MovesOver(stored: seq<Rec>, snap: Rec, rest: seq<Rec>)
    ensures stored + ([snap] + rest) == (stored + [snap]) + rest
    ensures Last(stored + [snap]) == snap
  {
  }

  lemma HsetKeeps(st: State, h: string)
    requires InvAt(st, h) && st.conn != [] && st.conn[0].Hset?
    ensures InvAt(Executed(st), h)
  {
    hide Pending, Executed, Asked, Stored, Last;
    HsetStores(st, h);
    HsetTakes(st, h);
    MovesOver(Stored(st, h), st.conn[0].snap, Pending(Executed(st), h));
    Regroups(Pending(Executed(st), h), [], []);
    Regroups(Stored(st, h), [], []);
  }

  lemma HsetAdds(st: State, h: string)
    requires st.conn != [] && st.conn[0].Hset?
    ensures Stored(st, h) <= Stored(Executed(st), h) && (ExactAt(st, h) ==> ExactAt(Executed(st), h))
  {
  }

  lemma ExecutedKeeps(st: State, h: string)
    requires InvAt(st, h)
    ensures InvAt(Executed(st), h) && (ExactAt(st, h) ==> ExactAt(Executed(st), h))
    ensures Stored(st, h) <= Stored(Executed(st), h)
  {
    hide Pending;
    if st.conn != [] {
      if st.conn[0].Sadd? { SaddMoves(st, h); } else { HsetKeeps(st, h); HsetAdds(st, h); }
    }
  }

  /** Every step keeps the invariant, and never moves a row back to an older snapshot. */
  lemma StepKeeps(st: State, step: Step)
    requires Inv(st)
    ensures Inv(Next(st, step)) && forall h :: Stored(st, h) <= Stored(Next(st, step), h)
  {
    hide Inv, InvAt;
    assert RepliesAreSadds(Next(st, step)) by { RepliesStay(st, step); }
    forall h ensures InvAt(Next(st, step), h) && Stored(st, h) <= Stored(Next(st, step), h) {
      InvHere(st, h);
      StepKeepsAt(st, step, h);
    }
    InvFrom(Next(st, step));
  }

  lemma InvHere(st: State, h: string)
    requires Inv(st)
    ensures InvAt(st, h) && RepliesAreSadds(st)
  {
  }

  lemma InvFrom(st: State)
    requires RepliesAreSadds(st) && forall h :: InvAt(st, h)
    ensures Inv(st)
  {
  }

  lemma RepliesStay(st: State, step: Step)
    requires Inv(st)
    ensures RepliesAreSadds(Next(st, step))
  {
  }

  /** What the agent does itself changes one record, or nothing. */
  lemma ChangedOrNot(st: State, step: Step)
    requires !step.RedisRuns? && !step.ReplyArrives? && !step.WorkerWrites?
    ensures var st' := Next(st, step);
      st' == st || (step.h in st'.users && st' == Change(st, step.h, st'.users[step.h]))
  {
  }

  lemma ReplyKeeps(st: State, h: string)
    requires InvAt(st, h) && RepliesAreSadds(st)
    ensures InvAt(Resumed(st), h) && Stored(Resumed(st), h) == Stored(st, h)
  {
    hide Pending;
    if st.replies != [] { ReplyMoves(st, h); }
  }

  lemma WorkerKeeps(st: State, g: string, sol: real, tierBal: int, h: string)
    requires InvAt(st, h)
    ensures var st' := Next(st, WorkerWrites(g, sol, tierBal)); InvAt(st', h) && Stored(st', h) == Stored(st, h)
  {
    hide Pending;
    SamePending(st, Next(st, WorkerWrites(g, sol, tierBal)), h);
  }

  lemma StepKeepsAt(st: State, step: Step, h: string)
    requires InvAt(st, h) && RepliesAreSadds(st)
    ensures InvAt(Next(st, step), h) && Stored(st, h) <= Stored(Next(st, step), h)
  {
    hide Pending, InvAt, Stored, Change, RepliesAreSadds;
    match step
    case RedisRuns => ExecutedKeeps(st, h);
    case ReplyArrives => ReplyKeeps(st, h);
    case WorkerWrites(g, sol, tierBal) => WorkerKeeps(st, g, sol, tierBal, h);
    case _ =>
      ChangedOrNot(st, step);
      hide Next;
      if Next(st, step) != st { ChangeKeeps(st, step.h, Next(st, step).users[step.h], h); }
  }

  lemma SamePending(st: State, st': State, h: string)
    requires st.conn == st'.conn && st.replies == st'.replies
    ensures Pending(st, h) == Pending(st', h)
  {
  }

  lemma {:induction false} RunKeeps(st: State, steps: seq<Step>)
    requires Inv(st)
    ensures Inv(Run(st, steps)) && forall h :: Stored(st, h) <= Stored(Run(st, steps), h)
  {
    hide Inv, Next, Stored;
    if steps != [] {
      RunKeeps(st, steps[..|steps| - 1]);
      StepKeeps(Run(st, steps[..|steps| - 1]), steps[|steps| - 1]);
    }
  }

  predicate WorkerTouches(steps: seq<Step>, h: string) {
    exists i :: 0 <= i < |steps| && steps[i].WorkerWrites? && steps[i].h == h
  }

  lemma StepKeepsExact(st: State, step: Step, h: string)
    requires Inv(st) && ExactAt(st, h) && !(step.WorkerWrites? && step.h == h)
    ensures ExactAt(Next(st, step), h)
  {
    hide Pending;
    assert InvAt(st, h);
    if step.RedisRuns? { ExecutedKeeps(st, h); }
  }

  lemma {:induction false} RunKeepsExact(st: State, steps: seq<Step>, h: string)
    requires Inv(st) && ExactAt(st, h) && !WorkerTouches(steps, h)
    ensures ExactAt(Run(st, steps), h)
  {
    if steps != [] {
      var front, last := steps[..|steps| - 1], steps[|steps| - 1];
      assert !WorkerTouches(front, h);
      RunKeepsExact(st, front, h);
      RunKeeps(st, front);
      StepKeepsExact(Run(st, front), last, h);
    }
  }

  /** No persist for this handle is under way. */
  predicate Quiet(st: State, h: string) {
    && (forall i :: 0 <= i < |st.conn| ==> st.conn[i].h != h)
    && (forall i :: 0 <= i < |st.replies| ==> st.replies[i].h != h)
  }

  lemma {:induction false} QuietPick(cmds: seq<Cmd>, hset: bool, h: string)
    requires forall i :: 0 <= i < |cmds| ==> cmds[i].h != h
    ensures Pick(cmds, hset, h) == []
  {
    if cmds != [] { QuietPick(cmds[1..], hset, h); }
  }

  /** Over every interleaving: when no persist for a user is under way, the stored preferences equal
      memory, whatever the worker wrote; and if the worker wrote nothing for that user, so does the
      whole row. */
  lemma QuietRowsAgree(st: State, steps: seq<Step>, h: string)
    requires Initial(st) && h in Run(st, steps).users && Quiet(Run(st, steps), h)
    ensures var end := Run(st, steps);
      && h in end.rows && end.rows[h].auto == end.users[h].auto && end.rows[h].risk == end.users[h].risk
      && (!WorkerTouches(steps, h) ==> end.rows[h] == end.users[h])
  {
    hide Run, Initial, WorkerTouches;
    InitialInv(st);
    RunKeeps(st, steps);
    var end := Run(st, steps);
    assert InvAt(end, h);
    QuietPick(end.conn, true, h);
    QuietPick(end.conn, false, h);
    QuietPick(end.replies, false, h);
    Regroups(Stored(end, h), [], []);
    if !WorkerTouches(steps, h) { RunKeepsExact(st, steps, h); }
  }

  /** At any point of any run the snapshots that reached a row are a prefix of those `persist` was
      called with, the row shows the preferences of the last of them, and all of it if the worker stays
      away, and as the run goes on more are added and none is ever taken back. */
  lemma RowsNeverGoBack(st: State, earlier: seq<Step>, later: seq<Step>, h: string)
    requires Initial(st)
    ensures var a, b := Run(st, earlier), Run(Run(st, earlier), later);
      && Stored(a, h) <= Stored(b, h) <= Asked(b, h)
      && (Stored(b, h) != [] ==> h in b.rows && b.rows[h].auto == Last(Stored(b, h)).auto
                                 && b.rows[h].risk == Last(Stored(b, h)).risk)
      && (Stored(b, h) != [] && !WorkerTouches(earlier, h) && !WorkerTouches(later, h) ==>
            b.rows[h] == Last(Stored(b, h)))
  {
    hide Run, Initial, Pending, WorkerTouches;
    InitialInv(st);
    RunKeeps(st, earlier);
    RunKeeps(Run(st, earlier), later);
    assert InvAt(Run(Run(st, earlier), later), h);
    if !WorkerTouches(earlier, h) && !WorkerTouches(later, h) {
      RunKeepsExact(st, earlier, h);
      RunKeepsExact(Run(st, earlier), later, h);
    }
  }

  // ---- what memory holds, in terms of what happened ----

  /** The steps taken after the user was first ensured. */
  function Since(steps: seq<Step>, h: string): (after: seq<Step>)
    ensures |after| <= |steps|
  {
    if steps == [] then [] else
    var front, last := steps[..|steps| - 1], steps[|steps| - 1];
    if Ensure(h) in front then Since(front, h) + [last] else []
  }

  /** The last SOL balance that a refresh or a wallet callback brought, or `d` if none did. */
  function LastSol(steps: seq<Step>, h: string, d: real): real {
    if steps == [] then d else
    var s := steps[|steps| - 1];
    if s.Refresh? && s.h == h then s.sol else if s.SolChanged? && s.h == h then s.sol
    else LastSol(steps[..|steps| - 1], h, d)
  }

  /** The last token balance that a refresh or a token callback brought, or `d`. */
  function LastTier(steps: seq<Step>, h: string, d: int): int {
    if steps == [] then d else
    var s := steps[|steps| - 1];
    if s.Refresh? && s.h == h then s.tierBal else if s.TokenChanged? && s.h == h then s.tierBal
    else LastTier(steps[..|steps| - 1], h, d)
  }

  /** The last risk level set, or `d`. */
  function LastRisk(steps: seq<Step>, h: string, d: string): string {
    if steps == [] then d else
    var s := steps[|steps| - 1];
    if s.SetRisk? && s.h == h then s.level else LastRisk(steps[..|steps| - 1], h, d)
  }

  /** The last state set explicitly, or `d`. */
  function LastState(steps: seq<Step>, h: string, d: bool): bool {
    if steps == [] then d else
    var s := steps[|steps| - 1];
    if s.Toggle? && s.h == h && s.state.Some? then s.state.value else LastState(steps[..|steps| - 1], h, d)
  }

  /** How many bare toggles came after that. */
  function Flips(steps: seq<Step>, h: string): nat {
    if steps == [] then 0 else
    var s, front := steps[|steps| - 1], steps[..|steps| - 1];
    if s.Toggle? && s.h == h then (if s.state.Some? then 0 else Flips(front, h) + 1) else Flips(front, h)
  }

  /** What is remembered of a user who was `r` when these steps began. */
  predicate Remembers(u: Rec, steps: seq<Step>, h: string, r: Rec) {
    && u.sol == LastSol(steps, h, r.sol) && u.tierBal == LastTier(steps, h, r.tierBal)
    && u.risk == LastRisk(steps, h, r.risk)
    && u.auto == (LastState(steps, h, r.auto) != (Flips(steps, h) % 2 == 1))
  }

  /** One step on a user in memory. */
  lemma StepRemembers(st: State, step: Step, h: string, steps: seq<Step>, r: Rec)
    requires h in st.users && Remembers(st.users[h], steps, h, r)
    ensures h in Next(st, step).users && Remembers(Next(st, step).users[h], steps + [step], h, r)
  {
    hide Next, LastSol, LastTier, LastRisk, LastState, Flips;
    UserAfter(st, step, h);
    BalancesNext(steps, step, h, r);
    ChoicesNext(steps, step, h, r);
  }

  lemma BalancesNext(steps: seq<Step>, s: Step, h: string, r: Rec)
    ensures LastSol(steps + [s], h, r.sol)
         == if (s.Refresh? || s.SolChanged?) && s.h == h then s.sol else LastSol(steps, h, r.sol)
    ensures LastTier(steps + [s], h, r.tierBal)
         == if (s.Refresh? || s.TokenChanged?) && s.h == h then s.tierBal else LastTier(steps, h, r.tierBal)
  {
    assert (steps + [s])[..|steps|] == steps;
  }

  lemma ChoicesNext(steps: seq<Step>, s: Step, h: string, r: Rec)
    ensures LastRisk(steps + [s], h, r.risk) == if s.SetRisk? && s.h == h then s.level else LastRisk(steps, h, r.risk)
    ensures LastState(steps + [s], h, r.auto)
         == if s.Toggle? && s.h == h && s.state.Some? then s.state.value else LastState(steps, h, r.auto)
    ensures Flips(steps + [s], h)
         == if s.Toggle? && s.h == h then (if s.state.Some? then 0 else Flips(steps, h) + 1) else Flips(steps, h)
  {
    assert (steps + [s])[..|steps|] == steps;
  }

  /** What one step does to the record of a user in memory. */
  lemma UserAfter(st: State, step: Step, h: string)
    requires h in st.users
    ensures h in Next(st, step).users
    ensures var u, v := st.users[h], Next(st, step).users[h];
      match step
      case Toggle(g, state) => v == if g == h then u.(auto := if state.Some? then state.value else !u.auto) else u
      case SetRisk(g, level) => v == if g == h then u.(risk := level) else u
      case Refresh(g, sol, tierBal) => v == if g == h then u.(sol := sol, tierBal := tierBal) else u
      case SolChanged(g, sol) => v == if g == h then u.(sol := sol) else u
      case TokenChanged(g, tierBal) => v == if g == h then u.(tierBal := tierBal) else u
      case _ => v == u
  {
  }

  /** A handle comes into memory by being ensured, and only so. */
  lemma KnownAfter(st: State, step: Step, h: string)
    requires h !in st.users
    ensures h in Next(st, step).users <==> step == Ensure(h)
    ensures step == Ensure(h) ==> Next(st, step).users[h] == Rec(0.0, 0, false, "med")
  {
  }

  lemma NothingSince(steps: seq<Step>, h: string)
    requires steps != [] && Ensure(h) !in steps[..|steps| - 1]
    ensures Since(steps, h) == []
  {
  }

  lemma RemembersStart(h: string, r: Rec)
    ensures Remembers(r, [], h, r)
  {
  }

  lemma {:induction false} KnownRemembers(st: State, steps: seq<Step>, h: string)
    requires h in st.users
    ensures h in Run(st, steps).users && Remembers(Run(st, steps).users[h], steps, h, st.users[h])
  {
    hide Next, Remembers;
    if steps == [] {
      RemembersStart(h, st.users[h]);
    } else {
      var front, last := steps[..|steps| - 1], steps[|steps| - 1];
      KnownRemembers(st, front, h);
      StepRemembers(Run(st, front), last, h, front, st.users[h]);
      assert front + [last] == steps;
    }
  }

  lemma {:induction false} NewRemembers(st: State, steps: seq<Step>, h: string)
    requires h !in st.users
    ensures h in Run(st, steps).users <==> Ensure(h) in steps
    ensures Ensure(h) in steps ==>
      Remembers(Run(st, steps).users[h], Since(steps, h), h, Rec(0.0, 0, false, "med"))
  {
    hide Next, Remembers;
    if steps != [] {
      var front, last := steps[..|steps| - 1], steps[|steps| - 1];
      assert steps == front + [last];
      NewRemembers(st, front, h);
      if Ensure(h) in front {
        StepRemembers(Run(st, front), last, h, Since(front, h), Rec(0.0, 0, false, "med"));
      } else {
        KnownAfter(Run(st, front), last, h);
        NothingSince(steps, h);
        RemembersStart(h, Rec(0.0, 0, false, "med"));
      }
    }
  }

  /** After any run, a user is in memory if and only if they were at the start or have been ensured. Then the SOL
      balance is the last one a refresh or wallet callback brought, the token balance the last one a refresh or token
      callback brought, the risk the last level set, and auto the last state set, flipped once for each later bare
      toggle; before any of these they are as at the start, or 0, 0, off and `med` for a user that was ensured. The
      worker has no part in it. */
  lemma MemoryIsLastTold(st: State, steps: seq<Step>, h: string)
    ensures h in Run(st, steps).users <==> h in st.users || Ensure(h) in steps
    ensures h in st.users ==> Remembers(Run(st, steps).users[h], steps, h, st.users[h])
    ensures h !in st.users && Ensure(h) in steps ==>
      Remembers(Run(st, steps).users[h], Since(steps, h), h, Rec(0.0, 0, false, "med"))
  {
    hide Run, Remembers, Since;
    if h in st.users { KnownRemembers(st, steps, h); } else { NewRemembers(st, steps, h); }
  }

  // ---- the code that takes the steps ----

  datatype View = Thrown | View(autoTrade: bool, risk: string)

  function RiskName(r: string): string {
    if r == "low" then "conservative" else if r == "high" then "aggressive" else "balanced"
  }

  class Agent {
    var users: map<string, Rec>
    var conn: seq<Cmd>
    var replies: seq<Cmd>
    var rows: map<string, Rec>
    ghost var asked: map<string, seq<Rec>>
    ghost var stored: map<string, seq<Rec>>

    constructor ()
      ensures Initial(Now()) && users == map[]
    {
      users, conn, replies, rows, asked, stored := map[], [], [], map[], map[], map[];
    }

    ghost function Now(): State
      reads this
    {
      State(users, conn, replies, rows, asked, stored)
    }

    /** Up to its first `await`: the snapshot is taken and SADD is sent. */
    method Persist(h: string, u: Rec)
      modifies this
      ensures Now() == old(Now()).(conn := old(conn) + [Sadd(h, u)],
                                   asked := old(asked)[h := Asked(old(Now()), h) + [u]])
    {
      conn := conn + [Sadd(h, u)];
      asked := asked[h := Asked(Now(), h) + [u]];
    }

    method EnsureUser(h: string) returns (u: Rec)
      modifies this
      ensures Now() == Next(old(Now()), Ensure(h)) && h in users && u == users[h]
    {
      if h in users { return users[h]; }
      u := NEW_USER;
      users := users[h := u];
      Persist(h, u);
    }

    method ToggleAuto(h: string, state: Option<bool>) returns (v: View)
      modifies this
      ensures Now() == Next(old(Now()), Toggle(h, state))
      ensures v == if h in users then View(users[h].auto, RiskName(users[h].risk)) else Thrown
    {
      if h !in users { return Thrown; }
      var auto := if state.Some? then state.value else !users[h].auto;
      users := users[h := users[h].(auto := auto)];
      Persist(h, users[h]);
      v := View(users[h].auto, RiskName(users[h].risk));
    }

    method SetUserRisk(h: string, level: string) returns (v: View)
      modifies this
      ensures Now() == Next(old(Now()), SetRisk(h, level))
      ensures v == if h in users then View(users[h].auto, RiskName(level)) else Thrown
    {
      if h !in users { return Thrown; }
      users := users[h := users[h].(risk := level)];
      Persist(h, users[h]);
      v := View(users[h].auto, RiskName(users[h].risk));
    }

    /** `updateBalances` and the deposit callbacks, once the chain has answered. */
    method BalancesArrive(h: string, sol: Option<real>, tierBal: Option<int>)
      requires sol.Some? || tierBal.Some?
      modifies this
      ensures Now() == Next(old(Now()),
        if sol.None? then TokenChanged(h, tierBal.value)
        else if tierBal.None? then SolChanged(h, sol.value) else Refresh(h, sol.value, tierBal.value))
      ensures h in old(users) && sol.Some? ==> h in users && users[h].sol == sol.value
      ensures h in old(users) && tierBal.Some? ==> h in users && users[h].tierBal == tierBal.value
    {
      if h !in users { return; }
      var u := users[h];
      if sol.Some? { u := u.(sol := sol.value); }
      if tierBal.Some? { u := u.(tierBal := tierBal.value); }
      users := users[h := u];
      Persist(h, u);
    }

    method RedisServes()
      modifies this
      ensures Now() == Next(old(Now()), RedisRuns)
    {
      if conn == [] { return; }
      var c := conn[0];
      conn := conn[1..];
      match c {
        case Sadd(_, _) => replies := replies + [c];
        case Hset(h, snap) =>
          rows := rows[h := snap];
          stored := stored[h := Stored(Now(), h) + [snap]];
      }
    }

    method ReplyDelivered()
      modifies this
      ensures Now() == Next(old(Now()), ReplyArrives)
    {
      if replies == [] { return; }
      var c := replies[0];
      replies := replies[1..];
      conn := conn + [Hset(c.h, c.snap)];
    }
  }
}
