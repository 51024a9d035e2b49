/** A restart of the agent: what `persist` of commands.js and the trade worker have written into the rows of db.js is
    what `initializeUsers` finds there. */
module Restart {
  import opened Text
  import opened Codec
  import opened UserDb
  import W = WriteBehind
  import H = Hydration

  /** How numbers are printed: `toString` of a balance and of a token amount. */
  datatype Printer = Printer(sol: real -> string, tierBal: int -> string)

  /** The fields that the trade worker writes. */
  function Balances(sol: real, tierBal: int, p: Printer): Row {
    map["sol" := p.sol(sol), "tierBal" := p.tierBal(tierBal)]
  }

  /** The fields that `persist` writes. */
  function Encoded(r: W.Rec, p: Printer): Row {
    Balances(r.sol, r.tierBal, p) + map["auto" := if r.auto then "true" else "false", "risk" := r.risk]
  }

  /** A row that shows a record, whatever else it holds. */
  predicate Shows(row: Row, r: W.Rec, p: Printer) {
    && "sol" in row && "tierBal" in row && "auto" in row && "risk" in row
    && row["sol"] == p.sol(r.sol) && row["tierBal"] == p.tierBal(r.tierBal)
    && row["auto"] == (if r.auto then "true" else "false") && row["risk"] == r.risk
  }

  function Merged(db: Store, h: string, fields: Row): Store { db.(rows := db.rows[h := RowOf(db, h) + fields]) }

  function Listed(db: Store, h: string): Store { db.(members := db.members + {h}) }

  /** What a step does to the store: SADD lists the handle, HSET merges the snapshot, the worker upserts balances. */
  function DbNext(db: Store, st: W.State, step: W.Step, p: Printer): Store {
    match step
    case RedisRuns =>
      if st.conn == [] then db
      else if st.conn[0].Sadd? then Listed(db, st.conn[0].h)
      else Merged(db, st.conn[0].h, Encoded(st.conn[0].snap, p))
    case WorkerWrites(h, sol, tierBal) =>
      if h !in st.rows then db else Merged(Listed(db, h), h, Balances(sol, tierBal, p))
    case _ => db
  }

  function DbRun(db: Store, st: W.State, steps: seq<W.Step>, p: Printer): Store {
    if steps == [] then db else
    var front := steps[..|steps| - 1];
    DbNext(DbRun(db, st, front, p), W.Run(st, front), steps[|steps| - 1], p)
  }

  /** The two commands of a write without a wallet make up `upsertUser`. */
  lemma WriteIsUpsert(seal: Seal, db: Store, h: string, fields: Row, iv: Bytes)
    requires "wallet" !in fields && fields != map[]
    ensures Merged(Listed(db, h), h, fields) == Upserted(seal, db, h, fields, iv)
  {
  }

  /** Every row shows its record and is listed, and so is every handle whose row is about to be written. */
  predicate Mirrors(db: Store, st: W.State, p: Printer) {
    && (forall h :: h in st.rows ==> h in db.members && Shows(RowOf(db, h), st.rows[h], p))
    && (forall i :: 0 <= i < |st.conn| && st.conn[i].Hset? ==> st.conn[i].h in db.members)
    && (forall i :: 0 <= i < |st.replies| ==> st.replies[i].h in db.members)
  }

  lemma MergedShows(db: Store, h: string, r: W.Rec, p: Printer)
    ensures Shows(RowOf(Merged(db, h, Encoded(r, p)), h), r, p)
  {
  }

  lemma BalancesShow(db: Store, h: string, r: W.Rec, sol: real, tierBal: int, p: Printer)
    requires Shows(RowOf(db, h), r, p)
    ensures Shows(RowOf(Merged(db, h, Balances(sol, tierBal, p)), h), r.(sol := sol, tierBal := tierBal), p)
  {
  }

  lemma OtherRows(db: Store, h: string, fields: Row, g: string)
    requires g != h
    ensures RowOf(Merged(db, h, fields), g) == RowOf(db, g) && RowOf(Listed(db, h), g) == RowOf(db, g)
  {
  }

  lemma SaddMirrors(db: Store, st: W.State, p: Printer)
    requires Mirrors(db, st, p) && st.conn != [] && st.conn[0].Sadd?
    ensures Mirrors(Listed(db, st.conn[0].h), W.Executed(st), p)
  {
    hide Shows;
    var db', st' := Listed(db, st.conn[0].h), W.Executed(st);
    forall h | h in st'.rows ensures h in db'.members && Shows(RowOf(db', h), st'.rows[h], p) {
      assert RowOf(db', h) == RowOf(db, h);
    }
  }

  lemma HsetMirrors(db: Store, st: W.State, p: Printer)
    requires Mirrors(db, st, p) && st.conn != [] && st.conn[0].Hset?
    ensures Mirrors(Merged(db, st.conn[0].h, Encoded(st.conn[0].snap, p)), W.Executed(st), p)
  {
    hide Shows, Encoded;
    var g, snap := st.conn[0].h, st.conn[0].snap;
    var db', st' := Merged(db, g, Encoded(snap, p)), W.Executed(st);
    MergedShows(db, g, snap, p);
    forall h | h in st'.rows ensures h in db'.members && Shows(RowOf(db', h), st'.rows[h], p) {
      if h != g { OtherRows(db, g, Encoded(snap, p), h); }
    }
  }

  lemma ServedMirrors(db: Store, st: W.State, p: Printer)
    requires Mirrors(db, st, p)
    ensures Mirrors(DbNext(db, st, W.RedisRuns, p), W.Executed(st), p)
  {
    if st.conn != [] {
      hide Mirrors, W.Executed, Encoded;
      if st.conn[0].Sadd? { SaddMirrors(db, st, p); } else { HsetMirrors(db, st, p); }
    }
  }

  lemma WorkerMirrors(db: Store, st: W.State, h: string, sol: real, tierBal: int, p: Printer)
    requires Mirrors(db, st, p)
    ensures var step := W.WorkerWrites(h, sol, tierBal); Mirrors(DbNext(db, st, step, p), W.Next(st, step), p)
  {
    hide Balances, Shows;
    if h in st.rows { BalancesShow(Listed(db, h), h, st.rows[h], sol, tierBal, p); }
  }

  /** Whatever the agent does itself leaves rows and store alone, and sends no HSET. */
  lemma AgentMirrors(db: Store, st: W.State, step: W.Step, p: Printer)
    requires Mirrors(db, st, p) && !step.RedisRuns? && !step.WorkerWrites?
    ensures Mirrors(db, W.Next(st, step), p)
  {
    hide Shows;
    if step.ReplyArrives? {
      if st.replies != [] { assert st.replies[0].h in db.members; }
    } else {
      W.ChangedOrNot(st, step);
    }
  }

  lemma {:induction false} RunMirrors(db: Store, st: W.State, steps: seq<W.Step>, p: Printer)
    requires Mirrors(db, st, p)
    ensures Mirrors(DbRun(db, st, steps, p), W.Run(st, steps), p)
  {
    hide Mirrors, W.Executed;
    if steps != [] {
      var front, last := steps[..|steps| - 1], steps[|steps| - 1];
      var db', st' := DbRun(db, st, front, p), W.Run(st, front);
      RunMirrors(db, st, front, p);
      match last
      case RedisRuns => ServedMirrors(db', st', p);
      case WorkerWrites(h, sol, tierBal) => WorkerMirrors(db', st', h, sol, tierBal, p);
      case _ => AgentMirrors(db', st', last, p);
    }
  }

  lemma MergedKeepsSecret(db: Store, g: string, fields: Row, open: Open, h: string)
    requires "wallet" !in fields
    ensures SecretOf(open, Merged(db, g, fields), h) == SecretOf(open, db, h)
    ensures SecretOf(open, Listed(db, g), h) == SecretOf(open, db, h)
  {
    hide SecretFrom;
  }

  /** No write of the run touches a wallet. */
  lemma StepKeepsSecret(db: Store, st: W.State, step: W.Step, p: Printer, open: Open, h: string)
    ensures SecretOf(open, DbNext(db, st, step, p), h) == SecretOf(open, db, h)
  {
    hide SecretOf, Merged, Listed;
    match step
    case RedisRuns =>
      if st.conn != [] { MergedKeepsSecret(db, st.conn[0].h, Encoded(st.conn[0].snap, p), open, h); }
    case WorkerWrites(g, sol, tierBal) =>
      MergedKeepsSecret(db, g, map[], open, h);
      MergedKeepsSecret(Listed(db, g), g, Balances(sol, tierBal, p), open, h);
    case _ =>
  }

  lemma {:induction false} RunKeepsSecret(db: Store, st: W.State, steps: seq<W.Step>, p: Printer, open: Open, h: string)
    ensures SecretOf(open, DbRun(db, st, steps, p), h) == SecretOf(open, db, h)
  {
    hide SecretOf, DbNext;
    if steps != [] {
      var front, last := steps[..|steps| - 1], steps[|steps| - 1];
      RunKeepsSecret(db, st, front, p, open, h);
      StepKeepsSecret(DbRun(db, st, front, p), W.Run(st, front), last, p, open, h);
    }
  }

  lemma HydratedShows(row: Row, r: W.Rec, p: Printer, secret: Bytes)
    requires Shows(row, r, p)
    ensures row != map[]
    ensures H.Hydrated(row, secret) == H.User(secret, p.sol(r.sol), p.tierBal(r.tierBal), r.auto, r.risk)
  {
  }

  /** Start-up takes a missing field to be what `ensureUser` gives a new user. */
  lemma DefaultsAgree(row: Row, p: Printer, secret: Bytes)
    requires p.sol(0.0) == "0" && p.tierBal(0) == "0"
    ensures H.Hydrated(row, secret) == H.Hydrated(Encoded(W.NEW_USER, p) + row, secret)
  {
  }

  /** After any run that ends with no persist for a user under way, a restart finds that user: the handle is listed with
      a non-empty row and the wallet it had, and what is loaded from the row has the `auto` and `risk` that were in
      memory, and the balances too if the worker stayed away. */
  lemma RestartKeepsSettings(db: Store, st: W.State, steps: seq<W.Step>, p: Printer, open: Open, h: string,
                             secret: Bytes)
    requires W.Initial(st) && Mirrors(db, st, p)
    requires h in W.Run(st, steps).users && W.Quiet(W.Run(st, steps), h)
    ensures var db', memory := DbRun(db, st, steps, p), W.Run(st, steps).users[h];
      var loaded := H.Hydrated(RowOf(db', h), secret);
      && h in db'.members && RowOf(db', h) != map[]
      && SecretOf(open, db', h) == SecretOf(open, db, h)
      && loaded.auto == memory.auto && loaded.risk == memory.risk
      && (!W.WorkerTouches(steps, h) ==> loaded.sol == p.sol(memory.sol) && loaded.tierBal == p.tierBal(memory.tierBal))
  {
    hide W.Run, DbRun, W.Initial, W.Quiet, W.WorkerTouches, SecretOf, Shows;
    var db', end := DbRun(db, st, steps, p), W.Run(st, steps);
    W.QuietRowsAgree(st, steps, h);
    RunMirrors(db, st, steps, p);
    RunKeepsSecret(db, st, steps, p, open, h);
    HydratedShows(RowOf(db', h), end.rows[h], p, secret);
  }
}
