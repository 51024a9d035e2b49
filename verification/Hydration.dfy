/** Start-up of commands.js: `initializeUsers` fills the in-memory users from the store. */
module Hydration {
  import opened Text
  import opened Codec
  import opened UserDb

  /** Balances stay as the texts that `parseFloat` reads. */
  datatype User = User(secret: Bytes, sol: string, tierBal: string, auto: bool, risk: string)

  function FieldOr(row: Row, f: string, default: string): string { if f in row then row[f] else default }

  function Hydrated(row: Row, secret: Bytes): User {
    User(secret, FieldOr(row, "sol", "0"), FieldOr(row, "tierBal", "0"),
         "auto" in row && row["auto"] == "true", FieldOr(row, "risk", "med"))
  }

  /** A non-empty row with an encrypted 64-byte secret. */
  predicate Loadable(open: Open, st: Store, h: string) {
    RowOf(st, h) != map[] && SecretOf(open, st, h).Secret? && |SecretOf(open, st, h).bytes| == 64
  }

  /** What makes the call throw: a wallet that does not decrypt and parse, or 64 bytes that are no keypair. */
  predicate Fails(open: Open, valid: Bytes -> bool, st: Store, h: string) {
    SecretOf(open, st, h).Broken? || (Loadable(open, st, h) && !valid(SecretOf(open, st, h).bytes))
  }

  /** `handles` is the reply of SMEMBERS, in any order. The store is only read: a secret never comes
      with a legacy text, so the migration of legacy wallets does not happen. `valid` says which 64
      bytes are a keypair. The call throws exactly if some listed wallet fails; otherwise it loads
      exactly the loadable handles. */
  method InitializeUsers(db: Db, handles: seq<string>, valid: Bytes -> bool)
    returns (users: map<string, User>, threw: bool)
    requires forall h :: h in handles <==> h in db.members
    ensures threw <==> exists h :: h in db.members && Fails(db.open, valid, db.State(), h)
    ensures !threw ==> users.Keys == set h | h in db.members && Loadable(db.open, db.State(), h)
    ensures forall h :: h in users ==>
      && Loadable(db.open, db.State(), h)
      && users[h] == Hydrated(RowOf(db.State(), h), SecretOf(db.open, db.State(), h).bytes)
  {
    hide SecretFrom;
    users, threw := map[], false;
    for i := 0 to |handles|
      invariant !threw
      invariant forall j :: 0 <= j < i ==> !Fails(db.open, valid, db.State(), handles[j])
      invariant forall j :: 0 <= j < i ==>
        (handles[j] in users <==> Loadable(db.open, db.State(), handles[j]))
      invariant forall h :: h in users ==> h in db.members
      invariant forall h :: h in users ==>
        && Loadable(db.open, db.State(), h)
        && users[h] == Hydrated(RowOf(db.State(), h), SecretOf(db.open, db.State(), h).bytes)
    {
      var h := handles[i];
      var data := db.GetUser(h);
      if data.None? { continue; }
      var c := CompatOf(db.open, db.State(), h);
      if c.Throws? {
        assert Fails(db.open, valid, db.State(), h);
        return users, true;
      }
      if c.secret.Some? && |c.secret.value| == 64 {
        if !valid(c.secret.value) {
          assert Fails(db.open, valid, db.State(), h);
          return users, true;
        }
        if c.legacy.Some? {
          assert false;
        }
        users := users[h := Hydrated(data.value, c.secret.value)];
      }
    }
    assert forall h :: h in db.members ==> exists j :: 0 <= j < |handles| && handles[j] == h;
  }
}
