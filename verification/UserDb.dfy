/** The Redis user store of db.js. AES-256-GCM is a pair of parameters; the random IV of each
    encryption is an argument. */
module UserDb {
  import opened Text
  import opened Codec
  import opened Stringify

  // ---- the encrypted wallet field ----

  datatype Sealed = Sealed(tag: Bytes, cipher: Bytes)

  type Seal = (Bytes, Bytes) -> Sealed
  type Open = (Bytes, Bytes, Bytes) -> Option<Bytes>

  /** What is sealed under an IV opens under that IV to the same bytes; tags are 16 bytes long. */
  ghost predicate IdealAead(seal: Seal, open: Open) {
    forall iv, p {:trigger seal(iv, p)} ::
      |seal(iv, p).tag| == 16 && open(iv, seal(iv, p).tag, seal(iv, p).cipher) == Some(p)
  }

  /** `iv | tag | cipher`, in base64. */
  function Encrypt(seal: Seal, iv: Bytes, plain: Bytes): string {
    Base64(iv + (seal(iv, plain).tag + seal(iv, plain).cipher))
  }

  /** `raw.subarray(a, b)`: the bounds are clamped to the buffer. */
  function Subarray(raw: Bytes, a: nat, b: nat): Bytes
    requires a <= b
  {
    if |raw| <= a then [] else if |raw| <= b then raw[a..] else raw[a..b]
  }

  function Decrypt(open: Open, text: string): Option<Bytes> {
    var raw := FromBase64(text);
    open(Subarray(raw, 0, 12), Subarray(raw, 12, 28), if |raw| <= 28 then [] else raw[28..])
  }

  /** The stored text is IV, tag and ciphertext, and gives the plaintext back, whatever its length. */
  lemma DecryptEncrypt(seal: Seal, open: Open, iv: Bytes, plain: Bytes)
    requires IdealAead(seal, open) && |iv| == 12
    ensures Decrypt(open, Encrypt(seal, iv, plain)) == Some(plain)
    ensures FromBase64(Encrypt(seal, iv, plain)) == iv + (seal(iv, plain).tag + seal(iv, plain).cipher)
  {
    var tag, cipher := seal(iv, plain).tag, seal(iv, plain).cipher;
    var raw := iv + (tag + cipher);
    Base64RoundTrip(raw);
    hide Base64, FromBase64;
    assert raw[0..12] == iv && raw[12..28] == tag && raw[28..] == cipher;
    if |raw| == 28 { assert cipher == [] && raw[12..] == tag; }
  }

  // ---- rows ----

  type Row = map<string, string>

  datatype Store = Store(members: set<string>, rows: map<string, Row>)

  function RowOf(st: Store, h: string): Row { if h in st.rows then st.rows[h] else map[] }

  const ENC := "enc:"

  predicate IsEnc(w: string) { |w| >= 4 && w[..4] == ENC }

  /** A wallet that looks like plaintext is replaced by its encryption. */
  function SealedData(seal: Seal, data: Row, iv: Bytes): Row {
    if "wallet" in data && data["wallet"] != "" && !IsEnc(data["wallet"])
    then data["wallet" := ENC + Encrypt(seal, iv, EncodeText(data["wallet"]))] else data
  }

  /** The store after `upsertUser`: the handle is listed, the given fields are merged into its row. */
  function Upserted(seal: Seal, st: Store, h: string, data: Row, iv: Bytes): Store {
    Store(st.members + {h},
          if data == map[] then st.rows else st.rows[h := RowOf(st, h) + SealedData(seal, data, iv)])
  }

  /** The store after `setWalletSecret`. */
  function WithSecret(seal: Seal, st: Store, h: string, secret: Bytes, iv: Bytes): Store {
    Store(st.members + {h},
          st.rows[h := RowOf(st, h)["wallet" := ENC + Encrypt(seal, iv, EncodeText(ArrayText(secret)))]])
  }

  /** `getUser`: every field but the wallet; `None` for an empty row. */
  function UserOf(st: Store, h: string): Option<Row> {
    if RowOf(st, h) == map[] then None else Some(RowOf(st, h) - {"wallet"})
  }

  /** `Broken` stands for the exception of a wallet that does not decrypt or parse. */
  datatype Secret = Missing | Broken | Secret(bytes: Bytes)

  function SecretFrom(open: Open, field: string): Secret {
    if !IsEnc(field) then Missing else
    var plain := Decrypt(open, field[4..]);
    if plain.None? then Broken else Parsed(DecodeText(plain.value))
  }

  function Parsed(text: string): Secret {
    var b := ParseBytes(text);
    if b.None? then Broken else Secret(b.value)
  }

  /** `getWalletSecret`. */
  function SecretOf(open: Open, st: Store, h: string): Secret {
    if "wallet" in RowOf(st, h) then SecretFrom(open, RowOf(st, h)["wallet"]) else Missing
  }

  datatype Compat = Throws | Compat(secret: Option<Bytes>, legacy: Option<string>)

  /** `getWalletCompat`. */
  function CompatOf(open: Open, st: Store, h: string): (c: Compat)
    ensures c.Compat? ==> c.secret.None? || c.legacy.None?
    ensures c.Throws? <==> SecretOf(open, st, h).Broken?
    ensures c.Compat? && c.secret.Some? <==> SecretOf(open, st, h).Secret?
    ensures c.Compat? && c.secret.Some? ==> SecretOf(open, st, h) == Secret(c.secret.value)
    ensures c.Compat? && c.legacy.Some? ==> "wallet" in RowOf(st, h) && c.legacy.value == RowOf(st, h)["wallet"]
  {
    if "wallet" !in RowOf(st, h) || RowOf(st, h)["wallet"] == "" then Compat(None, None) else
    var field := RowOf(st, h)["wallet"];
    if !IsEnc(field) then Compat(None, Some(field)) else
    match SecretFrom(open, field)
    case Secret(b) => Compat(Some(b), None)
    case _ => Throws
  }

  /** Writing one field first and the others after it is writing them all. */
  lemma MergeApart(row: Row, data: Row, k: string)
    ensures k in data ==> (row + map[k := data[k]]) + (data - {k}) == row + data
  {
  }

  lemma SealedApart(seal: Seal, data: Row, iv: Bytes)
    ensures SealedData(seal, data - {"chatId"}, iv) == SealedData(seal, data, iv) - {"chatId"}
    ensures var all := SealedData(seal, data, iv);
      "chatId" in data ==> "chatId" in all && all["chatId"] == data["chatId"]
  {
  }

  lemma SealedEmpty(seal: Seal, data: Row, iv: Bytes)
    ensures SealedData(seal, data, iv) == map[] <==> data == map[]
  {
  }

  // ---- the store as an object ----

  class Db {
    var members: set<string>
    var rows: map<string, Row>
    const seal: Seal
    const open: Open

    constructor (seal: Seal, open: Open)
      ensures State() == Store({}, map[]) && this.seal == seal && this.open == open
    {
      this.seal, this.open := seal, open;
      members, rows := {}, map[];
    }

    function State(): Store
      reads this
    {
      Store(members, rows)
    }

    /** `HSET key fields`: creates the row or merges into it. */
    method Hset(h: string, fields: Row)
      modifies this
      ensures State() == Store(old(members), old(rows)[h := RowOf(old(State()), h) + fields])
    {
      rows := rows[h := RowOf(State(), h) + fields];
    }

    /** Encrypts a wallet that looks like plaintext. */
    method EncryptWallet(given: Row, iv: Bytes) returns (data: Row)
      ensures data == SealedData(seal, given, iv)
    {
      hide Encrypt, EncodeText, IsEnc;
      data := given;
      if "wallet" in data && data["wallet"] != "" && !IsEnc(data["wallet"]) {
        data := data["wallet" := ENC + Encrypt(seal, iv, EncodeText(data["wallet"]))];
      }
    }

    /** `data` is what the call leaves of the caller's own object. */
    method UpsertUser(h: string, given: Row, iv: Bytes) returns (data: Row)
      modifies this
      ensures State() == Upserted(seal, old(State()), h, given, iv)
      ensures var gone := if "chatId" in given && given["chatId"] != "" then {"chatId"} else {};
        data == SealedData(seal, given, iv) - gone
    {
      hide SealedData;
      data := given;
      if "chatId" in data && data["chatId"] != "" {
        Hset(h, map["chatId" := data["chatId"]]);
        data := data - {"chatId"};
      }
      SealedApart(seal, given, iv);
      SealedEmpty(seal, given, iv);
      data := EncryptWallet(data, iv);
      members := members + {h};
      if data != map[] { Hset(h, data); }
      ghost var all := SealedData(seal, given, iv);
      MergeApart(RowOf(old(State()), h), all, "chatId");
      assert all - {} == all;
      if given != map[] {
        if data == map[] { assert all == map["chatId" := given["chatId"]]; }
        assert rows == old(rows)[h := RowOf(old(State()), h) + all];
      }
    }

    method SetWalletSecret(h: string, secret: Bytes, iv: Bytes)
      modifies this
      ensures State() == WithSecret(seal, old(State()), h, secret, iv)
    {
      var cipher := ENC + Encrypt(seal, iv, EncodeText(ArrayText(secret)));
      members := members + {h};
      Hset(h, map["wallet" := cipher]);
      assert RowOf(State(), h) == RowOf(old(State()), h)["wallet" := cipher];
    }

    /** `getUser` never shows a wallet. */
    method GetUser(h: string) returns (u: Option<Row>)
      ensures u == UserOf(State(), h)
      ensures u.Some? ==> "wallet" !in u.value
    {
      var data := RowOf(State(), h);
      if data == map[] { return None; }
      u := Some(data - {"wallet"});
    }
  }

  // ---- what a history of writes leaves behind ----

  datatype Op =
    | Upsert(h: string, data: Row, iv: Bytes)
    | SetSecret(h: string, secret: Bytes, iv: Bytes)

  function Apply(seal: Seal, st: Store, op: Op): Store {
    match op
    case Upsert(h, data, iv) => Upserted(seal, st, h, data, iv)
    case SetSecret(h, secret, iv) => WithSecret(seal, st, h, secret, iv)
  }

  function Run(seal: Seal, st: Store, ops: seq<Op>): Store {
    if ops == [] then st else Apply(seal, Run(seal, st, ops[..|ops| - 1]), ops[|ops| - 1])
  }

  /** The last wallet written for a handle: plaintext, or a field value taken as it is. */
  datatype Written = Never | Plain(text: string) | Raw(field: string)

  function WrittenBy(op: Op, h: string): Written {
    if op.h != h then Never
    else match op
      case SetSecret(_, secret, _) => Plain(ArrayText(secret))
      case Upsert(_, data, _) =>
        if "wallet" !in data then Never
        else if data["wallet"] == "" || IsEnc(data["wallet"]) then Raw(data["wallet"])
        else Plain(data["wallet"])
  }

  function LastWritten(ops: seq<Op>, h: string): Written {
    if ops == [] then Never
    else if WrittenBy(ops[|ops| - 1], h) != Never then WrittenBy(ops[|ops| - 1], h)
    else LastWritten(ops[..|ops| - 1], h)
  }

  predicate GoodIvs(ops: seq<Op>) { forall i :: 0 <= i < |ops| ==> |ops[i].iv| == 12 }

  lemma EncField(s: string)
    ensures IsEnc(ENC + s) && (ENC + s)[4..] == s
  {
  }

  /** A wallet field holding an encrypted text reads as that text. */
  lemma SealedReads(seal: Seal, open: Open, iv: Bytes, text: string)
    requires IdealAead(seal, open) && |iv| == 12
    ensures SecretFrom(open, ENC + Encrypt(seal, iv, EncodeText(text))) == Parsed(text)
  {
    hide IsEnc, Encrypt, Decrypt, EncodeText, DecodeText, Parsed;
    EncField(Encrypt(seal, iv, EncodeText(text)));
    DecryptEncrypt(seal, open, iv, EncodeText(text));
    TextRoundTrip(text);
  }

  lemma StepReads(seal: Seal, open: Open, st: Store, op: Op, h: string)
    requires IdealAead(seal, open) && |op.iv| == 12
    ensures SecretOf(open, Apply(seal, st, op), h)
         == match WrittenBy(op, h)
            case Never => SecretOf(open, st, h)
            case Plain(text) => Parsed(text)
            case Raw(field) => SecretFrom(open, field)
  {
    hide Encrypt, EncodeText, ArrayText, Parsed, SecretFrom;
    if op.SetSecret? {
      SealedReads(seal, open, op.iv, ArrayText(op.secret));
    } else if "wallet" in op.data {
      SealedReads(seal, open, op.iv, op.data["wallet"]);
    }
  }

  /** After any sequence of writes, reading a wallet gives exactly the last one written for that
      handle; writes without a wallet, or for other handles, never disturb it. */
  lemma {:induction false} LastWalletWins(seal: Seal, open: Open, st: Store, ops: seq<Op>, h: string)
    requires IdealAead(seal, open) && GoodIvs(ops)
    ensures SecretOf(open, Run(seal, st, ops), h)
         == match LastWritten(ops, h)
            case Never => SecretOf(open, st, h)
            case Plain(text) => Parsed(text)
            case Raw(field) => SecretFrom(open, field)
  {
    hide Apply, WrittenBy, SecretOf, SecretFrom, Parsed;
    if ops != [] {
      var front, last := ops[..|ops| - 1], ops[|ops| - 1];
      LastWalletWins(seal, open, st, front, h);
      StepReads(seal, open, Run(seal, st, front), last, h);
    }
  }

  /** In particular, bytes come back as they were written, by either way of writing them. */
  lemma SecretRoundTrip(seal: Seal, open: Open, st: Store, ops: seq<Op>, h: string, bytes: Bytes)
    requires IdealAead(seal, open) && GoodIvs(ops)
    requires LastWritten(ops, h) == Plain(ArrayText(bytes))
    ensures SecretOf(open, Run(seal, st, ops), h) == Secret(bytes)
  {
    LastWalletWins(seal, open, st, ops, h);
    BytesRoundTrip(bytes);
  }

  /** A wallet field that is empty or encrypted. */
  predicate NoPlaintext(row: Row) { "wallet" in row && row["wallet"] != "" ==> "enc:" <= row["wallet"] }

  lemma StepSeals(seal: Seal, st: Store, op: Op, h: string)
    requires NoPlaintext(RowOf(st, h))
    ensures NoPlaintext(RowOf(Apply(seal, st, op), h))
  {
    hide Encrypt, EncodeText, ArrayText;
  }

  /** Whatever is written, and by whichever call, no wallet is stored in plaintext. */
  lemma {:induction false} SealedAtRest(seal: Seal, st: Store, ops: seq<Op>, h: string)
    requires NoPlaintext(RowOf(st, h))
    ensures NoPlaintext(RowOf(Run(seal, st, ops), h))
  {
    hide Apply, NoPlaintext;
    if ops != [] {
      SealedAtRest(seal, st, ops[..|ops| - 1], h);
      StepSeals(seal, Run(seal, st, ops[..|ops| - 1]), ops[|ops| - 1], h);
    }
  }

  /** The last value given for a field of a handle. */
  function LastGiven(ops: seq<Op>, h: string, f: string): Option<string> {
    if ops == [] then None else
    var op := ops[|ops| - 1];
    if op.Upsert? && op.h == h && f in op.data then Some(op.data[f]) else LastGiven(ops[..|ops| - 1], h, f)
  }

  lemma StepFields(seal: Seal, st: Store, op: Op, h: string, f: string)
    requires f != "wallet"
    ensures var row, row' := RowOf(st, h), RowOf(Apply(seal, st, op), h);
      if op.Upsert? && op.h == h && f in op.data then f in row' && row'[f] == op.data[f]
      else (f in row' <==> f in row) && (f in row ==> row'[f] == row[f])
  {
    hide Encrypt, EncodeText, ArrayText, IsEnc;
  }

  /** After any sequence of writes, every other field holds the last value given for it and a handle is listed if and
      only if it was or something was written for it. */
  lemma {:induction false} LastFieldWins(seal: Seal, st: Store, ops: seq<Op>, h: string, f: string)
    requires f != "wallet"
    ensures var row, row', given := RowOf(st, h), RowOf(Run(seal, st, ops), h), LastGiven(ops, h, f);
      if given.Some? then f in row' && row'[f] == given.value
      else (f in row' <==> f in row) && (f in row ==> row'[f] == row[f])
    ensures h in Run(seal, st, ops).members <==> h in st.members || exists i :: 0 <= i < |ops| && ops[i].h == h
  {
    hide SealedData, Encrypt, EncodeText, ArrayText, RowOf;
    if ops != [] {
      var front, op := ops[..|ops| - 1], ops[|ops| - 1];
      LastFieldWins(seal, st, front, h, f);
      StepFields(seal, Run(seal, st, front), op, h, f);
      assert forall i :: 0 <= i < |front| ==> ops[i] == front[i];
    }
  }
}
