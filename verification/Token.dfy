/** The session tokens of api-server.js: JWT compact form (section 7.1 of RFC 7515) signed with a
    key derived from the day. HKDF and HMAC are parameters. */
module Token {
  import opened Text
  import opened Codec
  import opened Json
  import opened Stringify

  /** `day` is the decimal text handed to HKDF as `info`. */
  type Kdf = (string) -> Bytes
  type Mac = (Bytes, Bytes) -> Bytes

  /** Ideal key derivation: different days get different keys. */
  ghost predicate IdealKdf(kdf: Kdf) { forall d, e :: kdf(d) == kdf(e) ==> d == e }

  /** Ideal MAC: a tag, never empty, tells keys and messages apart. */
  ghost predicate IdealMac(mac: Mac) {
    && (forall k, m :: mac(k, m) != [])
    && (forall k, l, m, n {:trigger mac(k, m), mac(l, n)} :: mac(k, m) == mac(l, n) ==> k == l && m == n)
  }

  const TTL := 7200
  const DAY := 86400

  const HEADER_BYTES := EncodeText("{\"alg\":\"HS256\",\"typ\":\"JWT\"}")
  const HEADER := Base64Url(HEADER_BYTES)

  function DayKey(kdf: Kdf, day: nat): Bytes { kdf(Decimal(day)) }

  function Member(name: string, v: Val, rest: Rest): Items { Items("", Label(Escape(name), "", ""), v, "", rest) }

  function PayloadDoc(sub: string, exp: nat, iat: nat): Val {
    Group(true, Full(Member("sub", StrTok(Escape(sub)),
                  Next(Member("exp", AtomTok(Decimal(exp)),
                    Next(Member("iat", AtomTok(Decimal(iat)), Done)))))))
  }

  /** `JSON.stringify({ sub, exp, iat })`: the members in that order, no white space. */
  function PayloadText(sub: string, exp: nat, iat: nat): string { Print(PayloadDoc(sub, exp, iat), "") }

  function Signature(mac: Mac, key: Bytes, payload: string): string {
    Base64Url(mac(key, EncodeText(HEADER + ("." + payload))))
  }

  /** `signToken` at `ms` milliseconds since the epoch. */
  function SignToken(kdf: Kdf, mac: Mac, sub: string, ms: nat): string {
    var s := ms / 1000;
    var payload := Base64Url(EncodeText(PayloadText(sub, s + TTL, s)));
    HEADER + ("." + (payload + ("." + Signature(mac, DayKey(kdf, ms / (DAY * 1000)), payload))))
  }

  datatype Verdict = Subject(units: seq<int>) | TokenError

  /** The last member of that name, as `JSON.parse` keeps it. */
  function Field(es: seq<Entry>, name: seq<int>): Option<Json> {
    if es == [] then None
    else if es[|es| - 1].name == name then Some(es[|es| - 1].value)
    else Field(es[..|es| - 1], name)
  }

  datatype Claims = NoClaims | Claims(exp: nat, sub: seq<int>)

  /** A payload counts only with a non-zero numeric `exp` and a non-empty string `sub`. */
  function ReadClaims(payload: string): Claims {
    var j := Parse(DecodeText(FromBase64(payload)));
    if j.None? || !j.value.Node? || !j.value.obj then NoClaims else
    var exp, sub := Field(j.value.entries, UnitsOf("exp")), Field(j.value.entries, UnitsOf("sub"));
    if exp.None? || sub.None? || !exp.value.Atom? || !sub.value.Str? || sub.value.units == [] then NoClaims else
    var text := exp.value.text;
    if !(forall i :: 0 <= i < |text| ==> IsDigit(text[i])) || Value(text) == 0 then NoClaims
    else Claims(Value(text), sub.value.units)
  }

  /** `verifyToken` at `ms` milliseconds since the epoch. */
  function VerifyToken(kdf: Kdf, mac: Mac, token: string, ms: nat): Verdict {
    var parts := Split(token, '.');
    if |parts| < 3 || parts[1] == "" || parts[2] == "" then TokenError else
    var c := ReadClaims(parts[1]);
    if c.NoClaims? || ms > c.exp * 1000 then TokenError
    else if parts[2] != Signature(mac, DayKey(kdf, c.exp / DAY), parts[1]) then TokenError
    else Subject(c.sub)
  }

  // ---- the payload is read back ----

  lemma MemberForm(name: string, v: Val, rest: Rest)
    requires WellFormed(v) && Strict(v) && WellFormedRest(true, rest) && StrictRest(rest)
    ensures var m := Member(name, v, rest);
      && WellFormedItems(true, m) && StrictItems(m)
      && ItemsMeaning(true, m) == [Entry(UnitsOf(name), Meaning(v))] + RestMeaning(true, rest)
  {
    EscapeRoundTrip(name);
    hide Decode, Escape, UnitsOf;
  }

  function PayloadEntries(sub: string, exp: nat, iat: nat): seq<Entry> {
    [Entry(UnitsOf("sub"), Str(UnitsOf(sub))), Entry(UnitsOf("exp"), Atom(Decimal(exp))),
     Entry(UnitsOf("iat"), Atom(Decimal(iat)))]
  }

  lemma PayloadParses(sub: string, exp: nat, iat: nat)
    ensures Parse(PayloadText(sub, exp, iat)) == Some(Node(true, PayloadEntries(sub, exp, iat)))
  {
    hide Decode, Escape, UnitsOf, IsAtom, Decimal, ParseValue, Member, Print, SkipWs;
    EscapeRoundTrip(sub);
    DecimalIsAtom(exp);
    DecimalIsAtom(iat);
    var iatM := Member("iat", AtomTok(Decimal(iat)), Done);
    var expM := Member("exp", AtomTok(Decimal(exp)), Next(iatM));
    var subM := Member("sub", StrTok(Escape(sub)), Next(expM));
    MemberForm("iat", AtomTok(Decimal(iat)), Done);
    MemberForm("exp", AtomTok(Decimal(exp)), Next(iatM));
    MemberForm("sub", StrTok(Escape(sub)), Next(expM));
    assert ItemsMeaning(true, subM) == PayloadEntries(sub, exp, iat);
    ParsePrint(PayloadDoc(sub, exp, iat));
  }

  lemma FieldsFound(es: seq<Entry>)
    requires |es| == 3 && es[0].name != es[1].name && es[0].name != es[2].name && es[1].name != es[2].name
    ensures Field(es, es[0].name) == Some(es[0].value) && Field(es, es[1].name) == Some(es[1].value)
  {
    assert es[..2] == [es[0], es[1]] && es[..2][..1] == [es[0]];
    assert Field(es, es[0].name) == Field(es[..2], es[0].name) == Field([es[0]], es[0].name);
    assert Field(es, es[1].name) == Field(es[..2], es[1].name);
  }

  lemma NamesDiffer()
    ensures UnitsOf("sub")[0] == 115 && UnitsOf("exp")[0] == 101 && UnitsOf("iat")[0] == 105
  {
  }

  lemma ClaimsReadBack(sub: string, exp: nat, iat: nat)
    requires sub != "" && exp > 0
    ensures ReadClaims(Base64Url(EncodeText(PayloadText(sub, exp, iat)))) == Claims(exp, UnitsOf(sub))
  {
    hide Base64Url, FromBase64, EncodeText, DecodeText, Parse, PayloadText, Field, Decimal, Value, UnitsOf;
    var text := PayloadText(sub, exp, iat);
    Base64RoundTrip(EncodeText(text));
    TextRoundTrip(text);
    PayloadParses(sub, exp, iat);
    ValueOfDecimal(exp);
    NamesDiffer();
    FieldsFound(PayloadEntries(sub, exp, iat));
  }

  // ---- the token is read back, exactly when ----

  lemma TokenSplits(header: string, payload: string, sig: string)
    requires '.' !in header && '.' !in payload && '.' !in sig
    ensures Split(header + ("." + (payload + ("." + sig))), '.') == [header, payload, sig]
  {
    SplitFirst(header, '.', payload + ("." + sig));
    SplitFirst(payload, '.', sig);
    SplitNone(sig, '.');
  }

  /** The day of issue is the day of expiry exactly until two hours before midnight UTC. */
  lemma SameDayIff(ms: nat)
    ensures (ms / 1000 + TTL) / DAY == ms / (DAY * 1000) <==> ms / 1000 % DAY < DAY - TTL
  {
    var s := ms / 1000;
    var d := ms / (DAY * 1000);
    assert s / DAY == d;
    assert s == DAY * d + s % DAY;
  }

  /** A token signed at `issued` verifies at `now` to its subject if and only if it has not expired
      and was issued at least two hours before midnight UTC; otherwise it is an error. */
  lemma TokenRoundTripIff(kdf: Kdf, mac: Mac, sub: string, issued: nat, now: nat)
    requires sub != "" && IdealKdf(kdf) && IdealMac(mac)
    ensures VerifyToken(kdf, mac, SignToken(kdf, mac, sub, issued), now)
         == if now <= (issued / 1000 + 7200) * 1000 && issued / 1000 % 86400 < 79200
            then Subject(UnitsOf(sub)) else TokenError
  {
    hide Base64Url, EncodeText, PayloadText, ReadClaims, UnitsOf;
    var s := issued / 1000;
    var bytes := EncodeText(PayloadText(sub, s + TTL, s));
    var payload := Base64Url(bytes);
    var day, expDay := issued / (DAY * 1000), (s + TTL) / DAY;
    var msg := EncodeText(HEADER + ("." + payload));
    var tag, expTag := mac(DayKey(kdf, day), msg), mac(DayKey(kdf, expDay), msg);
    ClaimsReadBack(sub, s + TTL, s);
    PayloadNotEmpty(sub, s);
    Base64UrlShape(bytes);
    Base64UrlShape(tag);
    Base64UrlShape(HEADER_BYTES);
    TokenSplits(HEADER, payload, Base64Url(tag));
    SameDayIff(issued);
    if Base64Url(tag) == Base64Url(expTag) {
      Base64UrlInjective(tag, expTag);
      DecimalInjective(day, expDay);
    }
  }

  /** The two hours a token is promised for are not kept: one issued at 22:00 UTC is dead at birth. */
  lemma LateTokenNeverVerifies(kdf: Kdf, mac: Mac, sub: string, now: nat)
    requires sub != "" && IdealKdf(kdf) && IdealMac(mac)
    ensures VerifyToken(kdf, mac, SignToken(kdf, mac, sub, 79_200_000), now) == TokenError
  {
    hide SignToken, VerifyToken;
    TokenRoundTripIff(kdf, mac, sub, 79_200_000, now);
  }

  lemma PayloadNotEmpty(sub: string, s: nat)
    ensures EncodeText(PayloadText(sub, s + TTL, s)) != []
  {
  }

  // ---- nothing else verifies ----

  predicate AllDecimal(text: string) { forall i :: 0 <= i < |text| ==> IsDigit(text[i]) }

  /** A member of that name that no other follows. */
  predicate LastAt(es: seq<Entry>, name: seq<int>, v: Json, i: int) {
    0 <= i < |es| && es[i] == Entry(name, v) && forall j :: i < j < |es| ==> es[j].name != name
  }

  ghost predicate LastMember(es: seq<Entry>, name: seq<int>, v: Json) { exists i :: LastAt(es, name, v, i) }

  lemma LastAtFront(es: seq<Entry>, e: Entry, name: seq<int>, v: Json, i: int)
    requires e.name != name
    ensures LastAt(es + [e], name, v, i) <==> LastAt(es, name, v, i)
  {
    var all := es + [e];
    if LastAt(all, name, v, i) { assert forall j :: i < j < |es| ==> all[j] == es[j]; }
  }

  lemma LastAtEnd(es: seq<Entry>, e: Entry, v: Json, i: int)
    ensures LastAt(es + [e], e.name, v, i) <==> i == |es| && e.value == v
  {
    if LastAt(es + [e], e.name, v, i) { assert (es + [e])[|es|] == e; }
  }

  lemma FieldNext(es: seq<Entry>, e: Entry, name: seq<int>)
    ensures Field(es + [e], name) == if e.name == name then Some(e.value) else Field(es, name)
  {
    assert (es + [e])[..|es|] == es;
  }

  lemma {:induction false} FieldIff(es: seq<Entry>, name: seq<int>, v: Json)
    ensures Field(es, name) == Some(v) <==> LastMember(es, name, v)
  {
    if es != [] {
      var front, e := es[..|es| - 1], es[|es| - 1];
      assert es == front + [e];
      FieldNext(front, e, name);
      FieldIff(front, name, v);
      LastMemberNext(front, e, name, v);
    }
  }

  lemma LastMemberNext(es: seq<Entry>, e: Entry, name: seq<int>, v: Json)
    ensures LastMember(es + [e], name, v) <==> if e.name == name then e.value == v else LastMember(es, name, v)
  {
    hide LastAt;
    if e.name == name { LastAtEnd(es, e, v, |es|); }
    forall i ensures e.name != name ==> (LastAt(es + [e], name, v, i) <==> LastAt(es, name, v, i))
      ensures e.name == name && LastAt(es + [e], name, v, i) ==> e.value == v
    {
      if e.name != name { LastAtFront(es, e, name, v, i); } else { LastAtEnd(es, e, v, i); }
    }
  }

  /** The last `exp` is a natural number other than zero, the last `sub` a string that is not empty. */
  ghost predicate ClaimsIn(es: seq<Entry>, exp: nat, sub: seq<int>) {
    && exp > 0 && sub != [] && LastMember(es, UnitsOf("sub"), Str(sub))
    && exists text :: AllDecimal(text) && Value(text) == exp && LastMember(es, UnitsOf("exp"), Atom(text))
  }

  lemma ClaimsRead(payload: string, es: seq<Entry>, exp: nat, sub: seq<int>)
    requires Parse(DecodeText(FromBase64(payload))) == Some(Node(true, es))
    ensures ReadClaims(payload) == Claims(exp, sub) <==> ClaimsIn(es, exp, sub)
  {
    hide Parse, DecodeText, FromBase64, Field, LastMember, UnitsOf, Value;
    var expName, subName := UnitsOf("exp"), UnitsOf("sub");
    var e := Field(es, expName);
    FieldIff(es, subName, Str(sub));
    if e.Some? { FieldIff(es, expName, e.value); }
    if ClaimsIn(es, exp, sub) {
      var text :| AllDecimal(text) && Value(text) == exp && LastMember(es, expName, Atom(text));
      FieldIff(es, expName, Atom(text));
    }
  }

  /** A payload makes a claim if and only if it decodes to an object that does. */
  lemma ClaimsIff(payload: string, exp: nat, sub: seq<int>)
    ensures ReadClaims(payload) == Claims(exp, sub)
       <==> exists es :: Parse(DecodeText(FromBase64(payload))) == Some(Node(true, es)) && ClaimsIn(es, exp, sub)
  {
    hide Parse, DecodeText, FromBase64, Field, ClaimsIn, UnitsOf, Value;
    var j := Parse(DecodeText(FromBase64(payload)));
    if j.Some? && j.value.Node? && j.value.obj {
      assert j == Some(Node(true, j.value.entries));
      ClaimsRead(payload, j.value.entries, exp, sub);
    }
  }

  /** Of any text at all: it verifies if and only if its second part carries an expiry that is not over and a subject,
      and its third part is the tag of header, dot and second part under the key of the day of that expiry. */
  lemma VerifiedIff(kdf: Kdf, mac: Mac, token: string, ms: nat, sub: seq<int>)
    ensures var parts := Split(token, '.');
      var c := if |parts| >= 3 then ReadClaims(parts[1]) else NoClaims;
      VerifyToken(kdf, mac, token, ms) == Subject(sub)
      <==> && c.Claims? && parts[1] != "" && parts[2] != "" && c.sub == sub && ms <= c.exp * 1000
           && parts[2] == Base64Url(mac(kdf(Decimal(c.exp / 86400)), EncodeText(HEADER + ("." + parts[1]))))
  {
    hide Split, ReadClaims, Base64Url, EncodeText, Decimal;
  }

  /** The header every token carries. */
  lemma HeaderReadsBack()
    ensures DecodeText(FromBase64(HEADER)) == "{\"alg\":\"HS256\",\"typ\":\"JWT\"}"
  {
    hide Base64Url, FromBase64, EncodeText, DecodeText;
    Base64RoundTrip(HEADER_BYTES);
    TextRoundTrip("{\"alg\":\"HS256\",\"typ\":\"JWT\"}");
  }

  /** The parts of a token put together. */
  function Compact(payload: string, sig: string): string { HEADER + ("." + (payload + ("." + sig))) }

  lemma CompactSplits(payload: string, sig: string)
    requires '.' !in payload && '.' !in sig
    ensures Split(Compact(payload, sig), '.') == [HEADER, payload, sig]
  {
    Base64UrlShape(HEADER_BYTES);
    TokenSplits(HEADER, payload, sig);
  }

  lemma MessagesDiffer(p: string, q: string)
    requires EncodeText(HEADER + ("." + p)) == EncodeText(HEADER + ("." + q))
    ensures p == q
  {
    hide EncodeText, DecodeText;
    TextRoundTrip(HEADER + ("." + p));
    TextRoundTrip(HEADER + ("." + q));
    var n := |HEADER| + 1;
    assert (HEADER + ("." + p))[n..] == p && (HEADER + ("." + q))[n..] == q;
  }

  /** A signature fits its own payload only: with any other second part, whatever it says and whoever made it, a signed
      token is an error at every time. */
  lemma TamperedIsError(kdf: Kdf, mac: Mac, key: Bytes, payload: string, other: string, ms: nat)
    requires IdealMac(mac) && '.' !in other && other != payload
    ensures VerifyToken(kdf, mac, Compact(other, Signature(mac, key, payload)), ms) == TokenError
  {
    hide Base64Url, EncodeText, ReadClaims, Split;
    var sig := Signature(mac, key, payload);
    Base64UrlShape(mac(key, EncodeText(HEADER + ("." + payload))));
    CompactSplits(other, sig);
    var c := ReadClaims(other);
    if c.Claims? && sig == Signature(mac, DayKey(kdf, c.exp / DAY), other) {
      var m, n := EncodeText(HEADER + ("." + payload)), EncodeText(HEADER + ("." + other));
      Base64UrlInjective(mac(key, m), mac(DayKey(kdf, c.exp / DAY), n));
      MessagesDiffer(payload, other);
    }
  }

  /** In particular the tokens that `signToken` hands out. */
  lemma SwappedPayloadIsError(kdf: Kdf, mac: Mac, sub: string, issued: nat, other: string, ms: nat)
    requires IdealMac(mac) && '.' !in other
    ensures var s := issued / 1000;
      var payload := Base64Url(EncodeText(PayloadText(sub, s + 7200, s)));
      var sig := Signature(mac, kdf(Decimal(issued / 86_400_000)), payload);
      && SignToken(kdf, mac, sub, issued) == Compact(payload, sig)
      && (other != payload ==> VerifyToken(kdf, mac, Compact(other, sig), ms) == TokenError)
  {
    hide Base64Url, EncodeText, PayloadText, Signature, VerifyToken, Decimal;
    var s := issued / 1000;
    var payload := Base64Url(EncodeText(PayloadText(sub, s + TTL, s)));
    if other != payload { TamperedIsError(kdf, mac, DayKey(kdf, issued / (DAY * 1000)), payload, other, ms); }
  }

  // ---- the route that issues tokens ----

  /** `z.string().min(2).max(32).regex(/^@[a-zA-Z0-9_]+$/)` */
  predicate ValidHandle(h: string) {
    2 <= |h| <= 32 && h[0] == '@' && forall i :: 1 <= i < |h| ==> IsWordChar(h[i])
  }

  /** Every handle the schema lets through comes back lower-cased, on the same condition. */
  lemma HandleRoundTripIff(kdf: Kdf, mac: Mac, handle: string, issued: nat, now: nat)
    requires ValidHandle(handle) && IdealKdf(kdf) && IdealMac(mac)
    ensures VerifyToken(kdf, mac, SignToken(kdf, mac, LowerAll(handle), issued), now)
         == if now <= (issued / 1000 + 7200) * 1000 && issued / 1000 % 86400 < 79200
            then Subject(UnitsOf(LowerAll(handle))) else TokenError
  {
    hide SignToken, VerifyToken;
    TokenRoundTripIff(kdf, mac, LowerAll(handle), issued, now);
  }
}
