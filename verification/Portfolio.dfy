/** The portfolio snapshot of commands.js: balances per mint, values rounded to cents, and their total.
    Amounts and prices are exact reals, not floating-point numbers. */
module Portfolio {
  import opened Text

  // ---- sums ----

  function SumOf<T>(s: seq<T>, f: T -> real): real {
    if s == [] then 0.0 else SumOf(s[..|s| - 1], f) + f(s[|s| - 1])
  }

  lemma {:induction false} SumOfConcat<T>(a: seq<T>, b: seq<T>, f: T -> real)
    ensures SumOf(a + b, f) == SumOf(a, f) + SumOf(b, f)
  {
    if b == [] {
      assert a + b == a;
    } else {
      assert (a + b)[..|a + b| - 1] == a + b[..|b| - 1];
      SumOfConcat(a, b[..|b| - 1], f);
    }
  }

  lemma SumOfOne<T>(x: T, f: T -> real)
    ensures SumOf([x], f) == f(x)
  {
    assert [x][..0] == [];
  }

  /** A list with one element picked out. */
  lemma PickedOut<T>(s: seq<T>, i: nat)
    requires i < |s|
    ensures s == s[..i] + ([s[i]] + s[i + 1..])
  {
  }

  /** Taking one element out. */
  lemma SumOfWithout<T>(s: seq<T>, i: nat, f: T -> real)
    requires i < |s|
    ensures SumOf(s, f) == SumOf(s[..i] + s[i + 1..], f) + f(s[i])
  {
    hide SumOf;
    var a, x, b := s[..i], [s[i]], s[i + 1..];
    PickedOut(s, i);
    SumOfConcat(a, x + b, f);
    SumOfConcat(x, b, f);
    SumOfConcat(a, b, f);
    SumOfOne(s[i], f);
  }

  lemma MultisetWithout<T>(s: seq<T>, i: nat)
    requires i < |s|
    ensures multiset(s[..i] + s[i + 1..]) == multiset(s) - multiset{s[i]}
  {
    PickedOut(s, i);
  }

  lemma MultisetFront<T>(s: seq<T>)
    requires s != []
    ensures multiset(s[..|s| - 1]) == multiset(s) - multiset{s[|s| - 1]} && s[|s| - 1] in multiset(s)
  {
    assert s == s[..|s| - 1] + [s[|s| - 1]];
  }

  lemma EmptyMultiset<T>(s: seq<T>)
    requires multiset(s) == multiset([])
    ensures s == []
  {
    assert |multiset(s)| == |s|;
  }

  lemma FoundIn<T>(s: seq<T>, x: T) returns (i: nat)
    requires x in multiset(s)
    ensures i < |s| && s[i] == x
  {
    i :| i < |s| && s[i] == x;
  }

  lemma SumOfFront<T>(s: seq<T>, f: T -> real)
    requires s != []
    ensures SumOf(s, f) == SumOf(s[..|s| - 1], f) + f(s[|s| - 1])
  {
  }

  /** A sum does not depend on the order of its terms. */
  lemma {:induction false} SumOfPermuted<T>(a: seq<T>, b: seq<T>, f: T -> real)
    requires multiset(a) == multiset(b)
    ensures SumOf(a, f) == SumOf(b, f)
    decreases |a|
  {
    hide SumOf;
    if a == [] {
      EmptyMultiset(b);
    } else {
      MultisetFront(a);
      var i := FoundIn(b, a[|a| - 1]);
      MultisetWithout(b, i);
      SumOfPermuted(a[..|a| - 1], b[..i] + b[i + 1..], f);
      SumOfFront(a, f);
      SumOfWithout(b, i, f);
    }
  }

  // ---- balances per mint ----

  datatype Account = Account(mint: string, amount: real)

  /** What an account adds to the balance of `mint`. */
  function Share(mint: string): Account -> real {
    (a: Account) => if a.mint == mint && a.amount > 0.0 then a.amount else 0.0
  }

  function Held(accounts: seq<Account>, mint: string): real { SumOf(accounts, Share(mint)) }

  predicate IsHeld(accounts: seq<Account>, mint: string) {
    exists i :: 0 <= i < |accounts| && accounts[i].mint == mint && accounts[i].amount > 0.0
  }

  predicate Distinct<T(==)>(s: seq<T>) { forall i, j :: 0 <= i < j < |s| ==> s[i] != s[j] }

  /** The loop over the token accounts. `order` is the insertion order of the object's keys. */
  method Aggregate(accounts: seq<Account>) returns (balances: map<string, real>, order: seq<string>)
    ensures forall m :: m in balances <==> IsHeld(accounts, m)
    ensures forall m :: m in balances ==> balances[m] == Held(accounts, m)
    ensures Distinct(order) && forall m :: m in order <==> m in balances
  {
    balances, order := map[], [];
    for i := 0 to |accounts|
      invariant forall m :: m in balances <==> IsHeld(accounts[..i], m)
      invariant forall m :: (if m in balances then balances[m] else 0.0) == Held(accounts[..i], m)
      invariant Distinct(order) && forall m :: m in order <==> m in balances
    {
      var a := accounts[i];
      HeldStep(accounts[..i], a);
      assert accounts[..i + 1] == accounts[..i] + [a];
      if a.amount > 0.0 {
        if a.mint !in balances { order := order + [a.mint]; }
        balances := balances[a.mint := (if a.mint in balances then balances[a.mint] else 0.0) + a.amount];
      }
    }
    assert accounts[..|accounts|] == accounts;
  }

  lemma HeldStep(front: seq<Account>, a: Account)
    ensures forall m :: Held(front + [a], m) == Held(front, m) + Share(m)(a)
    ensures forall m :: IsHeld(front + [a], m) <==> IsHeld(front, m) || (a.mint == m && a.amount > 0.0)
  {
    var s := front + [a];
    assert s[..|s| - 1] == front;
    forall m ensures IsHeld(s, m) <==> IsHeld(front, m) || (a.mint == m && a.amount > 0.0) {
      if IsHeld(front, m) {
        var i :| 0 <= i < |front| && front[i].mint == m && front[i].amount > 0.0;
        assert s[i] == front[i];
      }
      assert s[|front|] == a;
    }
  }

  /** The balances are the same in whatever order the accounts come. */
  lemma BalancesIgnoreOrder(a: seq<Account>, b: seq<Account>, m: string)
    requires multiset(a) == multiset(b)
    ensures Held(a, m) == Held(b, m) && (IsHeld(a, m) <==> IsHeld(b, m))
  {
    SumOfPermuted(a, b, Share(m));
    if IsHeld(a, m) {
      var i :| 0 <= i < |a| && a[i].mint == m && a[i].amount > 0.0;
      assert a[i] in multiset(b);
    }
    if IsHeld(b, m) {
      var i :| 0 <= i < |b| && b[i].mint == m && b[i].amount > 0.0;
      assert b[i] in multiset(a);
    }
  }

  // ---- rounding to cents ----

  /** `toFixed(2)` as a number of cents: the nearest, and the larger of two equally near ones
      (section 21.1.3.3 of ECMA-262, for amounts that are not negative). */
  function Cents(x: real): (n: int)
    requires x >= 0.0
    ensures n >= 0 && -0.5 < n as real - x * 100.0 <= 0.5
  {
    (x * 100.0 + 0.5).Floor
  }

  /** Whole cents can be added before or after rounding. */
  lemma CentsShift(x: real, n: nat)
    requires x >= 0.0
    ensures Cents(x + n as real / 100.0) == Cents(x) + n && Cents(0.0) == 0
  {
    assert (x + n as real / 100.0) * 100.0 == x * 100.0 + n as real;
  }

  // ---- the snapshot ----

  datatype Line = Line(mint: string, amount: real, price: real, cents: nat)

  datatype Snapshot = Snapshot(solCents: Option<nat>, tokens: seq<Line>, totalCents: nat)

  type Prices = map<string, real>

  predicate GoodPrices(prices: Prices) { forall k :: k in prices ==> prices[k] >= 0.0 }

  /** `prices[mint.toLowerCase()]?.usd ?? 0` */
  function PriceOf(prices: Prices, mint: string): (p: real)
    requires GoodPrices(prices)
    ensures p >= 0.0
  {
    if LowerAll(mint) in prices then prices[LowerAll(mint)] else 0.0
  }

  function LineFor(mint: string, amount: real, prices: Prices): Line
    requires GoodPrices(prices) && amount >= 0.0
  {
    Line(mint, amount, PriceOf(prices, mint), Cents(amount * PriceOf(prices, mint)))
  }

  /** `k` is the mint in lower case, letter by letter. */
  predicate IsLowered(k: string, mint: string) { |k| == |mint| && forall i :: 0 <= i < |k| ==> k[i] == Lower(mint[i]) }

  /** The price the feed gave under the lower-case mint, or nothing if it gave none. */
  ghost predicate PricedAt(prices: Prices, mint: string, price: real) {
    && (forall k :: k in prices && IsLowered(k, mint) ==> price == prices[k])
    && ((forall k :: k in prices ==> !IsLowered(k, mint)) ==> price == 0.0)
  }

  lemma PriceIsFound(prices: Prices, mint: string)
    requires GoodPrices(prices)
    ensures PricedAt(prices, mint, PriceOf(prices, mint))
  {
    assert IsLowered(LowerAll(mint), mint);
    forall k | k in prices && IsLowered(k, mint) ensures k == LowerAll(mint) {
    }
  }

  lemma OnePrice(prices: Prices, mint: string, p: real, q: real)
    requires PricedAt(prices, mint, p) && PricedAt(prices, mint, q)
    ensures p == q
  {
  }

  /** A line as it should be: the amount, the price of its mint and the nearest cents of their product. */
  ghost predicate ShowsLine(l: Line, amount: real, prices: Prices) {
    && l.amount == amount && PricedAt(prices, l.mint, l.price)
    && l.amount * l.price >= 0.0 && l.cents == Cents(l.amount * l.price)
  }

  lemma LineShown(mint: string, amount: real, prices: Prices)
    requires GoodPrices(prices) && amount >= 0.0
    ensures LineFor(mint, amount, prices).mint == mint && ShowsLine(LineFor(mint, amount, prices), amount, prices)
  {
    hide PricedAt, Cents;
    PriceIsFound(prices, mint);
  }

  function Dollars(): Line -> real { (l: Line) => l.cents as real / 100.0 }

  function Worth(): Line -> real { (l: Line) => l.amount * l.price }

  function CentsOf(lines: seq<Line>): nat {
    if lines == [] then 0 else CentsOf(lines[..|lines| - 1]) + lines[|lines| - 1].cents
  }

  lemma {:induction false} DollarsAreCents(lines: seq<Line>)
    ensures SumOf(lines, Dollars()) == CentsOf(lines) as real / 100.0
  {
    if lines != [] { DollarsAreCents(lines[..|lines| - 1]); }
  }

  /** The loop over the balances: a line per mint, its rounded value added to the total. */
  method PriceTokens(order: seq<string>, balances: map<string, real>, prices: Prices, start: real)
    returns (tokens: seq<Line>, total: real)
    requires GoodPrices(prices) && forall m :: m in order ==> m in balances && balances[m] >= 0.0
    ensures |tokens| == |order|
    ensures forall j :: 0 <= j < |order| ==>
      tokens[j].mint == order[j] && ShowsLine(tokens[j], balances[order[j]], prices)
    ensures total == start + CentsOf(tokens) as real / 100.0
  {
    hide PriceOf, Cents, ShowsLine;
    tokens, total := [], start;
    for i := 0 to |order|
      invariant |tokens| == i && total == start + CentsOf(tokens) as real / 100.0
      invariant forall j :: 0 <= j < i ==>
        tokens[j].mint == order[j] && ShowsLine(tokens[j], balances[order[j]], prices)
    {
      var mint := order[i];
      var l := LineFor(mint, balances[mint], prices);
      LineShown(mint, balances[mint], prices);
      ghost var before := tokens;
      tokens := tokens + [l];
      assert tokens[..|tokens| - 1] == before;
      total := total + l.cents as real / 100.0;
    }
  }

  /** The lines show each held mint once, with its balance, price and rounded value, and the displayed
      total is exactly the displayed SOL value (if its price is known) plus the displayed values. */
  ghost predicate IsSnapshot(p: Snapshot, sol: real, solPrice: Option<real>, accounts: seq<Account>, prices: Prices)
    requires sol >= 0.0 && (solPrice.Some? ==> solPrice.value >= 0.0) && GoodPrices(prices)
  {
    && p.solCents == (if solPrice.Some? then Some(Cents(sol * solPrice.value)) else None)
    && p.totalCents == (if p.solCents.Some? then p.solCents.value else 0) + CentsOf(p.tokens)
    && ShowsHoldings(p.tokens, accounts, prices)
  }

  ghost predicate ShowsHoldings(lines: seq<Line>, accounts: seq<Account>, prices: Prices)
    requires GoodPrices(prices)
  {
    && Distinct(Mints(lines))
    && (forall m :: m in Mints(lines) <==> IsHeld(accounts, m))
    && (forall i :: 0 <= i < |lines| ==> Held(accounts, lines[i].mint) > 0.0)
    && forall i :: 0 <= i < |lines| ==> ShowsLine(lines[i], Held(accounts, lines[i].mint), prices)
  }

  function Mints(lines: seq<Line>): (ms: seq<string>)
    ensures |ms| == |lines| && forall i :: 0 <= i < |lines| ==> ms[i] == lines[i].mint
  {
    seq(|lines|, i requires 0 <= i < |lines| => lines[i].mint)
  }

  /** `getPortfolio`, given what the chain and the price feeds answered. */
  method GetPortfolio(sol: real, solPrice: Option<real>, accounts: seq<Account>, prices: Prices) returns (p: Snapshot)
    requires sol >= 0.0 && (solPrice.Some? ==> solPrice.value >= 0.0) && GoodPrices(prices)
    ensures IsSnapshot(p, sol, solPrice, accounts, prices)
  {
    hide Held, IsHeld, IsSnapshot, ShowsLine;
    var solUsd := if solPrice.Some? then sol * solPrice.value else 0.0;
    var balances, order := Aggregate(accounts);
    forall m | m in order ensures balances[m] > 0.0 { HeldPositive(accounts, m); }
    var tokens, total := PriceTokens(order, balances, prices, solUsd);
    CentsShift(solUsd, CentsOf(tokens));
    p := Snapshot(if solPrice.Some? then Some(Cents(solUsd)) else None, tokens, Cents(total));
    TokensShown(tokens, order, balances, accounts, prices);
    Shown(p, sol, solPrice, accounts, prices);
  }

  lemma Shown(p: Snapshot, sol: real, solPrice: Option<real>, accounts: seq<Account>, prices: Prices)
    requires sol >= 0.0 && (solPrice.Some? ==> solPrice.value >= 0.0) && GoodPrices(prices)
    requires p.solCents == (if solPrice.Some? then Some(Cents(sol * solPrice.value)) else None)
    requires p.totalCents == (if p.solCents.Some? then p.solCents.value else 0) + CentsOf(p.tokens)
    requires ShowsHoldings(p.tokens, accounts, prices)
    ensures IsSnapshot(p, sol, solPrice, accounts, prices)
  {
  }

  lemma TokensShown(tokens: seq<Line>, order: seq<string>, balances: map<string, real>, accounts: seq<Account>,
                    prices: Prices)
    requires GoodPrices(prices) && |tokens| == |order| && Distinct(order)
    requires forall m :: m in order <==> IsHeld(accounts, m)
    requires forall m :: m in order ==> m in balances && balances[m] == Held(accounts, m) > 0.0
    requires forall j :: 0 <= j < |order| ==>
      tokens[j].mint == order[j] && ShowsLine(tokens[j], balances[order[j]], prices)
    ensures ShowsHoldings(tokens, accounts, prices)
  {
    hide SumOf, ShowsLine;
    assert Mints(tokens) == order;
  }

  lemma {:induction false} HeldPositive(accounts: seq<Account>, m: string)
    ensures Held(accounts, m) >= 0.0 && (IsHeld(accounts, m) ==> Held(accounts, m) > 0.0)
  {
    if accounts != [] {
      var front := accounts[..|accounts| - 1];
      HeldPositive(front, m);
      assert accounts == front + [accounts[|accounts| - 1]];
      HeldStep(front, accounts[|accounts| - 1]);
    }
  }

  // ---- the total ----

  lemma {:induction false} CountedOnce<T>(s: seq<T>, x: T)
    requires Distinct(s)
    ensures multiset(s)[x] == if x in s then 1 else 0
  {
    if s != [] {
      var front, last := s[..|s| - 1], s[|s| - 1];
      assert s == front + [last] && last !in front;
      CountedOnce(front, x);
    }
  }

  /** Lists without repeats that hold the same elements are permutations of each other. */
  lemma SameElements<T(!new)>(a: seq<T>, b: seq<T>)
    requires Distinct(a) && Distinct(b)
    requires forall x :: x in a <==> x in b
    ensures multiset(a) == multiset(b)
  {
    forall x ensures multiset(a)[x] == multiset(b)[x] {
      CountedOnce(a, x);
      CountedOnce(b, x);
    }
  }

  lemma CentsIgnoreOrder(a: seq<Line>, b: seq<Line>)
    requires multiset(a) == multiset(b)
    ensures CentsOf(a) == CentsOf(b)
  {
    DollarsAreCents(a);
    DollarsAreCents(b);
    SumOfPermuted(a, b, Dollars());
  }

  /** A snapshot's total does not depend on the order of the token accounts. */
  lemma TotalIgnoresOrder(p: Snapshot, q: Snapshot, sol: real, solPrice: Option<real>,
                          a: seq<Account>, b: seq<Account>, prices: Prices)
    requires sol >= 0.0 && (solPrice.Some? ==> solPrice.value >= 0.0) && GoodPrices(prices)
    requires multiset(a) == multiset(b)
    requires IsSnapshot(p, sol, solPrice, a, prices) && IsSnapshot(q, sol, solPrice, b, prices)
    ensures p.totalCents == q.totalCents
  {
    hide Held, IsHeld, CentsOf, Cents, ShowsLine;
    forall m { BalancesIgnoreOrder(a, b, m); }
    forall i, j | 0 <= i < |p.tokens| && 0 <= j < |q.tokens| && p.tokens[i].mint == q.tokens[j].mint
      ensures p.tokens[i] == q.tokens[j]
    {
      BalancesIgnoreOrder(a, b, p.tokens[i].mint);
      OneLine(p.tokens[i], q.tokens[j], Held(a, p.tokens[i].mint), prices);
    }
    SameLines(p.tokens, q.tokens);
    CentsIgnoreOrder(p.tokens, q.tokens);
  }

  /** Mint, amount and prices leave one way to show a line. */
  lemma OneLine(l: Line, k: Line, amount: real, prices: Prices)
    requires l.mint == k.mint && ShowsLine(l, amount, prices) && ShowsLine(k, amount, prices)
    ensures l == k
  {
    hide PricedAt, Cents;
    OnePrice(prices, l.mint, l.price, k.price);
  }

  lemma SameLines(s: seq<Line>, t: seq<Line>)
    requires Distinct(Mints(s)) && Distinct(Mints(t))
    requires forall m :: m in Mints(s) <==> m in Mints(t)
    requires forall i, j :: 0 <= i < |s| && 0 <= j < |t| && s[i].mint == t[j].mint ==> s[i] == t[j]
    ensures multiset(s) == multiset(t)
  {
    forall x ensures x in s <==> x in t {
      if x in s {
        var i :| 0 <= i < |s| && s[i] == x;
        assert Mints(s)[i] in Mints(t);
        var j :| 0 <= j < |t| && Mints(t)[j] == x.mint;
        assert t[j] == x;
      }
      if x in t {
        var j :| 0 <= j < |t| && t[j] == x;
        assert Mints(t)[j] in Mints(s);
        var i :| 0 <= i < |s| && Mints(s)[i] == x.mint;
        assert s[i] == x;
      }
    }
    assert forall i, j :: 0 <= i < j < |s| ==> Mints(s)[i] != Mints(s)[j];
    assert forall i, j :: 0 <= i < j < |t| ==> Mints(t)[i] != Mints(t)[j];
    SameElements(s, t);
  }

  predicate IsRounded(l: Line) { l.amount * l.price >= 0.0 && l.cents == Cents(l.amount * l.price) }

  lemma {:induction false} RoundingAddsUp(lines: seq<Line>)
    requires forall i :: 0 <= i < |lines| ==> IsRounded(lines[i])
    ensures var error := CentsOf(lines) as real / 100.0 - SumOf(lines, Worth());
      -0.005 * |lines| as real <= error <= 0.005 * |lines| as real
  {
    if lines != [] {
      var l := lines[|lines| - 1];
      RoundingAddsUp(lines[..|lines| - 1]);
      assert IsRounded(l);
      assert -0.005 <= l.cents as real / 100.0 - l.amount * l.price <= 0.005;
    }
  }

  /** What is held of a mint, at its price. */
  function HeldWorth(accounts: seq<Account>, price: string -> real): string -> real {
    (m: string) => Held(accounts, m) * price(m)
  }

  lemma {:induction false} SameWorth(lines: seq<Line>, accounts: seq<Account>, price: string -> real)
    requires forall i :: 0 <= i < |lines| ==>
      lines[i].amount == Held(accounts, lines[i].mint) && lines[i].price == price(lines[i].mint)
    ensures SumOf(lines, Worth()) == SumOf(Mints(lines), HeldWorth(accounts, price))
  {
    hide Held;
    if lines != [] {
      var front := lines[..|lines| - 1];
      SameWorth(front, accounts, price);
      assert Mints(lines)[..|lines| - 1] == Mints(front);
    }
  }

  /** With the SOL price known, the displayed total is within half a cent per displayed value of the true value of the
      holdings: the SOL at its price and every held mint's balance at the price the feed gave for it. */
  lemma TotalNearTrue(p: Snapshot, sol: real, solPrice: Option<real>, accounts: seq<Account>, prices: Prices,
                      price: string -> real)
    requires sol >= 0.0 && solPrice.Some? && solPrice.value >= 0.0 && GoodPrices(prices)
    requires IsSnapshot(p, sol, solPrice, accounts, prices)
    requires forall m :: PricedAt(prices, m, price(m))
    ensures var worth := sol * solPrice.value + SumOf(Mints(p.tokens), HeldWorth(accounts, price));
      var error, n := p.totalCents as real / 100.0 - worth, |p.tokens|;
      -0.005 * (n + 1) as real <= error <= 0.005 * (n + 1) as real
  {
    hide Held, IsHeld, SumOf, PricedAt, IsRounded;
    forall i | 0 <= i < |p.tokens|
      ensures IsRounded(p.tokens[i])
      ensures p.tokens[i].amount == Held(accounts, p.tokens[i].mint) && p.tokens[i].price == price(p.tokens[i].mint)
    {
      ShownIsRounded(p.tokens[i], Held(accounts, p.tokens[i].mint), prices);
      OnePrice(prices, p.tokens[i].mint, p.tokens[i].price, price(p.tokens[i].mint));
    }
    RoundingAddsUp(p.tokens);
    SameWorth(p.tokens, accounts, price);
  }

  lemma ShownIsRounded(l: Line, amount: real, prices: Prices)
    requires ShowsLine(l, amount, prices)
    ensures IsRounded(l)
  {
  }
}
