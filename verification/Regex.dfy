/** The backtracking meaning of the regular-expression fragment the code uses (section 22.2.2
    of ECMA-262), with the `i` flag: an expression yields, in priority order, every way it can
    match at a position; the first one is what the engine returns. */
module Regex {
  import opened Text

  type Class = char -> bool

  function Lit(c: char): Class { d => Lower(d) == Lower(c) }

  const Space: Class := c => IsSpace(c)
  const Alnum: Class := c => IsAlnum(c)
  const DigitDot: Class := c => IsDigit(c) || c == '.'

  datatype Limit = AtMost(n: nat) | Unbounded

  function OneLess(max: Limit): Limit
    requires max != AtMost(0)
  {
    if max.AtMost? then AtMost(max.n - 1) else max
  }

  datatype Rx =
    | Eps
    | Ch(k: Class)
    | Rep(k: Class, min: nat, max: Limit)   // greedy
    | Cat(a: Rx, b: Rx)
    | Alt(a: Rx, b: Rx)
    | Group(n: nat, r: Rx)
    | WordEdge                              // \b

  function Word(w: string): Rx {
    if w == "" then Eps else Cat(Ch(Lit(w[0])), Word(w[1..]))
  }

  function Bounded(r: Rx): Rx { Cat(WordEdge, Cat(r, WordEdge)) }

  function Optional(r: Rx): Rx { Alt(r, Eps) }

  type Caps = map<nat, string>

  datatype Outcome = Outcome(end: nat, caps: Caps)

  predicate Within(os: seq<Outcome>, s: string, i: nat) {
    forall j :: 0 <= j < |os| ==> i <= os[j].end <= |s|
  }

  predicate IsEdge(s: string, i: nat)
    requires i <= |s|
  {
    (i > 0 && IsWordChar(s[i - 1])) != (i < |s| && IsWordChar(s[i]))
  }

  /** The ends a greedy repetition tries, longest first. */
  function RepEnds(k: Class, min: nat, max: Limit, s: string, i: nat): (es: seq<nat>)
    requires i <= |s|
    ensures forall j :: 0 <= j < |es| ==> i <= es[j] <= |s|
    decreases |s| - i
  {
    var longer := if i < |s| && k(s[i]) && max != AtMost(0)
                  then RepEnds(k, if min == 0 then 0 else min - 1, OneLess(max), s, i + 1) else [];
    if min == 0 then longer + [i] else longer
  }

  function Ends(es: seq<nat>, caps: Caps): (os: seq<Outcome>)
    ensures |os| == |es| && forall j :: 0 <= j < |es| ==> os[j] == Outcome(es[j], caps)
  {
    seq(|es|, j requires 0 <= j < |es| => Outcome(es[j], caps))
  }

  function Capture(os: seq<Outcome>, n: nat, s: string, i: nat): (cs: seq<Outcome>)
    requires i <= |s| && Within(os, s, i)
    ensures |cs| == |os|
    ensures forall j :: 0 <= j < |os| ==>
      cs[j] == Outcome(os[j].end, os[j].caps[n := s[i..os[j].end]])
  {
    seq(|os|, j requires 0 <= j < |os| => Outcome(os[j].end, os[j].caps[n := s[i..os[j].end]]))
  }

  function Outcomes(r: Rx, s: string, i: nat, caps: Caps): (os: seq<Outcome>)
    requires i <= |s|
    ensures Within(os, s, i)
    decreases r, 0, s
  {
    match r
    case Eps => [Outcome(i, caps)]
    case Ch(k) => if i < |s| && k(s[i]) then [Outcome(i + 1, caps)] else []
    case Rep(k, min, max) => Ends(RepEnds(k, min, max, s, i), caps)
    case Cat(a, b) => Then(Outcomes(a, s, i, caps), b, s, i)
    case Alt(a, b) => Outcomes(a, s, i, caps) + Outcomes(b, s, i, caps)
    case Group(n, r') => Capture(Outcomes(r', s, i, caps), n, s, i)
    case WordEdge => if IsEdge(s, i) then [Outcome(i, caps)] else []
  }

  /** Continue every outcome with `b`, keeping the priority order. */
  function Then(os: seq<Outcome>, b: Rx, s: string, i: nat): (rs: seq<Outcome>)
    requires i <= |s| && Within(os, s, i)
    ensures Within(rs, s, i)
    decreases b, |os|, s
  {
    if os == [] then [] else
    Outcomes(b, s, os[0].end, os[0].caps) + Then(os[1..], b, s, i)
  }

  datatype Found = Found(start: nat, end: nat, caps: Caps)

  /** The highest-priority outcome at one position. */
  function First(r: Rx, s: string, i: nat): Option<Found>
    requires i <= |s|
  {
    var os := Outcomes(r, s, i, map[]);
    if os == [] then None else Some(Found(i, os[0].end, os[0].caps))
  }

  function Firsts(r: Rx, s: string): (at: seq<Option<Found>>)
    ensures |at| == |s| + 1 && forall i :: 0 <= i <= |s| ==> at[i] == First(r, s, i)
  {
    seq(|s| + 1, i requires 0 <= i <= |s| => First(r, s, i))
  }

  function Leftmost<T>(at: seq<Option<T>>, i: nat): Option<T>
    requires i <= |at|
    decreases |at| - i
  {
    if i == |at| then None else if at[i].Some? then at[i] else Leftmost(at, i + 1)
  }

  /** `exec`: the leftmost position that has an outcome. */
  function Exec(r: Rx, s: string): Option<Found> { Leftmost(Firsts(r, s), 0) }

  predicate Test(r: Rx, s: string) { Exec(r, s).Some? }

  /** `s.replace(/r/g, sub)` from position `i` on, for expressions that never match empty text. */
  function ReplaceAll(r: Rx, s: string, i: nat, sub: string): (t: string)
    requires i <= |s|
    decreases |s| - i
  {
    if i == |s| then "" else
    var m := First(r, s, i);
    if m.Some? && m.value.end > i then sub + ReplaceAll(r, s, m.value.end, sub)
    else [s[i]] + ReplaceAll(r, s, i + 1, sub)
  }

  // ---- words ----

  predicate WordAt(w: string, s: string, i: nat)
    requires i <= |s|
  {
    i + |w| <= |s| && forall j :: 0 <= j < |w| ==> Lower(s[i + j]) == Lower(w[j])
  }

  lemma WordAtNext(w: string, s: string, i: nat)
    requires w != "" && i < |s|
    ensures WordAt(w, s, i) <==> Lower(s[i]) == Lower(w[0]) && WordAt(w[1..], s, i + 1)
  {
    if WordAt(w, s, i) {
      assert Lower(s[i + 0]) == Lower(w[0]);
      forall j | 0 <= j < |w[1..]| ensures Lower(s[i + 1 + j]) == Lower(w[1..][j]) {
        assert Lower(s[i + (j + 1)]) == Lower(w[j + 1]);
      }
    }
    if Lower(s[i]) == Lower(w[0]) && WordAt(w[1..], s, i + 1) {
      forall j | 0 <= j < |w| ensures Lower(s[i + j]) == Lower(w[j]) {
        if j > 0 { assert Lower(s[i + 1 + (j - 1)]) == Lower(w[1..][j - 1]); }
      }
    }
  }

  lemma WordNext(w: string, s: string, i: nat, caps: Caps)
    requires w != "" && i <= |s|
    ensures Outcomes(Word(w), s, i, caps)
         == if i < |s| && Lower(s[i]) == Lower(w[0]) then Outcomes(Word(w[1..]), s, i + 1, caps) else []
  {
    var head, tail := Ch(Lit(w[0])), Word(w[1..]);
    var os := if i < |s| && Lower(s[i]) == Lower(w[0]) then [Outcome(i + 1, caps)] else [];
    assert Word(w) == Cat(head, tail) && Outcomes(head, s, i, caps) == os;
    hide Word;
    if os != [] { ThenFirst(os, tail, s, i); }
  }

  lemma {:induction false} WordOutcomes(w: string, s: string, i: nat, caps: Caps)
    requires i <= |s|
    ensures Outcomes(Word(w), s, i, caps) == if WordAt(w, s, i) then [Outcome(i + |w|, caps)] else []
    decreases |w|
  {
    hide Word, Outcomes, WordAt;
    if w == "" {
      WordDone(s, i, caps);
    } else {
      WordNext(w, s, i, caps);
      if i < |s| {
        WordAtNext(w, s, i);
        WordOutcomes(w[1..], s, i + 1, caps);
      } else {
        NoWordAtEnd(w, s);
      }
    }
  }

  lemma WordDone(s: string, i: nat, caps: Caps)
    requires i <= |s|
    ensures WordAt("", s, i) && Outcomes(Word(""), s, i, caps) == [Outcome(i, caps)]
  {
  }

  lemma NoWordAtEnd(w: string, s: string)
    requires w != ""
    ensures !WordAt(w, s, |s|)
  {
  }

  // ---- greedy repetition that never has to give characters back ----

  /** End of the maximal run of `k` from `i`. */
  function RunEnd(k: Class, s: string, i: nat): (e: nat)
    requires i <= |s|
    ensures i <= e <= |s|
    ensures forall j :: i <= j < e ==> k(s[j])
    ensures e < |s| ==> !k(s[e])
    decreases |s| - i
  {
    if i < |s| && k(s[i]) then RunEnd(k, s, i + 1) else i
  }

  predicate Fits(n: nat, min: nat, max: Limit) {
    min <= n && (max.AtMost? ==> n <= max.n)
  }

  /** `es` tries the run end `e` first if that is allowed; every other end lies inside the run. */
  predicate Committed(es: seq<nat>, i: nat, e: nat, allowed: bool) {
    && (forall j :: 0 <= j < |es| ==> i <= es[j] <= e)
    && (allowed ==> es != [] && es[0] == e)
    && (forall j :: (if allowed then 1 else 0) <= j < |es| ==> es[j] < e)
  }

  lemma {:induction false} RepEndsCommitted(k: Class, min: nat, max: Limit, s: string, i: nat)
    requires i <= |s|
    ensures Committed(RepEnds(k, min, max, s, i), i, RunEnd(k, s, i), Fits(RunEnd(k, s, i) - i, min, max))
    decreases |s| - i
  {
    hide RepEnds, RunEnd, Committed;
    if i < |s| && k(s[i]) && max != AtMost(0) {
      var min' := if min == 0 then 0 else min - 1;
      var e := RunEnd(k, s, i + 1);
      RepEndsNext(k, min, max, s, i);
      RepEndsCommitted(k, min', OneLess(max), s, i + 1);
      AppendSmaller(RepEnds(k, min', OneLess(max), s, i + 1), i, e, Fits(e - (i + 1), min', OneLess(max)));
    } else {
      RepEndsStop(k, min, max, s, i);
    }
  }

  lemma RepEndsNext(k: Class, min: nat, max: Limit, s: string, i: nat)
    requires i < |s| && k(s[i]) && max != AtMost(0)
    ensures var longer := RepEnds(k, if min == 0 then 0 else min - 1, OneLess(max), s, i + 1);
      RepEnds(k, min, max, s, i) == if min == 0 then longer + [i] else longer
    ensures RunEnd(k, s, i) == RunEnd(k, s, i + 1)
  {
  }

  lemma RepEndsStop(k: Class, min: nat, max: Limit, s: string, i: nat)
    requires i <= |s| && !(i < |s| && k(s[i]) && max != AtMost(0))
    ensures Committed(RepEnds(k, min, max, s, i), i, RunEnd(k, s, i), Fits(RunEnd(k, s, i) - i, min, max))
  {
    hide RepEnds, RunEnd;
    RepEndsNone(k, min, max, s, i);
    RunEndMoves(k, s, i);
  }

  lemma RepEndsNone(k: Class, min: nat, max: Limit, s: string, i: nat)
    requires i <= |s| && !(i < |s| && k(s[i]) && max != AtMost(0))
    ensures RepEnds(k, min, max, s, i) == if min == 0 then [i] else []
  {
  }

  lemma RunEndMoves(k: Class, s: string, i: nat)
    requires i <= |s|
    ensures RunEnd(k, s, i) > i <==> i < |s| && k(s[i])
  {
  }

  lemma AppendSmaller(es: seq<nat>, i: nat, e: nat, allowed: bool)
    requires i < e && Committed(es, i + 1, e, allowed)
    ensures Committed(es, i, e, allowed) && Committed(es + [i], i, e, allowed)
  {
  }

  lemma {:induction false} ThenRejects(os: seq<Outcome>, b: Rx, s: string, i: nat)
    requires i <= |s| && Within(os, s, i)
    requires forall j :: 0 <= j < |os| ==> Outcomes(b, s, os[j].end, os[j].caps) == []
    ensures Then(os, b, s, i) == []
    decreases |os|
  {
    if os != [] {
      ThenRejects(os[1..], b, s, i);
    }
  }

  lemma ThenFirst(os: seq<Outcome>, b: Rx, s: string, i: nat)
    requires i <= |s| && Within(os, s, i)
    requires os != [] && forall j :: 0 < j < |os| ==> Outcomes(b, s, os[j].end, os[j].caps) == []
    ensures Then(os, b, s, i) == Outcomes(b, s, os[0].end, os[0].caps)
  {
    ThenRejects(os[1..], b, s, i);
  }

  /** An expression with at most one outcome hands that outcome to what follows. */
  lemma SingleThen(r: Rx, tail: Rx, s: string, i: nat, os: seq<Outcome>)
    requires i <= |s| && os == Outcomes(r, s, i, map[]) && |os| <= 1
    ensures Outcomes(Cat(r, tail), s, i, map[])
         == if os == [] then [] else Outcomes(tail, s, os[0].end, os[0].caps)
  {
    if os != [] { ThenFirst(os, tail, s, i); }
  }

  lemma FirstThen(r: Rx, tail: Rx, s: string, i: nat, os: seq<Outcome>, ps: seq<Outcome>)
    requires i <= |s| && os == Outcomes(r, s, i, map[]) && |os| <= 1
    requires if os == [] then ps == [] else ps == Outcomes(tail, s, os[0].end, os[0].caps)
    ensures First(Cat(r, tail), s, i) == if ps == [] then None else Some(Found(i, ps[0].end, ps[0].caps))
  {
    SingleThen(r, tail, s, i, os);
  }

  /** `b` cannot match where a character of `k` comes next. */
  ghost predicate Rejects(b: Rx, k: Class, s: string) {
    forall e: nat, caps: Caps {:trigger Outcomes(b, s, e, caps)} ::
      e < |s| && k(s[e]) ==> Outcomes(b, s, e, caps) == []
  }

  lemma RepOutcomes(k: Class, min: nat, max: Limit, s: string, i: nat, caps: Caps)
    requires i <= |s|
    ensures Outcomes(Rep(k, min, max), s, i, caps) == Ends(RepEnds(k, min, max, s, i), caps)
  {
    hide RepEnds, Ends;
  }

  lemma CatOutcomes(a: Rx, b: Rx, s: string, i: nat, caps: Caps)
    requires i <= |s|
    ensures Outcomes(Cat(a, b), s, i, caps) == Then(Outcomes(a, s, i, caps), b, s, i)
  {
  }

  lemma GroupOutcomes(n: nat, r: Rx, s: string, i: nat, caps: Caps)
    requires i <= |s|
    ensures Outcomes(Group(n, r), s, i, caps) == Capture(Outcomes(r, s, i, caps), n, s, i)
  {
    hide Capture;
  }

  /** A greedy repetition followed by something that rejects its class commits to the whole run. */
  lemma GreedyCommits(k: Class, min: nat, max: Limit, b: Rx, s: string, i: nat, caps: Caps)
    requires i <= |s| && Rejects(b, k, s)
    ensures var e := RunEnd(k, s, i);
      Outcomes(Cat(Rep(k, min, max), b), s, i, caps)
      == if Fits(e - i, min, max) then Outcomes(b, s, e, caps) else []
  {
    hide Outcomes, Then, RepEnds, RunEnd, Rejects, Fits;
    var es := RepEnds(k, min, max, s, i);
    RepEndsCommitted(k, min, max, s, i);
    RepOutcomes(k, min, max, s, i, caps);
    CatOutcomes(Rep(k, min, max), b, s, i, caps);
    OnlyRunEnd(k, Ends(es, caps), es, b, s, i, Fits(RunEnd(k, s, i) - i, min, max));
  }

  lemma GreedyCaptureCommits(n: nat, k: Class, min: nat, max: Limit, b: Rx, s: string, i: nat, caps: Caps)
    requires i <= |s| && Rejects(b, k, s)
    ensures var e := RunEnd(k, s, i);
      Outcomes(Cat(Group(n, Rep(k, min, max)), b), s, i, caps)
      == if Fits(e - i, min, max) then Outcomes(b, s, e, caps[n := s[i..e]]) else []
  {
    hide Outcomes, Then, RepEnds, RunEnd, Rejects, Fits;
    var es := RepEnds(k, min, max, s, i);
    RepEndsCommitted(k, min, max, s, i);
    RepOutcomes(k, min, max, s, i, caps);
    GroupOutcomes(n, Rep(k, min, max), s, i, caps);
    CatOutcomes(Group(n, Rep(k, min, max)), b, s, i, caps);
    OnlyRunEnd(k, Capture(Ends(es, caps), n, s, i), es, b, s, i, Fits(RunEnd(k, s, i) - i, min, max));
  }

  lemma OnlyRunEnd(k: Class, os: seq<Outcome>, es: seq<nat>, b: Rx, s: string, i: nat, allowed: bool)
    requires i <= |s| && Rejects(b, k, s) && Within(os, s, i)
    requires |os| == |es| && forall j :: 0 <= j < |es| ==> os[j].end == es[j]
    requires Committed(es, i, RunEnd(k, s, i), allowed)
    ensures Then(os, b, s, i)
         == if allowed then Outcomes(b, s, RunEnd(k, s, i), os[0].caps) else []
  {
    forall j | (if allowed then 1 else 0) <= j < |os|
      ensures Outcomes(b, s, os[j].end, os[j].caps) == []
    {
      assert es[j] < RunEnd(k, s, i);
    }
    if allowed {
      ThenFirst(os, b, s, i);
    } else {
      ThenRejects(os, b, s, i);
    }
  }

  // ---- the outcomes of small expressions ----

  lemma EdgeOutcomes(s: string, i: nat)
    requires i <= |s|
    ensures Outcomes(WordEdge, s, i, map[]) == if IsEdge(s, i) then [Outcome(i, map[])] else []
  {
  }

  lemma AltOutcomes(a: Rx, b: Rx, s: string, i: nat, caps: Caps)
    requires i <= |s|
    ensures Outcomes(Alt(a, b), s, i, caps) == Outcomes(a, s, i, caps) + Outcomes(b, s, i, caps)
  {
  }

  lemma EpsOutcomes(s: string, i: nat)
    requires i <= |s|
    ensures Outcomes(Eps, s, i, map[]) == [Outcome(i, map[])]
  {
  }

  lemma OptionalOutcomes(r: Rx, s: string, i: nat)
    requires i <= |s|
    ensures Outcomes(Optional(r), s, i, map[]) == Outcomes(r, s, i, map[]) + [Outcome(i, map[])]
  {
    hide Outcomes;
    EpsOutcomes(s, i);
    AltOutcomes(r, Eps, s, i, map[]);
  }

  lemma CatOne(a: Rx, b: Rx, s: string, i: nat, o: Outcome)
    requires i <= |s| && i <= o.end <= |s| && Outcomes(a, s, i, map[]) == [o]
    ensures Outcomes(Cat(a, b), s, i, map[]) == Outcomes(b, s, o.end, o.caps)
  {
    ThenFirst([o], b, s, i);
  }

  lemma CatTwo(a: Rx, b: Rx, s: string, i: nat, o: Outcome, p: Outcome)
    requires i <= |s| && i <= o.end <= |s| && i <= p.end <= |s| && Outcomes(a, s, i, map[]) == [o, p]
    ensures Outcomes(Cat(a, b), s, i, map[]) == Outcomes(b, s, o.end, o.caps) + Outcomes(b, s, p.end, p.caps)
  {
    ThenFirst([p], b, s, i);
    assert [o, p][1..] == [p];
  }
}
