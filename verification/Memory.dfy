/** Conversation memory of memory.js: one Redis stream per handle, dropped as a whole a day after it was
    last kept alive. */
module Memory {
  import opened Text

  /** Seconds. */
  const TTL := 24 * 60 * 60

  // ---- fields of an entry ----

  type Object = map<string, string>

  /** Alternating names and values, as XADD takes them and XREVRANGE gives them back. */
  function Flatten(pairs: seq<(string, string)>): (fields: seq<string>)
    ensures |fields| == 2 * |pairs|
  {
    if pairs == [] then [] else [pairs[0].0, pairs[0].1] + Flatten(pairs[1..])
  }

  function Paired(fields: seq<string>): (pairs: seq<(string, string)>)
    requires |fields| % 2 == 0
    ensures 2 * |pairs| == |fields|
    ensures forall i :: 0 <= i < |pairs| ==> pairs[i] == (fields[2 * i], fields[2 * i + 1])
  {
    seq(|fields| / 2, i requires 0 <= i < |fields| / 2 => (fields[2 * i], fields[2 * i + 1]))
  }

  lemma {:induction false} FlattenAt(pairs: seq<(string, string)>, i: nat)
    requires i < |pairs|
    ensures Flatten(pairs)[2 * i] == pairs[i].0 && Flatten(pairs)[2 * i + 1] == pairs[i].1
  {
    if i > 0 { FlattenAt(pairs[1..], i - 1); }
  }

  /** Flattening and pairing undo each other. */
  lemma FlattenPairInverse(pairs: seq<(string, string)>, fields: seq<string>)
    requires |fields| % 2 == 0
    ensures Paired(Flatten(pairs)) == pairs
    ensures Flatten(Paired(fields)) == fields
  {
    forall i | 0 <= i < |pairs| ensures Paired(Flatten(pairs))[i] == pairs[i] { FlattenAt(pairs, i); }
    forall k | 0 <= k < |fields| ensures Flatten(Paired(fields))[k] == fields[k] {
      FlattenAt(Paired(fields), k / 2);
    }
  }

  /** A later pair with the same name replaces an earlier one. */
  function ObjectOf(pairs: seq<(string, string)>): Object {
    if pairs == [] then map[] else ObjectOf(pairs[..|pairs| - 1])[pairs[|pairs| - 1].0 := pairs[|pairs| - 1].1]
  }

  /** The loop over the fields, two at a time. */
  method ReadFields(fields: seq<string>) returns (obj: Object)
    requires |fields| % 2 == 0
    ensures obj == ObjectOf(Paired(fields))
  {
    obj := map[];
    ghost var pairs, k := Paired(fields), 0;
    assert ObjectOf(pairs[..0]) == map[];
    hide ObjectOf;
    var i := 0;
    while i < |fields|
      invariant i == 2 * k && 0 <= k <= |pairs|
      invariant obj == ObjectOf(pairs[..k])
    {
      PairAdded(pairs, k);
      obj := obj[fields[i] := fields[i + 1]];
      i, k := i + 2, k + 1;
    }
    assert pairs[..|pairs|] == pairs;
  }

  lemma PairAdded(pairs: seq<(string, string)>, k: nat)
    requires k < |pairs|
    ensures ObjectOf(pairs[..k + 1]) == ObjectOf(pairs[..k])[pairs[k].0 := pairs[k].1]
  {
    assert pairs[..k + 1][..k] == pairs[..k] && pairs[..k + 1][k] == pairs[k];
  }

  // ---- streams with a deadline ----

  /** A stream is there strictly before its deadline, and forever while it has none. */
  datatype Stream = Stream(entries: seq<seq<string>>, deadline: Option<nat>)

  /** What a key holds. */
  type Slot = Option<Stream>

  predicate Alive(s: Slot, now: nat) { s.Some? && (s.value.deadline.Some? ==> now < s.value.deadline.value) }

  /** XADD. */
  function Appended(s: Slot, fields: seq<string>, now: nat): Slot {
    if Alive(s, now) then Some(s.value.(entries := s.value.entries + [fields])) else Some(Stream([fields], None))
  }

  /** EXPIRE. */
  function Renewed(s: Slot, seconds: nat, now: nat): Slot {
    if Alive(s, now) then Some(s.value.(deadline := Some(now + seconds))) else None
  }

  type Redis = map<string, Stream>

  function SlotOf(r: Redis, key: string): Slot { if key in r then Some(r[key]) else None }

  function Put(r: Redis, key: string, s: Slot): Redis { if s.Some? then r[key := s.value] else r - {key} }

  function EntriesAt(r: Redis, key: string, now: nat): seq<seq<string>> {
    if Alive(SlotOf(r, key), now) then r[key].entries else []
  }

  // ---- commands ----

  /** The two commands of a `remember` call, each at the moment Redis serves it. Between them, and between the
      calls of one handle, anything may happen. */
  datatype Cmd = Add(handle: string, text: string, ts: string, at: nat) | Keep(handle: string, at: nat)

  function Key(handle: string): string { "memory:" + handle }

  function FieldsOf(text: string, ts: string): seq<string> { ["text", text, "ts", ts] }

  /** What `recall` makes of an entry is what `remember` was given. */
  lemma EntryReadBack(text: string, ts: string)
    ensures ObjectOf(Paired(FieldsOf(text, ts))) == map["text" := text, "ts" := ts]
  {
    var one, both := [("text", text)], [("text", text), ("ts", ts)];
    assert Paired(FieldsOf(text, ts)) == both;
    assert both[..1] == one && one[..0] == [];
    assert ObjectOf(one) == map["text" := text];
  }

  function Served(s: Slot, c: Cmd): Slot {
    match c
    case Add(_, text, ts, at) => Appended(s, FieldsOf(text, ts), at)
    case Keep(_, at) => Renewed(s, TTL, at)
  }

  function Execute(r: Redis, c: Cmd): Redis { Put(r, Key(c.handle), Served(SlotOf(r, Key(c.handle)), c)) }

  function Run(cmds: seq<Cmd>): Redis {
    if cmds == [] then map[] else Execute(Run(cmds[..|cmds| - 1]), cmds[|cmds| - 1])
  }

  /** The commands for one handle. */
  function Only(cmds: seq<Cmd>, h: string): (cs: seq<Cmd>)
    ensures forall i :: 0 <= i < |cs| ==> cs[i].handle == h
  {
    if cmds == [] then [] else
    Only(cmds[..|cmds| - 1], h) + if cmds[|cmds| - 1].handle == h then [cmds[|cmds| - 1]] else []
  }

  lemma KeysDiffer(h: string, g: string)
    requires h != g
    ensures Key(h) != Key(g)
  {
    assert Key(h)[7..] == h && Key(g)[7..] == g;
  }

  /** A command for one handle leaves the streams of all others alone. */
  lemma OthersUnaffected(r: Redis, c: Cmd, h: string, now: nat)
    requires h != c.handle
    ensures SlotOf(Execute(r, c), Key(h)) == SlotOf(r, Key(h))
    ensures EntriesAt(Execute(r, c), Key(h), now) == EntriesAt(r, Key(h), now)
  {
    KeysDiffer(h, c.handle);
  }

  /** One key after the first `i` commands. */
  function SlotAfter(cs: seq<Cmd>, i: nat): Slot
    requires i <= |cs|
  {
    if i == 0 then None else Served(SlotAfter(cs, i - 1), cs[i - 1])
  }

  lemma {:induction false} SlotPrefix(cs: seq<Cmd>, ds: seq<Cmd>, i: nat)
    requires i <= |cs| && cs <= ds
    ensures SlotAfter(cs, i) == SlotAfter(ds, i)
  {
    if i > 0 { SlotPrefix(cs, ds, i - 1); }
  }

  /** A handle's stream is what its own commands make of it, whatever is served between them. */
  lemma {:induction false} Projected(cmds: seq<Cmd>, h: string)
    ensures SlotOf(Run(cmds), Key(h)) == SlotAfter(Only(cmds, h), |Only(cmds, h)|)
  {
    hide Served, Key;
    if cmds != [] {
      var front, c := cmds[..|cmds| - 1], cmds[|cmds| - 1];
      Projected(front, h);
      if c.handle == h {
        SlotPrefix(Only(front, h), Only(cmds, h), |Only(front, h)|);
      } else {
        assert Only(cmds, h) == Only(front, h);
        OthersUnaffected(Run(front), c, h, 0);
      }
    }
  }

  // ---- which entries are live, for every interleaving ----

  /** When the latest of the commands `j` to `i` kept the stream alive. */
  function LastKeep(cs: seq<Cmd>, j: nat, i: nat): Option<nat>
    requires j <= i <= |cs|
  {
    if i == j then None else if cs[i - 1].Keep? then Some(cs[i - 1].at) else LastKeep(cs, j, i - 1)
  }

  /** A stream begun by command `j` and served up to `i` has run out at time `t`. */
  predicate Reached(cs: seq<Cmd>, j: nat, i: nat, t: nat)
    requires j <= i <= |cs|
  {
    LastKeep(cs, j, i).Some? && t >= LastKeep(cs, j, i).value + 86_400
  }

  /** Some command before `m` found the stream begun by command `j` run out. */
  ghost predicate RanOut(cs: seq<Cmd>, j: nat, m: nat)
    requires m <= |cs|
  {
    exists i: nat :: j < i < m && Reached(cs, j, i, cs[i].at)
  }

  /** The commands among the first `i` that begin a stream: they add, and every stream begun before has run out
      by then. */
  ghost function Begun(cs: seq<Cmd>, i: nat): (js: set<nat>)
    requires i <= |cs|
    ensures forall j :: j in js ==> j < i
  {
    if i == 0 then {} else
    var js := Begun(cs, i - 1);
    if cs[i - 1].Add? && AllRanOut(cs, js, i) then js + {i - 1} else js
  }

  ghost predicate AllRanOut(cs: seq<Cmd>, js: set<nat>, m: nat)
    requires m <= |cs|
  {
    forall j :: j in js ==> RanOut(cs, j, m)
  }

  ghost predicate Begins(cs: seq<Cmd>, j: nat)
    requires j < |cs|
  {
    j in Begun(cs, j + 1)
  }

  lemma {:induction false} BegunIff(cs: seq<Cmd>, i: nat, k: nat)
    requires k < i <= |cs|
    ensures k in Begun(cs, i) <==> Begins(cs, k)
  {
    if k < i - 1 { BegunIff(cs, i - 1, k); }
  }

  lemma BeginsIff(cs: seq<Cmd>, j: nat)
    requires j < |cs|
    ensures Begins(cs, j) <==> cs[j].Add? && forall k: nat :: k < j && Begins(cs, k) ==> RanOut(cs, k, j + 1)
  {
    var js := Begun(cs, j);
    forall k: nat | k < j ensures k in js <==> Begins(cs, k) { BegunIff(cs, j, k); }
    assert Begins(cs, j) <==> cs[j].Add? && AllRanOut(cs, js, j + 1);
  }

  /** The stream begun by command `j` is there at time `now`, after all of the commands. */
  ghost predicate LiveFrom(cs: seq<Cmd>, j: nat, now: nat) {
    j < |cs| && Begins(cs, j) && !RanOut(cs, j, |cs|) && !Reached(cs, j, |cs|, now)
  }

  /** The entries added by the commands `j` to `i`. */
  function Added(cs: seq<Cmd>, j: nat, i: nat): (adds: seq<Cmd>)
    requires j <= i <= |cs|
    ensures forall k :: 0 <= k < |adds| ==> adds[k].Add?
  {
    if i == j then [] else Added(cs, j, i - 1) + if cs[i - 1].Add? then [cs[i - 1]] else []
  }

  function Shown(adds: seq<Cmd>): (fs: seq<seq<string>>)
    requires forall k :: 0 <= k < |adds| ==> adds[k].Add?
    ensures |fs| == |adds| && forall k :: 0 <= k < |adds| ==> fs[k] == FieldsOf(adds[k].text, adds[k].ts)
  {
    seq(|adds|, k requires 0 <= k < |adds| => FieldsOf(adds[k].text, adds[k].ts))
  }

  lemma RanOutLater(cs: seq<Cmd>, j: nat, m: nat, n: nat)
    requires m <= n <= |cs| && RanOut(cs, j, m)
    ensures RanOut(cs, j, n)
  {
  }

  lemma RanOutNext(cs: seq<Cmd>, j: nat, m: nat)
    requires j < m < |cs|
    ensures RanOut(cs, j, m + 1) <==> RanOut(cs, j, m) || Reached(cs, j, m, cs[m].at)
  {
    if RanOut(cs, j, m + 1) {
      var i: nat :| j < i < m + 1 && Reached(cs, j, i, cs[i].at);
      assert i == m || RanOut(cs, j, m);
    }
  }

  /** Two streams never last side by side. */
  lemma OneStream(cs: seq<Cmd>, j: nat, k: nat, m: nat)
    requires j < m <= |cs| && k < m
    requires Begins(cs, j) && Begins(cs, k) && !RanOut(cs, j, m) && !RanOut(cs, k, m)
    ensures j == k
  {
    BeginsIff(cs, j);
    BeginsIff(cs, k);
  }

  /** The stream begun by `j`, after `i` commands. */
  function StreamOf(cs: seq<Cmd>, j: nat, i: nat): Stream
    requires j <= i <= |cs|
  {
    var k := LastKeep(cs, j, i);
    Stream(Shown(Added(cs, j, i)), if k.Some? then Some(k.value + TTL) else None)
  }

  /** The key holds the one stream begun and not found run out; without one it holds nothing. */
  ghost predicate Holds(cs: seq<Cmd>, i: nat)
    requires i <= |cs|
  {
    var s := SlotAfter(cs, i);
    if s.Some? then exists j: nat :: j < i && Lasts(cs, j, i) && s.value == StreamOf(cs, j, i)
    else forall j: nat :: j < i ==> !Lasts(cs, j, i)
  }

  ghost predicate Lasts(cs: seq<Cmd>, j: nat, i: nat)
    requires j < i <= |cs|
  {
    Begins(cs, j) && !RanOut(cs, j, i)
  }

  /** A stream that lasts is alive at the next command unless that finds it run out. */
  lemma StreamAlive(cs: seq<Cmd>, j: nat, i: nat, t: nat)
    requires j <= i <= |cs|
    ensures Alive(Some(StreamOf(cs, j, i)), t) <==> !Reached(cs, j, i, t)
  {
  }

  lemma StreamGrows(cs: seq<Cmd>, j: nat, i: nat)
    requires j < i < |cs| && !Reached(cs, j, i, cs[i].at)
    ensures Served(Some(StreamOf(cs, j, i)), cs[i]) == Some(StreamOf(cs, j, i + 1))
  {
    hide Alive, Shown, FieldsOf, Added, LastKeep, Reached;
    StreamAlive(cs, j, i, cs[i].at);
    AddedNext(cs, j, i);
    if cs[i].Add? { ShownAppend(Added(cs, j, i), cs[i]); }
  }

  lemma AddedNext(cs: seq<Cmd>, j: nat, i: nat)
    requires j <= i < |cs|
    ensures Added(cs, j, i + 1) == if cs[i].Add? then Added(cs, j, i) + [cs[i]] else Added(cs, j, i)
    ensures LastKeep(cs, j, i + 1) == if cs[i].Keep? then Some(cs[i].at) else LastKeep(cs, j, i)
  {
  }

  lemma StreamStarts(cs: seq<Cmd>, i: nat)
    requires i < |cs| && cs[i].Add?
    ensures Served(None, cs[i]) == Some(StreamOf(cs, i, i + 1))
  {
    hide FieldsOf;
    assert Added(cs, i, i + 1) == [] + [cs[i]] == [cs[i]];
    assert LastKeep(cs, i, i + 1) == LastKeep(cs, i, i);
    assert Shown([cs[i]]) == [FieldsOf(cs[i].text, cs[i].ts)];
  }

  lemma ShownAppend(adds: seq<Cmd>, c: Cmd)
    requires c.Add? && forall k :: 0 <= k < |adds| ==> adds[k].Add?
    ensures Shown(adds + [c]) == Shown(adds) + [FieldsOf(c.text, c.ts)]
  {
  }

  /** Command `i` finds no stream: it begins one or leaves none. */
  lemma HoldsAnew(cs: seq<Cmd>, i: nat)
    requires i < |cs| && forall j: nat :: j < i && Begins(cs, j) ==> RanOut(cs, j, i + 1)
    requires SlotAfter(cs, i + 1) == Served(None, cs[i])
    ensures Holds(cs, i + 1)
  {
    hide SlotAfter, StreamOf, Served, Begins;
    BeginsIff(cs, i);
    if cs[i].Add? {
      assert Lasts(cs, i, i + 1);
      StreamStarts(cs, i);
    } else {
      NothingToKeep(cs[i]);
    }
  }

  lemma NothingToKeep(c: Cmd)
    requires c.Keep?
    ensures Served(None, c) == None
  {
  }

  lemma HoldsNext(cs: seq<Cmd>, i: nat)
    requires i < |cs| && Holds(cs, i)
    ensures Holds(cs, i + 1)
  {
    var s, t := SlotAfter(cs, i), cs[i].at;
    assert SlotAfter(cs, i + 1) == Served(s, cs[i]);
    hide SlotAfter, StreamOf, Reached, Begins, RanOut;
    if s.None? {
      forall j: nat | j < i && Begins(cs, j) ensures RanOut(cs, j, i + 1) {
        assert !Lasts(cs, j, i);
        RanOutLater(cs, j, i, i + 1);
      }
      HoldsAnew(cs, i);
    } else {
      var j: nat :| j < i && Lasts(cs, j, i) && s.value == StreamOf(cs, j, i);
      StreamAlive(cs, j, i, t);
      RanOutNext(cs, j, i);
      if Reached(cs, j, i, t) {
        forall k: nat | k < i && Begins(cs, k) ensures RanOut(cs, k, i + 1) {
          if !RanOut(cs, k, i) { OneStream(cs, j, k, i); } else { RanOutLater(cs, k, i, i + 1); }
        }
        HoldsAnew(cs, i);
      } else {
        StreamGrows(cs, j, i);
        assert Lasts(cs, j, i + 1);
      }
    }
  }

  lemma {:induction false} HoldsAlways(cs: seq<Cmd>, i: nat)
    requires i <= |cs|
    ensures Holds(cs, i)
  {
    if i > 0 {
      HoldsAlways(cs, i - 1);
      HoldsNext(cs, i - 1);
    }
  }

  // ---- recall ----

  function LastOf<T>(n: nat, s: seq<T>): seq<T> { if n <= |s| then s[|s| - n..] else s }

  lemma LastShown(n: nat, adds: seq<Cmd>)
    requires forall k :: 0 <= k < |adds| ==> adds[k].Add?
    ensures LastOf(n, Shown(adds)) == Shown(LastOf(n, adds))
  {
  }

  /** What is recalled: the last `n` entries of the stream that is there, if one is. */
  ghost predicate Recalls(found: seq<seq<string>>, cs: seq<Cmd>, n: nat, now: nat) {
    && (forall j: nat :: LiveFrom(cs, j, now) ==> found == Shown(LastOf(n, Added(cs, j, |cs|))))
    && ((forall j: nat :: !LiveFrom(cs, j, now)) ==> found == [])
  }

  /** A key that holds the stream begun by `j`. */
  lemma StreamRecalls(cs: seq<Cmd>, j: nat, n: nat, now: nat)
    requires j < |cs| && Lasts(cs, j, |cs|)
    ensures var s := StreamOf(cs, j, |cs|);
      Recalls(LastOf(n, if Alive(Some(s), now) then s.entries else []), cs, n, now)
  {
    StreamAlive(cs, j, |cs|, now);
    LastShown(n, Added(cs, j, |cs|));
    hide Begins, RanOut, Reached, Alive, Shown;
    forall k: nat | LiveFrom(cs, k, now) ensures k == j { OneStream(cs, j, k, |cs|); }
    assert Reached(cs, j, |cs|, now) || LiveFrom(cs, j, now);
  }

  lemma NothingRecalls(cs: seq<Cmd>, n: nat, now: nat)
    requires forall j: nat :: j < |cs| ==> !Lasts(cs, j, |cs|)
    ensures Recalls([], cs, n, now)
  {
    hide Begins, RanOut, Reached;
    forall k: nat ensures !LiveFrom(cs, k, now) {
      assert k < |cs| ==> !Lasts(cs, k, |cs|);
    }
  }

  lemma SlotRecalls(cs: seq<Cmd>, n: nat, now: nat)
    ensures var s := SlotAfter(cs, |cs|);
      Recalls(LastOf(n, if Alive(s, now) then s.value.entries else []), cs, n, now)
  {
    hide SlotAfter, Recalls, StreamOf, Lasts;
    HoldsAlways(cs, |cs|);
    if SlotAfter(cs, |cs|).Some? {
      var j: nat :| j < |cs| && Lasts(cs, j, |cs|) && SlotAfter(cs, |cs|).value == StreamOf(cs, j, |cs|);
      StreamRecalls(cs, j, n, now);
    } else {
      NothingRecalls(cs, n, now);
    }
  }

  /** After any interleaving of commands for any handles, overlapping calls of one handle included, asking for
      `n` entries of a handle gives the last `min(n, live)` of its own, oldest first, where the live ones are
      those added since its stream last began, and there are none once that has run out. */
  lemma RecallIsWindow(cmds: seq<Cmd>, h: string, n: nat, now: nat)
    ensures Recalls(LastOf(n, EntriesAt(Run(cmds), Key(h), now)), Only(cmds, h), n, now)
  {
    hide Recalls, Run, Only, Key;
    Projected(cmds, h);
    SlotRecalls(Only(cmds, h), n, now);
  }

  /** At most one stream is live, so the window is one. */
  lemma WindowUnique(cs: seq<Cmd>, j: nat, k: nat, now: nat)
    requires LiveFrom(cs, j, now) && LiveFrom(cs, k, now)
    ensures j == k
  {
    OneStream(cs, j, k, |cs|);
  }

  /** The objects handed out are the texts and time stamps of those entries. */
  lemma RecallReadsBack(cmds: seq<Cmd>, h: string, n: nat, j: nat, now: nat)
    requires LiveFrom(Only(cmds, h), j, now)
    ensures var found := LastOf(n, EntriesAt(Run(cmds), Key(h), now));
      var told := LastOf(n, Added(Only(cmds, h), j, |Only(cmds, h)|));
      |found| == |told|
      && forall i :: 0 <= i < |told| ==>
           |found[i]| % 2 == 0 && ObjectOf(Paired(found[i])) == map["text" := told[i].text, "ts" := told[i].ts]
  {
    RecallIsWindow(cmds, h, n, now);
    hide Run, EntriesAt, Key, Begins, RanOut, Reached, ObjectOf, Only;
    var told := LastOf(n, Added(Only(cmds, h), j, |Only(cmds, h)|));
    forall i | 0 <= i < |told| { EntryReadBack(told[i].text, told[i].ts); }
  }

  /** Two calls at once can lose both entries: the stream of an earlier one runs out after both have added to it
      and before either has kept it alive. */
  lemma OverlapLosesBoth(h: string, t: nat, a: seq<string>)
    requires |a| == 3 && t + TTL >= 2
    ensures var d := t + TTL;
      var cs := [Add(h, a[0], "", t), Keep(h, t), Add(h, a[1], "", d - 2), Add(h, a[2], "", d - 1),
                 Keep(h, d + 1), Keep(h, d + 2)];
      SlotAfter(cs, 4).Some? && |SlotAfter(cs, 4).value.entries| == 3 && SlotAfter(cs, 6) == None
  {
    var d := t + TTL;
    var cs := [Add(h, a[0], "", t), Keep(h, t), Add(h, a[1], "", d - 2), Add(h, a[2], "", d - 1),
               Keep(h, d + 1), Keep(h, d + 2)];
    var s1, s2, s3 := SlotAfter(cs, 1), SlotAfter(cs, 2), SlotAfter(cs, 3);
    assert s1 == Served(SlotAfter(cs, 0), cs[0]) && s2 == Served(s1, cs[1]) && s3 == Served(s2, cs[2]);
    assert SlotAfter(cs, 4) == Served(s3, cs[3]) && SlotAfter(cs, 5) == Served(SlotAfter(cs, 4), cs[4]);
  }

  // ---- calls one after the other ----

  /** A `remember` call whose two commands have no other command for its handle between them. */
  datatype Call = Call(text: string, ts: string, added: nat, kept: nat)

  function AddOf(h: string, c: Call): Cmd { Add(h, c.text, c.ts, c.added) }

  function Commands(h: string, cs: seq<Call>): (ds: seq<Cmd>)
    ensures |ds| == 2 * |cs|
  {
    if cs == [] then [] else
    Commands(h, cs[..|cs| - 1]) + [AddOf(h, cs[|cs| - 1]), Keep(h, cs[|cs| - 1].kept)]
  }

  function FieldsOfAll(cs: seq<Call>): (fs: seq<seq<string>>)
    ensures |fs| == |cs| && forall i :: 0 <= i < |cs| ==> fs[i] == FieldsOf(cs[i].text, cs[i].ts)
  {
    seq(|cs|, i requires 0 <= i < |cs| => FieldsOf(cs[i].text, cs[i].ts))
  }

  /** One handle's calls come one after the other. */
  predicate Timely(cs: seq<Call>) {
    (forall i :: 0 <= i < |cs| ==> cs[i].added <= cs[i].kept)
    && forall i :: 0 < i < |cs| ==> cs[i - 1].kept <= cs[i].added
  }

  /** Call `k` kept alive what call `k - 1` left. */
  predicate Joined(cs: seq<Call>, k: nat)
    requires 0 < k < |cs|
  {
    cs[k].kept < cs[k - 1].kept + 86_400
  }

  /** The stream that call `k` added to ran out before the call kept it alive, taking the new entry along. */
  predicate Lost(cs: seq<Call>, k: nat)
    requires k < |cs|
  {
    k > 0 && !Lost(cs, k - 1) && cs[k].added < cs[k - 1].kept + 86_400 <= cs[k].kept
  }

  /** The last `c` calls are the live ones: none lost, each kept alive in time by the next and the last one
      until now, and the chain cannot be made longer. */
  predicate Window(cs: seq<Call>, c: nat, now: nat) {
    && c <= |cs|
    && (forall k :: |cs| - c <= k < |cs| ==> !Lost(cs, k))
    && (forall k :: |cs| - c < k < |cs| ==> Joined(cs, k))
    && (c > 0 ==> now < cs[|cs| - 1].kept + 86_400)
    && (c == 0 && cs != [] ==> Lost(cs, |cs| - 1) || now >= cs[|cs| - 1].kept + 86_400)
    && (0 < c < |cs| ==> Lost(cs, |cs| - c - 1) || !Joined(cs, |cs| - c))
  }

  lemma SequentialUnique(cs: seq<Call>, c: nat, d: nat, now: nat)
    requires Window(cs, c, now) && Window(cs, d, now)
    ensures c == d
  {
    if c < d {
      WindowNotShorter(cs, c, d, now);
    } else if d < c {
      WindowNotShorter(cs, d, c, now);
    }
  }

  lemma WindowNotShorter(cs: seq<Call>, c: nat, d: nat, now: nat)
    requires Window(cs, c, now) && Window(cs, d, now)
    ensures c >= d
  {
  }

  lemma {:induction false} LostFront(cs: seq<Call>, k: nat)
    requires k < |cs| - 1
    ensures Lost(cs, k) == Lost(cs[..|cs| - 1], k)
  {
    if k > 0 { LostFront(cs, k - 1); }
  }

  /** The length of the chain right after the last call. */
  function Chain(cs: seq<Call>): (c: nat)
    ensures c <= |cs|
  {
    if cs == [] || Lost(cs, |cs| - 1) then 0
    else var c := Chain(cs[..|cs| - 1]);
      if c > 0 && Joined(cs, |cs| - 1) then c + 1 else 1
  }

  lemma {:induction false} ChainIsWindow(cs: seq<Call>)
    requires cs != []
    ensures Window(cs, Chain(cs), cs[|cs| - 1].kept)
  {
    var front := cs[..|cs| - 1];
    if front != [] {
      ChainIsWindow(front);
      forall k | 0 <= k < |front| ensures Lost(cs, k) == Lost(front, k) { LostFront(cs, k); }
      assert forall k :: 0 < k < |front| ==> Joined(cs, k) == Joined(front, k);
    }
  }

  /** There is always such a window. */
  lemma SequentialExists(cs: seq<Call>, now: nat)
    requires cs != [] ==> cs[|cs| - 1].kept <= now
    ensures Window(cs, if cs != [] && now < cs[|cs| - 1].kept + TTL then Chain(cs) else 0, now)
  {
    hide Lost, Joined, Chain;
    if cs != [] { ChainIsWindow(cs); }
  }

  lemma ChainNext(cs: seq<Call>)
    requires cs != [] && Timely(cs)
    ensures var front, c := cs[..|cs| - 1], cs[|cs| - 1];
      var n := Chain(front);
      Chain(cs) == if n == 0 || c.added >= cs[|cs| - 2].kept + TTL then 1
                   else if c.kept >= cs[|cs| - 2].kept + TTL then 0
                   else n + 1
  {
    if |cs| > 1 { LostFront(cs, |cs| - 2); }
  }

  /** The three things a call can do to the stream of its handle. */
  lemma CallCases(s: Slot, h: string, c: Call)
    requires c.added <= c.kept
    ensures Served(Served(s, AddOf(h, c)), Keep(h, c.kept))
         == if !Alive(s, c.added) then Some(Stream([FieldsOf(c.text, c.ts)], Some(c.kept + TTL)))
            else if !Alive(s, c.kept) then None
            else Some(Stream(s.value.entries + [FieldsOf(c.text, c.ts)], Some(c.kept + TTL)))
  {
  }

  /** An entry is gone when its own call ends if and only if the stream was there when it was added and ran out
      before it was kept alive. */
  lemma GoneIff(s: Slot, h: string, c: Call)
    requires c.added <= c.kept
    ensures Served(Served(s, AddOf(h, c)), Keep(h, c.kept)) == None
      <==> s.Some? && s.value.deadline.Some? && c.added < s.value.deadline.value <= c.kept
  {
    CallCases(s, h, c);
  }

  /** The stream right after the last of the calls. */
  function ChainSlot(cs: seq<Call>): Slot {
    if Chain(cs) == 0 then None
    else Some(Stream(FieldsOfAll(cs[|cs| - Chain(cs)..]), Some(cs[|cs| - 1].kept + TTL)))
  }

  lemma ChainSlotNext(h: string, cs: seq<Call>)
    requires cs != [] && Timely(cs)
    ensures var c := cs[|cs| - 1];
      Served(Served(ChainSlot(cs[..|cs| - 1]), AddOf(h, c)), Keep(h, c.kept)) == ChainSlot(cs)
  {
    hide FieldsOf, FieldsOfAll, Served, Chain, Timely, Alive;
    var front, c := cs[..|cs| - 1], cs[|cs| - 1];
    var n := Chain(front);
    LastCall(cs);
    CallCases(ChainSlot(front), h, c);
    ChainNext(cs);
    if n > 0 {
      ChainAlive(front, c.added);
      ChainAlive(front, c.kept);
      CallsLonger(cs, n);
    } else {
      NeverAlive(c.added);
    }
  }

  lemma LastCall(cs: seq<Call>)
    requires cs != [] && Timely(cs)
    ensures cs[|cs| - 1].added <= cs[|cs| - 1].kept && Timely(cs[..|cs| - 1])
    ensures FieldsOfAll(cs[|cs| - 1..]) == [FieldsOf(cs[|cs| - 1].text, cs[|cs| - 1].ts)]
  {
    hide FieldsOf;
  }

  lemma CallsLonger(cs: seq<Call>, n: nat)
    requires cs != [] && n <= |cs| - 1
    ensures var front, c := cs[..|cs| - 1], cs[|cs| - 1];
      FieldsOfAll(cs[|cs| - (n + 1)..]) == FieldsOfAll(front[|front| - n..]) + [FieldsOf(c.text, c.ts)]
  {
    hide FieldsOf;
  }

  lemma ChainAlive(cs: seq<Call>, now: nat)
    requires Chain(cs) > 0
    ensures Alive(ChainSlot(cs), now) <==> now < cs[|cs| - 1].kept + TTL
  {
    hide Chain, FieldsOfAll;
  }

  lemma NeverAlive(now: nat)
    ensures !Alive(None, now)
  {
  }

  lemma {:induction false} SequentialSlot(h: string, cs: seq<Call>)
    requires Timely(cs)
    ensures SlotAfter(Commands(h, cs), 2 * |cs|) == ChainSlot(cs)
  {
    hide ChainSlot, Served, SlotAfter, Commands, Timely;
    NoCommands(h);
    if cs != [] {
      var front, ds := cs[..|cs| - 1], Commands(h, cs);
      LastCall(cs);
      SequentialSlot(h, front);
      CommandsNext(h, cs);
      SlotPrefix(Commands(h, front), ds, 2 * |front|);
      TwoServed(ds, 2 * |front|);
      ChainSlotNext(h, cs);
    }
  }

  lemma NoCommands(h: string)
    ensures Commands(h, []) == [] && SlotAfter([], 0) == ChainSlot([])
  {
  }

  lemma CommandsNext(h: string, cs: seq<Call>)
    requires cs != []
    ensures var n, ds, c := 2 * (|cs| - 1), Commands(h, cs), cs[|cs| - 1];
      |ds| == n + 2 && Commands(h, cs[..|cs| - 1]) <= ds && ds[n] == AddOf(h, c) && ds[n + 1] == Keep(h, c.kept)
  {
  }

  lemma TwoServed(ds: seq<Cmd>, k: nat)
    requires k + 2 <= |ds|
    ensures SlotAfter(ds, k + 2) == Served(Served(SlotAfter(ds, k), ds[k]), ds[k + 1])
  {
    hide Served;
  }

  lemma LiveIs(cs: seq<Call>, live: nat, now: nat)
    requires Window(cs, live, now) && (cs != [] ==> cs[|cs| - 1].kept <= now)
    ensures live <= |cs| && live == if cs != [] && now < cs[|cs| - 1].kept + TTL then Chain(cs) else 0
  {
    hide Lost, Joined, Chain;
    SequentialExists(cs, now);
    SequentialUnique(cs, live, if cs != [] && now < cs[|cs| - 1].kept + TTL then Chain(cs) else 0, now);
  }

  lemma NoCalls(cs: seq<Call>)
    ensures FieldsOfAll(cs[|cs| - 0..]) == [] && Chain([]) == 0
  {
  }

  lemma ChainNow(cs: seq<Call>, live: nat, now: nat)
    requires Window(cs, live, now) && live <= |cs|
    requires cs != [] ==> cs[|cs| - 1].kept <= now
    ensures (if Alive(ChainSlot(cs), now) then ChainSlot(cs).value.entries else []) == FieldsOfAll(cs[|cs| - live..])
  {
    hide Window, Chain, FieldsOfAll;
    LiveIs(cs, live, now);
    NoCalls(cs);
  }

  lemma LastOfAll(n: nat, live: nat, cs: seq<Call>)
    requires live <= |cs|
    ensures LastOf(n, FieldsOfAll(cs[|cs| - live..])) == FieldsOfAll(LastOf(if n < live then n else live, cs))
  {
  }

  /** When one handle's calls come one after the other, whatever is served for others meanwhile, the live entries
      are its last `live` calls: none lost, each kept alive in time by the next. */
  lemma SequentialRecall(cmds: seq<Cmd>, h: string, cs: seq<Call>, n: nat, live: nat, now: nat)
    requires Only(cmds, h) == Commands(h, cs) && Timely(cs)
    requires cs != [] ==> cs[|cs| - 1].kept <= now
    requires Window(cs, live, now)
    ensures LastOf(n, EntriesAt(Run(cmds), Key(h), now)) == FieldsOfAll(LastOf(if n < live then n else live, cs))
  {
    hide Run, Only, Commands, Key, SlotAfter, ChainSlot, FieldsOfAll, LastOf;
    Projected(cmds, h);
    SequentialSlot(h, cs);
    LiveIs(cs, live, now);
    ChainNow(cs, live, now);
    LastOfAll(n, live, cs);
  }

  /** When each call keeps its stream alive at the moment it adds to it, no entry is ever lost: the window is
      the longest run of latest entries less than a day apart, the last one less than a day old. */
  lemma PromptWindow(cs: seq<Call>, c: nat, now: nat)
    requires forall i :: 0 <= i < |cs| ==> cs[i].added == cs[i].kept
    ensures Window(cs, c, now) <==>
      && c <= |cs|
      && (forall k :: |cs| - c < k < |cs| ==> Joined(cs, k))
      && (cs != [] ==> (c > 0 <==> now < cs[|cs| - 1].kept + TTL))
      && (0 < c < |cs| ==> !Joined(cs, |cs| - c))
  {
    forall k | 0 <= k < |cs| ensures !Lost(cs, k) { NotLost(cs, k); }
  }

  lemma NotLost(cs: seq<Call>, k: nat)
    requires k < |cs| && cs[k].added == cs[k].kept
    ensures !Lost(cs, k)
  {
  }

  function Reversed<T>(s: seq<T>): (t: seq<T>)
    ensures |t| == |s| && forall i :: 0 <= i < |s| ==> t[i] == s[|s| - 1 - i]
  {
    seq(|s|, i requires 0 <= i < |s| => s[|s| - 1 - i])
  }

  /** `reverse()`: swap the ends and move inwards. */
  method ReverseInPlace(a: array<Object>)
    modifies a
    ensures a[..] == Reversed(old(a[..]))
  {
    var n := a.Length;
    ghost var was := a[..];
    var lo := 0;
    while lo < n / 2
      invariant 0 <= lo <= n / 2
      invariant forall i :: 0 <= i < lo || n - lo <= i < n ==> a[i] == was[n - 1 - i]
      invariant forall i :: lo <= i < n - lo ==> a[i] == was[i]
    {
      a[lo], a[n - 1 - lo] := a[n - 1 - lo], a[lo];
      lo := lo + 1;
    }
    forall i | 0 <= i < n ensures a[i] == was[n - 1 - i] {
      assert lo <= i < n - lo ==> i == n - 1 - i;
    }
  }

  /** The objects of the entries, in their order. */
  method ReadAll(raw: seq<seq<string>>) returns (r: array<Object>)
    requires forall j :: 0 <= j < |raw| ==> |raw[j]| % 2 == 0
    ensures fresh(r) && r.Length == |raw| && forall j :: 0 <= j < |raw| ==> r[j] == ObjectOf(Paired(raw[j]))
  {
    hide ObjectOf;
    r := new Object[|raw|];
    for i := 0 to |raw|
      invariant forall j :: 0 <= j < i ==> r[j] == ObjectOf(Paired(raw[j]))
    {
      r[i] := ReadFields(raw[i]);
    }
  }

  class Store {
    var streams: Redis

    constructor ()
      ensures streams == Run([]) && Valid()
    {
      streams := map[];
    }

    /** Every stored entry is made of pairs. */
    predicate Valid()
      reads this
    {
      forall k, i :: k in streams && 0 <= i < |streams[k].entries| ==> |streams[k].entries[i]| % 2 == 0
    }

    /** `remember` up to its second `await`. */
    method Append(handle: string, text: string, ts: string, now: nat)
      modifies this
      ensures streams == Execute(old(streams), Add(handle, text, ts, now))
      ensures old(Valid()) ==> Valid()
    {
      var key := Key(handle);
      var fields := ["text", text, "ts", ts];
      if Alive(SlotOf(streams, key), now) {
        streams := streams[key := streams[key].(entries := streams[key].entries + [fields])];
      } else {
        streams := streams[key := Stream([fields], None)];
      }
    }

    /** And from there on. */
    method Renew(handle: string, now: nat)
      modifies this
      ensures streams == Execute(old(streams), Keep(handle, now))
      ensures old(Valid()) ==> Valid()
    {
      var key := Key(handle);
      if Alive(SlotOf(streams, key), now) {
        streams := streams[key := streams[key].(deadline := Some(now + TTL))];
      } else {
        streams := streams - {key};
      }
    }

    /** A call that nothing comes between. */
    method Remember(handle: string, c: Call)
      modifies this
      ensures streams == Execute(Execute(old(streams), AddOf(handle, c)), Keep(handle, c.kept))
      ensures old(Valid()) ==> Valid()
    {
      Append(handle, c.text, c.ts, c.added);
      Renew(handle, c.kept);
    }

    /** XREVRANGE, newest first: a missing key is an empty reply, a count of zero or less on a stream no reply
        at all. */
    method XRevRange(key: string, limit: int, now: nat) returns (raw: Option<seq<seq<string>>>)
      ensures raw == None <==> limit <= 0 && Alive(SlotOf(streams, key), now)
      ensures raw.Some? && limit > 0 ==> raw.value == Reversed(LastOf(limit, EntriesAt(streams, key, now)))
      ensures raw.Some? && limit <= 0 ==> raw.value == []
    {
      if !Alive(SlotOf(streams, key), now) { return Some([]); }
      if limit <= 0 { return None; }
      raw := Some(Reversed(LastOf(limit, EntriesAt(streams, key, now))));
    }

    /** Throws exactly if asked for no entries of a stream that is there. */
    method Recall(handle: string, limit: int, now: nat) returns (threw: bool, r: array<Object>)
      requires Valid()
      ensures fresh(r)
      ensures threw <==> limit <= 0 && Alive(SlotOf(streams, Key(handle)), now)
      ensures !threw ==>
        var found := LastOf(if limit > 0 then limit else 0, EntriesAt(streams, Key(handle), now));
        r.Length == |found|
        && forall i :: 0 <= i < |found| ==> |found[i]| % 2 == 0 && r[i] == ObjectOf(Paired(found[i]))
    {
      var reply := XRevRange(Key(handle), limit, now);
      if reply.None? {
        r := new Object[0];
        return true, r;
      }
      r := ReadAll(reply.value);
      ReverseInPlace(r);
      threw := false;
    }
  }
}
