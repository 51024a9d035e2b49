/** Characters and string operations of ECMAScript that the modelled code relies on. */
module Text {

  datatype Option<+T> = None | Some(value: T)

  /** `\s`: white space and line terminators, sections 12.2 and 12.3 of ECMA-262. */
  predicate IsSpace(c: char) {
    var n := c as int;
    || 9 <= n <= 13 || n == 32 || n == 0xA0 || n == 0x1680 || 0x2000 <= n <= 0x200A
    || n == 0x2028 || n == 0x2029 || n == 0x202F || n == 0x205F || n == 0x3000 || n == 0xFEFF
  }

  predicate IsDigit(c: char) { '0' <= c <= '9' }

  predicate IsAlnum(c: char) { IsDigit(c) || 'a' <= c <= 'z' || 'A' <= c <= 'Z' }

  predicate IsWordChar(c: char) { IsAlnum(c) || c == '_' }

  /** Case folding as far as the modelled patterns and handles need it: ASCII letters. */
  function Lower(c: char): (d: char) {
    if 'A' <= c <= 'Z' then (c as int + 32) as char else c
  }

  function LowerAll(s: string): (r: string)
    ensures |r| == |s|
    ensures forall i :: 0 <= i < |s| ==> r[i] == Lower(s[i])
  {
    if s == "" then "" else [Lower(s[0])] + LowerAll(s[1..])
  }

  function TrimLeft(s: string): (r: string)
    ensures |r| <= |s|
  {
    if s != "" && IsSpace(s[0]) then TrimLeft(s[1..]) else s
  }

  function TrimRight(s: string): (r: string)
    ensures |r| <= |s|
  {
    if s != "" && IsSpace(s[|s| - 1]) then TrimRight(s[..|s| - 1]) else s
  }

  /** `String.prototype.trim`. */
  function Trim(s: string): (r: string) { TrimRight(TrimLeft(s)) }

  /** Trimming only eats into the text around a core that begins and ends with non-space. */
  lemma TrimAround(p: string, core: string, q: string) returns (a: nat, b: nat)
    requires core != "" && !IsSpace(core[0]) && !IsSpace(core[|core| - 1])
    ensures a <= |p| && b <= |q| && Trim(p + core + q) == p[a..] + core + q[..b]
  {
    assert p + core + q == p + (core + q);
    a := TrimLeftAround(p, core + q);
    assert p[a..] + (core + q) == (p[a..] + core) + q;
    b := TrimRightAround(p[a..] + core, q);
  }

  lemma {:induction false} TrimLeftAround(p: string, rest: string) returns (a: nat)
    requires rest != "" && !IsSpace(rest[0])
    ensures a <= |p| && TrimLeft(p + rest) == p[a..] + rest
  {
    if p == "" {
      assert p + rest == rest;
      a := 0;
    } else if IsSpace(p[0]) {
      assert (p + rest)[1..] == p[1..] + rest;
      var a' := TrimLeftAround(p[1..], rest);
      assert p[1..][a'..] == p[a' + 1..];
      a := a' + 1;
    } else {
      a := 0;
    }
  }

  lemma {:induction false} TrimRightAround(rest: string, q: string) returns (b: nat)
    requires rest != "" && !IsSpace(rest[|rest| - 1])
    ensures b <= |q| && TrimRight(rest + q) == rest + q[..b]
  {
    if q == "" {
      assert rest + q == rest;
      b := 0;
    } else if IsSpace(q[|q| - 1]) {
      var q' := q[..|q| - 1];
      assert (rest + q)[..|rest + q| - 1] == rest + q';
      b := TrimRightAround(rest, q');
      assert q'[..b] == q[..b];
    } else {
      b := |q|;
    }
  }

  /** A text that begins and ends with non-space is its own trim. */
  lemma TrimIsIdentity(s: string)
    requires s != "" ==> !IsSpace(s[0]) && !IsSpace(s[|s| - 1])
    ensures Trim(s) == s
  {
  }

  /** Trimming loses no character but white space. */
  lemma TrimKeeps(s: string, c: char)
    requires !IsSpace(c)
    ensures c in Trim(s) <==> c in s
  {
    hide IsSpace;
    TrimLeftKeeps(s, c);
    TrimRightKeeps(TrimLeft(s), c);
  }

  lemma {:induction false} TrimLeftKeeps(s: string, c: char)
    requires !IsSpace(c)
    ensures c in TrimLeft(s) <==> c in s
  {
    hide IsSpace;
    if s != "" && IsSpace(s[0]) {
      assert s == [s[0]] + s[1..];
      TrimLeftKeeps(s[1..], c);
    }
  }

  lemma {:induction false} TrimRightKeeps(s: string, c: char)
    requires !IsSpace(c)
    ensures c in TrimRight(s) <==> c in s
  {
    hide IsSpace;
    if s != "" && IsSpace(s[|s| - 1]) {
      assert s == s[..|s| - 1] + [s[|s| - 1]];
      TrimRightKeeps(s[..|s| - 1], c);
    }
  }

  lemma Regroup<T>(s: seq<T>, n: nat, t: seq<T>)
    requires n <= |s|
    ensures s[..n] + (s[n..] + t) == s + t
  {
  }

  /** `indexOf` of one character; `None` stands for -1. */
  function IndexOf(s: string, c: char): (i: Option<nat>)
    ensures i.Some? ==> i.value < |s| && s[i.value] == c
  {
    if s == "" then None else if s[0] == c then Some(0) else
    var i := IndexOf(s[1..], c);
    if i.None? then None else Some(i.value + 1)
  }

  function LastIndexOf(s: string, c: char): (i: Option<nat>)
    ensures i.Some? ==> i.value < |s| && s[i.value] == c
  {
    if s == "" then None else if s[|s| - 1] == c then Some(|s| - 1) else LastIndexOf(s[..|s| - 1], c)
  }

  lemma {:induction false} IndexOfPast(p: string, c: char, t: string)
    requires c !in p
    ensures IndexOf(p + ([c] + t), c) == Some(|p|)
  {
    if p == "" {
      assert p + ([c] + t) == [c] + t;
    } else {
      assert p[0] in p && forall d :: d in p[1..] ==> d in p;
      assert (p + ([c] + t))[1..] == p[1..] + ([c] + t);
      IndexOfPast(p[1..], c, t);
    }
  }

  lemma {:induction false} LastIndexOfBefore(p: string, c: char, t: string)
    requires c !in t
    ensures LastIndexOf((p + [c]) + t, c) == Some(|p|)
  {
    if t == "" {
      assert (p + [c]) + t == p + [c];
    } else {
      var t' := t[..|t| - 1];
      assert t[|t| - 1] in t && forall d :: d in t' ==> d in t;
      var s := (p + [c]) + t;
      assert s[..|s| - 1] == (p + [c]) + t';
      LastIndexOfBefore(p, c, t');
    }
  }

  lemma {:induction false} IndexOfIff(s: string, c: char)
    ensures IndexOf(s, c).Some? <==> c in s
  {
    if s != "" {
      assert s == [s[0]] + s[1..];
      IndexOfIff(s[1..], c);
    }
  }

  lemma {:induction false} LastIndexOfIff(s: string, c: char)
    ensures LastIndexOf(s, c).Some? <==> c in s
  {
    if s != "" {
      assert s == s[..|s| - 1] + [s[|s| - 1]];
      LastIndexOfIff(s[..|s| - 1], c);
    }
  }

  /** `s.split(sep)` for a one-character separator. */
  function Split(s: string, sep: char): (parts: seq<string>)
    ensures |parts| >= 1
  {
    if s == "" then [""]
    else
      var rest := Split(s[1..], sep);
      if s[0] == sep then [""] + rest else [[s[0]] + rest[0]] + rest[1..]
  }

  lemma {:induction false} SplitFirst(a: string, sep: char, t: string)
    requires sep !in a
    ensures Split(a + ([sep] + t), sep) == [a] + Split(t, sep)
  {
    var s := a + ([sep] + t);
    if a == "" {
      assert s == [sep] + t && s[1..] == t;
    } else {
      assert a[0] in a && forall c :: c in a[1..] ==> c in a;
      assert s[1..] == a[1..] + ([sep] + t);
      SplitFirst(a[1..], sep, t);
      assert [a[0]] + a[1..] == a;
    }
  }

  lemma {:induction false} SplitNone(a: string, sep: char)
    requires sep !in a
    ensures Split(a, sep) == [a]
  {
    if a != "" {
      assert a[0] in a && forall c :: c in a[1..] ==> c in a;
      SplitNone(a[1..], sep);
      assert [a[0]] + a[1..] == a;
    }
  }
}
