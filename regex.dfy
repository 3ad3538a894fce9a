/** The part of Python's `re` module that the scrapers use through `re.findall`.
    A pattern is an alternation of branches `B1|B2|...`; a branch is a sequence of greedy
    repetitions `[class]{min,max}` (a literal character, `\d`, `x+` and `x{m,n}` are all of this
    form). Matching follows Python's backtracking order: branches are tried left to right and a
    repetition tries its longest count first, then shorter ones down to `min`. `\d` is ASCII. */
module Regex {
  import opened Wrappers
  import opened Text

  datatype CharClass = Digit | OneOf(chars: string)

  predicate InClass(k: CharClass, c: char)
  {
    match k
    case Digit => IsDigit(c)
    case OneOf(cs) => c in cs
  }

  datatype Bound = UpTo(n: nat) | Unbounded

  /** `[cls]{min,max}` */
  datatype Atom = Atom(cls: CharClass, min: nat, max: Bound)

  type Branch = seq<Atom>

  type Pattern = seq<Branch>

  /** A single literal character. */
  function Lit(c: char): Atom { Atom(OneOf([c]), 1, UpTo(1)) }

  /** A character class matched exactly once. */
  function Once(k: CharClass): Atom { Atom(k, 1, UpTo(1)) }

  predicate WithinMax(a: Atom, k: nat)
  {
    match a.max
    case UpTo(n) => k <= n
    case Unbounded => true
  }

  function MinLength(b: Branch): nat
  {
    if b == [] then 0 else b[0].min + MinLength(b[1..])
  }

  /** A pattern none of whose branches can match the empty string. */
  predicate Solid(p: Pattern)
  {
    forall b | b in p :: MinLength(b) >= 1
  }

  /** The length of the longest run of characters of class `k` starting at `i`. */
  function ClassRun(k: CharClass, s: string, i: nat): (r: nat)
    requires i <= |s|
    ensures i + r <= |s|
    ensures forall t | i <= t < i + r :: InClass(k, s[t])
    ensures i + r < |s| ==> !InClass(k, s[i + r])
    decreases |s| - i
  {
    if i < |s| && InClass(k, s[i]) then 1 + ClassRun(k, s, i + 1) else 0
  }

  /** The longest count a greedy repetition takes from a run of length `r`. */
  function Capped(a: Atom, r: nat): (k: nat)
    ensures k <= r && WithinMax(a, k)
    ensures k < r ==> !WithinMax(a, k + 1)
  {
    match a.max
    case UpTo(n) => if r < n then r else n
    case Unbounded => r
  }

  /** The end of the match of branch `b` at position `i`, if any. */
  function MatchBranch(b: Branch, s: string, i: nat): (r: Option<nat>)
    requires i <= |s|
    ensures r.Some? ==> i + MinLength(b) <= r.value <= |s|
    decreases |b|, |s| - i + 1
  {
    if b == [] then Some(i)
    else
      var k := Capped(b[0], ClassRun(b[0].cls, s, i));
      if k < b[0].min then None else TryCounts(b, s, i, k)
  }

  /** Backtracking over the count of the first repetition: `k`, then `k - 1`, down to `min`. */
  function TryCounts(b: Branch, s: string, i: nat, k: nat): (r: Option<nat>)
    requires b != [] && i + k <= |s| && b[0].min <= k
    ensures r.Some? ==> i + MinLength(b) <= r.value <= |s|
    decreases |b|, k
  {
    match MatchBranch(b[1..], s, i + k)
    case Some(j) => Some(j)
    case None => if k == b[0].min then None else TryCounts(b, s, i, k - 1)
  }

  /** The end of the match of pattern `p` at position `i`: the first branch that matches wins. */
  function MatchAt(p: Pattern, s: string, i: nat): (r: Option<nat>)
    requires i <= |s|
    ensures r.Some? ==> i <= r.value <= |s|
    ensures r.Some? && Solid(p) ==> i < r.value
  {
    if p == [] then None
    else match MatchBranch(p[0], s, i)
      case Some(j) => Some(j)
      case None => MatchAt(p[1..], s, i)
  }

  ghost predicate NoMatchIn(p: Pattern, s: string, lo: nat, hi: nat)
    requires hi <= |s|
  {
    forall t: nat | lo <= t < hi :: MatchAt(p, s, t).None?
  }

  /** The spans `(start, end)` of the non-overlapping matches at or after `i`, left to right. */
  function Spans(p: Pattern, s: string, i: nat): (r: seq<(nat, nat)>)
    requires Solid(p) && i <= |s|
    ensures forall k | 0 <= k < |r| :: i <= r[k].0 < r[k].1 <= |s| && MatchAt(p, s, r[k].0) == Some(r[k].1)
    decreases |s| - i
  {
    if i == |s| then []
    else match MatchAt(p, s, i)
      case Some(j) => [(i, j)] + Spans(p, s, j)
      case None => Spans(p, s, i + 1)
  }

  /** The first span starts at the leftmost position (from `i` on) where the pattern matches;
      there are no spans when it matches nowhere. */
  lemma {:induction false} SpansLeftmost(p: Pattern, s: string, i: nat)
    requires Solid(p) && i <= |s|
    ensures Spans(p, s, i) == [] ==> NoMatchIn(p, s, i, |s|)
    ensures Spans(p, s, i) != [] ==> NoMatchIn(p, s, i, Spans(p, s, i)[0].0)
    decreases |s| - i
  {
    if i < |s| && MatchAt(p, s, i).None? {
      SpansLeftmost(p, s, i + 1);
    }
  }

  ghost predicate OrderedSpans(r: seq<(nat, nat)>)
  {
    forall k | 0 <= k < |r| - 1 :: r[k].1 <= r[k + 1].0
  }

  lemma OrderedSpansCons(x: (nat, nat), rest: seq<(nat, nat)>)
    requires OrderedSpans(rest) && (rest != [] ==> x.1 <= rest[0].0)
    ensures OrderedSpans([x] + rest)
  {
    var r := [x] + rest;
    forall k | 0 <= k < |r| - 1 ensures r[k].1 <= r[k + 1].0 {
      if k > 0 { assert r[k] == rest[k - 1] && r[k + 1] == rest[k]; }
    }
  }

  /** The spans do not overlap and come left to right. */
  lemma {:induction false} SpansOrdered(p: Pattern, s: string, i: nat)
    requires Solid(p) && i <= |s|
    ensures OrderedSpans(Spans(p, s, i))
    decreases |s| - i
  {
    if i < |s| {
      match MatchAt(p, s, i)
      case Some(j) =>
        SpansOrdered(p, s, j);
        var rest := Spans(p, s, j);
        assert Spans(p, s, i) == [(i, j)] + rest;
        OrderedSpansCons((i, j), rest);
      case None =>
        SpansOrdered(p, s, i + 1);
        assert Spans(p, s, i) == Spans(p, s, i + 1);
    }
  }

  /** `re.findall(p, s)` for a pattern without groups: the matched substrings, left to right. */
  function FindAll(p: Pattern, s: string): (r: seq<string>)
    requires Solid(p)
  {
    var sp := Spans(p, s, 0);
    seq(|sp|, k requires 0 <= k < |sp| => s[sp[k].0..sp[k].1])
  }

  /** The first element of `re.findall(p, s)`, if there is one: none exactly when the pattern
      matches nowhere (the match at the leftmost position is `FirstMatchAt`). */
  function FirstMatch(p: Pattern, s: string): (r: Option<string>)
    requires Solid(p)
    ensures r.None? <==> NoMatchIn(p, s, 0, |s|)
  {
    FindAllEmpty(p, s);
    var all := FindAll(p, s);
    if |all| > 0 then Some(all[0]) else None
  }

  /** `__defaultfind(p, s, default)`: the first match of `p` in `s`, or `default` when there is none. */
  function DefaultFind(p: Pattern, s: string, default: string): (r: string)
    requires Solid(p)
    ensures NoMatchIn(p, s, 0, |s|) ==> r == default
  {
    match FirstMatch(p, s)
    case Some(m) => m
    case None => default
  }

  /** `re.findall` finds nothing exactly when the pattern matches at no position. */
  lemma FindAllEmpty(p: Pattern, s: string)
    requires Solid(p)
    ensures FindAll(p, s) == [] <==> NoMatchIn(p, s, 0, |s|)
  {
    var sp := Spans(p, s, 0);
    SpansLeftmost(p, s, 0);
    if sp != [] {
      assert MatchAt(p, s, sp[0].0).Some?;
      assert |FindAll(p, s)| == |sp|;
    }
  }

  /** Every element of `re.findall` is a match of the pattern at its position. */
  lemma FindAllSound(p: Pattern, s: string, k: nat)
    requires Solid(p) && k < |FindAll(p, s)|
    ensures exists i, j | 0 <= i < j <= |s| :: MatchAt(p, s, i) == Some(j) && FindAll(p, s)[k] == s[i..j]
  {
    var sp := Spans(p, s, 0);
    assert MatchAt(p, s, sp[k].0) == Some(sp[k].1);
  }

  /** One step of a successful branch match: the first repetition took some admissible count `k`
      of characters of its class, and the rest of the branch matched from there. */
  lemma MatchBranchStep(b: Branch, s: string, i: nat) returns (k: nat)
    requires b != [] && i <= |s| && MatchBranch(b, s, i).Some?
    ensures b[0].min <= k && WithinMax(b[0], k) && i + k <= |s|
    ensures forall t | i <= t < i + k :: InClass(b[0].cls, s[t])
    ensures MatchBranch(b[1..], s, i + k) == MatchBranch(b, s, i)
  {
    var k0 := Capped(b[0], ClassRun(b[0].cls, s, i));
    k := TryCountsStep(b, s, i, k0);
  }

  lemma {:induction false} TryCountsStep(b: Branch, s: string, i: nat, k0: nat) returns (k: nat)
    requires b != [] && i + k0 <= |s| && b[0].min <= k0 && TryCounts(b, s, i, k0).Some?
    requires WithinMax(b[0], k0) && forall t | i <= t < i + k0 :: InClass(b[0].cls, s[t])
    ensures b[0].min <= k <= k0
    ensures MatchBranch(b[1..], s, i + k) == TryCounts(b, s, i, k0)
    decreases k0
  {
    if MatchBranch(b[1..], s, i + k0).Some? {
      k := k0;
    } else {
      assert k0 != b[0].min;
      assert WithinMax(b[0], k0 - 1) by {
        match b[0].max {
          case UpTo(n) =>
          case Unbounded =>
        }
      }
      k := TryCountsStep(b, s, i, k0 - 1);
    }
  }

  /** When the greedy count of the first repetition already lets the rest of the branch match,
      that is the match. */
  lemma MatchBranchGreedy(b: Branch, s: string, i: nat)
    requires b != [] && i <= |s|
    requires var k := Capped(b[0], ClassRun(b[0].cls, s, i));
      b[0].min <= k && MatchBranch(b[1..], s, i + k).Some?
    ensures MatchBranch(b, s, i) == MatchBranch(b[1..], s, i + Capped(b[0], ClassRun(b[0].cls, s, i)))
  {
  }

  /** The run of a class is exactly `r` when `r` characters of the class are followed by the end
      of the string or by a character outside the class. */
  lemma {:induction false} ClassRunExact(k: CharClass, s: string, i: nat, r: nat)
    requires i + r <= |s|
    requires forall t | i <= t < i + r :: InClass(k, s[t])
    requires i + r < |s| ==> !InClass(k, s[i + r])
    ensures ClassRun(k, s, i) == r
    decreases r
  {
    if r > 0 {
      ClassRunExact(k, s, i + 1, r - 1);
    }
  }

  /** A pattern of one branch matches where the branch does. */
  lemma SingleBranch(b: Branch, s: string, i: nat)
    requires i <= |s|
    ensures MatchAt([b], s, i) == MatchBranch(b, s, i)
  {
    assert [b][1..] == [];
  }

  /** A branch made of one repetition matches the greedy count at `i` if it is at least `min`. */
  lemma SingleAtomMatch(a: Atom, s: string, i: nat)
    requires i <= |s|
    ensures var k := Capped(a, ClassRun(a.cls, s, i));
      MatchBranch([a], s, i) == if a.min <= k then Some(i + k) else None
  {
    var k := Capped(a, ClassRun(a.cls, s, i));
    assert [a][1..] == [];
    if a.min <= k {
      assert MatchBranch([a][1..], s, i + k) == Some(i + k);
      assert TryCounts([a], s, i, k) == Some(i + k);
    }
  }

  /** A branch whose first element matches exactly one character: that character must be in
      its class, and the rest of the branch matches after it. */
  lemma MatchOnceStep(b: Branch, s: string, i: nat)
    requires b != [] && b[0].min == 1 && b[0].max == UpTo(1) && i <= |s|
    ensures MatchBranch(b, s, i) ==
      if i < |s| && InClass(b[0].cls, s[i]) then MatchBranch(b[1..], s, i + 1) else None
  {
    if i < |s| && InClass(b[0].cls, s[i]) {
      assert ClassRun(b[0].cls, s, i) >= 1;
    } else {
      assert ClassRun(b[0].cls, s, i) == 0;
    }
  }

  /** The first position at or after `i` holding a character of class `k`. */
  function FirstInClass(k: CharClass, s: string, i: nat): (r: Option<nat>)
    requires i <= |s|
    ensures r.Some? ==> i <= r.value < |s| && InClass(k, s[r.value])
    decreases |s| - i
  {
    if i == |s| then None
    else if InClass(k, s[i]) then Some(i)
    else FirstInClass(k, s, i + 1)
  }

  lemma {:induction false} FirstInClassNone(k: CharClass, s: string, i: nat, t: nat)
    requires i <= t < |s| && FirstInClass(k, s, i).None?
    ensures !InClass(k, s[t])
    decreases |s| - i
  {
    if i < t { FirstInClassNone(k, s, i + 1, t); }
  }

  lemma {:induction false} FirstInClassBefore(k: CharClass, s: string, i: nat, t: nat)
    requires i <= |s| && FirstInClass(k, s, i).Some? && i <= t < FirstInClass(k, s, i).value
    ensures !InClass(k, s[t])
    decreases |s| - i
  {
    if i < t { FirstInClassBefore(k, s, i + 1, t); }
  }

  /** A repetition that may match one character matches at exactly the positions holding a
      character of its class. */
  lemma RunMatch(a: Atom, s: string, i: nat)
    requires a.min == 1 && WithinMax(a, 1) && i <= |s|
    ensures MatchAt([[a]], s, i).Some? <==> i < |s| && InClass(a.cls, s[i])
    ensures MatchAt([[a]], s, i).Some? ==> MatchAt([[a]], s, i).value == i + Capped(a, ClassRun(a.cls, s, i))
  {
    SingleBranch([a], s, i);
    SingleAtomMatch(a, s, i);
    if i < |s| && InClass(a.cls, s[i]) {
      assert ClassRun(a.cls, s, i) >= 1;
    }
  }

  /** `re.findall` with a pattern that is one repetition `[cls]{1,max}` finds first the run (cut
      at `max`) that starts at the first character of the class, and nothing when there is none. */
  lemma RunFirstMatch(a: Atom, s: string)
    requires a.min == 1 && WithinMax(a, 1)
    ensures Solid([[a]])
    ensures FirstMatch([[a]], s) == match FirstInClass(a.cls, s, 0)
      case None => None
      case Some(p) => Some(s[p..p + Capped(a, ClassRun(a.cls, s, p))])
  {
    var pat := [[a]];
    assert MinLength([a]) == 1 by { assert [a][1..] == []; }
    assert Solid(pat);
    match FirstInClass(a.cls, s, 0)
    case None =>
      forall t: nat | 0 <= t < |s| ensures MatchAt(pat, s, t).None? {
        FirstInClassNone(a.cls, s, 0, t);
        RunMatch(a, s, t);
      }
      assert NoMatchIn(pat, s, 0, |s|);
    case Some(p) =>
      forall t: nat | 0 <= t < p ensures MatchAt(pat, s, t).None? {
        FirstInClassBefore(a.cls, s, 0, t);
        RunMatch(a, s, t);
      }
      assert NoMatchIn(pat, s, 0, p);
      RunMatch(a, s, p);
      FirstMatchAt(pat, s, p);
  }

  /** `__defaultfind` with a pattern that is one repetition `[cls]{1,max}`: the run (cut at `max`)
      that starts at the first character of the class, or the default when there is none. */
  lemma RunFind(a: Atom, s: string, default: string)
    requires a.min == 1 && WithinMax(a, 1)
    ensures Solid([[a]])
    ensures DefaultFind([[a]], s, default) == match FirstInClass(a.cls, s, 0)
      case None => default
      case Some(p) => s[p..p + Capped(a, ClassRun(a.cls, s, p))]
  {
    RunFirstMatch(a, s);
  }

  /** The first match is the one at the leftmost position where the pattern matches. */
  lemma FirstMatchAt(p: Pattern, s: string, i: nat)
    requires Solid(p) && i < |s| && MatchAt(p, s, i).Some? && NoMatchIn(p, s, 0, i)
    ensures FirstMatch(p, s) == Some(s[i..MatchAt(p, s, i).value])
  {
    var sp := Spans(p, s, 0);
    SpansLeftmost(p, s, 0);
    FindAllEmpty(p, s);
    assert sp != [];
    assert sp[0].0 == i;
  }

  /** `__defaultfind` returns the match at the leftmost position where the pattern matches. */
  lemma DefaultFindAt(p: Pattern, s: string, default: string, i: nat)
    requires Solid(p) && i < |s| && MatchAt(p, s, i).Some? && NoMatchIn(p, s, 0, i)
    ensures DefaultFind(p, s, default) == s[i..MatchAt(p, s, i).value]
  {
    FirstMatchAt(p, s, i);
  }

  /** `__defaultfind` with a one-character class: the first character of the class, or the
      default when there is none. */
  lemma ClassFind(k: CharClass, s: string, default: string)
    ensures Solid([[Once(k)]])
    ensures DefaultFind([[Once(k)]], s, default) == match FirstInClass(k, s, 0)
      case None => default
      case Some(p) => [s[p]]
  {
    RunFind(Once(k), s, default);
    if FirstInClass(k, s, 0).Some? {
      var p := FirstInClass(k, s, 0).value;
      assert ClassRun(k, s, p) >= 1;
      assert s[p..p + 1] == [s[p]];
    }
  }

  /** A repetition followed by a literal: when a run of `r` characters of the class starts at
      `i` and is followed by the literal `c` (itself outside the class), and the count `r` is
      admissible, the branch matches where its tail matches after `c`. */
  lemma FieldThenLiteral(a: Atom, c: char, tail: Branch, s: string, i: nat, r: nat)
    requires i + r < |s| && s[i + r] == c && !InClass(a.cls, c)
    requires forall t | i <= t < i + r :: InClass(a.cls, s[t])
    requires a.min <= r && WithinMax(a, r) && MatchBranch(tail, s, i + r + 1).Some?
    ensures MatchBranch([a, Lit(c)] + tail, s, i) == MatchBranch(tail, s, i + r + 1)
  {
    var b := [a, Lit(c)] + tail;
    ClassRunExact(a.cls, s, i, r);
    assert Capped(a, r) == r by {
      match a.max {
        case UpTo(n) =>
        case Unbounded =>
      }
    }
    var b1 := [Lit(c)] + tail;
    assert b[1..] == b1 && b1[1..] == tail && b1[0] == Lit(c);
    MatchOnceStep(b1, s, i + r);
    MatchBranchGreedy(b, s, i);
  }
}
