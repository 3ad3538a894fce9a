/** The Python string primitives the scrapers rely on: `str(n)`, `f'{n:0w}'`, `int(s)`,
    slicing, `sub in s`, `s.split(sep)`, `sep.join(parts)` and `s.replace(target, repl)`.
    A Python `str` is a `string` (a sequence of Unicode code points). */
module Text {
  import opened Wrappers

  predicate IsDigit(c: char) { '0' <= c <= '9' }

  predicate AllDigits(s: string) { forall i | 0 <= i < |s| :: IsDigit(s[i]) }

  function DigitValue(c: char): (d: nat)
    requires IsDigit(c)
    ensures d < 10
  {
    c as int - '0' as int
  }

  function DigitChar(d: nat): (c: char)
    requires d < 10
    ensures IsDigit(c) && DigitValue(c) == d
  {
    ('0' as int + d) as char
  }

  function Pow10(k: nat): (p: nat)
    ensures p >= 1
  {
    if k == 0 then 1 else 10 * Pow10(k - 1)
  }

  /** The value of a string of decimal digits, most significant digit first. */
  function DecimalValue(s: string): (v: nat)
    requires AllDigits(s)
    ensures v < Pow10(|s|)
    decreases |s|
  {
    if s == [] then 0 else DecimalValue(s[..|s| - 1]) * 10 + DigitValue(s[|s| - 1])
  }

  /** `str(n)` for a non-negative integer: decimal digits without a leading zero. */
  function Decimal(n: nat): (s: string)
    ensures |s| >= 1 && AllDigits(s)
    ensures s[0] == '0' ==> n == 0
    decreases n
  {
    if n < 10 then [DigitChar(n)] else Decimal(n / 10) + [DigitChar(n % 10)]
  }

  lemma {:induction false} DecimalRoundTrip(n: nat)
    ensures DecimalValue(Decimal(n)) == n
    decreases n
  {
    var s := Decimal(n);
    if n >= 10 {
      assert s[..|s| - 1] == Decimal(n / 10);
      DecimalRoundTrip(n / 10);
    } else {
      assert s[..|s| - 1] == [];
    }
  }

  /** A number below 10^w is written with at most w digits. */
  lemma {:induction false} DecimalWidth(n: nat, w: nat)
    requires w >= 1 && n < Pow10(w)
    ensures |Decimal(n)| <= w
    decreases n
  {
    if n >= 10 {
      assert Pow10(w) == 10 * Pow10(w - 1);
      assert Pow10(1) == 10;
      assert w >= 2;
      assert n / 10 < Pow10(w - 1);
      DecimalWidth(n / 10, w - 1);
    }
  }

  function Zeros(k: nat): (s: string)
    ensures |s| == k && AllDigits(s) && DecimalValue(s) == 0
  {
    if k == 0 then [] else
      var s := Zeros(k - 1) + ['0'];
      assert s[..|s| - 1] == Zeros(k - 1);
      s
  }

  lemma {:induction false} DecimalValueConcat(a: string, b: string)
    requires AllDigits(a) && AllDigits(b)
    ensures AllDigits(a + b)
    ensures DecimalValue(a + b) == DecimalValue(a) * Pow10(|b|) + DecimalValue(b)
    decreases |b|
  {
    var ab := a + b;
    assert AllDigits(ab) by {
      forall i | 0 <= i < |ab| ensures IsDigit(ab[i]) {
        if i < |a| { assert ab[i] == a[i]; } else { assert ab[i] == b[i - |a|]; }
      }
    }
    if b == [] {
      assert ab == a;
    } else {
      var b' := b[..|b| - 1];
      assert ab[..|ab| - 1] == a + b';
      DecimalValueConcat(a, b');
      var x, p, y, d := DecimalValue(a), Pow10(|b'|), DecimalValue(b'), DigitValue(b[|b| - 1]);
      assert DecimalValue(ab) == DecimalValue(a + b') * 10 + d;
      assert DecimalValue(b) == y * 10 + d;
      assert Pow10(|b|) == p * 10;
      ShiftDigit(x, p, y, d);
    }
  }

  lemma ShiftDigit(x: int, p: int, y: int, d: int)
    ensures (x * p + y) * 10 + d == x * (p * 10) + (y * 10 + d)
  {
  }

  /** `f'{n:0w}'`: `str(n)` left-padded with zeros to at least `w` characters. */
  function PadZero(n: nat, w: nat): string
  {
    var d := Decimal(n);
    if |d| >= w then d else Zeros(w - |d|) + d
  }

  /** Zero padding keeps the value, reaches the width, and is exactly `w` wide when the number fits. */
  lemma PadZeroSpec(n: nat, w: nat)
    ensures AllDigits(PadZero(n, w)) && DecimalValue(PadZero(n, w)) == n
    ensures |PadZero(n, w)| >= w
    ensures w >= 1 && n < Pow10(w) ==> |PadZero(n, w)| == w
  {
    var d := Decimal(n);
    DecimalRoundTrip(n);
    if |d| < w {
      var z := Zeros(w - |d|);
      DecimalValueConcat(z, d);
      assert PadZero(n, w) == z + d;
      assert DecimalValue(z + d) == 0 * Pow10(|d|) + n;
    } else {
      assert PadZero(n, w) == d;
    }
    if w >= 1 && n < Pow10(w) {
      DecimalWidth(n, w);
    }
  }

  /** `int(s)` on a str: an optional sign followed by ASCII digits; anything else raises ValueError. */
  function ParseInt(s: string): (r: Result<int>)
    ensures r.Success? <==> (|s| > 0 && AllDigits(s)) || (|s| > 1 && s[0] in "+-" && AllDigits(s[1..]))
    ensures r.Failure? ==> r.error == ValueError
    ensures r.Success? && AllDigits(s) ==> r.value == DecimalValue(s)
    ensures r.Success? && !AllDigits(s) ==>
      r.value == if s[0] == '-' then -(DecimalValue(s[1..]) as int) else DecimalValue(s[1..]) as int
  {
    if |s| > 0 && AllDigits(s) then Success(DecimalValue(s))
    else if |s| > 1 && (s[0] == '-' || s[0] == '+') && AllDigits(s[1..]) then
      var v: int := DecimalValue(s[1..]);
      Success(if s[0] == '-' then -v else v)
    else Failure(ValueError)
  }

  /** `int(f'{n:0w}') == n`: zero-padded rendering and int() are inverse. */
  lemma ParseIntPadZero(n: nat, w: nat)
    ensures ParseInt(PadZero(n, w)) == Success(n)
  {
    PadZeroSpec(n, w);
    DecimalRoundTrip(n);
    var d := Decimal(n);
    assert |PadZero(n, w)| > 0 by {
      if |d| < w { assert |PadZero(n, w)| == |Zeros(w - |d|)| + |d|; }
    }
  }

  /** Python's slice `s[i:j]` with non-negative bounds: out-of-range bounds are clamped. */
  function Slice(s: string, i: nat, j: nat): string
  {
    var a := if i < |s| then i else |s|;
    var b := if j < |s| then j else |s|;
    if a <= b then s[a..b] else []
  }

  predicate OccursAt(s: string, sub: string, i: nat)
  {
    i + |sub| <= |s| && s[i..i + |sub|] == sub
  }

  /** Python's `sub in s`. */
  predicate Contains(s: string, sub: string)
  {
    exists i | 0 <= i <= |s| :: OccursAt(s, sub, i)
  }

  /** `s.split(sep)` for a non-empty separator (Python raises ValueError for an empty one):
      occurrences of `sep` are found left to right without overlap. */
  function Split(s: string, sep: string): (parts: seq<string>)
    requires |sep| > 0
    ensures |parts| >= 1
  {
    SplitFrom(s, sep, "")
  }

  /** Splits `cur + s`, where `cur` is the part of the current piece already scanned. */
  function SplitFrom(s: string, sep: string, cur: string): (parts: seq<string>)
    requires |sep| > 0
    ensures |parts| >= 1
    decreases |s|
  {
    if |s| < |sep| then [cur + s]
    else if s[..|sep|] == sep then [cur] + SplitFrom(s[|sep|..], sep, "")
    else SplitFrom(s[1..], sep, cur + [s[0]])
  }

  /** `sep.join(parts)`. */
  function Join(parts: seq<string>, sep: string): string
  {
    if parts == [] then ""
    else if |parts| == 1 then parts[0]
    else parts[0] + sep + Join(parts[1..], sep)
  }

  /** `s.replace(target, repl)` replaces every non-overlapping occurrence, left to right, which
      is exactly `repl.join(s.split(target))`. */
  function Replace(s: string, target: string, repl: string): string
    requires |target| > 0
  {
    Join(Split(s, target), repl)
  }

  lemma {:induction false} JoinSplitFrom(s: string, sep: string, cur: string)
    requires |sep| > 0
    ensures Join(SplitFrom(s, sep, cur), sep) == cur + s
    decreases |s|
  {
    if |s| < |sep| {
    } else if s[..|sep|] == sep {
      var rest := SplitFrom(s[|sep|..], sep, "");
      JoinSplitFrom(s[|sep|..], sep, "");
      assert ([cur] + rest)[1..] == rest;
      assert s == sep + s[|sep|..];
    } else {
      JoinSplitFrom(s[1..], sep, cur + [s[0]]);
      assert cur + [s[0]] + s[1..] == cur + s;
    }
  }

  /** Joining the pieces of a split with the same separator gives back the string. */
  lemma JoinSplit(s: string, sep: string)
    requires |sep| > 0
    ensures Join(Split(s, sep), sep) == s
  {
    JoinSplitFrom(s, sep, "");
  }

  ghost predicate NoOccurrenceBefore(t: string, sep: string, k: nat)
  {
    forall p: nat | p < k :: !OccursAt(t, sep, p)
  }

  lemma {:induction false} SplitFromPiecesFree(s: string, sep: string, cur: string)
    requires |sep| > 0
    requires NoOccurrenceBefore(cur + s, sep, |cur|)
    ensures forall q | q in SplitFrom(s, sep, cur) :: !Contains(q, sep)
    decreases |s|
  {
    var t := cur + s;
    if |s| < |sep| {
      forall p: nat | p <= |t| ensures !OccursAt(t, sep, p) {
        if p < |cur| {} else { assert p + |sep| > |t|; }
      }
    } else if s[..|sep|] == sep {
      forall p: nat | p <= |cur| ensures !OccursAt(cur, sep, p) {
        if p + |sep| <= |cur| {
          assert t[p..p + |sep|] == cur[p..p + |sep|];
          assert !OccursAt(t, sep, p);
        }
      }
      assert "" + s[|sep|..] == s[|sep|..];
      SplitFromPiecesFree(s[|sep|..], sep, "");
    } else {
      var cur' := cur + [s[0]];
      assert cur' + s[1..] == t;
      assert !OccursAt(t, sep, |cur|) by {
        assert t[|cur|..|cur| + |sep|] == s[..|sep|];
      }
      SplitFromPiecesFree(s[1..], sep, cur');
    }
  }

  /** No piece of a split contains the separator. */
  lemma SplitPiecesFree(s: string, sep: string)
    requires |sep| > 0
    ensures forall q | q in Split(s, sep) :: !Contains(q, sep)
  {
    assert "" + s == s;
    SplitFromPiecesFree(s, sep, "");
  }

  lemma {:induction false} SplitFromNoOccurrence(s: string, sep: string, cur: string)
    requires |sep| > 0 && !Contains(s, sep)
    ensures SplitFrom(s, sep, cur) == [cur + s]
    decreases |s|
  {
    if |s| >= |sep| {
      assert !OccursAt(s, sep, 0);
      assert !Contains(s[1..], sep) by {
        forall i | 0 <= i <= |s[1..]| ensures !OccursAt(s[1..], sep, i) {
          if OccursAt(s[1..], sep, i) {
            assert s[i + 1..i + 1 + |sep|] == s[1..][i..i + |sep|];
            assert OccursAt(s, sep, i + 1);
          }
        }
      }
      SplitFromNoOccurrence(s[1..], sep, cur + [s[0]]);
      assert cur + [s[0]] + s[1..] == cur + s;
    }
  }

  /** A string without the separator splits into itself alone. */
  lemma SplitNoOccurrence(s: string, sep: string)
    requires |sep| > 0 && !Contains(s, sep)
    ensures Split(s, sep) == [s]
  {
    SplitFromNoOccurrence(s, sep, "");
    assert "" + s == s;
  }

  /** A leading separator yields an empty first piece. */
  lemma SplitLeading(sep: string, rest: string)
    requires |sep| > 0
    ensures Split(sep + rest, sep) == [""] + Split(rest, sep)
  {
    var s := sep + rest;
    assert s[..|sep|] == sep && s[|sep|..] == rest;
  }

  /** `(target + rest).replace(target, repl) == repl + rest` when `rest` holds no further `target`. */
  lemma ReplaceLeading(target: string, rest: string, repl: string)
    requires |target| > 0 && !Contains(rest, target)
    ensures Replace(target + rest, target, repl) == repl + rest
  {
    SplitLeading(target, rest);
    SplitNoOccurrence(rest, target);
    assert Split(target + rest, target) == ["", rest];
    assert ["", rest][1..] == [rest];
    assert Join(["", rest], repl) == "" + repl + Join([rest], repl);
    assert "" + repl + rest == repl + rest;
  }

  /** Replacing a substring that does not occur changes nothing. */
  lemma ReplaceNoOccurrence(s: string, target: string, repl: string)
    requires |target| > 0 && !Contains(s, target)
    ensures Replace(s, target, repl) == s
  {
    SplitNoOccurrence(s, target);
  }

  function CountChar(s: string, c: char): nat
  {
    if s == [] then 0 else (if s[0] == c then 1 else 0) + CountChar(s[1..], c)
  }

  lemma {:induction false} SplitFromCountChar(s: string, c: char, cur: string)
    ensures |SplitFrom(s, [c], cur)| == CountChar(s, c) + 1
    decreases |s|
  {
    if |s| >= 1 {
      assert s[..1] == [c] <==> s[0] == c;
      if s[0] == c {
        SplitFromCountChar(s[1..], c, "");
      } else {
        SplitFromCountChar(s[1..], c, cur + [s[0]]);
      }
    }
  }

  /** Splitting on a one-character separator gives one more piece than there are separators. */
  lemma SplitCountChar(s: string, c: char)
    ensures |Split(s, [c])| == CountChar(s, c) + 1
  {
    SplitFromCountChar(s, c, "");
  }

  lemma {:induction false} SplitFromCharJoin(p: string, c: char, t: string, cur: string)
    requires c !in p
    ensures SplitFrom(p + [c] + t, [c], cur) == [cur + p] + SplitFrom(t, [c], "")
    decreases |p|
  {
    var s := p + [c] + t;
    if p == [] {
      assert s[..1] == [c] && s[1..] == t;
      assert cur + p == cur;
    } else {
      assert s[..1] != [c] by { assert s[0] == p[0]; }
      assert s[1..] == p[1..] + [c] + t;
      SplitFromCharJoin(p[1..], c, t, cur + [p[0]]);
      assert cur + [p[0]] + p[1..] == cur + p;
    }
  }

  /** Splitting a join on a one-character separator gives the parts back, when no part
      contains that character and there is at least one part. */
  lemma {:induction false} SplitJoinChar(parts: seq<string>, c: char)
    requires |parts| >= 1
    requires forall q | q in parts :: c !in q
    ensures Split(Join(parts, [c]), [c]) == parts
    decreases |parts|
  {
    if |parts| == 1 {
      var s := parts[0];
      assert !Contains(s, [c]) by {
        forall i | 0 <= i <= |s| ensures !OccursAt(s, [c], i) {
          if i + 1 <= |s| { assert s[i..i + 1] == [s[i]]; }
        }
      }
      SplitNoOccurrence(s, [c]);
    } else {
      assert parts[0] in parts;
      SplitFromCharJoin(parts[0], c, Join(parts[1..], [c]), "");
      assert "" + parts[0] == parts[0];
      SplitJoinChar(parts[1..], c);
      assert parts == [parts[0]] + parts[1..];
    }
  }

  /** The string with every occurrence of `c` taken out. */
  function RemoveChar(s: string, c: char): (r: string)
    ensures c !in r && |r| <= |s|
    ensures forall x | x in r :: x in s
  {
    if s == [] then [] else (if s[0] == c then [] else [s[0]]) + RemoveChar(s[1..], c)
  }

  lemma {:induction false} JoinSplitFromEmpty(s: string, c: char, cur: string)
    ensures Join(SplitFrom(s, [c], cur), "") == cur + RemoveChar(s, c)
    decreases |s|
  {
    if |s| >= 1 {
      assert s[..1] == [c] <==> s[0] == c;
      if s[0] == c {
        var rest := SplitFrom(s[1..], [c], "");
        JoinSplitFromEmpty(s[1..], c, "");
        assert ([cur] + rest)[1..] == rest;
      } else {
        JoinSplitFromEmpty(s[1..], c, cur + [s[0]]);
        assert cur + [s[0]] + RemoveChar(s[1..], c) == cur + RemoveChar(s, c);
      }
    } else {
      assert cur + s == cur;
    }
  }

  /** `s.replace(c, '')` removes exactly the occurrences of the character `c`. */
  lemma ReplaceCharWithEmpty(s: string, c: char)
    ensures Replace(s, [c], "") == RemoveChar(s, c)
  {
    JoinSplitFromEmpty(s, c, "");
  }

  /** Removing `c` leaves nothing exactly when every character is `c`. */
  lemma {:induction false} RemoveCharEmpty(s: string, c: char)
    ensures RemoveChar(s, c) == [] <==> forall t | 0 <= t < |s| :: s[t] == c
  {
    if s != [] {
      RemoveCharEmpty(s[1..], c);
      assert forall t | 1 <= t < |s| :: s[t] == s[1..][t - 1];
    }
  }

  /** `c in s` for a one-character string `c` is membership of that character. */
  lemma ContainsChar(s: string, c: char)
    ensures Contains(s, [c]) <==> c in s
  {
    if c in s {
      var i :| 0 <= i < |s| && s[i] == c;
      assert s[i..i + 1] == [c];
      assert OccursAt(s, [c], i);
    }
    if Contains(s, [c]) {
      var i :| 0 <= i <= |s| && OccursAt(s, [c], i);
      assert s[i..i + 1][0] == s[i];
    }
  }
}
