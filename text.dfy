/**
 * String helpers shared by the suite: ASCII lower-casing (for `str.lower`),
 * substring search (for `in` on strings), suffix tests (for `str.endswith`),
 * Python's lexicographic string order, and decimal text for integers
 * (`str(int)`, `int(str)` and the zero-padded fields of `strftime`).
 */
module Text {
  import opened Wrappers

  // ----- case ------------------------------------------------------------

  /** `str.lower` restricted to ASCII: only 'A'..'Z' change. */
  function Lower(c: char): char {
    if 'A' <= c <= 'Z' then (c as int + 32) as char else c
  }

  function LowerStr(s: string): (r: string)
    ensures |r| == |s|
    ensures forall i :: 0 <= i < |s| ==> r[i] == Lower(s[i])
  {
    if s == [] then [] else [Lower(s[0])] + LowerStr(s[1..])
  }

  lemma LowerStrIdempotent(s: string)
    ensures LowerStr(LowerStr(s)) == LowerStr(s)
  {
  }

  // ----- substrings and suffixes -----------------------------------------

  /** Python's `q in s` for strings: q occurs in s at some offset. */
  predicate Contains(s: string, q: string)
    decreases |s|
  {
    q <= s || (s != [] && Contains(s[1..], q))
  }

  /** q occurs in s starting at offset i. */
  predicate OccursAt(s: string, q: string, i: nat) {
    i + |q| <= |s| && s[i..i + |q|] == q
  }

  /** Contains is exactly "q occurs in s at some offset". */
  lemma {:induction false} ContainsAt(s: string, q: string)
    ensures Contains(s, q) <==> exists i: nat :: OccursAt(s, q, i)
    decreases |s|
  {
    if q <= s {
      assert OccursAt(s, q, 0);
    } else if s == [] {
    } else {
      ContainsAt(s[1..], q);
      if exists i: nat :: OccursAt(s, q, i) {
        var i: nat :| OccursAt(s, q, i);
        assert i != 0;
        assert OccursAt(s[1..], q, i - 1);
      }
      if Contains(s[1..], q) {
        var i: nat :| OccursAt(s[1..], q, i);
        assert OccursAt(s, q, i + 1);
      }
    }
  }

  /** Python's `s.endswith(suffix)`. */
  predicate EndsWith(s: string, suffix: string) {
    |suffix| <= |s| && s[|s| - |suffix|..] == suffix
  }

  // ----- Python's string order -------------------------------------------

  /** `a < b` on Python strings: code point by code point, a proper prefix first. */
  predicate LexLess(a: string, b: string) {
    if a == [] then b != []
    else b != [] && (a[0] < b[0] || (a[0] == b[0] && LexLess(a[1..], b[1..])))
  }

  lemma {:induction false} LexIrreflexive(a: string)
    ensures !LexLess(a, a)
  {
    if a != [] { LexIrreflexive(a[1..]); }
  }

  lemma {:induction false} LexTrichotomy(a: string, b: string)
    ensures a == b || LexLess(a, b) || LexLess(b, a)
  {
    if a != [] && b != [] && a[0] == b[0] {
      LexTrichotomy(a[1..], b[1..]);
      if a[1..] == b[1..] {
        assert a == [a[0]] + a[1..] && b == [b[0]] + b[1..];
      }
    }
  }

  lemma {:induction false} LexAsymmetric(a: string, b: string)
    ensures !(LexLess(a, b) && LexLess(b, a))
  {
    if a != [] && b != [] && a[0] == b[0] { LexAsymmetric(a[1..], b[1..]); }
  }

  lemma {:induction false} LexTransitive(a: string, b: string, c: string)
    requires LexLess(a, b) && LexLess(b, c)
    ensures LexLess(a, c)
  {
    if a != [] && a[0] == b[0] && b[0] == c[0] { LexTransitive(a[1..], b[1..], c[1..]); }
  }

  /** Comparing two strings that start with equal-length blocks compares the blocks first. */
  lemma {:induction false} LexConcat(x1: string, y1: string, x2: string, y2: string)
    requires |x1| == |x2|
    ensures LexLess(x1 + y1, x2 + y2) <==> LexLess(x1, x2) || (x1 == x2 && LexLess(y1, y2))
  {
    if x1 == [] {
      assert x1 + y1 == y1 && x2 + y2 == y2;
    } else {
      assert (x1 + y1)[0] == x1[0] && (x2 + y2)[0] == x2[0];
      assert (x1 + y1)[1..] == x1[1..] + y1 && (x2 + y2)[1..] == x2[1..] + y2;
      LexConcat(x1[1..], y1, x2[1..], y2);
      assert x1 == x2 <==> x1[0] == x2[0] && x1[1..] == x2[1..] by {
        if x1[0] == x2[0] && x1[1..] == x2[1..] {
          assert x1 == [x1[0]] + x1[1..] && x2 == [x2[0]] + x2[1..];
        }
      }
    }
  }

  // ----- decimal text ----------------------------------------------------

  predicate IsDigit(c: char) { '0' <= c <= '9' }

  predicate AllDigits(s: string) { forall i :: 0 <= i < |s| ==> IsDigit(s[i]) }

  function Digit(d: nat): (c: char)
    requires d < 10
    ensures IsDigit(c)
  {
    (48 + d) as char
  }

  function DigitValue(c: char): nat
    requires IsDigit(c)
  {
    c as int - 48
  }

  /** Value of a run of decimal digits, most significant first. */
  function DigitsValue(s: string): nat
    requires AllDigits(s)
  {
    if s == [] then 0 else DigitsValue(s[..|s| - 1]) * 10 + DigitValue(s[|s| - 1])
  }

  /** `str(n)` for a natural number: shortest decimal text, no leading zeros. */
  function NatStr(n: nat): (r: string)
    ensures |r| > 0 && AllDigits(r)
    ensures |r| > 1 ==> r[0] != '0'
    decreases n
  {
    if n < 10 then [Digit(n)] else NatStr(n / 10) + [Digit(n % 10)]
  }

  /** `str(i)` for an integer: a minus sign before the digits of a negative value. */
  function IntStr(i: int): string {
    if i < 0 then "-" + NatStr(-i) else NatStr(i)
  }

  /**
   * `int(s)` on text: an optional sign then at least one ASCII digit;
   * anything else is rejected (None stands for the ValueError).
   */
  function ParseInt(s: string): (r: Option<int>)
    ensures r.Some? <==> (|s| > 0 && AllDigits(s)) || (|s| > 1 && (s[0] == '-' || s[0] == '+') && AllDigits(s[1..]))
    ensures r.Some? && s[0] == '-' ==> r.value <= 0
    ensures r.Some? && s[0] != '-' ==> r.value >= 0
  {
    if |s| > 1 && (s[0] == '-' || s[0] == '+') && AllDigits(s[1..]) then
      var v: int := DigitsValue(s[1..]);
      Some(if s[0] == '-' then -v else v)
    else if |s| > 0 && AllDigits(s) then Some(DigitsValue(s))
    else None
  }

  lemma {:induction false} NatStrValue(n: nat)
    ensures DigitsValue(NatStr(n)) == n
    decreases n
  {
    if n >= 10 {
      NatStrValue(n / 10);
      var s := NatStr(n);
      assert s[..|s| - 1] == NatStr(n / 10);
    }
  }

  /** `int(str(i)) == i`: the decimal text of an integer reads back as that integer. */
  lemma IntStrRoundTrip(i: int)
    ensures ParseInt(IntStr(i)) == Some(i)
  {
    if i < 0 {
      NatStrValue(-i);
      assert IntStr(i)[1..] == NatStr(-i);
    } else {
      NatStrValue(i);
      assert IntStr(i)[0] != '-' && IntStr(i)[0] != '+';
    }
  }

  // ----- zero-padded fields (strftime's %Y, %m, %d, %H, %M, %S) ---------

  function Pow10(w: nat): nat {
    if w == 0 then 1 else 10 * Pow10(w - 1)
  }

  /** The low w decimal digits of n, zero-padded to exactly w characters. */
  function Pad(n: nat, w: nat): (r: string)
    ensures |r| == w && AllDigits(r)
  {
    if w == 0 then [] else Pad(n / 10, w - 1) + [Digit(n % 10)]
  }

  lemma {:induction false} PadValue(n: nat, w: nat)
    requires n < Pow10(w)
    ensures DigitsValue(Pad(n, w)) == n
  {
    if w > 0 {
      PadValue(n / 10, w - 1);
      var s := Pad(n, w);
      assert s[..|s| - 1] == Pad(n / 10, w - 1);
    }
  }

  /** Padded fields of one width compare as strings exactly as the numbers compare. */
  lemma {:induction false} PadOrder(a: nat, b: nat, w: nat)
    requires a < Pow10(w) && b < Pow10(w)
    ensures LexLess(Pad(a, w), Pad(b, w)) <==> a < b
    ensures Pad(a, w) == Pad(b, w) <==> a == b
  {
    if w == 0 {
      LexIrreflexive([]);
    } else {
      var a1, b1 := a / 10, b / 10;
      assert a1 < Pow10(w - 1) && b1 < Pow10(w - 1);
      PadOrder(a1, b1, w - 1);
      LexIrreflexive(Pad(a1, w - 1));
      LexConcat(Pad(a1, w - 1), [Digit(a % 10)], Pad(b1, w - 1), [Digit(b % 10)]);
      assert LexLess([Digit(a % 10)], [Digit(b % 10)]) <==> a % 10 < b % 10;
      assert Pad(a, w) == Pad(b, w) <==> a1 == b1 && a % 10 == b % 10 by {
        if Pad(a, w) == Pad(b, w) {
          assert Pad(a, w)[..w - 1] == Pad(a1, w - 1) && Pad(b, w)[..w - 1] == Pad(b1, w - 1);
          assert Pad(a, w)[w - 1] == Digit(a % 10);
        }
      }
      assert a == 10 * a1 + a % 10 && b == 10 * b1 + b % 10;
    }
  }
}
