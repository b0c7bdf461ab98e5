/**
 Positional rendering of natural numbers, as Python's `"%x" % n` (base 16)
 and `str(n)` (base 10) write them: lower-case digits, no sign, no prefix
 and no padding, "0" for zero. `Parse` reads such a digit string back and
 is the partner of `Render`.
 */
module Numerals {

  /** The bases this module renders in. */
  predicate IsBase(base: nat) {
    2 <= base <= 16
  }

  /** `ch` is a lower-case digit of the given base ('0'..'9', then 'a'..'f'). */
  predicate IsDigit(ch: char, base: nat)
    requires IsBase(base)
  {
    || ('0' <= ch <= '9' && (ch as int) - ('0' as int) < base)
    || ('a' <= ch <= 'f' && (ch as int) - ('a' as int) + 10 < base)
  }

  /** Every character of `s` is a digit of `base`. */
  predicate AllDigits(s: string, base: nat)
    requires IsBase(base)
  {
    forall i :: 0 <= i < |s| ==> IsDigit(s[i], base)
  }

  /** The character that writes the digit value `d`. */
  function DigitChar(d: nat, base: nat): (ch: char)
    requires IsBase(base) && d < base
    ensures IsDigit(ch, base)
    ensures ch == '0' <==> d == 0
  {
    if d < 10 then ('0' as int + d) as char else ('a' as int + d - 10) as char
  }

  /** The value of a digit character; inverse of `DigitChar`. */
  function DigitValue(ch: char, base: nat): (d: nat)
    requires IsBase(base) && IsDigit(ch, base)
    ensures d < base
    ensures DigitChar(d, base) == ch
  {
    if '0' <= ch <= '9' then (ch as int) - ('0' as int) else (ch as int) - ('a' as int) + 10
  }

  /** `DigitValue` also inverts `DigitChar` from the other side. */
  lemma DigitRoundTrip(d: nat, base: nat)
    requires IsBase(base) && d < base
    ensures DigitValue(DigitChar(d, base), base) == d
  {
  }

  /** Euclidean division splits `n` into quotient and remainder. */
  lemma DivMod(n: nat, b: nat)
    requires b > 0
    ensures (n / b) * b + n % b == n
  {
  }

  /** Dividing by a base shrinks a positive number. */
  lemma DivLess(n: nat, b: nat)
    requires n >= 1 && b >= 2
    ensures n / b < n
  {
  }

  /** ... and that split is the only one with a remainder below `b`. */
  lemma DivModUnique(p: nat, v: nat, b: nat)
    requires v < b
    ensures (p * b + v) / b == p && (p * b + v) % b == v
  {
    var n := p * b + v;
    var q, r := n / b, n % b;
    DivMod(n, b);
    assert (p - q) * b == r - v;
    if p > q {
      MulAtLeast(p - q, b);
    } else if p < q {
      MulAtLeast(q - p, b);
    }
  }

  lemma MulNonNegative(x: nat, b: nat)
    ensures x * b >= 0
  {
  }

  lemma MulAtLeast(x: int, b: int)
    requires x >= 1 && b >= 0
    ensures x * b >= b
  {
  }

  /** The digits of `n` in `base`, most significant first. */
  function Render(n: nat, base: nat): (r: string)
    requires IsBase(base)
    ensures |r| >= 1
    ensures AllDigits(r, base)
    ensures r[0] == '0' <==> n == 0
    ensures |r| == 1 <==> n < base
    decreases n
  {
    if n < base then [DigitChar(n, base)]
    else Render(n / base, base) + [DigitChar(n % base, base)]
  }

  /** The number a digit string denotes; the empty string denotes 0. */
  function Parse(s: string, base: nat): (n: nat)
    requires IsBase(base) && AllDigits(s, base)
    decreases |s|
  {
    if |s| == 0 then 0
    else
      var p := Parse(s[..|s| - 1], base);
      MulNonNegative(p, base);
      p * base + DigitValue(s[|s| - 1], base)
  }

  /** A digit string as `Render` produces it: non-empty, no leading zero. */
  predicate Canonical(s: string, base: nat)
    requires IsBase(base)
  {
    |s| >= 1 && AllDigits(s, base) && (s[0] != '0' || |s| == 1)
  }

  /** Parsing a rendered number gives the number back. */
  lemma {:induction false} ParseRender(n: nat, base: nat)
    requires IsBase(base)
    ensures Parse(Render(n, base), base) == n
    decreases n
  {
    if n < base {
      DigitRoundTrip(n, base);
      ParseSnoc([], DigitChar(n, base), base);
      assert [] + [DigitChar(n, base)] == Render(n, base);
    } else {
      DivLess(n, base);
      ParseRender(n / base, base);
      ParseRenderStep(n, base);
    }
  }

  /** The inductive step of `ParseRender`: one more digit on the right. */
  lemma ParseRenderStep(n: nat, base: nat)
    requires IsBase(base) && n >= base
    requires Parse(Render(n / base, base), base) == n / base
    ensures Parse(Render(n, base), base) == n
  {
    var q, d := n / base, n % base;
    var c := DigitChar(d, base);
    RenderStep(n, base);
    ParseSnoc(Render(q, base), c, base);
    assert Parse(Render(n, base), base) == q * base + DigitValue(c, base);
    DigitRoundTrip(d, base);
    DivMod(n, base);
  }

  /** One step of `Render` above the last digit. */
  lemma RenderStep(n: nat, base: nat)
    requires IsBase(base) && n >= base
    ensures Render(n, base) == Render(n / base, base) + [DigitChar(n % base, base)]
  {
  }

  /** Appending a digit shifts the value one place and adds the digit. */
  lemma ParseSnoc(s: string, c: char, base: nat)
    requires IsBase(base) && AllDigits(s, base) && IsDigit(c, base)
    ensures AllDigits(s + [c], base)
    ensures Parse(s + [c], base) == Parse(s, base) * base + DigitValue(c, base)
  {
    assert (s + [c])[..|s|] == s;
  }

  /** A digit string that starts with a non-zero digit denotes a positive number. */
  lemma {:induction false} ParsePositive(s: string, base: nat)
    requires IsBase(base) && AllDigits(s, base)
    requires |s| >= 1 && s[0] != '0'
    ensures Parse(s, base) > 0
    decreases |s|
  {
    var init, last := s[..|s| - 1], s[|s| - 1];
    assert s == init + [last];
    ParseSnoc(init, last, base);
    if |s| == 1 {
      assert init == [] && last == s[0];
      assert Parse(init, base) == 0;
      assert DigitValue(last, base) != 0 by {
        assert DigitChar(DigitValue(last, base), base) == last;
      }
    } else {
      assert init[0] == s[0];
      ParsePositive(init, base);
      MulAtLeast(Parse(init, base), base);
    }
  }


  /** Rendering a parsed canonical digit string gives the string back, so
      `Render` is onto the canonical strings and the two are inverse. */
  lemma {:induction false} RenderParse(s: string, base: nat)
    requires IsBase(base) && Canonical(s, base)
    ensures Render(Parse(s, base), base) == s
    decreases |s|
  {
    var last := s[|s| - 1];
    var init := s[..|s| - 1];
    assert s == init + [last];
    ParseSnoc(init, last, base);
    if |s| == 1 {
      assert init == [];
    } else {
      assert init[0] == s[0];
      RenderParse(init, base);
      RenderParseStep(init, last, base);
    }
  }

  /** The inductive step of `RenderParse`: one more digit on the right of a
      string that already denotes a positive number. */
  lemma RenderParseStep(init: string, c: char, base: nat)
    requires IsBase(base) && Canonical(init, base) && init[0] != '0' && IsDigit(c, base)
    requires Render(Parse(init, base), base) == init
    ensures AllDigits(init + [c], base)
    ensures Render(Parse(init + [c], base), base) == init + [c]
  {
    var p, v := Parse(init, base), DigitValue(c, base);
    var n := Parse(init + [c], base);
    ParseSnoc(init, c, base);
    assert n == p * base + v;
    ParsePositive(init, base);
    MulAtLeast(p, base);
    DivModUnique(p, v, base);
    RenderStep(n, base);
  }

  /** Python's `"%x" % n`. */
  function HexDigits(n: nat): (r: string)
    ensures Canonical(r, 16)
  {
    Render(n, 16)
  }

  /** Python's `str(n)` for a non-negative integer. */
  function NatToString(n: nat): (r: string)
    ensures Canonical(r, 10)
  {
    Render(n, 10)
  }

  /** `%x` writes one or two digits exactly for the byte values; larger code
      points are not rejected but come out wider. */
  lemma {:induction false} HexWidth(n: nat)
    ensures |HexDigits(n)| <= 2 <==> n < 256
  {
    if n >= 16 {
      var q := Render(n / 16, 16);
      assert HexDigits(n) == q + [DigitChar(n % 16, 16)];
      assert |q| == 1 <==> n / 16 < 16;
    }
  }
}
