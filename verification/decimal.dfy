/** Decimal rendering of integers as JavaScript does it: `n.toString()` and
    `s.padStart(width, "0")`, together with the fixed-width digit strings
    they produce and how those strings compare. */
module Decimal {

  import opened Strings

  function DigitChar(d: nat): (c: char)
    requires d < 10
    ensures '0' <= c <= '9'
  {
    (48 + d) as char
  }

  predicate IsDigits(s: string)
  {
    forall i :: 0 <= i < |s| ==> '0' <= s[i] <= '9'
  }

  /** `n.toString()` for a non-negative integer: no leading zeros. */
  function NatToString(n: nat): (r: string)
    ensures |r| >= 1 && IsDigits(r)
  {
    if n < 10 then [DigitChar(n)] else NatToString(n / 10) + [DigitChar(n % 10)]
  }

  /** `i.toString()` for any integer. */
  function IntToString(i: int): (r: string)
    ensures r != []
    ensures r[0] == '-' <==> i < 0
    ensures 0 <= i ==> IsDigits(r)
  {
    if i < 0 then "-" + NatToString(-i) else NatToString(i)
  }

  /** `s.padStart(width, fill)` with a one-character `fill`: `fill` repeated
      in front of `s` up to `width` characters, `s` itself when already that
      long. */
  function PadStart(s: string, width: nat, fill: char): (r: string)
    ensures |r| == if |s| < width then width else |s|
  {
    if |s| >= width then s else seq(width - |s|, _ => fill) + s
  }

  /** The padded string ends with `s` and is `fill` before it. */
  lemma {:induction false} PadStartShape(s: string, width: nat, fill: char)
    ensures var r := PadStart(s, width, fill);
      && r[|r| - |s|..] == s
      && forall i :: 0 <= i < |r| - |s| ==> r[i] == fill
  {
  }

  function Pow10(w: nat): (p: nat)
    ensures p >= 1
  {
    if w == 0 then 1 else 10 * Pow10(w - 1)
  }

  /** The last `width` decimal digits of `n`, zero-padded. */
  function Digits(n: nat, width: nat): (r: string)
    ensures |r| == width && IsDigits(r)
  {
    if width == 0 then [] else Digits(n / 10, width - 1) + [DigitChar(n % 10)]
  }

  lemma {:induction false} PadStartAppend(s: string, c: char, width: nat, fill: char)
    requires width >= 1
    ensures PadStart(s + [c], width, fill) == PadStart(s, width - 1, fill) + [c]
  {
    var l, r := PadStart(s + [c], width, fill), PadStart(s, width - 1, fill) + [c];
    PadStartShape(s + [c], width, fill);
    PadStartShape(s, width - 1, fill);
    assert |l| == |r|;
    forall i | 0 <= i < |l|
      ensures l[i] == r[i]
    {
      if i >= |l| - |s| - 1 {
        assert l[i] == (s + [c])[i - (|l| - |s| - 1)];
      }
    }
  }

  lemma {:induction false} DigitsOfZero(width: nat)
    ensures forall i :: 0 <= i < width ==> Digits(0, width)[i] == '0'
  {
    if width > 0 {
      DigitsOfZero(width - 1);
    }
  }

  /** Zero-padding `n.toString()` to `width` characters gives exactly the
      `width` digits of `n` when it has no more than `width` of them. */
  lemma {:induction false} PaddedIsDigits(n: nat, width: nat)
    requires width >= 1 && n < Pow10(width)
    ensures PadStart(NatToString(n), width, '0') == Digits(n, width)
  {
    if n < 10 {
      DigitsOfZero(width - 1);
      var l, r := PadStart(NatToString(n), width, '0'), Digits(n, width);
      PadStartShape(NatToString(n), width, '0');
      assert |l| == |r|;
      forall i | 0 <= i < |l|
        ensures l[i] == r[i]
      {
        if i < width - 1 {
          assert r[i] == Digits(0, width - 1)[i];
        }
      }
    } else {
      assert width >= 2;
      PaddedIsDigits(n / 10, width - 1);
      PadStartAppend(NatToString(n / 10), DigitChar(n % 10), width, '0');
    }
  }

  /** A number with exactly `width` digits is written with exactly those. */
  lemma {:induction false} FullWidthIsDigits(n: nat, width: nat)
    requires width >= 1 && Pow10(width - 1) <= n < Pow10(width)
    ensures NatToString(n) == Digits(n, width)
  {
    if width > 1 {
      FullWidthIsDigits(n / 10, width - 1);
    }
  }

  lemma {:induction false} SingleCharBelow(a: char, b: char)
    ensures Below([a], [b]) <==> a < b
  {
    if a == b {
      assert [a][1..] == [] && [b][1..] == [];
    }
  }

  /** Equal-width digit strings compare as the numbers they stand for. */
  lemma {:induction false} DigitsOrder(n: nat, m: nat, width: nat)
    requires n < Pow10(width) && m < Pow10(width)
    ensures Below(Digits(n, width), Digits(m, width)) <==> n < m
    ensures Digits(n, width) == Digits(m, width) <==> n == m
  {
    if width == 0 {
      BelowIrreflexive([]);
    } else {
      var dn, dm := Digits(n / 10, width - 1), Digits(m / 10, width - 1);
      DigitsOrder(n / 10, m / 10, width - 1);
      BelowConcat(dn, [DigitChar(n % 10)], dm, [DigitChar(m % 10)]);
      SingleCharBelow(DigitChar(n % 10), DigitChar(m % 10));
      if Digits(n, width) == Digits(m, width) {
        assert dn == Digits(n, width)[..width - 1] && dm == Digits(m, width)[..width - 1];
        assert DigitChar(n % 10) == Digits(n, width)[width - 1];
      }
    }
  }
}
