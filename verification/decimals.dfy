/**
 * Decimal literals as `parseFloat` reads them, and their exact conversion to
 * wei (units of 10^-18 ether), truncated toward zero.
 */
module Decimals {
  import opened Wrappers
  import opened Scan

  /** A decimal literal as `parseFloat` reads it: digits, then optionally a dot and digits. */
  datatype Decimal = Decimal(whole: string, fraction: string)

  function Pow10(n: nat): (p: nat)
    ensures p >= 1
  {
    if n == 0 then 1 else 10 * Pow10(n - 1)
  }

  function DigitValue(c: char): (v: nat)
    ensures v < 10
  {
    if IsDigit(c) then c as int - '0' as int else 0
  }

  /** The value of a string of decimal digits. */
  function DigitsValue(ds: string): nat
  {
    if ds == [] then 0 else 10 * DigitsValue(ds[..|ds| - 1]) + DigitValue(ds[|ds| - 1])
  }

  /**
   * The longest prefix of `t` that `parseFloat` accepts, for a `t` of digits
   * and dots; `None` where `parseFloat` yields NaN.
   */
  function ParseDecimal(t: string): (r: Option<Decimal>)
    ensures r.None? <==> (t == [] || (!IsDigit(t[0]) && !(t[0] == '.' && |t| > 1 && IsDigit(t[1]))))
    ensures r.Some? ==> AllIn(r.value.whole, Digit) && AllIn(r.value.fraction, Digit)
    ensures r.Some? ==> |r.value.whole| + |r.value.fraction| > 0
  {
    var i := RunEnd(t, 0, Digit);
    var f := if i < |t| && t[i] == '.' then t[i + 1..RunEnd(t, i + 1, Digit)] else [];
    if i == 0 && f == [] then None else Some(Decimal(t[..i], f))
  }

  /** The decimals of ether: one ether is 10^18 wei. */
  const ETHER_DECIMALS: nat := 18

  /** The first `n` fractional digits, as units of 10^-n: the fraction scaled by 10^n and truncated. */
  function FractionScaled(f: string, n: nat): nat
  {
    if |f| <= n then DigitsValue(f) * Pow10(n - |f|) else DigitsValue(f[..n])
  }

  /** `floor(d * 10^n)`, computed exactly. */
  function Scaled(d: Decimal, n: nat): nat
  {
    DigitsValue(d.whole) * Pow10(n) + FractionScaled(d.fraction, n)
  }

  /**
   * An ether amount in wei, truncated: the whole ethers count in full, and
   * the fraction adds less than one ether.
   */
  function Wei(d: Decimal): (w: nat)
    ensures DigitsValue(d.whole) * Pow10(ETHER_DECIMALS) <= w < (DigitsValue(d.whole) + 1) * Pow10(ETHER_DECIMALS)
  {
    FractionScaledBound(d.fraction, ETHER_DECIMALS);
    var p := Pow10(ETHER_DECIMALS);
    BelowNextMultiple(DigitsValue(d.whole), p, FractionScaled(d.fraction, ETHER_DECIMALS));
    Scaled(d, ETHER_DECIMALS)
  }

  // ---------------------------------------------------------------------------
  // Facts about the conversion

  lemma {:induction false} Pow10Add(a: nat, b: nat)
    ensures Pow10(a + b) == Pow10(a) * Pow10(b)
    decreases a
  {
    if a > 0 {
      Pow10Add(a - 1, b);
      assert Pow10(a + b) == 10 * Pow10(a - 1 + b);
    }
  }

  /** The fraction's part of a scaled amount stays below one unit of the scale. */
  lemma FractionScaledBound(f: string, n: nat)
    ensures FractionScaled(f, n) < Pow10(n)
  {
    if |f| <= n {
      DigitsValueBound(f);
      Pow10Add(|f|, n - |f|);
      MulBelow(DigitsValue(f), Pow10(|f|), Pow10(n - |f|));
    } else {
      DigitsValueBound(f[..n]);
    }
  }

  lemma MulBelow(a: nat, b: nat, c: nat)
    requires a < b && c > 0
    ensures a * c < b * c
  {
    assert (b - a) * c > 0;
  }

  lemma BelowNextMultiple(w: nat, p: nat, f: nat)
    requires f < p
    ensures w * p <= w * p + f < (w + 1) * p
  {
  }

  lemma {:induction false} DigitsValueBound(ds: string)
    ensures DigitsValue(ds) < Pow10(|ds|)
    decreases |ds|
  {
    if ds != [] {
      DigitsValueBound(ds[..|ds| - 1]);
    }
  }

  /** The value of concatenated digit strings: the first shifted past the second. */
  lemma {:induction false} DigitsValueConcat(a: string, b: string)
    ensures DigitsValue(a + b) == DigitsValue(a) * Pow10(|b|) + DigitsValue(b)
    decreases |b|
  {
    if b == [] {
      assert a + b == a;
    } else {
      var b' := b[..|b| - 1];
      assert (a + b)[..|a + b| - 1] == a + b';
      assert (a + b)[|a + b| - 1] == b[|b| - 1];
      DigitsValueConcat(a, b');
      var x := DigitsValue(a);
      var p := Pow10(|b'|);
      var y := DigitsValue(b');
      var c := DigitValue(b[|b| - 1]);
      assert DigitsValue(a + b) == 10 * DigitsValue(a + b') + c;
      assert DigitsValue(a + b') == x * p + y;
      assert DigitsValue(b) == 10 * y + c;
      assert Pow10(|b|) == 10 * p;
      ShiftDigit(x, p, y, c);
    }
  }

  lemma ShiftDigit(x: nat, p: nat, y: nat, c: nat)
    ensures 10 * (x * p + y) + c == x * (10 * p) + (10 * y + c)
  {
  }

  /**
   * `Scaled(d, n)` is `floor(d * 10^n)`: for `d = whole.fraction`, the exact
   * value times 10^n lies in `[Scaled(d, n), Scaled(d, n) + 1)`.
   */
  lemma ScaledIsFloor(d: Decimal, n: nat)
    ensures Scaled(d, n) * Pow10(|d.fraction|) <= DigitsValue(d.whole + d.fraction) * Pow10(n)
    ensures DigitsValue(d.whole + d.fraction) * Pow10(n) < (Scaled(d, n) + 1) * Pow10(|d.fraction|)
  {
    DigitsValueConcat(d.whole, d.fraction);
    if |d.fraction| <= n {
      ScaledShortFraction(d, n);
    } else {
      ScaledLongFraction(d, n);
    }
  }

  lemma ScaledShortFraction(d: Decimal, n: nat)
    requires |d.fraction| <= n
    ensures Scaled(d, n) * Pow10(|d.fraction|) == (DigitsValue(d.whole) * Pow10(|d.fraction|) + DigitsValue(d.fraction)) * Pow10(n)
  {
    var k := |d.fraction|;
    var F := DigitsValue(d.fraction);
    var Q := Pow10(n - k);
    Pow10Add(n - k, k);
    assert n - k + k == n;
    assert FractionScaled(d.fraction, n) == F * Q;
    ScaleExact(Scaled(d, n), DigitsValue(d.whole), F, Q, Pow10(k), Pow10(n));
  }

  lemma ScaledLongFraction(d: Decimal, n: nat)
    requires |d.fraction| > n
    ensures Scaled(d, n) * Pow10(|d.fraction|) <= (DigitsValue(d.whole) * Pow10(|d.fraction|) + DigitsValue(d.fraction)) * Pow10(n)
    ensures (DigitsValue(d.whole) * Pow10(|d.fraction|) + DigitsValue(d.fraction)) * Pow10(n) < (Scaled(d, n) + 1) * Pow10(|d.fraction|)
  {
    var f := d.fraction;
    var k := |f|;
    var f1 := f[..n];
    var f2 := f[n..];
    assert f == f1 + f2;
    DigitsValueConcat(f1, f2);
    DigitsValueBound(f2);
    Pow10Add(k - n, n);
    assert k - n + n == k;
    assert FractionScaled(f, n) == DigitsValue(f1);
    ScaleTruncated(Scaled(d, n), DigitsValue(d.whole), DigitsValue(f), DigitsValue(f1), DigitsValue(f2),
                   Pow10(k - n), Pow10(n), Pow10(k));
  }

  lemma ScaleExact(S: nat, W: nat, F: nat, Q: nat, Pk: nat, Pn: nat)
    requires Q * Pk == Pn
    requires S == W * Pn + F * Q
    ensures S * Pk == (W * Pk + F) * Pn
  {
    calc {
      S * Pk;
      (W * Pn + F * Q) * Pk;
      W * Pn * Pk + F * (Q * Pk);
      W * Pk * Pn + F * Pn;
    }
  }

  lemma ScaleTruncated(S: nat, W: nat, F: nat, A: nat, B: nat, Q: nat, Pn: nat, Pk: nat)
    requires Pk == Q * Pn
    requires F == A * Q + B
    requires B < Q
    requires Pn >= 1
    requires S == W * Pn + A
    ensures S * Pk <= (W * Pk + F) * Pn
    ensures (W * Pk + F) * Pn < (S + 1) * Pk
  {
    calc {
      (W * Pk + F) * Pn;
      W * Pk * Pn + (A * Q + B) * Pn;
      W * Pn * Pk + A * (Q * Pn) + B * Pn;
      (W * Pn + A) * Pk + B * Pn;
    }
    assert B * Pn < Q * Pn by {
      assert (Q - B) * Pn > 0;
    }
  }

  /** `parseFloat` reads a whole number back as written, whatever follows that is neither a digit nor a dot. */
  lemma ParseDecimalOfWhole(whole: string, rest: string)
    requires AllIn(whole, Digit) && |whole| > 0
    requires rest == [] || (!IsDigit(rest[0]) && rest[0] != '.')
    ensures ParseDecimal(whole + rest) == Some(Decimal(whole, ""))
  {
    var t := whole + rest;
    assert forall k :: 0 <= k < |whole| ==> t[k] == whole[k];
    if rest != [] {
      assert t[|whole|] == rest[0];
    }
    RunEndOf(t, 0, whole, Digit);
    assert t[..|whole|] == whole;
  }

  /** `parseFloat` reads `whole.fraction` back as written, whatever follows that is not a digit. */
  lemma ParseDecimalOfLiteral(whole: string, fraction: string, rest: string)
    requires AllIn(whole, Digit) && AllIn(fraction, Digit)
    requires |whole| + |fraction| > 0
    requires rest == [] || !IsDigit(rest[0])
    ensures ParseDecimal(whole + "." + fraction + rest) == Some(Decimal(whole, fraction))
  {
    var t := whole + "." + fraction + rest;
    var i := RunEnd(t, 0, Digit);
    assert forall k :: 0 <= k < |whole| ==> t[k] == whole[k];
    assert t[|whole|] == '.';
    assert i == |whole|;
    var j := RunEnd(t, i + 1, Digit);
    assert forall k :: 0 <= k < |fraction| ==> t[i + 1 + k] == fraction[k];
    if rest != [] {
      assert t[i + 1 + |fraction|] == rest[0];
    }
    assert j == i + 1 + |fraction|;
    assert t[..i] == whole;
    assert t[i + 1..j] == fraction;
  }
}
