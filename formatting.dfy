/**
 * Decimal text of frame numbers, as Python's `str(n)` / `f"{n}"` writes it,
 * the zero-padded form `f"{n:05d}"`, and reading such text back.
 */
module Formatting {
  import opened Wrappers

  predicate IsDigit(c: char) { '0' <= c <= '9' }

  predicate AllDigits(s: string) { forall i :: 0 <= i < |s| ==> IsDigit(s[i]) }

  function DigitChar(d: nat): (c: char)
    requires d < 10
    ensures IsDigit(c)
  {
    (d + 48) as char
  }

  function DigitValue(c: char): (d: nat)
    requires IsDigit(c)
    ensures d < 10
    ensures DigitChar(d) == c
  {
    c as int - 48
  }

  /** `str(n)` for a non-negative integer: no sign, no leading zero. */
  function Decimal(n: nat): (s: string)
    ensures 1 <= |s| && AllDigits(s)
    ensures s[0] == '0' ==> n == 0 && |s| == 1
    decreases n
  {
    if n < 10 then [DigitChar(n)] else Decimal(n / 10) + [DigitChar(n % 10)]
  }

  /** The number a string of decimal digits denotes (leading zeros allowed). */
  function ValueOf(s: string): (v: nat)
    requires AllDigits(s)
  {
    if s == [] then 0 else ValueOf(s[..|s| - 1]) * 10 + DigitValue(s[|s| - 1])
  }

  /** Text that `str` can produce: digits, and no leading zero unless the text is "0". */
  predicate Canonical(s: string) {
    1 <= |s| && AllDigits(s) && (s[0] == '0' ==> |s| == 1)
  }

  /** `int(s)` restricted to the text `str` produces. */
  function Parse(s: string): (r: Option<nat>) {
    if Canonical(s) then Some(ValueOf(s)) else None
  }

  lemma {:induction false} ValueOfDecimal(n: nat)
    ensures ValueOf(Decimal(n)) == n
    decreases n
  {
    var s := Decimal(n);
    if n < 10 {
      assert s[..|s| - 1] == [];
    } else {
      assert s[..|s| - 1] == Decimal(n / 10);
      ValueOfDecimal(n / 10);
    }
  }

  lemma {:induction false} ValueOfLeadingNonZero(s: string)
    requires 1 <= |s| && AllDigits(s) && s[0] != '0'
    ensures ValueOf(s) >= 1
    decreases |s|
  {
    if |s| == 1 {
      assert s[..|s| - 1] == [];
    } else {
      ValueOfLeadingNonZero(s[..|s| - 1]);
    }
  }

  /** Reading back what `str` wrote gives the number. */
  lemma ParseDecimal(n: nat)
    ensures Parse(Decimal(n)) == Some(n)
  {
    ValueOfDecimal(n);
  }

  /** Writing what was read gives back the text: canonical decimal text and numbers correspond one to one. */
  lemma {:induction false} DecimalOfParse(s: string)
    requires Canonical(s)
    ensures Decimal(ValueOf(s)) == s
    decreases |s|
  {
    var p := s[..|s| - 1];
    var d := DigitValue(s[|s| - 1]);
    if |s| == 1 {
      assert p == [];
      assert Decimal(ValueOf(s)) == [DigitChar(d)];
    } else {
      assert Canonical(p);
      ValueOfLeadingNonZero(p);
      DecimalOfParse(p);
      var v := ValueOf(s);
      assert v == ValueOf(p) * 10 + d;
      assert v / 10 == ValueOf(p) && v % 10 == d;
      assert s == p + [s[|s| - 1]];
    }
  }

  lemma DecimalInjective(a: nat, b: nat)
    requires Decimal(a) == Decimal(b)
    ensures a == b
  {
    ValueOfDecimal(a);
    ValueOfDecimal(b);
  }

  function Zeros(k: nat): (s: string)
    ensures |s| == k && AllDigits(s)
  {
    seq(k, _ => '0')
  }

  /** `f"{n:0<width>d}"`: the decimal text of `n`, left-filled with zeros up to `width` characters. */
  function PadDecimal(n: nat, width: nat): (s: string)
    ensures AllDigits(s)
  {
    var d := Decimal(n);
    if |d| < width then Zeros(width - |d|) + d else d
  }

  lemma {:induction false} ValueOfZeros(k: nat)
    ensures ValueOf(Zeros(k)) == 0
  {
    if k > 0 {
      assert Zeros(k)[..k - 1] == Zeros(k - 1);
      ValueOfZeros(k - 1);
    }
  }

  lemma {:induction false} ValueOfZerosPrefix(k: nat, s: string)
    requires AllDigits(s)
    ensures AllDigits(Zeros(k) + s) && ValueOf(Zeros(k) + s) == ValueOf(s)
    decreases |s|
  {
    var z := Zeros(k) + s;
    assert AllDigits(z) by {
      forall i | 0 <= i < |z| ensures IsDigit(z[i]) {
        if i >= k { assert z[i] == s[i - k]; }
      }
    }
    if s == [] {
      assert z == Zeros(k);
      ValueOfZeros(k);
    } else {
      assert z[..|z| - 1] == Zeros(k) + s[..|s| - 1];
      ValueOfZerosPrefix(k, s[..|s| - 1]);
    }
  }

  function Pow10(k: nat): (p: nat)
    ensures p >= 1
  {
    if k == 0 then 1 else 10 * Pow10(k - 1)
  }

  lemma {:induction false} DecimalLength(n: nat, k: nat)
    requires 1 <= k && n < Pow10(k)
    ensures |Decimal(n)| <= k
    decreases k
  {
    if n >= 10 {
      assert Pow10(1) == 10;
      assert k >= 2;
      assert n / 10 < Pow10(k - 1);
      DecimalLength(n / 10, k - 1);
    }
  }

  /** The file name of a frame image: `f"{i:05d}.png"`. */
  function FrameFileName(i: nat): (name: string) {
    PadDecimal(i, 5) + ".png"
  }

  /** Reads the frame number back from a file name `<digits>.png`. */
  function ParseFrameFileName(name: string): (r: Option<nat>) {
    if |name| >= 5 && name[|name| - 4..] == ".png" && AllDigits(name[..|name| - 4]) then
      Some(ValueOf(name[..|name| - 4]))
    else
      None
  }

  /** The frame number is recovered from its file name, whether or not padding was added. */
  lemma FrameFileNameRoundTrip(i: nat)
    ensures ParseFrameFileName(FrameFileName(i)) == Some(i)
  {
    var name := FrameFileName(i);
    var d := Decimal(i);
    var padded := PadDecimal(i, 5);
    assert name[..|name| - 4] == padded;
    assert name[|name| - 4..] == ".png";
    ValueOfDecimal(i);
    if |d| < 5 {
      ValueOfZerosPrefix(5 - |d|, d);
    }
  }

  /** Distinct frames never share a file name. */
  lemma FrameFileNameInjective(i: nat, j: nat)
    requires FrameFileName(i) == FrameFileName(j)
    ensures i == j
  {
    FrameFileNameRoundTrip(i);
    FrameFileNameRoundTrip(j);
  }

  /** Below 100000 the name is exactly five digits and ".png". */
  lemma FrameFileNameLength(i: nat)
    requires i < 100000
    ensures |FrameFileName(i)| == 9
  {
    assert Pow10(5) == 100000;
    DecimalLength(i, 5);
  }
}
