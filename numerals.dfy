/** Decimal digit strings: Python's `int(s)` and `float(s)` on the decimal
    forms the files use, and the integer formats `{n}`, `{n:01}`, `{n:02}`
    and the three fractional digits of `{x:.3f}`. Times are whole
    milliseconds, so every value here is a natural number. */
module Numerals {
  import opened Wrappers
  import opened Text

  predicate IsDigit(c: char) {
    '0' <= c <= '9'
  }

  predicate AllDigits(s: string) {
    forall i :: 0 <= i < |s| ==> IsDigit(s[i])
  }

  function DigitChar(d: nat): char
    requires d < 10
  {
    ('0' as int + d) as char
  }

  function DigitValue(c: char): nat
    requires IsDigit(c)
  {
    c as int - '0' as int
  }

  function Pow10(k: nat): (p: nat)
    ensures p >= 1
  {
    if k == 0 then 1 else 10 * Pow10(k - 1)
  }

  /** The number a digit string denotes, most significant digit first;
      leading zeros are allowed, as `int()` allows them. */
  function Value(s: string): nat
    requires AllDigits(s)
  {
    if s == [] then 0 else Value(s[..|s| - 1]) * 10 + DigitValue(s[|s| - 1])
  }

  /** A leading zero does not change the value. */
  lemma {:induction false} ValueLeadingZero(s: string)
    requires AllDigits(s)
    ensures AllDigits("0" + s) && Value("0" + s) == Value(s)
  {
    if s != [] {
      var t := "0" + s;
      assert t[..|t| - 1] == "0" + s[..|s| - 1];
      ValueLeadingZero(s[..|s| - 1]);
    }
  }

  /** `f'{n}'`: decimal digits without leading zeros; reading them back with
      `int()` gives `n`. */
  function NatToString(n: nat): (r: string)
    ensures r != [] && AllDigits(r) && Value(r) == n
    ensures |r| > 1 ==> r[0] != '0'
  {
    if n < 10 then [DigitChar(n)]
    else
      var p := NatToString(n / 10);
      var r := p + [DigitChar(n % 10)];
      assert r[..|r| - 1] == p;
      r
  }

  /** Different numbers are written differently. */
  lemma NatToStringInjective(m: nat, n: nat)
    requires NatToString(m) == NatToString(n)
    ensures m == n
  {
  }

  function Zeros(k: nat): (z: string)
    ensures |z| == k && AllDigits(z)
  {
    if k == 0 then [] else "0" + Zeros(k - 1)
  }

  lemma {:induction false} ValueZeros(k: nat, d: string)
    requires AllDigits(d)
    ensures AllDigits(Zeros(k) + d) && Value(Zeros(k) + d) == Value(d)
  {
    assert forall i :: 0 <= i < |Zeros(k) + d| ==> IsDigit((Zeros(k) + d)[i]) by {
      assert forall i :: 0 <= i < k ==> (Zeros(k) + d)[i] == Zeros(k)[i];
      assert forall i :: k <= i < k + |d| ==> (Zeros(k) + d)[i] == d[i - k];
    }
    if k == 0 {
      assert Zeros(k) + d == d;
    } else {
      ValueZeros(k - 1, d);
      assert Zeros(k) + d == "0" + (Zeros(k - 1) + d);
      ValueLeadingZero(Zeros(k - 1) + d);
    }
  }

  /** `f'{n:0w}'`: the decimal digits of `n`, padded on the left with zeros to
      at least `width` characters; `int()` reads back `n`. */
  function ZeroPad(n: nat, width: nat): (r: string)
    ensures AllDigits(r) && Value(r) == n
    ensures |r| == if |NatToString(n)| >= width then |NatToString(n)| else width
  {
    var d := NatToString(n);
    if |d| >= width then d
    else
      ValueZeros(width - |d|, d);
      Zeros(width - |d|) + d
  }

  /** A number below `10^width` padded to `width` takes exactly `width` digits. */
  lemma {:induction false} NatToStringLength(n: nat, width: nat)
    requires n < Pow10(width)
    ensures |NatToString(n)| <= width || (n == 0 && width == 0)
  {
    if n >= 10 {
      NatToStringLength(n / 10, width - 1);
    }
  }

  /** A digit string holds no colon. */
  lemma DigitsNoColon(d: string)
    requires AllDigits(d)
    ensures ':' !in d
  {
    assert forall i :: 0 <= i < |d| ==> d[i] != ':';
  }

  /** `int(s)`: `None` where Python raises ValueError. Only non-empty runs of
      ASCII digits are read. */
  function ParseNat(s: string): (r: Option<nat>)
    ensures r.Some? <==> s != [] && AllDigits(s)
  {
    if s != [] && AllDigits(s) then Some(Value(s)) else None
  }

  /** `float(s)` in milliseconds, for the decimal forms the files use: digits,
      optionally a point and at most three more digits. `None` where the
      model rejects the text. */
  function ParseMillis(s: string): Option<nat> {
    if '.' !in s then
      if s != [] && AllDigits(s) then Some(Value(s) * 1000) else None
    else
      var i := FirstIndex(s, '.');
      var whole, frac := s[..i], s[i + 1..];
      if whole != [] && AllDigits(whole) && AllDigits(frac) && |frac| <= 3
      then Some(Value(whole) * 1000 + Value(frac) * Pow10(3 - |frac|))
      else None
  }

  /** `f'{ms / 1000:.3f}'`: whole seconds, a point and exactly three digits. */
  function FormatMillis(ms: nat): string {
    NatToString(ms / 1000) + "." + ZeroPad(ms % 1000, 3)
  }

  /** `float()` reads back what `.3f` wrote: seconds written with three
      decimals denote the same number of milliseconds. */
  lemma ParseFormatMillis(ms: nat)
    ensures ParseMillis(FormatMillis(ms)) == Some(ms)
  {
    var q, r := ms / 1000, ms % 1000;
    ParseSecondsPart(q, r);
    assert FormatMillis(ms) == NatToString(q) + "." + ZeroPad(r, 3);
    assert q * 1000 + r == ms;
  }

  /** Whole seconds and a padded millisecond part read back as their sum. */
  lemma ParseSecondsPart(q: nat, r: nat)
    requires r < 1000
    ensures ParseMillis(NatToString(q) + "." + ZeroPad(r, 3)) == Some(q * 1000 + r)
  {
    NatToStringLength(r, 3);
    ParsePoint(NatToString(q), ZeroPad(r, 3));
  }

  /** Digits, a point and three digits read as that many milliseconds. */
  lemma ParsePoint(w: string, f: string)
    requires w != [] && AllDigits(w) && AllDigits(f) && |f| == 3
    ensures ParseMillis(w + "." + f) == Some(Value(w) * 1000 + Value(f))
  {
    var s := w + "." + f;
    assert '.' !in w by {
      assert forall j :: 0 <= j < |w| ==> w[j] != '.';
    }
    FirstIndexAfter(w, '.', f);
    assert s == w + ['.'] + f;
    assert s[..|w|] == w && s[|w| + 1..] == f;
    assert Pow10(3 - |f|) == 1;
  }
}
