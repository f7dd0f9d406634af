/**
 * Decimal digits, the decimal text JavaScript gives an integral number
 * (`String(n)`, a template literal), and `String.prototype.padStart`.
 */
module Text {

  /** The `\d` class of a JavaScript regular expression: ASCII digits only. */
  predicate IsDigit(c: char) {
    '0' <= c <= '9'
  }

  predicate AllDigits(s: string) {
    forall i :: 0 <= i < |s| ==> IsDigit(s[i])
  }

  /** `s[from..from + len]` exists and is a run of digits (`\d{len}` at `from`). */
  predicate DigitsAt(s: string, from: nat, len: nat) {
    from + len <= |s| && AllDigits(s[from..from + len])
  }

  function DigitValue(c: char): int {
    c as int - '0' as int
  }

  function DigitChar(n: nat): (c: char)
    requires n < 10
    ensures IsDigit(c) && DigitValue(c) == n
  {
    ('0' as int + n) as char
  }

  function Pow10(k: nat): (r: nat)
    ensures r >= 1
  {
    if k == 0 then 1 else 10 * Pow10(k - 1)
  }

  /** The number a run of decimal digits denotes, most significant digit first. */
  function DigitsValue(s: string): (r: int)
    ensures AllDigits(s) ==> 0 <= r < Pow10(|s|)
  {
    if s == [] then 0 else 10 * DigitsValue(s[..|s| - 1]) + DigitValue(s[|s| - 1])
  }

  /** The shortest decimal text of `n`: it has no leading zero unless `n` is 0. */
  function NatToDigits(n: nat): (r: string)
    ensures 1 <= |r| && AllDigits(r)
    ensures (r[0] == '0') == (n == 0)
  {
    if n < 10 then [DigitChar(n)] else NatToDigits(n / 10) + [DigitChar(n % 10)]
  }

  /** `String(i)` for an integral JavaScript number `i`. */
  function IntToString(i: int): (r: string)
    ensures 1 <= |r|
    ensures i >= 0 ==> AllDigits(r)
    ensures i < 0 ==> r[0] == '-'
  {
    if i < 0 then "-" + NatToDigits(-i) else NatToDigits(i)
  }

  /** The integer that a decimal text with an optional leading minus denotes. */
  function ParseInteger(s: string): int {
    if 0 < |s| && s[0] == '-' then -DigitsValue(s[1..]) else DigitsValue(s)
  }

  function Repeat(c: char, n: nat): (r: string)
    ensures |r| == n && forall i :: 0 <= i < n ==> r[i] == c
  {
    seq(n, _ => c)
  }

  /**
   * `s.padStart(width, fill)` for a one-character `fill`: `s` itself when it is
   * already `width` long or longer, otherwise `s` behind enough copies of `fill`.
   */
  function PadStart(s: string, width: nat, fill: char): (r: string)
    ensures |r| == if |s| >= width then |s| else width
    ensures r[|r| - |s|..] == s
    ensures forall i :: 0 <= i < |r| - |s| ==> r[i] == fill
  {
    if |s| >= width then s else Repeat(fill, width - |s|) + s
  }

  /** Reading back the decimal text of `n` gives `n`. */
  lemma {:induction false} DigitsRoundTrip(n: nat)
    ensures DigitsValue(NatToDigits(n)) == n
  {
    var r := NatToDigits(n);
    if n < 10 {
      assert r[..|r| - 1] == [];
    } else {
      assert r[..|r| - 1] == NatToDigits(n / 10);
      DigitsRoundTrip(n / 10);
    }
  }

  /** `ParseInteger` inverts `String(i)` on every integer. */
  lemma IntToStringRoundTrip(i: int)
    ensures ParseInteger(IntToString(i)) == i
  {
    var r := IntToString(i);
    if i < 0 {
      assert r[1..] == NatToDigits(-i);
      DigitsRoundTrip(-i);
    } else {
      DigitsRoundTrip(i);
    }
  }

  /** A number from `10^(k-1)` (or 0 when `k` is 1) up to `10^k - 1` has exactly `k` digits. */
  lemma {:induction false} DigitsLength(n: nat, k: nat)
    requires 1 <= k && n < Pow10(k)
    requires k == 1 || Pow10(k - 1) <= n
    ensures |NatToDigits(n)| == k
  {
    if k > 1 {
      assert Pow10(k - 1) == 10 * Pow10(k - 2);
      assert k - 1 == 1 || Pow10(k - 2) <= n / 10;
      DigitsLength(n / 10, k - 1);
    }
  }

  /**
   * A run of digits whose value needs all its digits (no leading zero, or a
   * single digit) is the decimal text of its value.
   */
  lemma {:induction false} CanonicalDigits(x: string)
    requires 1 <= |x| && AllDigits(x)
    requires |x| == 1 || Pow10(|x| - 1) <= DigitsValue(x)
    ensures NatToDigits(DigitsValue(x)) == x
  {
    var p := x[..|x| - 1];
    var v := DigitsValue(x);
    assert AllDigits(p);
    if |x| == 1 {
      assert p == [];
      assert [DigitChar(v)] == x;
    } else {
      assert Pow10(|x| - 1) == 10 * Pow10(|p| - 1);
      assert v == 10 * DigitsValue(p) + DigitValue(x[|x| - 1]);
      assert v / 10 == DigitsValue(p) && v % 10 == DigitValue(x[|x| - 1]);
      CanonicalDigits(p);
      assert x == p + [x[|x| - 1]];
    }
  }

  /** Zero-padding the text of a value taken from a two-digit run rebuilds the run, leading zero included. */
  lemma PaddedTwoDigits(x: string)
    requires |x| == 2 && AllDigits(x) && DigitsValue(x) >= 1
    ensures PadStart(IntToString(DigitsValue(x)), 2, '0') == x
  {
    TwoDigitValue(x);
    var v := DigitsValue(x);
    assert IntToString(v) == NatToDigits(v);
    if x[0] != '0' {
      assert Pow10(1) == 10;
      CanonicalDigits(x);
    } else {
      assert v == DigitValue(x[1]) && DigitChar(v) == x[1];
      assert NatToDigits(v) == [x[1]];
      assert PadStart([x[1]], 2, '0') == Repeat('0', 1) + [x[1]];
      assert Repeat('0', 1) + [x[1]] == x;
    }
  }

  /** The value of a two-character run. */
  lemma TwoDigitValue(x: string)
    requires |x| == 2
    ensures DigitsValue(x) == 10 * DigitValue(x[0]) + DigitValue(x[1])
  {
    assert x[..1][..0] == [];
  }

  /** `String(n).padStart(2, '0')` for `1 <= n <= 99` is two digits that read back as `n`. */
  lemma PaddedTwoDigitsOf(n: nat)
    requires 1 <= n <= 99
    ensures var t := PadStart(IntToString(n), 2, '0');
      |t| == 2 && AllDigits(t) && DigitsValue(t) == n
  {
    var r := NatToDigits(n);
    var t := PadStart(IntToString(n), 2, '0');
    DigitsRoundTrip(n);
    if n < 10 {
      DigitsLength(n, 1);
      assert t == ['0'] + r;
      assert t[..1] == ['0'] && t[..1][..0] == [];
      assert r[..0] == [];
    } else {
      DigitsLength(n, 2);
      assert t == r;
    }
  }
}
