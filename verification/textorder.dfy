/**
 * The order SQLite uses to compare two TEXT values under its default BINARY
 * collation, and decimal numerals written with a fixed number of digits.
 */
module TextOrder {

  /**
   * `a <= b` in lexicographic order of code points. SQLite compares the UTF-8
   * bytes of the two texts with `memcmp`; UTF-8 preserves code-point order, so
   * the two orders agree.
   */
  predicate LexLe(a: string, b: string)
    decreases |a|
  {
    |a| == 0 || (|b| > 0 && (a[0] < b[0] || (a[0] == b[0] && LexLe(a[1..], b[1..]))))
  }

  lemma {:induction false} LexLeTransitive(a: string, b: string, c: string)
    requires LexLe(a, b) && LexLe(b, c)
    ensures LexLe(a, c)
    decreases |a|
  {
    if |a| > 0 && a[0] == b[0] && b[0] == c[0] {
      LexLeTransitive(a[1..], b[1..], c[1..]);
    }
  }

  /**
   * Comparing two texts is comparing their first `k` characters and, when
   * those agree, the rest.
   */
  lemma {:induction false} LexLeSplit(a: string, b: string, k: nat)
    requires k <= |a| && k <= |b|
    ensures LexLe(a, b) <==>
      (a[..k] == b[..k] && LexLe(a[k..], b[k..])) || (a[..k] != b[..k] && LexLe(a[..k], b[..k]))
    decreases k
  {
    if k == 0 {
      assert a[..0] == b[..0];
      assert a[0..] == a && b[0..] == b;
    } else if a[0] == b[0] {
      var a', b' := a[1..], b[1..];
      LexLeSplit(a', b', k - 1);
      assert a'[..k - 1] == a[1..k] && b'[..k - 1] == b[1..k];
      assert a'[k - 1..] == a[k..] && b'[k - 1..] == b[k..];
      assert a[..k] == [a[0]] + a[1..k] && b[..k] == [b[0]] + b[1..k];
      assert a[..k][1..] == a[1..k] && b[..k][1..] == b[1..k];
    } else {
      assert a[..k][0] != b[..k][0];
    }
  }

  /** Two texts compare as their first differing characters do. */
  lemma FirstDifference(a: string, b: string, k: nat)
    requires k < |a| && k < |b| && a[..k] == b[..k] && a[k] != b[k]
    ensures LexLe(a, b) <==> a[k] < b[k]
  {
    LexLeSplit(a, b, k);
  }

  /** The same split, applied to the suffixes that start at `i`. */
  lemma LexLeSplitAt(a: string, b: string, i: nat, k: nat)
    requires i <= k <= |a| && k <= |b|
    ensures LexLe(a[i..], b[i..]) <==>
      (a[i..k] == b[i..k] && LexLe(a[k..], b[k..])) || (a[i..k] != b[i..k] && LexLe(a[i..k], b[i..k]))
  {
    LexLeSplit(a[i..], b[i..], k - i);
    assert a[i..][..k - i] == a[i..k] && b[i..][..k - i] == b[i..k];
    assert a[i..][k - i..] == a[k..] && b[i..][k - i..] == b[k..];
  }

  predicate IsDigit(c: char) {
    '0' <= c <= '9'
  }

  predicate AllDigits(s: string) {
    forall i | 0 <= i < |s| :: IsDigit(s[i])
  }

  function DigitValue(c: char): (n: nat)
    requires IsDigit(c)
    ensures n < 10
  {
    c as int - '0' as int
  }

  function DigitChar(n: nat): (c: char)
    requires n < 10
    ensures IsDigit(c) && DigitValue(c) == n
  {
    ('0' as int + n) as char
  }

  lemma DigitCharOfValue(c: char)
    requires IsDigit(c)
    ensures DigitChar(DigitValue(c)) == c
  {
  }

  function Pow10(n: nat): (p: nat)
    ensures p >= 1
  {
    if n == 0 then 1 else 10 * Pow10(n - 1)
  }

  /** The value of a decimal numeral, most significant digit first. */
  function Num(s: string): nat
    requires AllDigits(s)
    decreases |s|
  {
    if |s| == 0 then 0 else Num(s[..|s| - 1]) * 10 + DigitValue(s[|s| - 1])
  }

  lemma FourDigitNum(t: string)
    requires |t| == 4 && AllDigits(t)
    ensures Num(t) == 1000 * DigitValue(t[0]) + 100 * DigitValue(t[1]) + 10 * DigitValue(t[2]) + DigitValue(t[3])
  {
    assert t[..3][..2] == t[..2] && t[..2][..1] == t[..1] && t[..1][..0] == [];
    assert Num(t[..1]) == DigitValue(t[0]);
    assert Num(t[..2]) == 10 * DigitValue(t[0]) + DigitValue(t[1]);
    assert Num(t[..3]) == 100 * DigitValue(t[0]) + 10 * DigitValue(t[1]) + DigitValue(t[2]);
  }

  /** `n` written with exactly `w` digits, padded with zeros on the left. */
  function Pad(n: nat, w: nat): (t: string)
    ensures |t| == w && AllDigits(t)
  {
    if w == 0 then [] else Pad(n / 10, w - 1) + [DigitChar(n % 10)]
  }

  lemma Pad2(n: nat)
    requires n < 100
    ensures Pad(n, 2) == [DigitChar(n / 10), DigitChar(n % 10)]
  {
    var hi := n / 10;
    assert hi < 10 && hi % 10 == hi;
    assert Pad(hi, 1) == Pad(hi / 10, 0) + [DigitChar(hi % 10)] == [DigitChar(hi)];
    assert Pad(n, 2) == Pad(hi, 1) + [DigitChar(n % 10)];
  }

  /** Reading back a padded numeral gives the number when it fits in `w` digits. */
  lemma {:induction false} NumPad(n: nat, w: nat)
    requires n < Pow10(w)
    ensures Num(Pad(n, w)) == n
  {
    if w > 0 {
      var t := Pad(n, w);
      NumPad(n / 10, w - 1);
      assert t[..w - 1] == Pad(n / 10, w - 1);
    }
  }

  /** Padding the value of a numeral to its own width gives the numeral back. */
  lemma {:induction false} PadNum(s: string)
    requires AllDigits(s)
    ensures Pad(Num(s), |s|) == s
    decreases |s|
  {
    if |s| > 0 {
      var k := |s| - 1;
      PadNum(s[..k]);
      DigitCharOfValue(s[k]);
      assert Num(s) / 10 == Num(s[..k]) && Num(s) % 10 == DigitValue(s[k]);
      assert s == s[..k] + [s[k]];
    }
  }

  lemma NumInjective(a: string, b: string)
    requires AllDigits(a) && AllDigits(b) && |a| == |b|
    ensures a == b <==> Num(a) == Num(b)
  {
    if Num(a) == Num(b) {
      PadNum(a);
      PadNum(b);
    }
  }

  /** For numerals of one width, text order is numeric order. */
  lemma {:induction false} DigitsOrder(a: string, b: string)
    requires AllDigits(a) && AllDigits(b) && |a| == |b|
    ensures LexLe(a, b) <==> Num(a) <= Num(b)
    decreases |a|
  {
    if |a| > 0 {
      var k := |a| - 1;
      LexLeSplit(a, b, k);
      DigitsOrder(a[..k], b[..k]);
      NumInjective(a[..k], b[..k]);
      assert a[k..] == [a[k]] && b[k..] == [b[k]];
      assert LexLe([a[k]], [b[k]]) <==> a[k] <= b[k];
    }
  }

  /** For numerals of one width, strict text order is strict numeric order. */
  lemma DigitsLess(a: string, b: string)
    requires AllDigits(a) && AllDigits(b) && |a| == |b|
    ensures (a != b && LexLe(a, b)) <==> Num(a) < Num(b)
    ensures a == b <==> Num(a) == Num(b)
  {
    DigitsOrder(a, b);
    NumInjective(a, b);
  }
}
