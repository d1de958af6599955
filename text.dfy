/** Strings as PHP and MySQL treat them in the cached-query modules:
    integers rendered in decimal, `str_pad` with STR_PAD_LEFT, and the
    bytewise order that `ORDER BY option_name` applies to option names. */
module Text {

  datatype Option<T> = None | Some(value: T)

  predicate IsDigit(c: char) { '0' <= c <= '9' }

  predicate AllDigits(s: string) { forall i :: 0 <= i < |s| ==> IsDigit(s[i]) }

  function DigitChar(d: nat): (c: char)
    requires d < 10
    ensures IsDigit(c)
  {
    (48 + d) as char
  }

  function DigitValue(c: char): (d: nat)
    requires IsDigit(c)
    ensures d < 10 && DigitChar(d) == c
  {
    c as int - 48
  }

  /** The decimal text PHP produces for a non-negative integer (`'x' . $i`):
      at least one digit, and no leading zero unless the number is 0. */
  function Digits(n: nat): (s: string)
    ensures 1 <= |s| && AllDigits(s)
    ensures s[0] == '0' ==> n == 0
    ensures n == 0 ==> s == "0"
    decreases n
  {
    if n < 10 then [DigitChar(n)] else Digits(n / 10) + [DigitChar(n % 10)]
  }

  /** The number a string of digits denotes; leading zeros add nothing. */
  function Value(s: string): (v: nat)
    requires AllDigits(s)
  {
    if s == [] then 0 else Value(s[..|s| - 1]) * 10 + DigitValue(s[|s| - 1])
  }

  function Pow10(k: nat): (p: nat)
    ensures p >= 1
  {
    if k == 0 then 1 else 10 * Pow10(k - 1)
  }

  /** `str_pad($s, $width, $pad, STR_PAD_LEFT)` with a one-character pad:
      a string no shorter than `width` is returned as it is. */
  function PadLeft(s: string, width: nat, pad: char): (r: string)
    ensures |r| == if |s| < width then width else |s|
    ensures r[|r| - |s|..] == s
    ensures forall i :: 0 <= i < |r| - |s| ==> r[i] == pad
  {
    if |s| < width then seq(width - |s|, _ => pad) + s else s
  }

  /** Position of the first occurrence of `c` in `s`. */
  function IndexOf(s: string, c: char): (r: Option<nat>)
    ensures r.Some? ==> r.value < |s| && s[r.value] == c && c !in s[..r.value]
    ensures r.None? ==> c !in s
  {
    if s == [] then None
    else if s[0] == c then Some(0)
    else match IndexOf(s[1..], c)
      case None => None
      case Some(j) =>
        assert s[..j + 1] == [s[0]] + s[1..][..j];
        Some(j + 1)
  }

  /** Bytewise string order, as `ORDER BY` compares option names: a proper
      prefix sorts first, otherwise the first differing character decides. */
  predicate LexLess(a: string, b: string)
  {
    if a == [] then b != []
    else b != [] && (a[0] < b[0] || (a[0] == b[0] && LexLess(a[1..], b[1..])))
  }

  // ---------------------------------------------------------------------
  // Decimal text

  lemma {:induction false} ValueOfDigits(n: nat)
    ensures Value(Digits(n)) == n
    decreases n
  {
    var s := Digits(n);
    if n < 10 {
      assert s[..0] == [];
    } else {
      ValueOfDigits(n / 10);
      assert s[..|s| - 1] == Digits(n / 10);
    }
  }

  lemma {:induction false} ValueOfZeros(k: nat)
    ensures AllDigits(seq(k, _ => '0')) && Value(seq(k, _ => '0')) == 0
  {
    if k > 0 {
      ValueOfZeros(k - 1);
      assert seq(k, _ => '0')[..k - 1] == seq(k - 1, _ => '0');
    }
  }

  /** Zero padding on the left does not change the number a string denotes. */
  lemma {:induction false} ValueIgnoresLeadingZeros(k: nat, s: string)
    requires AllDigits(s)
    ensures AllDigits(seq(k, _ => '0') + s)
    ensures Value(seq(k, _ => '0') + s) == Value(s)
    decreases |s|
  {
    var z := seq(k, _ => '0');
    ValueOfZeros(k);
    if s == [] {
      assert z + s == z;
    } else {
      ValueIgnoresLeadingZeros(k, s[..|s| - 1]);
      assert (z + s)[..|z + s| - 1] == z + s[..|s| - 1];
    }
  }

  /** A zero-padded decimal still denotes its index. */
  lemma PaddedDigitsValue(n: nat, width: nat)
    ensures AllDigits(PadLeft(Digits(n), width, '0'))
    ensures Value(PadLeft(Digits(n), width, '0')) == n
  {
    var s := Digits(n);
    ValueOfDigits(n);
    if |s| < width {
      ValueIgnoresLeadingZeros(width - |s|, s);
    }
  }

  lemma {:induction false} DigitsLength(n: nat, k: nat)
    requires 1 <= k && n < Pow10(k)
    ensures |Digits(n)| <= k
    decreases n
  {
    if n >= 10 {
      assert 2 <= k;
      DigitsLength(n / 10, k - 1);
    }
  }

  lemma {:induction false} ValueBound(s: string)
    requires AllDigits(s)
    ensures Value(s) < Pow10(|s|)
    decreases |s|
  {
    if s != [] {
      ValueBound(s[..|s| - 1]);
    }
  }

  /** Reading a digit string from the front: the first digit weighs 10^(n-1). */
  lemma {:induction false} ValueFromFront(s: string)
    requires AllDigits(s) && 1 <= |s|
    ensures Value(s) == DigitValue(s[0]) * Pow10(|s| - 1) + Value(s[1..])
    decreases |s|
  {
    var n := |s|;
    if n == 1 {
      assert s[..0] == [] && s[1..] == [];
    } else {
      var init := s[..n - 1];
      ValueFromFront(init);
      assert init[1..] == s[1..][..n - 2];
      var d0, p := DigitValue(s[0]), Pow10(n - 2);
      calc {
        Value(s);
        Value(init) * 10 + DigitValue(s[n - 1]);
        (d0 * p + Value(init[1..])) * 10 + DigitValue(s[n - 1]);
        { assert (d0 * p) * 10 == d0 * (10 * p); }
        d0 * Pow10(n - 1) + (Value(s[1..][..n - 2]) * 10 + DigitValue(s[1..][n - 2]));
        d0 * Pow10(n - 1) + Value(s[1..]);
      }
    }
  }

  // ---------------------------------------------------------------------
  // Order

  lemma {:induction false} LexLessIrreflexive(a: string)
    ensures !LexLess(a, a)
    decreases |a|
  {
    if a != [] {
      LexLessIrreflexive(a[1..]);
    }
  }

  lemma {:induction false} LexLessAsymmetric(a: string, b: string)
    requires LexLess(a, b)
    ensures !LexLess(b, a)
    decreases |a|
  {
    if a != [] && a[0] == b[0] && LexLess(a[1..], b[1..]) {
      LexLessAsymmetric(a[1..], b[1..]);
    }
  }

  /** A common prefix does not change the order of two strings. */
  lemma {:induction false} LexLessCommonPrefix(p: string, a: string, b: string)
    ensures LexLess(p + a, p + b) == LexLess(a, b)
    decreases |p|
  {
    if p == [] {
      assert p + a == a && p + b == b;
    } else {
      assert (p + a)[1..] == p[1..] + a;
      assert (p + b)[1..] == p[1..] + b;
      LexLessCommonPrefix(p[1..], a, b);
    }
  }

  lemma {:induction false} MulMonotone(a: nat, b: nat, p: nat)
    requires a <= b
    ensures a * p <= b * p
    decreases b - a
  {
    if a < b {
      MulMonotone(a, b - 1, p);
      assert b * p == (b - 1) * p + p;
    }
  }

  lemma LeadingDigitDominates(lo: nat, hi: nat, p: nat, rLo: nat, rHi: nat)
    requires lo < hi && rLo < p
    ensures lo * p + rLo < hi * p + rHi
  {
    MulMonotone(lo + 1, hi, p);
    assert (lo + 1) * p == lo * p + p;
  }

  /** For digit strings of equal length, bytewise order follows numeric order. */
  lemma {:induction false} LexLessFollowsValue(a: string, b: string)
    requires AllDigits(a) && AllDigits(b) && |a| == |b|
    requires Value(a) < Value(b)
    ensures LexLess(a, b)
    decreases |a|
  {
    if a == [] {
      assert false;
    }
    ValueFromFront(a);
    ValueFromFront(b);
    var da, db, p := DigitValue(a[0]), DigitValue(b[0]), Pow10(|a| - 1);
    if da < db {
      assert a[0] < b[0];
    } else if da == db {
      LexLessFollowsValue(a[1..], b[1..]);
    } else {
      ValueBound(b[1..]);
      LeadingDigitDominates(db, da, p, Value(b[1..]), Value(a[1..]));
      assert false;
    }
  }
}
