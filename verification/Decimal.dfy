/** Decimal printing: `std::to_chars` in base ten and the zero-padded `%0Nd` of `snprintf`. */
module Decimal {
  import opened Text

  function Pow10(n: nat): (p: nat)
    ensures p > 0
  {
    if n == 0 then 1 else 10 * Pow10(n - 1)
  }

  function DigitChar(d: nat): (c: char)
    requires d < 10
    ensures '0' <= c <= '9'
  {
    ('0' as int + d) as char
  }

  predicate IsDigit(c: char) {
    '0' <= c <= '9'
  }

  predicate AllDigits(s: string) {
    forall i :: 0 <= i < |s| ==> IsDigit(s[i])
  }

  /** A positive number as the registration of proofs demands it, and as JSON writes it. */
  predicate IsCount(s: string) {
    s != "" && s[0] != '0' && AllDigits(s)
  }

  /** The number a run of digits denotes. */
  function Value(s: string): nat
    requires AllDigits(s)
  {
    if s == "" then 0 else 10 * Value(s[..|s| - 1]) + (s[|s| - 1] as int - '0' as int)
  }

  /** The decimal digits of `n`, no leading zero. */
  function Natural(n: nat): (s: string)
    ensures s != "" && AllDigits(s)
  {
    if n < 10 then [DigitChar(n)] else Natural(n / 10) + [DigitChar(n % 10)]
  }

  /** What `std::to_chars` writes for an integer. */
  function ToChars(v: int): (s: string)
    ensures s != ""
  {
    if v < 0 then "-" + Natural(-v) else Natural(v)
  }

  /** What the conversion `%0Nd` writes for an integer. */
  function ZeroPadded(v: int, width: nat): string {
    var sign := if v < 0 then "-" else "";
    var digits := Natural(if v < 0 then -v else v);
    var used := |sign| + |digits|;
    sign + Repeat('0', if used < width then width - used else 0) + digits
  }

  lemma ValueSnoc(s: string, c: char)
    requires AllDigits(s) && IsDigit(c)
    ensures AllDigits(s + [c])
    ensures Value(s + [c]) == 10 * Value(s) + (c as int - '0' as int)
  {
    assert (s + [c])[..|s|] == s;
  }

  lemma {:induction false} NaturalValue(n: nat)
    ensures Value(Natural(n)) == n
  {
    if n < 10 {
      assert [DigitChar(n)][..0] == "";
    } else {
      NaturalValue(n / 10);
      ValueSnoc(Natural(n / 10), DigitChar(n % 10));
    }
  }

  /** A number has at most `w` digits exactly when it is below ten to the `w`. */
  lemma {:induction false} NaturalLength(n: nat, w: nat)
    requires w > 0
    ensures |Natural(n)| <= w <==> n < Pow10(w)
  {
    if w == 1 {
      assert Pow10(1) == 10 * Pow10(0);
      if n >= 10 {
        assert |Natural(n)| == |Natural(n / 10)| + 1;
      }
    } else if n >= 10 {
      NaturalLength(n / 10, w - 1);
      assert Pow10(w) == 10 * Pow10(w - 1);
      assert |Natural(n)| == |Natural(n / 10)| + 1;
    } else {
      PowAtLeastTen(w);
    }
  }

  lemma {:induction false} PowAtLeastTen(w: nat)
    requires w > 0
    ensures Pow10(w) >= 10
  {
    if w > 1 {
      PowAtLeastTen(w - 1);
    }
  }

  lemma {:induction false} LeadingZeros(k: nat, s: string)
    requires AllDigits(s)
    ensures AllDigits(Repeat('0', k) + s)
    ensures Value(Repeat('0', k) + s) == Value(s)
  {
    var zeros := Repeat('0', k);
    if s != "" {
      LeadingZeros(k, s[..|s| - 1]);
      assert zeros + s == (zeros + s[..|s| - 1]) + [s[|s| - 1]];
      ValueSnoc(zeros + s[..|s| - 1], s[|s| - 1]);
    } else if k > 0 {
      LeadingZeros(k - 1, "");
      assert zeros + "" == (Repeat('0', k - 1) + "") + ['0'];
      ValueSnoc(Repeat('0', k - 1) + "", '0');
    } else {
      assert zeros + s == "";
    }
  }

  /** A padded field that fits has the exact width and denotes its number. */
  lemma PaddedField(n: nat, width: nat)
    requires width > 0 && n < Pow10(width)
    ensures |ZeroPadded(n, width)| == width
    ensures AllDigits(ZeroPadded(n, width)) && Value(ZeroPadded(n, width)) == n
  {
    NaturalLength(n, width);
    NaturalValue(n);
    var digits := Natural(n);
    LeadingZeros(width - |digits|, digits);
    assert ZeroPadded(n, width) == Repeat('0', width - |digits|) + digits;
  }

  lemma ThreeMore(n: nat)
    ensures Pow10(n + 3) == 1000 * Pow10(n)
  {
    assert Pow10(n + 1) == 10 * Pow10(n) && Pow10(n + 2) == 10 * Pow10(n + 1);
  }

  lemma LargePowers()
    ensures Pow10(18) == 1_000_000_000_000_000_000
    ensures Pow10(19) == 10_000_000_000_000_000_000
    ensures Pow10(20) == 100_000_000_000_000_000_000
  {
    ThreeMore(0);
    ThreeMore(3);
    ThreeMore(6);
    ThreeMore(9);
    ThreeMore(12);
    ThreeMore(15);
    assert Pow10(19) == 10 * Pow10(18) && Pow10(20) == 10 * Pow10(19);
  }

  lemma {:induction false} ValueBound(s: string)
    requires AllDigits(s)
    ensures Value(s) < Pow10(|s|)
  {
    if s != "" {
      ValueBound(s[..|s| - 1]);
    }
  }

  lemma ShiftDigit(v: int, p: int, low: int, d: int)
    ensures 10 * (v * p + low) + d == v * (10 * p) + (10 * low + d)
  {
    assert v * (10 * p) == 10 * (v * p);
  }

  lemma {:induction false} ValueSplit(front: string, back: string)
    requires AllDigits(front) && AllDigits(back)
    ensures AllDigits(front + back)
    ensures Value(front + back) == Value(front) * Pow10(|back|) + Value(back)
  {
    if back == "" {
      assert front + back == front;
    } else {
      var init, last := back[..|back| - 1], back[|back| - 1];
      ValueSplit(front, init);
      ValueSnoc(init, last);
      assert init + [last] == back && front + back == (front + init) + [last];
      ValueSnoc(front + init, last);
      ShiftDigit(Value(front), Pow10(|init|), Value(init), last as int - '0' as int);
    }
  }

  lemma ValueDigit(c: char)
    requires IsDigit(c)
    ensures Value([c]) == c as int - '0' as int
  {
    ValueSnoc("", c);
    assert "" + [c] == [c];
  }

  /** The leading digit's share of a number's value. */
  lemma LeadingDigit(s: string)
    requires AllDigits(s) && s != ""
    ensures Value(s) == (s[0] as int - '0' as int) * Pow10(|s| - 1) + Value(s[1..])
    ensures Value(s[1..]) < Pow10(|s| - 1)
  {
    assert s == [s[0]] + s[1..];
    ValueDigit(s[0]);
    ValueSplit([s[0]], s[1..]);
    ValueBound(s[1..]);
  }

  lemma {:induction false} ScaledOrder(x: int, y: int, p: int)
    requires x > y && p >= 0
    ensures x * p >= y * p + p
    decreases x - y
  {
    assert x * p == (x - 1) * p + p;
    if x > y + 1 {
      ScaledOrder(x - 1, y, p);
    }
  }

  /** On digit strings of one length, the smaller number is the lexicographically smaller text. */
  lemma {:induction false} DigitOrder(a: string, b: string)
    requires AllDigits(a) && AllDigits(b) && |a| == |b| && Value(a) < Value(b)
    ensures LexLess(a, b)
  {
    LeadingDigit(a);
    LeadingDigit(b);
    if a[0] > b[0] {
      ScaledOrder(a[0] as int - '0' as int, b[0] as int - '0' as int, Pow10(|a| - 1));
      assert false;
    } else if a[0] == b[0] {
      DigitOrder(a[1..], b[1..]);
    }
  }
}
