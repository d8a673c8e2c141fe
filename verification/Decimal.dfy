/** Decimal numbers as text: reading, zero-padded writing, and how the two orders relate. */
module Decimal {
  import opened Ordering

  predicate IsDigit(c: char) {
    '0' <= c <= '9'
  }

  function ToNat(s: string): nat {
    if s == "" then 0
    else
      var c := s[|s| - 1];
      10 * ToNat(s[..|s| - 1]) + (if IsDigit(c) then c as int - '0' as int else 0)
  }

  /** `f"{n:0{w}d}"`: at least `w` digits, and no fewer than `n` needs. */
  function Format(n: nat, w: nat): string
    decreases n, w
  {
    if n < 10 && w <= 1 then [DigitChar(n)]
    else Format(n / 10, if w == 0 then 0 else w - 1) + [DigitChar(n % 10)]
  }

  function DigitChar(d: nat): (c: char)
    requires d < 10
    ensures IsDigit(c) && c as int - '0' as int == d
  {
    ('0' as int + d) as char
  }

  function Power(w: nat): (p: nat)
    ensures p >= 1
  {
    if w == 0 then 1 else 10 * Power(w - 1)
  }

  /** Reading undoes writing, whatever the width. */
  lemma {:induction false} FormatReads(n: nat, w: nat)
    ensures ToNat(Format(n, w)) == n
    ensures forall i :: 0 <= i < |Format(n, w)| ==> IsDigit(Format(n, w)[i])
    decreases n, w
  {
    if n < 10 && w <= 1 {
      assert [DigitChar(n)][..0] == "";
    } else {
      var v := if w == 0 then 0 else w - 1;
      FormatReads(n / 10, v);
      var front := Format(n / 10, v);
      assert (front + [DigitChar(n % 10)])[..|front|] == front;
    }
  }

  lemma {:induction false} FormatWidth(n: nat, w: nat)
    requires n < Power(w) && 1 <= w
    ensures |Format(n, w)| == w
  {
    if w == 1 {
      assert Power(1) == 10 * Power(0);
    } else {
      FormatWidth(n / 10, w - 1);
    }
  }

  predicate Precedes(a: string, b: string) {
    StringLe(a, b) && a != b
  }

  /** Text is compared at the first difference. */
  lemma {:induction false} ComparedAt(front: string, a: string, b: string)
    ensures StringLe(front + a, front + b) <==> StringLe(a, b)
  {
    if front != "" {
      assert (front + a)[1..] == front[1..] + a && (front + b)[1..] == front[1..] + b;
      ComparedAt(front[1..], a, b);
    } else {
      assert front + a == a && front + b == b;
    }
  }

  lemma {:induction false} PrefixDecides(a: string, b: string, x: string, y: string)
    requires |a| == |b| && Precedes(a, b)
    ensures Precedes(a + x, b + y)
  {
    if a[0] == b[0] {
      assert a == [a[0]] + a[1..] && b == [b[0]] + b[1..];
      PrefixDecides(a[1..], b[1..], x, y);
      assert (a + x)[1..] == a[1..] + x && (b + y)[1..] == b[1..] + y;
    } else {
      assert (a + x)[0] == a[0] && (b + y)[0] == b[0];
    }
  }

  /** Numbers of the same width order as text the way they order as numbers. */
  lemma {:induction false} FormatOrders(m: nat, n: nat, w: nat)
    requires m < n < Power(w) && 1 <= w
    ensures Precedes(Format(m, w), Format(n, w))
  {
    if w == 1 {
      assert Power(1) == 10 * Power(0);
    } else {
      var (front, back) := (Format(m / 10, w - 1), Format(n / 10, w - 1));
      var (x, y) := ([DigitChar(m % 10)], [DigitChar(n % 10)]);
      if m / 10 < n / 10 {
        FormatOrders(m / 10, n / 10, w - 1);
        FormatWidth(m / 10, w - 1);
        FormatWidth(n / 10, w - 1);
        PrefixDecides(front, back, x, y);
      } else {
        assert m / 10 == n / 10 && m % 10 < n % 10;
        ComparedAt(front, x, y);
        assert (front + x)[|front|] != (front + y)[|front|];
      }
    }
  }

  lemma TenTimes(d: nat, p: nat)
    ensures d * (10 * p) == 10 * (d * p)
  {}

  lemma TenthBetween(n: nat, a: nat, b: nat)
    requires 10 * a <= n < 10 * b
    ensures a <= n / 10 < b
  {}

  /** The first digit of a number of full width. */
  lemma {:induction false} LeadingDigit(n: nat, d: nat, w: nat)
    requires d < 10 && d * Power(w) <= n < (d + 1) * Power(w)
    ensures Format(n, w + 1)[0] == DigitChar(d)
  {
    if w > 0 {
      var p := Power(w - 1);
      TenTimes(d, p);
      TenTimes(d + 1, p);
      TenthBetween(n, d * p, (d + 1) * p);
      LeadingDigit(n / 10, d, w - 1);
    }
  }
}
