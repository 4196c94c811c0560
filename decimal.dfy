/** Decimal text of unsigned integers, as printed by "%llu" and as parsed by
    the .NET Convert.ToUInt32. */
module Decimal {
  predicate IsDigit(c: char) { '0' <= c <= '9' }

  function DigitChar(d: nat): (c: char)
    requires d < 10
    ensures IsDigit(c) && c as int - '0' as int == d
  {
    ('0' as int + d) as char
  }

  predicate AllDigits(s: string)
  {
    forall i :: 0 <= i < |s| ==> IsDigit(s[i])
  }

  /** The shortest decimal representation of n. */
  function NatToString(n: nat): (s: string)
    ensures |s| > 0 && AllDigits(s)
    ensures (|s| > 1 ==> s[0] != '0')
    decreases n
  {
    if n < 10 then [DigitChar(n)] else NatToString(n / 10) + [DigitChar(n % 10)]
  }

  /** The value of a string of decimal digits. */
  function DigitsValue(s: string): (v: nat)
    requires forall i :: 0 <= i < |s| ==> IsDigit(s[i])
    decreases |s|
  {
    if s == [] then 0
    else
      assert IsDigit(s[|s| - 1]);
      DigitsValue(s[..|s| - 1]) * 10 + (s[|s| - 1] as int - '0' as int)
  }

  /** Reading back the printed digits yields the number. */
  lemma {:induction false} NatToStringValue(n: nat)
    ensures DigitsValue(NatToString(n)) == n
    decreases n
  {
    var s := NatToString(n);
    if n >= 10 {
      NatToStringValue(n / 10);
      assert s[..|s| - 1] == NatToString(n / 10);
    }
  }

  /** The length of the run of digits a text begins with. */
  function LeadingDigits(t: string): (n: nat)
    ensures n <= |t| && forall i :: 0 <= i < n ==> IsDigit(t[i])
    ensures n < |t| ==> !IsDigit(t[n])
  {
    if |t| == 0 || !IsDigit(t[0]) then 0 else 1 + LeadingDigits(t[1..])
  }

  /** Digits followed by nothing or by text that does not begin with a
      digit: the run is exactly the digits. */
  lemma {:induction false} LeadingDigitsOf(s: string, x: string)
    requires AllDigits(s)
    requires |x| == 0 || !IsDigit(x[0])
    ensures LeadingDigits(s + x) == |s|
    decreases |s|
  {
    if |s| == 0 {
      assert s + x == x;
    } else {
      assert (s + x)[0] == s[0];
      assert (s + x)[1..] == s[1..] + x;
      LeadingDigitsOf(s[1..], x);
    }
  }

  /** A run of digits that ends inside x is not extended by what follows x. */
  lemma {:induction false} LeadingDigitsPrefix(x: string, y: string)
    requires LeadingDigits(x) < |x|
    ensures LeadingDigits(x + y) == LeadingDigits(x)
    decreases |x|
  {
    assert (x + y)[0] == x[0];
    if IsDigit(x[0]) {
      assert (x + y)[1..] == x[1..] + y;
      LeadingDigitsPrefix(x[1..], y);
    }
  }

  /** s holds no digit at all. */
  predicate NoDigits(s: string)
  {
    forall i :: 0 <= i < |s| ==> !IsDigit(s[i])
  }

  /** x does not end in the middle of a number. */
  predicate EndsOutsideNumber(x: string)
  {
    |x| == 0 || !IsDigit(x[|x| - 1])
  }

  /** The numbers written in text m, in order: each maximal run of digits
      read as a decimal number. */
  function Numbers(m: string): seq<nat>
    decreases |m|
  {
    if |m| == 0 then []
    else if !IsDigit(m[0]) then Numbers(m[1..])
    else
      var n := LeadingDigits(m);
      [DigitsValue(m[..n])] + Numbers(m[n..])
  }

  /** Text without digits holds no numbers. */
  lemma {:induction false} NumbersOfText(s: string)
    requires NoDigits(s)
    ensures Numbers(s) == []
    decreases |s|
  {
    if |s| > 0 {
      NumbersOfText(s[1..]);
    }
  }

  /** The numbers of two texts joined where no number is cut in two are
      the numbers of the first followed by those of the second. */
  lemma {:induction false} NumbersAppend(x: string, y: string)
    requires EndsOutsideNumber(x) || |y| == 0 || !IsDigit(y[0])
    ensures Numbers(x + y) == Numbers(x) + Numbers(y)
    decreases |x|
  {
    if |x| == 0 {
      assert x + y == y;
    } else if !IsDigit(x[0]) {
      NumbersAppend(x[1..], y);
      TextThenRest(x, y);
    } else if LeadingDigits(x) < |x| {
      NumbersAppend(x[LeadingDigits(x)..], y);
      RunThenRest(x, y);
    } else {
      RunThenNoDigit(x, y);
    }
  }

  /** One step of NumbersAppend: a text that begins with a non-digit. */
  lemma TextThenRest(x: string, y: string)
    requires |x| > 0 && !IsDigit(x[0])
    requires Numbers(x[1..] + y) == Numbers(x[1..]) + Numbers(y)
    ensures Numbers(x + y) == Numbers(x) + Numbers(y)
  {
    assert (x + y)[0] == x[0];
    assert (x + y)[1..] == x[1..] + y;
  }

  /** One step of NumbersAppend: a run of digits that ends inside x. */
  lemma RunThenRest(x: string, y: string)
    requires |x| > 0 && IsDigit(x[0]) && LeadingDigits(x) < |x|
    requires Numbers(x[LeadingDigits(x)..] + y) == Numbers(x[LeadingDigits(x)..]) + Numbers(y)
    ensures Numbers(x + y) == Numbers(x) + Numbers(y)
  {
    var n := LeadingDigits(x);
    assert (x + y)[0] == x[0];
    LeadingDigitsPrefix(x, y);
    assert (x + y)[..n] == x[..n];
    assert (x + y)[n..] == x[n..] + y;
  }

  /** The last step of NumbersAppend: x is all digits and y does not go
      on with one. */
  lemma RunThenNoDigit(x: string, y: string)
    requires |x| > 0 && IsDigit(x[0]) && LeadingDigits(x) == |x|
    requires |y| == 0 || !IsDigit(y[0])
    ensures Numbers(x + y) == Numbers(x) + Numbers(y)
  {
    var n := |x|;
    assert (x + y)[0] == x[0];
    LeadingDigitsOf(x, y);
    assert (x + y)[..n] == x == x[..n];
    assert (x + y)[n..] == y;
    assert x[n..] == [];
  }

  /** A printed number holds exactly that number. */
  lemma {:induction false} NumbersOfNat(a: nat)
    ensures Numbers(NatToString(a)) == [a]
  {
    var s := NatToString(a);
    LeadingDigitsOf(s, []);
    assert s + [] == s;
    assert s[..|s|] == s;
    assert s[|s|..] == [];
    NatToStringValue(a);
  }

  /** A number printed after x and followed by text q without digits
      adds exactly that number to the numbers of x. */
  lemma {:induction false} NumberThenText(x: string, a: nat, q: string)
    requires EndsOutsideNumber(x) && NoDigits(q) && |q| > 0
    ensures Numbers(x + NatToString(a) + q) == Numbers(x) + [a]
    ensures EndsOutsideNumber(x + NatToString(a) + q)
  {
    NumbersAppend(x, NatToString(a));
    NumbersAppend(x + NatToString(a), q);
    NumbersOfNat(a);
    NumbersOfText(q);
  }

  /** Two numbers printed between texts without digits are the numbers
      of the whole, in order. */
  lemma {:induction false} TwoNumbers(p: string, a: nat, q: string, b: nat, r: string)
    requires NoDigits(p) && NoDigits(q) && NoDigits(r) && |q| > 0 && |r| > 0
    ensures Numbers(p + NatToString(a) + q + NatToString(b) + r) == [a, b]
  {
    NumbersOfText(p);
    NumberThenText(p, a, q);
    NumberThenText(p + NatToString(a) + q, b, r);
  }

  /** One number printed between texts without digits is the only
      number of the whole. */
  lemma {:induction false} OneNumber(p: string, a: nat, q: string, s: string, r: string)
    requires NoDigits(p) && NoDigits(q) && NoDigits(s) && NoDigits(r) && |q| > 0
    ensures Numbers(p + NatToString(a) + q + s + r) == [a]
  {
    NumbersOfText(p);
    NumberThenText(p, a, q);
    NumbersAppend(p + NatToString(a) + q, s);
    NumbersOfText(s);
    NumbersAppend(p + NatToString(a) + q + s, r);
    NumbersOfText(r);
  }

  /** Three numbers printed between texts without digits are the numbers
      of the whole, in order. */
  lemma {:induction false} ThreeNumbers(p: string, a: nat, q: string, b: nat, r: string, c: nat, t: string)
    requires NoDigits(p) && NoDigits(q) && NoDigits(r) && NoDigits(t)
    requires |q| > 0 && |r| > 0 && |t| > 0
    ensures Numbers(p + NatToString(a) + q + NatToString(b) + r + NatToString(c) + t) == [a, b, c]
  {
    TwoNumbers(p, a, q, b, r);
    NumberThenText(p + NatToString(a) + q + NatToString(b) + r, c, t);
  }
}
