/** Decimal text of non-negative integers: the rendering String.valueOf gives
    an int, and the reading new BigInteger(String) gives a digit string. */
module Decimal {
  import opened Base

  type Digit = d: int | 0 <= d < 10

  function Pow10(n: nat): (r: nat)
    ensures r >= 1
  {
    if n == 0 then 1 else 10 * Pow10(n - 1)
  }

  /** String.valueOf(n): the digits of n, most significant first, with no
      leading zero except for zero itself. */
  function Text(n: nat): (ds: seq<Digit>)
    ensures |ds| >= 1
    ensures n > 0 ==> ds[0] != 0
    decreases n
  {
    if n < 10 then [n] else Text(n / 10) + [n % 10]
  }

  /** The number a digit string denotes, most significant digit first. */
  function Value(ds: seq<Digit>): nat
  {
    if ds == [] then 0 else Value(ds[..|ds| - 1]) * 10 + ds[|ds| - 1]
  }

  /** A digit string as String.valueOf could have produced it. */
  predicate Canonical(ds: seq<Digit>)
  {
    ds != [] && (ds[0] != 0 || |ds| == 1)
  }

  /** new BigInteger(text) on a digit string: leading zeros are accepted, the
      empty text is a NumberFormatException. */
  function Parse(ds: seq<Digit>): (r: Option<nat>)
    ensures r.None? <==> ds == []
    ensures Canonical(ds) ==> r.Some? && Text(r.value) == ds
  {
    if ds == [] then None
    else
      assert Canonical(ds) ==> Text(Value(ds)) == ds by {
        if Canonical(ds) { ValueText(ds); }
      }
      Some(Value(ds))
  }

  /** Reading back what String.valueOf wrote gives the number again. */
  lemma {:induction false} TextValue(n: nat)
    ensures Value(Text(n)) == n
    decreases n
  {
    if n >= 10 {
      var p := Text(n / 10);
      assert Text(n) == p + [n % 10];
      assert (p + [n % 10])[..|p|] == p;
      TextValue(n / 10);
    }
  }

  lemma {:induction false} ValuePositive(ds: seq<Digit>)
    requires ds != [] && ds[0] != 0
    ensures Value(ds) > 0
    decreases |ds|
  {
    if |ds| > 1 {
      var p := ds[..|ds| - 1];
      ValuePositive(p);
    }
  }

  /** Rendering the number a canonical digit string denotes gives the string
      back: a canonical text and its value determine each other. */
  lemma {:induction false} ValueText(ds: seq<Digit>)
    requires Canonical(ds)
    ensures Text(Value(ds)) == ds
    decreases |ds|
  {
    if |ds| > 1 {
      var p := ds[..|ds| - 1];
      var d := ds[|ds| - 1];
      ValuePositive(p);
      ValueText(p);
      var v := Value(p) * 10 + d;
      assert v / 10 == Value(p) && v % 10 == d;
      assert ds == p + [d];
    }
  }

  lemma ShiftStep(va: int, p: int, vb: int, d: int)
    ensures (va * p + vb) * 10 + d == va * (10 * p) + (vb * 10 + d)
  {
  }

  /** The value of a concatenation: the left part is shifted by as many
      decimal places as the right part has digits. */
  lemma {:induction false} ValueAppend(a: seq<Digit>, b: seq<Digit>)
    ensures Value(a + b) == Value(a) * Pow10(|b|) + Value(b)
    decreases |b|
  {
    if b == [] {
      assert a + b == a;
    } else {
      var b' := b[..|b| - 1];
      var d := b[|b| - 1];
      assert (a + b)[..|a + b| - 1] == a + b';
      ValueAppend(a, b');
      var va, p, vb := Value(a), Pow10(|b'|), Value(b');
      assert Value(a + b) == Value(a + b') * 10 + d;
      assert Value(b) == vb * 10 + d;
      assert Pow10(|b|) == 10 * p;
      ShiftStep(va, p, vb, d);
    }
  }
}
