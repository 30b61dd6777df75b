/** The decimal-concatenation encoding of a name and the filter on its first
    letter, shared by every LatencyProblem01 variant. A Java string is a
    sequence of UTF-16 code units. */
module Codec {
  import opened Base
  import Decimal

  type CodeUnit = c: char | c as int < 0x1_0000 witness 'a'
  type JString = seq<CodeUnit>

  /** toDigits: the numeric value of every code unit, in order (String.chars()). */
  function ToDigits(s: JString): (li: seq<nat>)
  {
    seq(|s|, i requires 0 <= i < |s| => s[i] as int)
  }

  /** concatDigits: the decimal text of every value, joined with no separator. */
  function ConcatDigits(li: seq<nat>): (ds: seq<Decimal.Digit>)
    ensures |ds| >= |li|
  {
    if li == [] then [] else ConcatDigits(li[..|li| - 1]) + Decimal.Text(li[|li| - 1])
  }

  /** toDigits.andThen(concatDigits).andThen(BigInteger::new): the empty name
      has an empty text, which BigInteger rejects. When the first unit is not
      U+0000 the text has no leading zero, so the encoding is exactly the
      integer whose decimal text is the concatenation. */
  function Encode(s: JString): (r: Option<nat>)
    ensures r.None? <==> s == []
    ensures s != [] && s[0] != '\0' ==> r.Some? && Decimal.Text(r.value) == ConcatDigits(ToDigits(s))
  {
    var text := ConcatDigits(ToDigits(s));
    assert s != [] ==> text[..|Decimal.Text(s[0] as int)|] == Decimal.Text(s[0] as int) by {
      if s != [] { ConcatDigitsHead(ToDigits(s)); }
    }
    Decimal.Parse(text)
  }

  /** The number a name denotes, on every name (zero for the empty one). */
  function Code(s: JString): nat
  {
    Decimal.Value(ConcatDigits(ToDigits(s)))
  }

  /** The concatenated text starts with the text of the first value. */
  lemma {:induction false} ConcatDigitsHead(li: seq<nat>)
    requires li != []
    ensures |ConcatDigits(li)| >= |Decimal.Text(li[0])|
    ensures ConcatDigits(li)[..|Decimal.Text(li[0])|] == Decimal.Text(li[0])
    decreases |li|
  {
    if |li| > 1 {
      var p := li[..|li| - 1];
      ConcatDigitsHead(p);
      assert p[0] == li[0];
    }
  }

  /** Joining is a homomorphism from lists of values to digit strings. */
  lemma {:induction false} ConcatDigitsAppend(a: seq<nat>, b: seq<nat>)
    ensures ConcatDigits(a + b) == ConcatDigits(a) + ConcatDigits(b)
    decreases |b|
  {
    if b == [] {
      assert a + b == a;
    } else {
      var b' := b[..|b| - 1];
      assert (a + b)[..|a + b| - 1] == a + b';
      ConcatDigitsAppend(a, b');
    }
  }

  /** Appending a unit c to a name shifts its code left by as many decimal
      places as c has digits, and adds c. */
  lemma CodeSnoc(s: JString, c: CodeUnit)
    ensures Code(s + [c]) == Code(s) * Decimal.Pow10(|Decimal.Text(c as int)|) + c as int
  {
    var li := ToDigits(s);
    var t := Decimal.Text(c as int);
    assert ToDigits(s + [c]) == li + [c as int];
    assert (li + [c as int])[..|li|] == li;
    assert ConcatDigits(li + [c as int]) == ConcatDigits(li) + t;
    Decimal.ValueAppend(ConcatDigits(li), t);
    Decimal.TextValue(c as int);
  }

  /** Appending a unit c to a non-empty name shifts its encoding left by as
      many decimal places as c has digits, and adds c. */
  lemma EncodeSnoc(s: JString, c: CodeUnit)
    requires s != []
    ensures Encode(s + [c]) == Some(Encode(s).value * Decimal.Pow10(|Decimal.Text(c as int)|) + c as int)
  {
    EncodeIsCode(s);
    EncodeIsCode(s + [c]);
    CodeSnoc(s, c);
  }

  /** A one-unit name encodes to the unit's value. */
  lemma EncodeUnit(c: CodeUnit)
    ensures Encode([c]) == Some(c as int)
  {
    var none: JString := [];
    assert none + [c] == [c];
    CodeSnoc(none, c);
    assert ToDigits(none) == [];
    EncodeIsCode([c]);
  }

  /** On a non-empty name the encoding is its code. */
  lemma EncodeIsCode(s: JString)
    requires s != []
    ensures Encode(s) == Some(Code(s))
  {
  }

  /** Character.toLowerCase on one code unit, for the Basic Latin letters. */
  function ToLower(c: CodeUnit): CodeUnit
  {
    if 'A' <= c <= 'Z' then (c as int + 32) as char else c
  }

  /** String.toLowerCase, unit by unit. */
  function ToLowerCase(s: JString): (r: JString)
    ensures |r| == |s|
  {
    seq(|s|, i requires 0 <= i < |s| => ToLower(s[i]))
  }

  /** The names the pipelines look for: first unit 'n' or 'N'. */
  predicate IsNName(s: JString)
  {
    s != [] && (s[0] == 'n' || s[0] == 'N')
  }

  /** godStartingByn of the java and rxjava modules: charAt(0) of the
      lower-cased name, which throws on the empty name. */
  function GodStartingByN(s: JString): (r: Result<bool>)
    ensures r.Err? <==> s == []
    ensures r.Err? ==> r.error == StringIndexOutOfBounds
    ensures r.Ok? ==> (r.value <==> IsNName(s))
  {
    var lower := ToLowerCase(s);
    if |lower| == 0 then Err(StringIndexOutOfBounds) else Ok(lower[0] == 'n')
  }

  /** godStartingByn of the reactor modules: the same test behind a guard
      that rejects the empty name. */
  function GodStartingByNGuarded(s: JString): (r: bool)
    ensures r <==> IsNName(s)
    ensures r <==> GodStartingByN(s) == Ok(true)
  {
    if |s| == 0 then false else ToLowerCase(s)[0] == 'n'
  }

  /** Reference sum: the codes of the names that pass the filter. */
  function MatchSum(items: seq<JString>): nat
  {
    if items == [] then 0
    else (if IsNName(items[0]) then Code(items[0]) else 0) + MatchSum(items[1..])
  }

  /** Reference for the filter: the names that start with 'n' or 'N',
      unchanged and in their order. */
  function Select(items: seq<JString>): (r: seq<JString>)
    ensures |r| <= |items|
    ensures forall i :: 0 <= i < |r| ==> IsNName(r[i])
  {
    if items == [] then []
    else (if IsNName(items[0]) then [items[0]] else []) + Select(items[1..])
  }

  /** A name is selected exactly when it is in the list and starts with n. */
  lemma {:induction false} SelectMembers(items: seq<JString>, x: JString)
    ensures x in Select(items) <==> x in items && IsNName(x)
    decreases |items|
  {
    if items != [] {
      SelectMembers(items[1..], x);
      assert x in items <==> x == items[0] || x in items[1..];
    }
  }

  /** Selecting from a concatenation selects from each part. */
  lemma {:induction false} SelectAppend(a: seq<JString>, b: seq<JString>)
    ensures Select(a + b) == Select(a) + Select(b)
    decreases |a|
  {
    if a != [] {
      assert (a + b)[1..] == a[1..] + b;
      SelectAppend(a[1..], b);
    } else {
      assert a + b == b;
    }
  }

  lemma {:induction false} MatchSumAppend(a: seq<JString>, b: seq<JString>)
    ensures MatchSum(a + b) == MatchSum(a) + MatchSum(b)
    decreases |a|
  {
    if a != [] {
      assert (a + b)[1..] == a[1..] + b;
      MatchSumAppend(a[1..], b);
    } else {
      assert a + b == b;
    }
  }

  /** Names that do not start with 'n' or 'N' add nothing. */
  lemma {:induction false} MatchSumNone(items: seq<JString>)
    requires forall i :: 0 <= i < |items| ==> !IsNName(items[i])
    ensures MatchSum(items) == 0
    decreases |items|
  {
    if items != [] {
      MatchSumNone(items[1..]);
    }
  }

  /** Taking element j out of b leaves the multiset of b without it. */
  lemma MultisetWithout(b: seq<JString>, j: nat)
    requires j < |b|
    ensures multiset(b[..j] + b[j + 1..]) == multiset(b) - multiset{b[j]}
  {
    assert b == b[..j] + [b[j]] + b[j + 1..];
  }

  /** Taking element j out of b takes its term out of the sum. */
  lemma MatchSumWithout(b: seq<JString>, j: nat)
    requires j < |b|
    ensures MatchSum(b) == MatchSum(b[..j] + b[j + 1..]) + MatchSum([b[j]])
  {
    assert b == b[..j] + ([b[j]] + b[j + 1..]);
    MatchSumAppend(b[..j], [b[j]] + b[j + 1..]);
    MatchSumAppend([b[j]], b[j + 1..]);
    MatchSumAppend(b[..j], b[j + 1..]);
  }

  /** The sum does not depend on the order of the names. */
  lemma {:induction false} MatchSumPermutation(a: seq<JString>, b: seq<JString>)
    requires multiset(a) == multiset(b)
    ensures MatchSum(a) == MatchSum(b)
    decreases |a|
  {
    if a == [] {
      assert |b| == |multiset(b)| == 0;
    } else {
      var x := a[0];
      assert x in multiset(b);
      var j :| 0 <= j < |b| && b[j] == x;
      var rest := b[..j] + b[j + 1..];
      assert multiset(a[1..]) == multiset(rest) by {
        assert a == [x] + a[1..];
        MultisetWithout(b, j);
      }
      MatchSumPermutation(a[1..], rest);
      MatchSumWithout(b, j);
      MatchSumAppend([x], a[1..]);
      assert a == [x] + a[1..];
    }
  }

  lemma TextOfTwoDigits(n: nat)
    requires 10 <= n < 100
    ensures |Decimal.Text(n)| == 2
  {
    assert Decimal.Text(n) == Decimal.Text(n / 10) + [n % 10];
  }

  lemma TextOfThreeDigits(n: nat)
    requires 100 <= n < 1000
    ensures |Decimal.Text(n)| == 3
  {
    assert Decimal.Text(n) == Decimal.Text(n / 10) + [n % 10];
    TextOfTwoDigits(n / 10);
  }

  /** One step of the code for a unit of three decimal digits. */
  lemma CodeStep3(s: JString, c: CodeUnit)
    requires 100 <= c as int < 1000
    ensures Code(s + [c]) == Code(s) * 1000 + c as int
  {
    TextOfThreeDigits(c as int);
    assert Decimal.Pow10(3) == 1000;
    CodeSnoc(s, c);
  }

  /** One step of the code for a unit of two decimal digits. */
  lemma CodeStep2(s: JString, c: CodeUnit)
    requires 10 <= c as int < 100
    ensures Code(s + [c]) == Code(s) * 100 + c as int
  {
    TextOfTwoDigits(c as int);
    assert Decimal.Pow10(2) == 100;
    CodeSnoc(s, c);
  }

  /** The code of a one-unit name is the unit's value. */
  lemma CodeUnitName(c: CodeUnit)
    ensures Code([c]) == c as int
  {
    EncodeUnit(c);
    EncodeIsCode([c]);
  }

  /** The example in the classes' documentation is the encoding of the
      lower-case "zeus". */
  lemma EncodeLowerZeus()
    ensures Encode("zeus") == Some(122101117115)
  {
    var s1: JString := ['z'];
    var s2 := s1 + ['e'];
    var s3 := s2 + ['u'];
    var s4 := s3 + ['s'];
    CodeUnitName('z');
    CodeStep3(s1, 'e');
    CodeStep3(s2, 'u');
    CodeStep3(s3, 's');
    EncodeIsCode(s4);
    assert s4 == "zeus";
  }

  /** The name "Zeus", encoded as the code does it, keeps its capital. */
  lemma EncodeCapitalZeus()
    ensures Encode("Zeus") == Some(90101117115)
  {
    var s1: JString := ['Z'];
    var s2 := s1 + ['e'];
    var s3 := s2 + ['u'];
    var s4 := s3 + ['s'];
    CodeUnitName('Z');
    CodeStep3(s1, 'e');
    CodeStep3(s2, 'u');
    CodeStep3(s3, 's');
    EncodeIsCode(s4);
    assert s4 == "Zeus";
  }
}
