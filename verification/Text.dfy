/**
 * Text as the compiler compares it. The default JavaScript sort compares UTF-16 code
 * units; on well-formed text that is the lexicographic order of `Rank`, which puts the
 * supplementary characters (written with surrogates) before U+E000..U+FFFF.
 */
module Text {
  function Rank(c: char): int {
    var n := c as int;
    if n < 0xE000 then n else if n < 0x10000 then n + 0x200000 else n
  }

  /** `a <= b` in UTF-16 code unit order. */
  predicate AtMost(a: string, b: string) {
    |a| == 0 ||
    (|b| != 0 && (Rank(a[0]) < Rank(b[0]) || (a[0] == b[0] && AtMost(a[1..], b[1..]))))
  }

  lemma {:induction false} AtMostTotal(a: string, b: string)
    ensures AtMost(a, b) || AtMost(b, a)
  {
    if |a| != 0 && |b| != 0 && a[0] == b[0] {
      AtMostTotal(a[1..], b[1..]);
    }
  }

  lemma {:induction false} AtMostAntisymmetric(a: string, b: string)
    requires AtMost(a, b) && AtMost(b, a)
    ensures a == b
  {
    if |a| != 0 {
      AtMostAntisymmetric(a[1..], b[1..]);
      assert a == [a[0]] + a[1..] && b == [b[0]] + b[1..];
    }
  }

  lemma {:induction false} AtMostTransitive(a: string, b: string, c: string)
    requires AtMost(a, b) && AtMost(b, c)
    ensures AtMost(a, c)
  {
    if |a| != 0 && a[0] == b[0] && b[0] == c[0] {
      AtMostTransitive(a[1..], b[1..], c[1..]);
    }
  }

  /** The UTF-16 code units of a text: a supplementary character is written with two surrogates. */
  function CodeUnits(s: string): (units: seq<int>) {
    if |s| == 0 then [] else UnitsOf(s[0]) + CodeUnits(s[1..])
  }

  function UnitsOf(c: char): (units: seq<int>) {
    var n := c as int;
    if n < 0x10000 then [n] else [0xD800 + (n - 0x10000) / 0x400, 0xDC00 + (n - 0x10000) % 0x400]
  }

  /** The first unit that differs decides, and a proper prefix comes first. */
  predicate UnitsAtMost(a: seq<int>, b: seq<int>) {
    |a| == 0 || (|b| > 0 && (a[0] < b[0] || (a[0] == b[0] && UnitsAtMost(a[1..], b[1..]))))
  }

  /** Texts are compared at their first units that differ. */
  lemma UnitsOfFirst(c: char, d: char, x: seq<int>, y: seq<int>)
    ensures UnitsAtMost(UnitsOf(c) + x, UnitsOf(d) + y) <==> Rank(c) < Rank(d) || (c == d && UnitsAtMost(x, y))
  {
    var a, b := UnitsOf(c) + x, UnitsOf(d) + y;
    assert a[0] == UnitsOf(c)[0] && b[0] == UnitsOf(d)[0];
    if a[0] == b[0] {
      if |UnitsOf(c)| == 2 {
        assert |UnitsOf(d)| == 2;
        assert a[1..][0] == UnitsOf(c)[1] && b[1..][0] == UnitsOf(d)[1];
        assert a[1..][1..] == x && b[1..][1..] == y;
      } else {
        assert a[1..] == x && b[1..] == y;
      }
    }
  }

  /** `AtMost` is the order of the UTF-16 code units. */
  lemma {:induction false} AtMostIsUnitOrder(a: string, b: string)
    ensures AtMost(a, b) <==> UnitsAtMost(CodeUnits(a), CodeUnits(b))
  {
    if |a| > 0 && |b| > 0 {
      UnitsOfFirst(a[0], b[0], CodeUnits(a[1..]), CodeUnits(b[1..]));
      AtMostIsUnitOrder(a[1..], b[1..]);
    }
  }

  predicate IsDigit(c: char) { '0' <= c <= '9' }

  function DigitOf(d: nat): char
    requires d < 10
  {
    '0' + d as char
  }

  /** The decimal text of a natural number, as a template literal prints it. */
  function Decimal(n: nat): (s: string)
    ensures |s| > 0
  {
    if n < 10 then [DigitOf(n)] else Decimal(n / 10) + [DigitOf(n % 10)]
  }

  /** The texts accepted by `^(0|[1-9][0-9]*)$`. */
  predicate IsIndex(s: string) {
    |s| > 0 && (forall i | 0 <= i < |s| :: IsDigit(s[i])) && (s[0] == '0' ==> |s| == 1)
  }

  function IndexValue(s: string): nat
    requires forall i | 0 <= i < |s| :: IsDigit(s[i])
  {
    if |s| == 0 then 0 else
    assert IsDigit(s[|s| - 1]);
    10 * IndexValue(s[..|s| - 1]) + (s[|s| - 1] as int - '0' as int)
  }

  lemma {:induction false} DecimalIsIndex(n: nat)
    ensures IsIndex(Decimal(n)) && IndexValue(Decimal(n)) == n
    ensures n > 0 ==> Decimal(n)[0] != '0'
  {
    if n >= 10 {
      DecimalIsIndex(n / 10);
      var s := Decimal(n);
      assert s[..|s| - 1] == Decimal(n / 10);
    } else {
      var s := Decimal(n);
      assert s[..|s| - 1] == [];
    }
  }

  lemma {:induction false} IndexIsDecimal(s: string)
    requires IsIndex(s)
    ensures Decimal(IndexValue(s)) == s
    ensures s[0] != '0' ==> IndexValue(s) > 0
  {
    var front := s[..|s| - 1];
    if |s| > 1 {
      IndexIsDecimal(front);
      assert s == front + [s[|s| - 1]];
    } else {
      assert front == [];
    }
  }

  /** Distinct indices have distinct texts, and distinct index texts denote distinct indices. */
  lemma IndexTextsAgree(s: string, n: nat)
    ensures IsIndex(s) && IndexValue(s) == n <==> s == Decimal(n)
  {
    DecimalIsIndex(n);
    if IsIndex(s) {
      IndexIsDecimal(s);
    }
  }

  /** Text split at the first occurrence of a separator is split in one way only. */
  lemma {:induction false} FirstPartAgrees(a: string, b: string, x: string, y: string, separator: char)
    requires separator !in a && separator !in b && a + [separator] + x == b + [separator] + y
    ensures a == b && x == y
  {
    var s := a + [separator] + x;
    if |a| > 0 && |b| > 0 {
      assert s[0] == a[0] == b[0];
      assert s[1..] == a[1..] + [separator] + x == b[1..] + [separator] + y;
      FirstPartAgrees(a[1..], b[1..], x, y, separator);
      assert a == [a[0]] + a[1..] && b == [b[0]] + b[1..];
    } else {
      assert s[0] == (b + [separator] + y)[0];
      assert x == s[1..] == y;
    }
  }

  /** `text.indexOf(c)`. */
  function IndexOf(text: string, c: char): (i: int)
    ensures -1 <= i < |text|
    ensures i >= 0 ==> text[i] == c && c !in text[..i]
    ensures i < 0 ==> c !in text
  {
    if |text| == 0 then -1 else
    if text[0] == c then 0 else
    var rest := IndexOf(text[1..], c);
    assert text == [text[0]] + text[1..];
    if rest < 0 then -1 else
    assert text[..rest + 1] == [text[0]] + text[1..][..rest];
    rest + 1
  }

  lemma {:induction false} DecimalIsDigits(n: nat)
    ensures forall c | c in Decimal(n) :: IsDigit(c)
  {
    if n >= 10 {
      DecimalIsDigits(n / 10);
    }
  }

  /** Lists of as many texts, compared text by text. */
  predicate AtMostTexts(a: seq<string>, b: seq<string>) {
    |a| == 0 || (|b| > 0 && if a[0] == b[0] then AtMostTexts(a[1..], b[1..]) else AtMost(a[0], b[0]))
  }

  lemma {:induction false} TextsTotal(a: seq<string>, b: seq<string>)
    ensures AtMostTexts(a, b) || AtMostTexts(b, a)
  {
    if |a| > 0 && |b| > 0 {
      AtMostTotal(a[0], b[0]);
      TextsTotal(a[1..], b[1..]);
    }
  }

  lemma {:induction false} TextsAntisymmetric(a: seq<string>, b: seq<string>)
    requires AtMostTexts(a, b) && AtMostTexts(b, a)
    ensures a == b
  {
    if |a| > 0 {
      if a[0] != b[0] { AtMostAntisymmetric(a[0], b[0]); }
      TextsAntisymmetric(a[1..], b[1..]);
      assert a == [a[0]] + a[1..] && b == [b[0]] + b[1..];
    }
  }

  lemma {:induction false} TextsTransitive(a: seq<string>, b: seq<string>, c: seq<string>)
    requires AtMostTexts(a, b) && AtMostTexts(b, c)
    ensures AtMostTexts(a, c)
  {
    if |a| > 0 {
      if a[0] == b[0] && b[0] == c[0] {
        TextsTransitive(a[1..], b[1..], c[1..]);
      } else {
        if a[0] != b[0] && b[0] != c[0] { AtMostTransitive(a[0], b[0], c[0]); }
        if a[0] == c[0] { AtMostAntisymmetric(a[0], b[0]); }
      }
    }
  }
}
