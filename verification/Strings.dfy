/** Joined text that can be taken apart again, decimal numerals, and lengths in bytes. */
module Strings {

  /** len of the UTF-8 encoding. */
  function ByteLength(text: string): nat {
    if text == "" then 0
    else
      var c := text[0] as int;
      (if c < 0x80 then 1 else if c < 0x800 then 2 else if c < 0x1_0000 then 3 else 4) + ByteLength(text[1..])
  }

  /** The bytes of one character, section 3 of RFC 3629. */
  function Utf8Char(c: char): seq<nat> {
    var n := c as int;
    if n < 0x80 then [n]
    else if n < 0x800 then [0xC0 + n / 0x40, 0x80 + n % 0x40]
    else if n < 0x1_0000 then [0xE0 + n / 0x1000, 0x80 + n / 0x40 % 0x40, 0x80 + n % 0x40]
    else [0xF0 + n / 0x4_0000, 0x80 + n / 0x1000 % 0x40, 0x80 + n / 0x40 % 0x40, 0x80 + n % 0x40]
  }

  function Utf8(text: string): seq<nat> {
    if text == "" then [] else Utf8Char(text[0]) + Utf8(text[1..])
  }

  lemma {:induction false} ByteLengthIsUtf8(text: string)
    ensures ByteLength(text) == |Utf8(text)|
  {
    if text != "" {
      ByteLengthIsUtf8(text[1..]);
    }
  }

  function Join(sep: char, xs: seq<string>): string {
    if xs == [] then "" else if |xs| == 1 then xs[0] else xs[0] + [sep] + Join(sep, xs[1..])
  }

  /** Joined text grows at the end by the separator and the next part. */
  lemma {:induction false} JoinSnoc(sep: char, xs: seq<string>, y: string)
    ensures Join(sep, [y]) == y
    ensures xs != [] ==> Join(sep, xs + [y]) == Join(sep, xs) + [sep] + y
  {
    if |xs| == 1 {
      assert xs + [y] == [xs[0], y];
    } else if |xs| > 1 {
      JoinSnoc(sep, xs[1..], y);
      assert (xs + [y])[1..] == xs[1..] + [y];
    }
  }

  predicate AllFree(sep: char, xs: seq<string>) {
    forall k :: 0 <= k < |xs| ==> sep !in xs[k]
  }

  /** The first separator marks where the first part ends. */
  lemma HeadsMatch(sep: char, a: string, s: string, b: string, t: string)
    requires sep !in a && sep !in b && a + [sep] + s == b + [sep] + t
    ensures a == b && s == t
  {
    var x, y := a + [sep] + s, b + [sep] + t;
    assert x[|a|] == sep && y[|b|] == sep;
    assert forall k :: 0 <= k < |a| ==> x[k] == a[k] != sep;
    assert forall k :: 0 <= k < |b| ==> y[k] == b[k] != sep;
    assert |a| == |b|;
    assert x[..|a|] == a && y[..|b|] == b;
    assert x[|a| + 1..] == s && y[|b| + 1..] == t;
  }

  /** A lone part free of the separator is no joined pair. */
  lemma LoneIsNotJoined(sep: char, a: string, b: string, t: string)
    requires sep !in a
    ensures a != b + [sep] + t
  {
    assert (b + [sep] + t)[|b|] == sep;
  }

  /** Joining separator-free parts is injective on non-empty lists. */
  lemma {:induction false} JoinInjective(sep: char, xs: seq<string>, ys: seq<string>)
    requires xs != [] && ys != [] && AllFree(sep, xs) && AllFree(sep, ys)
    requires Join(sep, xs) == Join(sep, ys)
    ensures xs == ys
  {
    if |xs| == 1 && |ys| > 1 {
      LoneIsNotJoined(sep, xs[0], ys[0], Join(sep, ys[1..]));
    } else if |ys| == 1 && |xs| > 1 {
      LoneIsNotJoined(sep, ys[0], xs[0], Join(sep, xs[1..]));
    } else if |xs| > 1 {
      HeadsMatch(sep, xs[0], Join(sep, xs[1..]), ys[0], Join(sep, ys[1..]));
      JoinInjective(sep, xs[1..], ys[1..]);
      assert xs == [xs[0]] + xs[1..] && ys == [ys[0]] + ys[1..];
    }
  }

  function Occurrences(c: char, s: string): nat {
    if s == "" then 0 else (if s[0] == c then 1 else 0) + Occurrences(c, s[1..])
  }

  lemma {:induction false} OccurrencesAppend(c: char, s: string, t: string)
    ensures Occurrences(c, s + t) == Occurrences(c, s) + Occurrences(c, t)
  {
    if s == "" {
      assert s + t == t;
    } else {
      assert (s + t)[1..] == s[1..] + t;
      OccurrencesAppend(c, s[1..], t);
    }
  }

  lemma {:induction false} NoOccurrence(c: char, s: string)
    ensures Occurrences(c, s) == 0 <==> c !in s
  {
    if s != "" {
      NoOccurrence(c, s[1..]);
      assert s == [s[0]] + s[1..];
    }
  }

  /** A joined text has a separator fewer than parts, and more exactly when a part holds one. */
  lemma {:induction false} SeparatorsInJoin(sep: char, xs: seq<string>)
    requires xs != []
    ensures Occurrences(sep, Join(sep, xs)) >= |xs| - 1
    ensures Occurrences(sep, Join(sep, xs)) == |xs| - 1 <==> AllFree(sep, xs)
  {
    NoOccurrence(sep, xs[0]);
    if |xs| > 1 {
      SeparatorsInJoin(sep, xs[1..]);
      OccurrencesAppend(sep, xs[0] + [sep], Join(sep, xs[1..]));
      OccurrencesAppend(sep, xs[0], [sep]);
      assert Occurrences(sep, [sep]) == 1;
      assert AllFree(sep, xs) <==> sep !in xs[0] && AllFree(sep, xs[1..]) by {
        assert forall k :: 0 <= k < |xs[1..]| ==> xs[1..][k] == xs[k + 1];
        assert forall k :: 1 <= k < |xs| ==> xs[k] == xs[1..][k - 1];
      }
    }
  }

  /** As many parts, one side separator-free: joining alike means being the same. */
  lemma JoinSameLengthInjective(sep: char, xs: seq<string>, ys: seq<string>)
    requires |xs| == |ys| > 0 && AllFree(sep, xs) && Join(sep, xs) == Join(sep, ys)
    ensures xs == ys
  {
    SeparatorsInJoin(sep, xs);
    SeparatorsInJoin(sep, ys);
    JoinInjective(sep, xs, ys);
  }

  lemma {:induction false} JoinEmpty(sep: char, xs: seq<string>)
    requires forall k :: 0 <= k < |xs| ==> xs[k] != ""
    ensures Join(sep, xs) == "" <==> xs == []
  {
  }

  /** A joined list of characters other than c has none of c, if the separator is not c. */
  lemma {:induction false} JoinFree(sep: char, xs: seq<string>, c: char)
    requires c != sep && AllFree(c, xs)
    ensures c !in Join(sep, xs)
  {
    if |xs| > 1 {
      JoinFree(sep, xs[1..], c);
    }
  }

  const DIGITS := "0123456789"

  function Digits(n: nat): (s: string)
    ensures s != "" && forall k :: 0 <= k < |s| ==> '0' <= s[k] <= '9'
  {
    if n < 10 then [DIGITS[n]] else Digits(n / 10) + [DIGITS[n % 10]]
  }

  /** The %d verb. */
  function Decimal(n: int): string {
    if n < 0 then "-" + Digits(-n) else Digits(n)
  }

  lemma DigitsDiffer(a: nat, b: nat)
    requires a < 10 && b < 10 && DIGITS[a] == DIGITS[b]
    ensures a == b
  {
  }

  lemma {:induction false} DigitsInjective(m: nat, n: nat)
    requires Digits(m) == Digits(n)
    ensures m == n
  {
    var s, t := Digits(m), Digits(n);
    assert (|s| == 1 <==> m < 10) && (|t| == 1 <==> n < 10);
    if m < 10 {
      DigitsDiffer(m, n);
    } else {
      assert s[..|s| - 1] == Digits(m / 10) && t[..|t| - 1] == Digits(n / 10);
      DigitsInjective(m / 10, n / 10);
      assert s[|s| - 1] == DIGITS[m % 10] && t[|t| - 1] == DIGITS[n % 10];
      DigitsDiffer(m % 10, n % 10);
    }
  }

  lemma DecimalSign(n: int)
    ensures Decimal(n) != "" && (Decimal(n)[0] == '-' <==> n < 0)
    ensures n < 0 ==> Decimal(n)[1..] == Digits(-n)
    ensures forall k :: 0 <= k < |Decimal(n)| ==> Decimal(n)[k] == '-' || '0' <= Decimal(n)[k] <= '9'
  {
  }

  lemma DecimalInjective(m: int, n: int)
    requires Decimal(m) == Decimal(n)
    ensures m == n
  {
    DecimalSign(m);
    DecimalSign(n);
    if m < 0 {
      DigitsInjective(-m, -n);
    } else {
      DigitsInjective(m, n);
    }
  }
}
