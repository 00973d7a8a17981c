/**
 * Decimal numerals as both halves of the program write and read them:
 * Python's `int(text)` on the texts the client's fields can hold, and the
 * thousands grouping of the `","` format option (`f"{n:,}"`,
 * `"{:,.0f}".format(n)`).
 */
module Numerals {
  import opened Wrappers
  import opened Text

  predicate IsDigit(c: char)
  {
    '0' <= c <= '9'
  }

  predicate AllDigits(s: string)
  {
    forall i | 0 <= i < |s| :: IsDigit(s[i])
  }

  function DigitValue(c: char): nat
    requires IsDigit(c)
  {
    (c as int) - ('0' as int)
  }

  function DigitChar(d: nat): (c: char)
    requires d < 10
    ensures IsDigit(c) && DigitValue(c) == d
  {
    (d + ('0' as int)) as char
  }

  /** The decimal digits of `n`, most significant first, without leading zeros. */
  function Decimal(n: nat): (s: string)
    ensures |s| >= 1 && AllDigits(s)
    ensures s[0] == '0' ==> n == 0
  {
    if n < 10 then [DigitChar(n)] else Decimal(n / 10) + [DigitChar(n % 10)]
  }

  /** The number a string of decimal digits denotes (leading zeros allowed). */
  function DigitsValue(s: string): nat
    requires AllDigits(s)
  {
    if s == [] then 0 else 10 * DigitsValue(s[..|s| - 1]) + DigitValue(s[|s| - 1])
  }

  /** Reading back what `Decimal` writes gives the number again. */
  lemma {:induction false} DecimalRoundTrip(n: nat)
    ensures DigitsValue(Decimal(n)) == n
  {
    if n >= 10 {
      var s := Decimal(n);
      assert s[..|s| - 1] == Decimal(n / 10);
      DecimalRoundTrip(n / 10);
    }
  }

  /**
   * Python's `int(text)` on an optional sign followed by ASCII digits;
   * anything else raises ValueError, modelled as None.
   */
  function ParseInt(s: string): Option<int>
  {
    if s != [] && (s[0] == '-' || s[0] == '+') then
      if |s| > 1 && AllDigits(s[1..]) then
        var v: int := DigitsValue(s[1..]);
        Some(if s[0] == '-' then -v else v)
      else None
    else if s != [] && AllDigits(s) then Some(DigitsValue(s))
    else None
  }

  /** `ParseInt` reads every signed decimal numeral back to its value. */
  lemma SignedDecimalParses(n: int)
    ensures ParseInt((if n < 0 then "-" else "") + Decimal(if n < 0 then -n else n)) == Some(n)
  {
    if n < 0 {
      var d := Decimal(-n);
      DecimalRoundTrip(-n);
      var s := "-" + d;
      assert s[0] == '-' && s[1..] == d && |s| > 1;
      assert ParseInt(s) == Some(n);
    } else {
      var d := Decimal(n);
      DecimalRoundTrip(n);
      assert "" + d == d;
      assert IsDigit(d[0]) && d[0] != '-' && d[0] != '+';
      assert ParseInt(d) == Some(n);
    }
  }

  /** Puts `sep` between the groups of three characters, counting from the right. */
  function Group(s: string, sep: char): (t: string)
    decreases |s|
  {
    if |s| <= 3 then s else Group(s[..|s| - 3], sep) + [sep] + s[|s| - 3..]
  }

  /** The `","`-style rendering of an integer, with `sep` as the thousands separator. */
  function Grouped(n: int, sep: char): string
  {
    (if n < 0 then "-" else "") + Group(Decimal(if n < 0 then -n else n), sep)
  }

  /** A long string is grouped as its head, a separator and its last three characters. */
  lemma GroupSplit(s: string, sep: char)
    requires |s| > 3
    ensures Group(s, sep) == Group(s[..|s| - 3], sep) + [sep] + s[|s| - 3..]
  {
  }

  /** A separator-free string stays so when sliced. */
  lemma SliceAbsent(s: string, i: nat, j: nat, c: char)
    requires i <= j <= |s| && c !in s
    ensures c !in s[i..j]
  {
    var u := s[i..j];
    forall k | 0 <= k < |u| ensures u[k] != c { assert u[k] == s[i + k]; }
  }

  /**
   * Grouping a separator-free string: its length grows by one separator for
   * every full group of three after the first, a character is a separator
   * exactly when its distance from the end is a multiple of four, and
   * removing the separators gives back the string.
   */
  lemma GroupShape(s: string, sep: char)
    requires |s| >= 1 && sep !in s
    ensures var t := Group(s, sep);
      && |t| == |s| + (|s| - 1) / 3
      && (forall i | 0 <= i < |t| :: t[i] == sep <==> (|t| - i) % 4 == 0)
      && Without(t, sep) == s
  {
    GroupLength(s, sep);
    GroupSeparators(s, sep);
    GroupWithout(s, sep);
  }

  lemma {:induction false} GroupLength(s: string, sep: char)
    requires |s| >= 1
    ensures |Group(s, sep)| == |s| + (|s| - 1) / 3
    decreases |s|
  {
    if |s| > 3 {
      var h := s[..|s| - 3];
      GroupLength(h, sep);
      GroupSplit(s, sep);
      assert (|s| - 1) / 3 == (|h| - 1) / 3 + 1;
    }
  }

  lemma {:induction false} GroupSeparators(s: string, sep: char)
    requires sep !in s
    ensures var t := Group(s, sep);
      forall i | 0 <= i < |t| :: t[i] == sep <==> (|t| - i) % 4 == 0
    decreases |s|
  {
    if |s| <= 3 {
      forall i | 0 <= i < |s| ensures s[i] != sep && (|s| - i) % 4 != 0 {
        assert s[i] in s;
      }
    } else {
      var h, tail := s[..|s| - 3], s[|s| - 3..];
      SliceAbsent(s, 0, |s| - 3, sep);
      SliceAbsent(s, |s| - 3, |s|, sep);
      assert s[0..|s| - 3] == h && s[|s| - 3..|s|] == tail;
      GroupSeparators(h, sep);
      GroupSplit(s, sep);
      SeparatorPositions(Group(h, sep), tail, sep);
    }
  }

  lemma {:induction false} GroupWithout(s: string, sep: char)
    requires sep !in s
    ensures Without(Group(s, sep), sep) == s
    decreases |s|
  {
    if |s| <= 3 {
      WithoutAbsent(s, sep);
    } else {
      var h, tail := s[..|s| - 3], s[|s| - 3..];
      SliceAbsent(s, 0, |s| - 3, sep);
      SliceAbsent(s, |s| - 3, |s|, sep);
      assert s[0..|s| - 3] == h && s[|s| - 3..|s|] == tail;
      GroupWithout(h, sep);
      GroupSplit(s, sep);
      var th := Group(h, sep);
      calc {
        Without(Group(s, sep), sep);
        Without(th + [sep] + tail, sep);
        { WithoutConcat(th + [sep], tail, sep); }
        Without(th + [sep], sep) + Without(tail, sep);
        { WithoutConcat(th, [sep], sep); WithoutAbsent(tail, sep); }
        h + tail;
        { assert h + tail == s; }
        s;
      }
    }
  }

  /** The inductive step of `GroupShape` for the separator positions. */
  lemma SeparatorPositions(th: string, tail: string, sep: char)
    requires |tail| == 3 && sep !in tail
    requires forall i | 0 <= i < |th| :: th[i] == sep <==> (|th| - i) % 4 == 0
    ensures var t := th + [sep] + tail;
      forall i | 0 <= i < |t| :: t[i] == sep <==> (|t| - i) % 4 == 0
  {
    var t := th + [sep] + tail;
    forall i | 0 <= i < |t| ensures t[i] == sep <==> (|t| - i) % 4 == 0 {
      if i < |th| {
        assert t[i] == th[i];
        assert |t| - i == (|th| - i) + 4;
      } else if i > |th| {
        assert t[i] == tail[i - |th| - 1];
        assert tail[i - |th| - 1] in tail;
      }
    }
  }

  /** Removing the separators from a grouped integer leaves its plain signed numeral. */
  lemma GroupedWithoutSeparators(n: int, sep: char)
    requires !IsDigit(sep) && sep != '-'
    ensures Without(Grouped(n, sep), sep) == (if n < 0 then "-" else "") + Decimal(if n < 0 then -n else n)
  {
    var d := Decimal(if n < 0 then -n else n);
    assert sep !in d by {
      forall i | 0 <= i < |d| ensures d[i] != sep { assert IsDigit(d[i]); }
    }
    GroupShape(d, sep);
    WithoutConcat(if n < 0 then "-" else "", Group(d, sep), sep);
    WithoutAbsent(if n < 0 then "-" else "", sep);
  }
}
