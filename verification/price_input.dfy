/**
 * The client's money text field: `format_currency`, `PriceInput.format_text`
 * (the handler of the field's textChanged signal) and `PriceInput.get_value`.
 */
module PriceInput {
  import opened Wrappers
  import opened Text
  import opened Numerals

  /**
   * `format_currency(n)`: the digits of `n` in groups of three, separated by
   * dots, with a leading minus sign for negative numbers.
   */
  function FormatCurrency(n: int): string
  {
    Grouped(n, '.')
  }

  /**
   * The shape `format_currency` promises for a non-negative integer: its
   * dots removed it is the plain decimal numeral, and a character is a dot
   * exactly when its distance from the end is a multiple of four, so
   * every group after the first holds three digits.
   */
  lemma FormatCurrencyGroupsDigits(n: nat)
    ensures var t := FormatCurrency(n);
      && Without(t, '.') == Decimal(n)
      && |t| == |Decimal(n)| + (|Decimal(n)| - 1) / 3
      && (forall i | 0 <= i < |t| :: t[i] == '.' <==> (|t| - i) % 4 == 0)
  {
    var d := Decimal(n);
    assert '.' !in d by {
      forall i | 0 <= i < |d| ensures d[i] != '.' { assert IsDigit(d[i]); }
    }
    GroupShape(d, '.');
    assert FormatCurrency(n) == Group(d, '.');
  }

  /**
   * `get_value()`: the field's text with its dots removed, read by
   * `int(...)`; an empty remainder reads as 0 and an unreadable one raises
   * ValueError (None).
   */
  function GetValue(text: string): Option<int>
  {
    var clean := Without(text, '.');
    if clean == "" then Some(0) else ParseInt(clean)
  }

  /** `get_value` reads back every number `format_currency` writes. */
  lemma GetValueInvertsFormatCurrency(n: int)
    ensures GetValue(FormatCurrency(n)) == Some(n)
  {
    GroupedWithoutSeparators(n, '.');
    SignedDecimalParses(n);
  }

  /** What one call of `format_text` does to the field. */
  datatype Reaction =
    | Unchanged                   // nothing is written back
    | Reformatted(text: string)   // written with the field's signals blocked
    | Truncated(text: string)     // written with signals on: textChanged fires again

  /**
   * One call of `format_text(text)`. It reformats exactly when the text
   * without dots is a non-empty run of digits, and the reformatted text has
   * the same value; it leaves a dots-only text as it is; otherwise it
   * writes back the dot-free text minus its last character.
   */
  function FormatTextStep(text: string): (r: Reaction)
    ensures r.Reformatted? <==> Without(text, '.') != "" && AllDigits(Without(text, '.'))
    ensures r.Unchanged? <==> Without(text, '.') == ""
    ensures r.Reformatted? ==> GetValue(r.text) == GetValue(text)
    ensures r.Truncated? ==>
              && |r.text| < |text| && |r.text| + 1 == |Without(text, '.')|
              && r.text + [Without(text, '.')[|r.text|]] == Without(text, '.')
  {
    var clean := Without(text, '.');
    if clean != "" && AllDigits(clean) then
      GetValueInvertsFormatCurrency(DigitsValue(clean));
      assert ParseInt(clean) == Some(DigitsValue(clean)) by { assert IsDigit(clean[0]); }
      Reformatted(FormatCurrency(DigitsValue(clean)))
    else if clean != "" then
      assert clean[..|clean| - 1] + [clean[|clean| - 1]] == clean;
      Truncated(clean[..|clean| - 1])
    else
      Unchanged
  }

  /**
   * The text the field settles on after `text` is written with signals on:
   * `setText` in the non-digit branch of `format_text` is not wrapped in
   * `blockSignals`, so the handler runs again on what it wrote.
   */
  function Settle(text: string): string
    decreases |text|
  {
    match FormatTextStep(text)
    case Unchanged => text
    case Reformatted(t) => t
    case Truncated(t) => Settle(t)
  }

  /** The longest prefix of `s` that is made of digits. */
  function DigitPrefix(s: string): (p: string)
    ensures AllDigits(p) && |p| <= |s| && p == s[..|p|]
    ensures |p| < |s| ==> !IsDigit(s[|p|])
  {
    if s == [] || !IsDigit(s[0]) then [] else [s[0]] + DigitPrefix(s[1..])
  }

  lemma {:induction false} DigitPrefixOfDigits(s: string)
    requires AllDigits(s)
    ensures DigitPrefix(s) == s
  {
    if s != [] {
      DigitPrefixOfDigits(s[1..]);
    }
  }

  /** Dropping the last character of a text that is not all digits keeps its digit prefix. */
  lemma {:induction false} DigitPrefixDropLast(s: string)
    requires s != [] && !AllDigits(s)
    ensures DigitPrefix(s[..|s| - 1]) == DigitPrefix(s)
  {
    var p := DigitPrefix(s);
    if p != [] {
      assert IsDigit(s[0]);
      assert !AllDigits(s[1..]) by {
        if AllDigits(s[1..]) {
          forall i | 0 <= i < |s| ensures IsDigit(s[i]) {
            if i > 0 { assert s[i] == s[1..][i - 1]; }
          }
        }
      }
      DigitPrefixDropLast(s[1..]);
      assert s[..|s| - 1][1..] == s[1..][..|s[1..]| - 1];
    }
  }

  /**
   * Where the field settles: a text without any digit or letter before its
   * dots (only dots, or empty) is left alone; otherwise the field keeps the
   * leading digits of what was typed, dots ignored, formatted by
   * `format_currency`, or becomes empty when there are none.
   */
  lemma {:induction false} SettleKeepsLeadingDigits(text: string)
    ensures var clean := Without(text, '.');
      Settle(text) ==
        if clean == "" then text
        else if DigitPrefix(clean) == "" then ""
        else FormatCurrency(DigitsValue(DigitPrefix(clean)))
    decreases |text|
  {
    var clean := Without(text, '.');
    if clean != "" && AllDigits(clean) {
      DigitPrefixOfDigits(clean);
    } else if clean != "" {
      var u := clean[..|clean| - 1];
      assert FormatTextStep(text) == Truncated(u);
      assert '.' !in u by {
        forall i | 0 <= i < |u| ensures u[i] != '.' { assert u[i] == clean[i]; }
      }
      WithoutAbsent(u, '.');
      SettleKeepsLeadingDigits(u);
      DigitPrefixDropLast(clean);
      if u == "" {
        assert DigitPrefix(clean) == "";
      }
    }
  }

  /**
   * Whatever is typed, `get_value` afterwards reads without error the number
   * formed by the leading digits of the typed text (dots ignored), or 0.
   */
  lemma SettledValue(text: string)
    ensures GetValue(Settle(text)) == Some(DigitsValue(DigitPrefix(Without(text, '.'))))
  {
    SettleKeepsLeadingDigits(text);
    var clean := Without(text, '.');
    if clean != "" && DigitPrefix(clean) != "" {
      GetValueInvertsFormatCurrency(DigitsValue(DigitPrefix(clean)));
    }
  }

  /** Running `format_text` again on a settled field changes nothing. */
  lemma FormatTextIdempotent(text: string)
    ensures FormatTextStep(Settle(text)) in {Unchanged, Reformatted(Settle(text))}
  {
    SettleKeepsLeadingDigits(text);
    var clean := Without(text, '.');
    if clean != "" && DigitPrefix(clean) != "" {
      var n := DigitsValue(DigitPrefix(clean));
      FormatCurrencyGroupsDigits(n);
      DecimalRoundTrip(n);
    }
  }

  /** The field itself: its text is rewritten in place by its textChanged handler. */
  class PriceField {
    var text: string

    constructor ()
      ensures text == ""
    {
      text := "";
    }

    /**
     * The user (or `setText`) puts `typed` into the field: textChanged is
     * delivered to `format_text`, and again after every write the handler
     * makes with signals on.
     */
    method SetText(typed: string)
      modifies this
      ensures text == Settle(typed)
    {
      text := typed;
      var pending := true;
      while pending
        invariant pending ==> Settle(text) == Settle(typed)
        invariant !pending ==> text == Settle(typed)
        decreases if pending then |text| + 1 else 0
      {
        match FormatTextStep(text)
        case Unchanged =>
          pending := false;
        case Reformatted(t) =>
          text := t;
          pending := false;
        case Truncated(t) =>
          text := t;
      }
    }
  }
}
