/** The canonical form of a recharge amount (internal/httpserver/recharge.go:18-48). */
module RechargeAmount {
  import opened GoText
  import opened Numbers
  import opened Wrappers

  // ---------------------------------------------------------------- the accepted texts

  datatype Amount = Amount(whole: string, fraction: string)

  function IndexOf(text: string, c: char): (i: nat)
    ensures i <= |text| && c !in text[..i] && (i < |text| ==> text[i] == c)
  {
    if text == "" || text[0] == c then 0
    else
      var i := 1 + IndexOf(text[1..], c);
      assert text[..i] == [text[0]] + text[1..][..i - 1];
      i
  }

  /** The groups of the amount pattern; a missing whole part counts as "0". */
  function Parse(text: string): (parsed: Option<Amount>)
    ensures parsed.Some? ==>
      && AllDigits(parsed.value.whole) && parsed.value.whole != ""
      && AllDigits(parsed.value.fraction) && |parsed.value.fraction| <= 2
  {
    ParseUnsigned(if text != "" && text[0] == '+' then text[1..] else text)
  }

  function ParseUnsigned(text: string): (parsed: Option<Amount>)
    ensures parsed.Some? ==>
      && AllDigits(parsed.value.whole) && parsed.value.whole != ""
      && AllDigits(parsed.value.fraction) && |parsed.value.fraction| <= 2
  {
    var dot := IndexOf(text, '.');
    var whole, fraction := text[..dot], if dot < |text| then text[dot + 1..] else "";
    if !AllDigits(whole) || !AllDigits(fraction) || |fraction| > 2 then None
    else if whole != "" then Some(Amount(whole, fraction))
    else if fraction != "" then Some(Amount("0", fraction))
    else None
  }

  /** What a text of the pattern looks like after the sign. */
  predicate Unsigned(text: string, whole: string, dot: bool, fraction: string) {
    && text == whole + (if dot then "." + fraction else "")
    && AllDigits(whole) && AllDigits(fraction) && |fraction| <= 2
    && (dot || fraction == "") && (whole != "" || fraction != "")
  }

  predicate Pattern(text: string, plus: bool, whole: string, dot: bool, fraction: string) {
    if plus then text != "" && text[0] == '+' && Unsigned(text[1..], whole, dot, fraction)
    else Unsigned(text, whole, dot, fraction)
  }

  // ---------------------------------------------------------------- the normal form

  function TrimZeros(digits: string): string {
    if digits != "" && digits[0] == '0' then TrimZeros(digits[1..]) else digits
  }

  function Pad(fraction: string): string {
    if |fraction| == 0 then "00" else if |fraction| == 1 then fraction + "0" else fraction
  }

  const LIMIT: nat := 100_000_000 * 100

  function Normalize(raw: string): Option<string> {
    match Parse(TrimSpace(raw))
    case None => None
    case Some(amount) =>
      var trimmed := TrimZeros(amount.whole);
      var whole := if trimmed == "" then "0" else trimmed;
      var fraction := Pad(amount.fraction);
      if AllDigits(whole + fraction) && 0 < DigitsValue(whole + fraction) < LIMIT then Some(whole + "." + fraction)
      else None
  }

  // ---------------------------------------------------------------- what the amount is worth

  /** The exact value of the amount in cents. */
  function Cents(amount: Amount): nat
    requires AllDigits(amount.whole) && AllDigits(amount.fraction) && |amount.fraction| <= 2
  {
    DigitsValue(amount.whole) * 100
    + DigitsValue(amount.fraction) * (if |amount.fraction| == 0 then 100 else if |amount.fraction| == 1 then 10 else 1)
  }

  /** What an accepted text is worth. */
  function Worth(raw: string): nat
    requires Parse(TrimSpace(raw)).Some?
  {
    Cents(Parse(TrimSpace(raw)).value)
  }

  ghost predicate Canonical(text: string) {
    exists whole, fraction ::
      text == whole + "." + fraction && AllDigits(whole) && AllDigits(fraction) && |fraction| == 2
      && whole != "" && (whole[0] != '0' || whole == "0")
  }

  lemma DigitsNotDot(text: string)
    requires AllDigits(text)
    ensures '.' !in text && '+' !in text
  {
    forall i | 0 <= i < |text| ensures text[i] != '.' && text[i] != '+' { assert IsDigit(text[i]); }
  }

  lemma {:induction false} IndexOfDot(whole: string, fraction: string)
    requires AllDigits(whole)
    ensures IndexOf(whole + "." + fraction, '.') == |whole| && IndexOf(whole, '.') == |whole|
  {
    if whole == "" {
      assert whole + "." + fraction == "." + fraction;
    } else {
      assert IsDigit(whole[0]);
      assert (whole + "." + fraction)[1..] == whole[1..] + "." + fraction;
      assert AllDigits(whole[1..]) by {
        forall i | 0 <= i < |whole[1..]| ensures IsDigit(whole[1..][i]) { assert whole[1..][i] == whole[i + 1]; }
      }
      IndexOfDot(whole[1..], fraction);
    }
  }

  lemma UnsignedParses(text: string, whole: string, dot: bool, fraction: string)
    requires Unsigned(text, whole, dot, fraction)
    ensures ParseUnsigned(text) == Some(Amount(if whole == "" then "0" else whole, fraction))
    ensures text != "" && text[0] != '+'
  {
    hide AllDigits, IndexOf;
    IndexOfDot(whole, fraction);
    if dot {
      assert text == whole + "." + fraction;
      assert text[..|whole|] == whole && text[|whole| + 1..] == fraction;
    } else {
      assert text == whole && text[..|whole|] == whole;
    }
    DigitsNotDot(whole);
    assert whole != "" ==> text[0] == whole[0] && whole[0] in whole;
  }

  lemma ParsedIsUnsigned(text: string) returns (whole: string, dot: bool, fraction: string)
    requires ParseUnsigned(text).Some?
    ensures Unsigned(text, whole, dot, fraction)
  {
    hide AllDigits, IndexOf;
    var at := IndexOf(text, '.');
    whole, dot, fraction := text[..at], at < |text|, if at < |text| then text[at + 1..] else "";
    assert text == whole + (if dot then "." + fraction else "");
  }

  /** The scan accepts exactly the texts of the pattern, and finds their parts. */
  lemma ParseIsPattern(text: string, amount: Amount)
    ensures Parse(text) == Some(amount) <==>
      exists plus, whole, dot, fraction :: Pattern(text, plus, whole, dot, fraction)
        && amount == Amount(if whole == "" then "0" else whole, fraction)
  {
    hide ParseUnsigned, Unsigned;
    if Parse(text).Some? {
      var plus := text != "" && text[0] == '+';
      var whole, dot, fraction := ParsedIsUnsigned(if plus then text[1..] else text);
      assert Pattern(text, plus, whole, dot, fraction);
      UnsignedParses(if plus then text[1..] else text, whole, dot, fraction);
    }
    if plus, whole, dot, fraction :|
      (Pattern(text, plus, whole, dot, fraction) && amount == Amount(if whole == "" then "0" else whole, fraction))
    {
      UnsignedParses(if plus then text[1..] else text, whole, dot, fraction);
    }
  }

  // ---------------------------------------------------------------- the theorems

  lemma {:induction false} TrimZerosKeeps(digits: string)
    requires AllDigits(digits)
    ensures var trimmed := TrimZeros(digits);
      AllDigits(trimmed) && DigitsValue(trimmed) == DigitsValue(digits) && (trimmed != "" ==> trimmed[0] != '0')
  {
    if digits != "" && digits[0] == '0' {
      assert forall i :: 0 <= i < |digits[1..]| ==> digits[1..][i] == digits[i + 1];
      TrimZerosKeeps(digits[1..]);
      LeadingZero(digits[1..]);
      assert "0" + digits[1..] == digits;
    }
  }

  lemma {:induction false} LeadingZero(digits: string)
    requires AllDigits(digits)
    ensures AllDigits("0" + digits) && DigitsValue("0" + digits) == DigitsValue(digits)
  {
    var longer := "0" + digits;
    assert AllDigits(longer) by {
      forall i | 0 <= i < |longer| ensures IsDigit(longer[i]) { if i > 0 { assert longer[i] == digits[i - 1]; } }
    }
    if digits == "" {
      assert longer[..0] == "";
    } else {
      LeadingZero(digits[..|digits| - 1]);
      assert longer[..|longer| - 1] == "0" + digits[..|digits| - 1];
    }
  }

  /** Two more digits. */
  lemma TwoMore(whole: string, fraction: string)
    requires AllDigits(whole) && AllDigits(fraction) && |fraction| == 2
    ensures AllDigits(whole + fraction)
    ensures DigitsValue(whole + fraction) == DigitsValue(whole) * 100 + DigitsValue(fraction)
    ensures DigitsValue(fraction) < 100
  {
    var text := whole + fraction;
    var n := |text|;
    assert IsDigit(fraction[0]) && IsDigit(fraction[1]);
    assert text[n - 1] == fraction[1] && text[n - 2] == fraction[0];
    assert text[..n - 1][..n - 2] == whole && text[..n - 1][n - 2] == fraction[0];
    assert fraction[..1][..0] == "" && fraction[..1][0] == fraction[0];
    assert DigitsValue(text[..n - 1]) == DigitsValue(whole) * 10 + (fraction[0] as int - '0' as int);
    assert DigitsValue(fraction[..1]) == fraction[0] as int - '0' as int;
  }

  lemma PadKeeps(fraction: string)
    requires AllDigits(fraction) && |fraction| <= 2
    ensures AllDigits(Pad(fraction)) && |Pad(fraction)| == 2
    ensures DigitsValue(Pad(fraction))
         == DigitsValue(fraction) * (if |fraction| == 0 then 100 else if |fraction| == 1 then 10 else 1)
  {
    if |fraction| == 0 {
      assert "00"[..1] == "0" && "0"[..0] == "";
    } else if |fraction| == 1 {
      assert (fraction + "0")[..1] == fraction;
    }
  }

  /** A text is accepted exactly when, without the white space around it, it is an optional plus, digits, and an optional
      point with at most two more digits, not all of them missing, worth at least one cent and less than 10^10 cents. */
  lemma AcceptedExactly(raw: string)
    ensures Normalize(raw).Some? <==>
      exists plus, whole, dot, fraction ::
        && Pattern(TrimSpace(raw), plus, whole, dot, fraction)
        && 0 < 100 * DigitsValue(whole) + FractionCents(fraction) < 10_000_000_000
  {
    forall plus, whole, dot, fraction | Pattern(TrimSpace(raw), plus, whole, dot, fraction)
      ensures Parse(TrimSpace(raw)).Some? && Worth(raw) == 100 * DigitsValue(whole) + FractionCents(fraction)
    {
      PatternCents(TrimSpace(raw), plus, whole, dot, fraction);
    }
    hide TrimSpace, Parse, Pattern, DigitsValue, Worth, FractionCents;
    if Parse(TrimSpace(raw)).Some? {
      ParseIsPattern(TrimSpace(raw), Parse(TrimSpace(raw)).value);
      var whole, fraction := NormalOf(raw);
    } else {
      assert Normalize(raw) == None;
    }
  }

  /** The digits after the point, in cents. */
  function FractionCents(fraction: string): nat
    requires AllDigits(fraction) && |fraction| <= 2
  {
    (if |fraction| > 0 then 10 * (fraction[0] as int - '0' as int) else 0)
    + (if |fraction| > 1 then fraction[1] as int - '0' as int else 0)
  }

  lemma PatternCents(text: string, plus: bool, whole: string, dot: bool, fraction: string)
    requires Pattern(text, plus, whole, dot, fraction)
    ensures Parse(text).Some? && Cents(Parse(text).value) == 100 * DigitsValue(whole) + FractionCents(fraction)
  {
    UnsignedParses(if plus then text[1..] else text, whole, dot, fraction);
    hide Parse, ParseUnsigned, Unsigned;
    FractionIs(fraction);
    assert DigitsValue("0") == 0 == DigitsValue("") by { assert "0"[..0] == ""; }
  }

  lemma FractionIs(fraction: string)
    requires AllDigits(fraction) && |fraction| <= 2
    ensures DigitsValue(fraction) * (if |fraction| == 0 then 100 else if |fraction| == 1 then 10 else 1)
         == FractionCents(fraction)
  {
    if |fraction| > 0 {
      assert IsDigit(fraction[0]) && fraction[..1][..0] == "" && fraction[..1][0] == fraction[0];
      assert DigitsValue(fraction[..1]) == fraction[0] as int - '0' as int;
      if |fraction| == 1 { assert fraction[..1] == fraction; }
    }
  }

  /** The parts of the normal form. */
  lemma NormalOf(raw: string) returns (whole: string, fraction: string)
    requires Parse(TrimSpace(raw)).Some?
    ensures AllDigits(whole) && AllDigits(fraction) && |fraction| == 2
    ensures whole != "" && (whole[0] != '0' || whole == "0")
    ensures DigitsValue(whole) * 100 + DigitsValue(fraction) == Worth(raw)
    ensures Normalize(raw) == if 0 < Worth(raw) < LIMIT then Some(whole + "." + fraction) else None
  {
    hide TrimSpace, Parse;
    var amount := Parse(TrimSpace(raw)).value;
    TrimZerosKeeps(amount.whole);
    PadKeeps(amount.fraction);
    whole := if TrimZeros(amount.whole) == "" then "0" else TrimZeros(amount.whole);
    fraction := Pad(amount.fraction);
    assert DigitsValue(whole) == DigitsValue(amount.whole) by { assert "0"[..0] == ""; }
    TwoMore(whole, fraction);
  }

  lemma ParseCanonical(whole: string, fraction: string)
    requires AllDigits(whole) && AllDigits(fraction) && |fraction| == 2 && whole != ""
    ensures TrimSpace(whole + "." + fraction) == whole + "." + fraction
    ensures Parse(whole + "." + fraction) == Some(Amount(whole, fraction))
  {
    assert IsDigit(whole[0]) && IsDigit(fraction[1]);
    hide AllDigits, ParseUnsigned, IsSpace, TrimSpace;
    var text := whole + "." + fraction;
    assert text[0] == whole[0] && text[|text| - 1] == fraction[1];
    NothingToTrim(text);
    assert Unsigned(text, whole, true, fraction);
    UnsignedParses(text, whole, true, fraction);
  }

  lemma NothingToTrim(text: string)
    requires text != "" && IsDigit(text[0]) && IsDigit(text[|text| - 1])
    ensures TrimSpace(text) == text
  {
  }

  /** The result is canonical, is worth exactly what the text was, and is its own normal form. */
  lemma NormalForm(raw: string)
    requires Normalize(raw).Some?
    ensures var out := Normalize(raw).value;
      && Canonical(out) && Normalize(out) == Some(out)
      && Parse(TrimSpace(out)).Some? && Parse(TrimSpace(raw)).Some? && Worth(out) == Worth(raw)
  {
    assert Parse(TrimSpace(raw)).Some?;
    hide TrimSpace, Parse, Normalize;
    var whole, fraction := NormalOf(raw);
    var out := whole + "." + fraction;
    assert Normalize(raw) == Some(out);
    ParseCanonical(whole, fraction);
    var again, rest := NormalOf(out);
    SameParts(whole, fraction, again, rest);
  }

  /** Canonical parts are fixed by the value. */
  lemma SameParts(whole: string, fraction: string, whole2: string, fraction2: string)
    requires AllDigits(whole) && AllDigits(fraction) && |fraction| == 2 && whole != "" && (whole[0] != '0' || whole == "0")
    requires AllDigits(whole2) && AllDigits(fraction2) && |fraction2| == 2
    requires whole2 != "" && (whole2[0] != '0' || whole2 == "0")
    requires DigitsValue(whole) * 100 + DigitsValue(fraction) == DigitsValue(whole2) * 100 + DigitsValue(fraction2)
    ensures whole == whole2 && fraction == fraction2
  {
    hide DigitsValue;
    TwoMore("", fraction);
    TwoMore("", fraction2);
    assert DigitsValue(whole) == DigitsValue(whole2) && DigitsValue(fraction) == DigitsValue(fraction2);
    DigitsDecimal(whole);
    DigitsDecimal(whole2);
    TwoDigits(fraction);
    TwoDigits(fraction2);
  }

  lemma TwoDigits(fraction: string)
    requires AllDigits(fraction) && |fraction| == 2
    ensures DigitsValue(fraction) < 100
    ensures fraction == [Digit(DigitsValue(fraction) / 10), Digit(DigitsValue(fraction) % 10)]
  {
    assert IsDigit(fraction[0]) && IsDigit(fraction[1]);
    assert fraction[..1][..0] == "" && fraction[..1][0] == fraction[0];
    assert DigitsValue(fraction[..1]) == fraction[0] as int - '0' as int;
  }

  /** Two accepted texts have the same normal form exactly when they are worth the same. */
  lemma EqualFormsEqualValues(raw: string, other: string)
    requires Normalize(raw).Some? && Normalize(other).Some?
    ensures Parse(TrimSpace(raw)).Some? && Parse(TrimSpace(other)).Some?
    ensures Normalize(raw) == Normalize(other) <==> Worth(raw) == Worth(other)
  {
    assert Parse(TrimSpace(raw)).Some? && Parse(TrimSpace(other)).Some?;
    hide TrimSpace, Parse, Normalize;
    NormalForm(raw);
    NormalForm(other);
    var whole, fraction := NormalOf(raw);
    var whole2, fraction2 := NormalOf(other);
    if Worth(raw) == Worth(other) {
      SameParts(whole, fraction, whole2, fraction2);
    }
  }
}
