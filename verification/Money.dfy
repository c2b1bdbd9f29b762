/**
  Amounts in yuan: cents printed with a comma every three digits, and read back from
  whatever a user typed. Amounts read are exact decimals, kept as real numbers.
 */
module Money {
  import opened Basics

  // ---------------------------------------------------------------- decimal digits

  predicate IsDigit(c: char) {
    '0' <= c <= '9'
  }

  predicate AllDigits(s: string) {
    forall i :: 0 <= i < |s| ==> IsDigit(s[i])
  }

  function DigitChar(d: nat): (c: char)
    requires d < 10
    ensures IsDigit(c) && c as int - '0' as int == d
  {
    '0' + d as char
  }

  function DigitValue(c: char): nat
    requires IsDigit(c)
  {
    c as int - '0' as int
  }

  /** strconv.FormatInt of a number that is not negative. */
  function Digits(n: nat): (s: string)
    ensures AllDigits(s) && s != ""
  {
    if n < 10 then [DigitChar(n)] else Digits(n / 10) + [DigitChar(n % 10)]
  }

  function IntText(value: int): string {
    if value < 0 then "-" + Digits(-value) else Digits(value)
  }

  function Value(s: string): nat
    requires AllDigits(s)
  {
    if s == "" then 0 else Value(s[..|s| - 1]) * 10 + DigitValue(s[|s| - 1])
  }

  lemma {:induction false} ValueOfDigits(n: nat)
    ensures Value(Digits(n)) == n
  {
    if n >= 10 {
      ValueOfDigits(n / 10);
      assert Digits(n)[..|Digits(n)| - 1] == Digits(n / 10);
    }
  }

  function TwoDigits(n: nat): (s: string)
    requires n < 100
    ensures AllDigits(s) && |s| == 2
  {
    [DigitChar(n / 10), DigitChar(n % 10)]
  }

  lemma ValueWithTwoMore(s: string, n: nat)
    requires AllDigits(s) && n < 100
    ensures AllDigits(s + TwoDigits(n)) && Value(s + TwoDigits(n)) == 100 * Value(s) + n
  {
    var t := s + TwoDigits(n);
    var t1 := t[..|t| - 1];
    assert t1 == s + [DigitChar(n / 10)];
    assert t1[..|t1| - 1] == s;
  }

  // ---------------------------------------------------------------- grouping

  /** A comma before every complete group of three, counted from the right. */
  function Grouped(text: string): string {
    if |text| <= 3 then text
    else Grouped(text[..|text| - 3]) + "," + text[|text| - 3..]
  }

  function Tail(parts: seq<string>): string {
    if parts == [] then "" else "," + parts[0] + Tail(parts[1..])
  }

  /** strings.Join(parts, ","). */
  function JoinWithCommas(parts: seq<string>): string {
    if parts == [] then "" else parts[0] + Tail(parts[1..])
  }

  method FormatIntWithComma(value: int) returns (r: string)
    ensures r == Grouped(IntText(value))
  {
    var text := IntText(value);
    if |text| <= 3 {
      return text;
    }
    var parts: seq<string> := [];
    while |text| > 3
      invariant Grouped(text) + Tail(parts) == Grouped(IntText(value))
    {
      ghost var before := Tail(parts);
      var last := text[|text| - 3..];
      parts := [last] + parts;
      assert parts[1..] == parts[1..] && Tail(parts) == "," + last + before;
      assert Grouped(text) + before == Grouped(text[..|text| - 3]) + Tail(parts);
      text := text[..|text| - 3];
    }
    parts := [text] + parts;
    r := JoinWithCommas(parts);
  }

  predicate CommaFree(s: string) {
    forall i :: 0 <= i < |s| ==> s[i] != ','
  }

  lemma {:induction false} GroupedLength(text: string)
    requires text != ""
    ensures |Grouped(text)| == |text| + (|text| - 1) / 3
  {
    if |text| > 3 {
      GroupedLength(text[..|text| - 3]);
    }
  }

  /** The characters of a grouped text, counted from the right. */
  lemma GroupedFromRight(text: string, k: nat)
    requires |text| > 3 && k < |Grouped(text)|
    ensures var front := Grouped(text[..|text| - 3]);
            && |Grouped(text)| == |front| + 4
            && Grouped(text)[|Grouped(text)| - 1 - k] ==
               if k < 3 then text[|text| - 1 - k] else if k == 3 then ',' else front[|front| - 1 - (k - 4)]
  {
  }

  /** Counted from the right, exactly every fourth character of the printed number is a comma. */
  lemma {:induction false} GroupedShape(text: string, k: nat)
    requires text != "" && CommaFree(text) && k < |Grouped(text)|
    ensures |Grouped(text)| == |text| + (|text| - 1) / 3
    ensures Grouped(text)[|Grouped(text)| - 1 - k] == ',' <==> k % 4 == 3
  {
    GroupedLength(text);
    if |text| > 3 {
      GroupedFromRight(text, k);
      if k >= 4 {
        GroupedShape(text[..|text| - 3], k - 4);
      }
    }
  }

  function Uncommaed(s: string): string {
    if s == "" then "" else Uncommaed(s[..|s| - 1]) + if s[|s| - 1] == ',' then "" else [s[|s| - 1]]
  }

  lemma {:induction false} UncommaedConcat(a: string, b: string)
    ensures Uncommaed(a + b) == Uncommaed(a) + Uncommaed(b)
  {
    if b == "" {
      assert a + b == a;
    } else {
      var last := if b[|b| - 1] == ',' then "" else [b[|b| - 1]];
      UncommaedConcat(a, b[..|b| - 1]);
      ConcatInit(a, b);
      ConcatAssoc(Uncommaed(a), Uncommaed(b[..|b| - 1]), last);
    }
  }

  lemma {:induction false} UncommaedOfCommaFree(s: string)
    requires CommaFree(s)
    ensures Uncommaed(s) == s
  {
    if s != "" {
      UncommaedOfCommaFree(s[..|s| - 1]);
    }
  }

  /** The commas are all that is added. */
  lemma {:induction false} GroupingOnlyAddsCommas(text: string)
    requires CommaFree(text)
    ensures Uncommaed(Grouped(text)) == text
  {
    if |text| <= 3 {
      UncommaedOfCommaFree(text);
    } else {
      var front, last := text[..|text| - 3], text[|text| - 3..];
      GroupingOnlyAddsCommas(front);
      UncommaedConcat(Grouped(front) + ",", last);
      assert (Grouped(front) + ",")[..|Grouped(front)|] == Grouped(front);
      UncommaedOfCommaFree(last);
    }
  }

  /** The sign of a negative number with n digits, as grouping leaves it. */
  function SignText(n: nat): string {
    if n % 3 == 0 then "-," else "-"
  }

  lemma {:induction false} GroupedAfterSign(digits: string)
    requires digits != ""
    ensures Grouped("-" + digits) == SignText(|digits|) + Grouped(digits)
  {
    var n := |digits|;
    if n == 3 {
      SignBeforeThree(digits);
    } else if n > 3 {
      SignBeforeGroups(digits);
      GroupedAfterSign(digits[..n - 3]);
      SignTextRepeats(n);
      ConcatAssoc(SignText(n), Grouped(digits[..n - 3]), "," + digits[n - 3..]);
    }
  }

  lemma SignTextRepeats(n: nat)
    requires n > 3
    ensures SignText(n - 3) == SignText(n)
  {
  }

  lemma SignBeforeThree(digits: string)
    requires |digits| == 3
    ensures Grouped("-" + digits) == "-," + digits
  {
    var text := "-" + digits;
    assert text[1..] == digits && text[..1] == "-";
  }

  lemma GroupedStep(text: string)
    requires |text| > 3
    ensures Grouped(text) == Grouped(text[..|text| - 3]) + ("," + text[|text| - 3..])
  {
    ConcatAssoc(Grouped(text[..|text| - 3]), ",", text[|text| - 3..]);
  }

  lemma SignBeforeGroups(digits: string)
    requires |digits| > 3
    ensures Grouped("-" + digits) == Grouped("-" + digits[..|digits| - 3]) + ("," + digits[|digits| - 3..])
    ensures Grouped(digits) == Grouped(digits[..|digits| - 3]) + ("," + digits[|digits| - 3..])
  {
    GroupedStep(digits);
    GroupedStep("-" + digits);
    SignedSlices("-", digits, |digits| - 3);
  }

  lemma SignedSlices(sign: string, digits: string, k: nat)
    requires |sign| == 1 && k <= |digits|
    ensures (sign + digits)[..k + 1] == sign + digits[..k]
    ensures (sign + digits)[k + 1..] == digits[k..]
  {
  }

  /** The sign counts as a digit: a negative number comes out as "-,…" exactly if its digits fill whole groups. */
  lemma SignIsSeparatedIff(value: int)
    ensures value < 0 ==> Grouped(IntText(value)) == SignText(|Digits(-value)|) + Grouped(Digits(-value))
    ensures "-," <= Grouped(IntText(value)) <==> value < 0 && |Digits(-value)| % 3 == 0
  {
    if value < 0 {
      var digits, text := Digits(-value), Grouped(IntText(value));
      GroupedAfterSign(digits);
      GroupStartsWithDigit(digits);
      assert text[1] == if |digits| % 3 == 0 then ',' else digits[0];
    } else {
      GroupStartsWithDigit(Digits(value));
      assert Grouped(IntText(value))[0] != '-';
    }
  }

  lemma {:induction false} GroupStartsWithDigit(text: string)
    requires text != "" && AllDigits(text)
    ensures Grouped(text) != "" && Grouped(text)[0] == text[0]
  {
    if |text| > 3 {
      GroupStartsWithDigit(text[..|text| - 3]);
    }
  }

  // ---------------------------------------------------------------- printing and reading amounts

  function Printed(cents: int): string {
    if cents <= 0 then ""
    else
      var yuan := "¥" + Grouped(Digits(cents / 100));
      if cents % 100 == 0 then yuan else yuan + "." + TwoDigits(cents % 100)
  }

  method FormatCNYCents(value: int) returns (r: string)
    ensures r == Printed(value)
  {
    if value <= 0 {
      return "";
    }
    var yuan := FormatIntWithComma(value / 100);
    var cents := value % 100;
    if cents == 0 {
      return "¥" + yuan;
    }
    r := "¥" + yuan + "." + TwoDigits(cents);
  }

  predicate IsKept(c: char) {
    IsDigit(c) || c == '.'
  }

  /** What is left of a text when only digits and points count. */
  function Kept(s: string): string {
    if s == "" then ""
    else Kept(s[..|s| - 1]) + if IsKept(s[|s| - 1]) then [s[|s| - 1]] else ""
  }

  function Pow10(k: nat): (p: nat)
    ensures p > 0
  {
    if k == 0 then 1 else 10 * Pow10(k - 1)
  }

  function FirstPoint(s: string): (i: nat)
    ensures i <= |s| && (i < |s| ==> s[i] == '.')
    ensures forall j :: 0 <= j < i ==> s[j] != '.'
  {
    if s == "" || s[0] == '.' then 0 else 1 + FirstPoint(s[1..])
  }

  /** The number with these digits before and after the point. */
  function AmountOf(whole: string, frac: string): Option<real> {
    if whole + frac == "" || !AllDigits(whole + frac) then None
    else Some(Value(whole + frac) as real / Pow10(|frac|) as real)
  }

  /** strconv.ParseFloat on digits and points, exactly: at least one digit and at most one point. */
  function Amount(s: string): Option<real> {
    var i := FirstPoint(s);
    AmountOf(s[..i], if i < |s| then s[i + 1..] else "")
  }

  /** The amount in the text, to the nearest cent; 0 if there is none. */
  function Cents(s: string): int {
    var amount := Amount(Kept(s));
    if amount.None? then 0 else (amount.value * 100.0 + 0.5).Floor
  }

  method ParseCNYCents(value: string) returns (cents: int)
    ensures cents == Cents(value)
  {
    TrimmingKeepsTheAmount(value);
    var text := Trim(value);
    if text == "" {
      return 0;
    }
    var kept := "";
    for i := 0 to |text|
      invariant kept == Kept(text[..i])
    {
      assert text[..i + 1][..i] == text[..i];
      if IsKept(text[i]) {
        kept := kept + [text[i]];
      }
    }
    assert text[..|text|] == text;
    var amount := Amount(kept);
    if amount.None? {
      return 0;
    }
    cents := (amount.value * 100.0 + 0.5).Floor;
  }

  lemma {:induction false} KeptConcat(a: string, b: string)
    ensures Kept(a + b) == Kept(a) + Kept(b)
  {
    if b == "" {
      assert a + b == a;
    } else {
      var last := if IsKept(b[|b| - 1]) then [b[|b| - 1]] else "";
      KeptConcat(a, b[..|b| - 1]);
      ConcatInit(a, b);
      ConcatAssoc(Kept(a), Kept(b[..|b| - 1]), last);
    }
  }

  lemma {:induction false} TrimmingLeftKeeps(s: string)
    ensures Kept(TrimLeft(s)) == Kept(s)
  {
    if s != "" && IsSpace(s[0]) {
      TrimmingLeftKeeps(s[1..]);
      KeptConcat(s[..1], s[1..]);
      assert s[..1] + s[1..] == s;
      assert s[..1][..0] == "";
    }
  }

  lemma {:induction false} TrimmingRightKeeps(s: string)
    ensures Kept(TrimRight(s)) == Kept(s)
  {
    if s != "" && IsSpace(s[|s| - 1]) {
      TrimmingRightKeeps(s[..|s| - 1]);
    }
  }

  lemma TrimmingKeepsTheAmount(s: string)
    ensures Kept(Trim(s)) == Kept(s)
  {
    TrimmingLeftKeeps(s);
    TrimmingRightKeeps(TrimLeft(s));
  }

  /** A sign is dropped like any other character: a negative amount is read as the positive one. */
  lemma SignIsIgnored(s: string)
    ensures Cents("-" + s) == Cents(s)
  {
    KeptConcat("-", s);
    assert Kept("-") == "";
    assert Kept("-" + s) == Kept(s);
  }

  // ---------------------------------------------------------------- the round trip

  lemma {:induction false} KeptOfDigits(s: string)
    requires AllDigits(s)
    ensures Kept(s) == s
  {
    if s != "" {
      KeptOfDigits(s[..|s| - 1]);
    }
  }

  lemma {:induction false} KeptOfGrouped(digits: string)
    requires AllDigits(digits)
    ensures Kept(Grouped(digits)) == digits
  {
    if |digits| <= 3 {
      KeptOfDigits(digits);
    } else {
      var front, last := digits[..|digits| - 3], digits[|digits| - 3..];
      KeptOfGrouped(front);
      KeptOfDigits(last);
      KeptConcat(Grouped(front) + ",", last);
      assert (Grouped(front) + ",")[..|Grouped(front)|] == Grouped(front);
    }
  }

  lemma KeptOfPrinted(cents: nat)
    requires cents > 0
    ensures Kept(Printed(cents)) ==
            Digits(cents / 100) + if cents % 100 == 0 then "" else "." + TwoDigits(cents % 100)
  {
    var yuan, cent := "¥" + Grouped(Digits(cents / 100)), TwoDigits(cents % 100);
    KeptOfYuan(Digits(cents / 100));
    KeptOfDigits(cent);
    KeptConcat(yuan, "." + cent);
    KeptConcat(".", cent);
    assert Kept(".") == ".";
    assert yuan + "." + cent == yuan + ("." + cent);
  }

  lemma KeptOfYuan(digits: string)
    requires AllDigits(digits)
    ensures Kept("¥" + Grouped(digits)) == digits
  {
    KeptOfGrouped(digits);
    KeptConcat("¥", Grouped(digits));
    assert Kept("¥") == "";
  }

  lemma {:induction false} FirstPointAfterDigits(digits: string, rest: string)
    requires AllDigits(digits) && (rest == "" || rest[0] == '.')
    ensures FirstPoint(digits + rest) == |digits|
  {
    if digits == "" {
      assert digits + rest == rest;
    } else {
      FirstPointAfterDigits(digits[1..], rest);
      assert (digits + rest)[1..] == digits[1..] + rest;
    }
  }

  lemma AmountOfWhole(yuan: nat)
    ensures Amount(Digits(yuan)) == Some(yuan as real)
  {
    AmountWithoutPoint(Digits(yuan));
    ValueOfDigits(yuan);
  }

  lemma NoDecimals(whole: string)
    requires AllDigits(whole) && whole != ""
    ensures AmountOf(whole, "") == Some(Value(whole) as real)
  {
    assert whole + "" == whole;
    assert Pow10(|""|) == 1;
  }

  lemma AmountWithoutPoint(whole: string)
    requires AllDigits(whole) && whole != ""
    ensures Amount(whole) == Some(Value(whole) as real)
  {
    assert whole + "" == whole;
    FirstPointAfterDigits(whole, "");
    assert whole[..|whole|] == whole;
    NoDecimals(whole);
  }

  lemma AmountWithPoint(whole: string, frac: string)
    requires AllDigits(whole) && AllDigits(frac) && whole + frac != ""
    ensures AllDigits(whole + frac)
    ensures Amount(whole + "." + frac) == Some(Value(whole + frac) as real / Pow10(|frac|) as real)
  {
    var s := whole + "." + frac;
    assert s == whole + ("." + frac);
    FirstPointAfterDigits(whole, "." + frac);
    assert s[..|whole|] == whole && s[|whole| + 1..] == frac;
  }

  lemma AmountWithCents(yuan: nat, n: nat)
    requires n < 100
    ensures Amount(Digits(yuan) + "." + TwoDigits(n)) == Some((100 * yuan + n) as real / 100.0)
  {
    AmountWithPoint(Digits(yuan), TwoDigits(n));
    ValueOfDigits(yuan);
    ValueWithTwoMore(Digits(yuan), n);
    assert Pow10(2) == 10 * Pow10(1) && Pow10(1) == 10 * Pow10(0);
  }

  lemma CentsOfAmount(s: string, cents: nat)
    requires Amount(Kept(s)) == Some(cents as real / 100.0)
    ensures Cents(s) == cents
  {
  }

  lemma AmountOfYuan(yuan: nat, n: nat)
    requires n < 100
    ensures Amount(Digits(yuan) + if n == 0 then "" else "." + TwoDigits(n)) == Some((100 * yuan + n) as real / 100.0)
  {
    if n == 0 {
      AmountOfWhole(yuan);
      assert Digits(yuan) + "" == Digits(yuan);
    } else {
      AmountWithCents(yuan, n);
      ConcatAssoc(Digits(yuan), ".", TwoDigits(n));
    }
  }

  lemma AmountOfPrinted(cents: nat)
    requires cents > 0
    ensures Amount(Kept(Printed(cents))) == Some(cents as real / 100.0)
  {
    KeptOfPrinted(cents);
    AmountOfYuan(cents / 100, cents % 100);
    assert 100 * (cents / 100) + cents % 100 == cents;
  }

  /** Reading a printed amount gives it back; amounts that are not positive print as nothing and read as 0. */
  lemma ReadingPrintedAmounts(cents: int)
    ensures Cents(Printed(cents)) == if cents > 0 then cents else 0
  {
    if cents > 0 {
      AmountOfPrinted(cents);
      CentsOfAmount(Printed(cents), cents);
    }
  }

  /** Text is read as an amount exactly if it has a digit and at most one point. */
  lemma ReadableIff(s: string)
    ensures Amount(Kept(s)).Some? <==>
            (exists i :: 0 <= i < |s| && IsDigit(s[i]))
            && (forall i, j :: 0 <= i < j < |s| && s[i] == '.' ==> s[j] != '.')
  {
    KeptOnlyKept(s);
    AmountIff(Kept(s));
    CountsSurvive(s);
    PointsMeaning(s);
    DigitMeaning(s);
  }

  function Points(s: string): nat {
    if s == "" then 0 else Points(s[..|s| - 1]) + if s[|s| - 1] == '.' then 1 else 0
  }

  function DigitCount(s: string): nat {
    if s == "" then 0 else DigitCount(s[..|s| - 1]) + if IsDigit(s[|s| - 1]) then 1 else 0
  }

  lemma CountsSnoc(s: string, c: char)
    ensures Points(s + [c]) == Points(s) + (if c == '.' then 1 else 0)
    ensures DigitCount(s + [c]) == DigitCount(s) + (if IsDigit(c) then 1 else 0)
  {
    assert (s + [c])[..|s|] == s;
  }

  lemma {:induction false} CountsSurvive(s: string)
    ensures Points(Kept(s)) == Points(s) && DigitCount(Kept(s)) == DigitCount(s)
  {
    if s != "" {
      var init, c := s[..|s| - 1], s[|s| - 1];
      CountsSurvive(init);
      CountsSnoc(Kept(init), c);
      assert !IsKept(c) ==> Kept(s) == Kept(init);
    }
  }

  lemma {:induction false} KeptOnlyKept(s: string)
    ensures forall i :: 0 <= i < |Kept(s)| ==> IsKept(Kept(s)[i])
  {
    if s != "" {
      KeptOnlyKept(s[..|s| - 1]);
    }
  }

  lemma {:induction false} DigitMeaning(s: string)
    ensures DigitCount(s) > 0 <==> exists i :: 0 <= i < |s| && IsDigit(s[i])
  {
    if s != "" {
      var init := s[..|s| - 1];
      DigitMeaning(init);
      assert forall i :: 0 <= i < |init| ==> s[i] == init[i];
    }
  }

  lemma {:induction false} NoPoints(s: string)
    ensures Points(s) == 0 <==> forall i :: 0 <= i < |s| ==> s[i] != '.'
  {
    if s != "" {
      var init := s[..|s| - 1];
      NoPoints(init);
      assert forall i :: 0 <= i < |init| ==> s[i] == init[i];
    }
  }

  lemma {:induction false} PointsMeaning(s: string)
    ensures Points(s) <= 1 <==> forall i, j :: 0 <= i < j < |s| && s[i] == '.' ==> s[j] != '.'
  {
    if s != "" {
      var init := s[..|s| - 1];
      PointsMeaning(init);
      NoPoints(init);
      assert forall i :: 0 <= i < |init| ==> s[i] == init[i];
    }
  }

  lemma AmountIff(s: string)
    requires forall i :: 0 <= i < |s| ==> IsKept(s[i])
    ensures Amount(s).Some? <==> DigitCount(s) > 0 && Points(s) <= 1
  {
    DigitMeaning(s);
    PointsMeaning(s);
    if Amount(s).Some? {
      AmountIsWellFormed(s);
    } else if DigitCount(s) > 0 && Points(s) <= 1 {
      WellFormedIsAmount(s);
    }
  }

  lemma AmountIsWellFormed(s: string)
    requires Amount(s).Some?
    ensures exists i :: 0 <= i < |s| && IsDigit(s[i])
    ensures forall i, j :: 0 <= i < j < |s| && s[i] == '.' ==> s[j] != '.'
  {
    var at := FirstPoint(s);
    var t := s[..at] + if at < |s| then s[at + 1..] else "";
    assert AllDigits(t) && t != "";
    assert IsDigit(t[0]);
    assert t[0] == s[if at == 0 then 1 else 0];
    forall i, j | 0 <= i < j < |s| && s[i] == '.' ensures s[j] != '.' {
      assert t[j - 1] == s[j];
    }
  }

  lemma WellFormedIsAmount(s: string)
    requires forall i :: 0 <= i < |s| ==> IsKept(s[i])
    requires exists i :: 0 <= i < |s| && IsDigit(s[i])
    requires forall i, j :: 0 <= i < j < |s| && s[i] == '.' ==> s[j] != '.'
    ensures Amount(s).Some?
  {
    var at := FirstPoint(s);
    var t := s[..at] + if at < |s| then s[at + 1..] else "";
    forall k | 0 <= k < |t| ensures IsDigit(t[k]) {
      assert t[k] == s[if k < at then k else k + 1];
    }
    assert AllDigits(t);
    assert t != "";
  }

  // ---------------------------------------------------------------- rounding

  /** What a digit string is worth, place by place. */
  function Worth(s: string): nat
    requires AllDigits(s)
  {
    if s == "" then 0 else DigitValue(s[0]) * Pow10(|s| - 1) + Worth(s[1..])
  }

  lemma {:induction false} ValueSplitsFirst(s: string)
    requires AllDigits(s) && s != ""
    ensures Value(s) == DigitValue(s[0]) * Pow10(|s| - 1) + Value(s[1..])
  {
    if |s| > 1 {
      var init := s[..|s| - 1];
      ValueSplitsFirst(init);
      assert s[1..][..|s| - 2] == init[1..];
      TenTimes(DigitValue(s[0]), Pow10(|s| - 2));
    }
  }

  lemma TenTimes(d: nat, p: nat)
    ensures 10 * (d * p) == d * (10 * p)
  {
  }

  lemma {:induction false} ValueIsWorth(s: string)
    requires AllDigits(s)
    ensures Value(s) == Worth(s)
  {
    if s != "" {
      ValueSplitsFirst(s);
      ValueIsWorth(s[1..]);
    }
  }

  /** A number has no leading zero. */
  lemma {:induction false} NoLeadingZero(n: nat)
    ensures Digits(n)[0] == '0' <==> n == 0
  {
    if n >= 10 {
      NoLeadingZero(n / 10);
    }
  }

  /** Halves are rounded up: d / p as a number of hundredths. */
  lemma NearestHundredth(d: nat, p: nat)
    requires p > 0
    ensures var c := (d as real / p as real * 100.0 + 0.5).Floor;
            (2 * c - 1) * p <= 200 * d < (2 * c + 1) * p
  {
    var x := d as real / p as real * 100.0;
    Divided(d as real, p as real, x);
    NearestInteger(x, (x + 0.5).Floor, d, p);
  }

  lemma NearestInteger(x: real, c: int, d: nat, p: nat)
    requires p > 0 && x * p as real == 100.0 * d as real && c as real - 0.5 <= x < c as real + 0.5
    ensures (2 * c - 1) * p <= 200 * d < (2 * c + 1) * p
  {
    var lo, hi := c as real - 0.5, c as real + 0.5;
    ScaledUp(lo, x, p as real);
    ScaledUp(x, hi, p as real);
    TwiceAsInts(c, p, d, lo * p as real, hi * p as real);
  }

  lemma Divided(d: real, p: real, x: real)
    requires p > 0.0 && x == d / p * 100.0
    ensures x * p == 100.0 * d
  {
    var q := d / p;
    assert q * p == d;
    assert x * p == 100.0 * (q * p);
  }

  lemma ScaledUp(x: real, y: real, p: real)
    requires p > 0.0 && x <= y
    ensures x * p <= y * p
    ensures x < y ==> x * p < y * p
  {
    assert (y - x) * p == y * p - x * p;
  }

  lemma TwiceAsInts(c: int, p: nat, d: nat, lo: real, hi: real)
    requires lo == (c as real - 0.5) * p as real && hi == (c as real + 0.5) * p as real
    requires lo <= 100.0 * d as real < hi
    ensures (2 * c - 1) * p <= 200 * d < (2 * c + 1) * p
  {
    assert ((2 * c - 1) * p) as real == 2.0 * lo;
    assert ((2 * c + 1) * p) as real == 2.0 * hi;
  }

  predicate PointFree(s: string) {
    forall i :: 0 <= i < |s| ==> s[i] != '.'
  }

  lemma {:induction false} PointFreeKeepsDigits(s: string)
    requires PointFree(s)
    ensures AllDigits(Kept(s))
  {
    if s != "" {
      PointFreeKeepsDigits(s[..|s| - 1]);
    }
  }

  /** c is the nearest whole number of cents to the digits `whole.frac`, the upper one of two. */
  predicate IsNearestCent(c: int, whole: string, frac: string)
    requires AllDigits(whole) && AllDigits(frac) && AllDigits(whole + frac)
  {
    (2 * c - 1) * Pow10(|frac|) <= 200 * Worth(whole + frac) < (2 * c + 1) * Pow10(|frac|)
  }

  lemma KeptAroundPoint(before: string, after: string)
    ensures Kept(before + "." + after) == Kept(before) + "." + Kept(after)
  {
    KeptConcat(before + ".", after);
    KeptConcat(before, ".");
    assert Kept(".") == ".";
  }

  lemma CentsOfParts(s: string, whole: string, frac: string)
    requires AllDigits(whole) && AllDigits(frac) && whole + frac != "" && Kept(s) == whole + "." + frac
    ensures AllDigits(whole + frac) && IsNearestCent(Cents(s), whole, frac)
  {
    AmountWithPoint(whole, frac);
    ValueIsWorth(whole + frac);
    CentsOfFraction(s, Value(whole + frac), Pow10(|frac|));
  }

  lemma CentsOfFraction(s: string, d: nat, p: nat)
    requires p > 0 && Amount(Kept(s)) == Some(d as real / p as real)
    ensures (2 * Cents(s) - 1) * p <= 200 * d < (2 * Cents(s) + 1) * p
  {
    assert Cents(s) == (d as real / p as real * 100.0 + 0.5).Floor;
    NearestHundredth(d, p);
  }

  /** Text with a point, in any number of decimals, is read to the nearest cent, upwards on a tie. */
  lemma PointedTextIsRounded(before: string, after: string)
    requires PointFree(before) && PointFree(after) && Kept(before) + Kept(after) != ""
    ensures AllDigits(Kept(before)) && AllDigits(Kept(after)) && AllDigits(Kept(before) + Kept(after))
    ensures IsNearestCent(Cents(before + "." + after), Kept(before), Kept(after))
  {
    PointFreeKeepsDigits(before);
    PointFreeKeepsDigits(after);
    KeptAroundPoint(before, after);
    CentsOfParts(before + "." + after, Kept(before), Kept(after));
  }

  /** Text without a point is a whole number of yuan. */
  lemma PointlessTextIsWhole(text: string)
    requires PointFree(text) && Kept(text) != ""
    ensures AllDigits(Kept(text)) && Cents(text) == 100 * Worth(Kept(text))
  {
    PointFreeKeepsDigits(text);
    AmountWithoutPoint(Kept(text));
    ValueIsWorth(Kept(text));
  }

  /** Text without a digit or with two points is read as nothing. */
  lemma UnreadableIsZero(s: string)
    requires (forall i :: 0 <= i < |s| ==> !IsDigit(s[i])) || (exists i, j :: 0 <= i < j < |s| && s[i] == '.' == s[j])
    ensures Cents(s) == 0
  {
    ReadableIff(s);
  }

  // ---------------------------------------------------------------- the printed text

  lemma UncommaedYuan(digits: string)
    requires AllDigits(digits)
    ensures Uncommaed("¥" + Grouped(digits)) == "¥" + digits
  {
    GroupingOnlyAddsCommas(digits);
    UncommaedConcat("¥", Grouped(digits));
    UncommaedOfCommaFree("¥");
  }

  lemma UncommaedCents(yuan: string, n: nat)
    requires n < 100
    ensures Uncommaed(yuan + "." + TwoDigits(n)) == Uncommaed(yuan) + "." + TwoDigits(n)
  {
    var cents := "." + TwoDigits(n);
    UncommaedOfCommaFree(cents);
    UncommaedConcat(yuan, cents);
    ConcatAssoc(yuan, ".", TwoDigits(n));
    ConcatAssoc(Uncommaed(yuan), ".", TwoDigits(n));
  }

  /** Without its commas a printed amount is the yuan sign, the yuan, and any cents as two digits after a point. */
  lemma PrintedIs(cents: int)
    ensures cents <= 0 <==> Printed(cents) == ""
    ensures cents > 0 && cents % 100 == 0 ==> Uncommaed(Printed(cents)) == "¥" + Digits(cents / 100)
    ensures cents > 0 && cents % 100 != 0 ==>
              Uncommaed(Printed(cents)) ==
              "¥" + Digits(cents / 100) + "." + [DigitChar(cents % 100 / 10), DigitChar(cents % 100 % 10)]
  {
    if cents > 0 {
      UncommaedYuan(Digits(cents / 100));
      UncommaedCents("¥" + Grouped(Digits(cents / 100)), cents % 100);
    }
  }
}
