/** Durations as Azure writes them: hours, minutes, seconds and decimals of a second. */
module DurationTexts {
  import opened Durations
  import opened Ldif
  import opened Strings
  import opened Wrappers

  function Power10(n: nat): (p: real)
    ensures p > 0.0
  {
    if n == 0 then 1.0 else 10.0 * Power10(n - 1)
  }

  lemma {:induction false} WholeIsNumber(digits: string)
    requires Digits(digits)
    ensures Whole(digits) == Number(digits) as real
  {
    if digits != "" {
      WholeIsNumber(digits[..|digits| - 1]);
    }
  }

  function Value(c: char): real {
    (c as int - '0' as int) as real
  }

  lemma LastDigit(digits: string)
    requires Digits(digits) && digits != ""
    ensures Number(digits) as real == 10.0 * Number(digits[..|digits| - 1]) as real + Value(digits[|digits| - 1])
  {
  }

  lemma NoDigits()
    ensures Number("") == 0
  {
  }

  lemma NextPower(n: nat)
    requires n > 0
    ensures Power10(n) == 10.0 * Power10(n - 1)
  {
  }

  /** The first digit of a number counts by its place. */
  lemma {:induction false} FirstDigit(digits: string)
    requires Digits(digits) && digits != ""
    ensures Number(digits) as real == Value(digits[0]) * Power10(|digits| - 1) + Number(digits[1..]) as real
  {
    hide Number, Power10, Value;
    var most, last := digits[..|digits| - 1], digits[|digits| - 1];
    LastDigit(digits);
    if most == "" {
      NoDigits();
      assert digits[1..] == "" && Power10(0) == 1.0 by { FirstPower(); }
      Once(Value(last));
    } else {
      FirstDigit(most);
      var rest := digits[1..];
      LastDigit(rest);
      assert rest[..|rest| - 1] == most[1..] && rest[|rest| - 1] == last;
      NextPower(|most|);
      Tenfold(Value(digits[0]), Power10(|most| - 1), Number(most[1..]) as real);
    }
  }

  lemma FirstPower()
    ensures Power10(0) == 1.0
  {
  }

  lemma Once(d: real)
    ensures d * 1.0 == d
  {
  }

  lemma Tenfold(d: real, p: real, rest: real)
    ensures 10.0 * (d * p + rest) == d * (10.0 * p) + 10.0 * rest
  {
  }

  lemma FractionStep(digits: string)
    requires Digits(digits) && digits != ""
    ensures Fraction(digits) == (Value(digits[0]) + Fraction(digits[1..])) / 10.0
  {
  }

  /** Decimals are the number they spell, over the power of ten of their length. */
  lemma {:induction false} FractionIsNumber(digits: string)
    requires Digits(digits)
    ensures Fraction(digits) * Power10(|digits|) == Number(digits) as real
  {
    hide Number, Power10, Value, Fraction;
    if digits == "" {
      NoDigits();
      FirstPower();
      NoFraction();
    } else {
      FractionIsNumber(digits[1..]);
      FirstDigit(digits);
      FractionStep(digits);
      NextPower(|digits|);
      Shifted(Value(digits[0]), Fraction(digits[1..]), Power10(|digits| - 1));
    }
  }

  lemma NoFraction()
    ensures Fraction("") == 0.0
  {
  }

  lemma Shifted(d: real, f: real, p: real)
    ensures (d + f) / 10.0 * (10.0 * p) == d * p + f * p
  {
    var x := (d + f) / 10.0;
    assert x * (10.0 * p) == (x * 10.0) * p;
  }

  /** A product is divided back. */
  lemma Divided(f: real, p: real, n: real)
    requires p > 0.0 && f * p == n
    ensures f == n / p
  {
  }

  lemma NoDot(digits: string)
    requires Digits(digits)
    ensures Decimals(digits) && Find(digits, '.') == |digits|
  {
  }

  /** A number without or with decimals is read as what its digits spell. */
  lemma WholeReads(n: nat)
    ensures Decimals(Decimal(n)) && ParseDecimal(Decimal(n)) == Some(n as real)
  {
    hide Decimal, Find;
    DecimalReadsBack(n);
    NoDot(Decimal(n));
    NoDot("");
    WholeIsNumber(Decimal(n));
    assert Decimal(n)[..|Decimal(n)|] == Decimal(n) && Decimal(n) + "" == Decimal(n);
  }

  lemma FractionReads(n: nat, digits: string)
    requires Digits(digits)
    ensures var text := Decimal(n) + "." + digits;
            && Decimals(text)
            && ParseDecimal(text) == Some(n as real + Number(digits) as real / Power10(|digits|))
  {
    hide Decimal, Number, Power10, Whole, Fraction, ParseDecimal;
    DecimalReadsBack(n);
    WholeIsNumber(Decimal(n));
    FractionIsNumber(digits);
    Divided(Fraction(digits), Power10(|digits|), Number(digits) as real);
    DottedReads(Decimal(n), digits);
  }

  lemma DottedReads(whole: string, digits: string)
    requires Digits(whole) && Digits(digits) && (whole != "" || digits != "")
    ensures var text := whole + "." + digits;
            Decimals(text) && ParseDecimal(text) == Some(Whole(whole) + Fraction(digits))
  {
    hide Find, Whole, Fraction;
    NoDot(whole);
    NoDot(digits);
    var text := whole + "." + digits;
    assert text[|whole|] == '.' && text[..|whole|] == whole && text[|whole| + 1..] == digits;
    assert forall j :: 0 <= j < |whole| ==> text[j] == whole[j];
    assert Find(text, '.') == |whole|;
  }

  /** A number is digits with at most one dot among them, and at least one digit. */
  ghost predicate Spelled(text: string, whole: string, digits: string) {
    && Digits(whole) && Digits(digits) && |whole + digits| > 0
    && (text == whole + "." + digits || (text == whole && digits == ""))
  }

  lemma NumbersExactly(text: string)
    requires Decimals(text)
    ensures ParseDecimal(text).Some? <==> exists whole, digits :: Spelled(text, whole, digits)
    ensures forall whole, digits :: Spelled(text, whole, digits) ==>
              ParseDecimal(text) == Some(Number(whole) as real + Number(digits) as real / Power10(|digits|))
  {
    hide Number, Power10, Whole, Fraction, ParseDecimal;
    forall whole, digits | Spelled(text, whole, digits)
      ensures ParseDecimal(text) == Some(Number(whole) as real + Number(digits) as real / Power10(|digits|))
    {
      WholeIsNumber(whole);
      FractionIsNumber(digits);
      Divided(Fraction(digits), Power10(|digits|), Number(digits) as real);
      if text == whole && digits == "" {
        PlainReads(whole);
        NoDigits();
        FirstPower();
      } else {
        DottedReads(whole, digits);
      }
    }
    if ParseDecimal(text).Some? {
      var whole, digits := SpellingOf(text);
    }
  }

  lemma PlainReads(whole: string)
    requires Digits(whole) && whole != ""
    ensures Decimals(whole) && ParseDecimal(whole) == Some(Whole(whole))
  {
    hide Find, Whole;
    NoDot(whole);
    NoDot("");
    assert whole[..|whole|] == whole && whole + "" == whole;
  }

  lemma SpellingOf(text: string) returns (whole: string, digits: string)
    requires Decimals(text) && ParseDecimal(text).Some?
    ensures Spelled(text, whole, digits)
  {
    hide Whole, Fraction, Find;
    var i := Find(text, '.');
    whole, digits := text[..i], if i < |text| then text[i + 1..] else "";
    assert Digits(whole);
    if i < |text| {
      DigitsBehind(text, i);
      assert text == whole + ['.'] + digits;
    } else {
      assert text == whole;
    }
  }

  lemma DigitsBehind(text: string, i: nat)
    requires Decimals(text) && i < |text| && Find(text[i + 1..], '.') == |text[i + 1..]|
    ensures Digits(text[i + 1..])
  {
    hide Find;
    var digits := text[i + 1..];
    forall j | 0 <= j < |digits| ensures '0' <= digits[j] <= '9' {
      assert digits[j] == text[i + 1 + j] && DecimalChar(text[i + 1 + j]);
    }
  }

  lemma ThreeParts(hours: string, minutes: string, seconds: string)
    requires Decimals(hours) && Decimals(minutes) && Decimals(seconds)
    requires ParseDecimal(hours).Some? && ParseDecimal(minutes).Some? && ParseDecimal(seconds).Some?
    ensures Parse("PT" + hours + "H" + minutes + "M" + seconds + "S") ==
            Some(3600.0 * ParseDecimal(hours).value + 60.0 * ParseDecimal(minutes).value + ParseDecimal(seconds).value)
  {
    hide ParseDecimal, Parse, Decimals;
    var parts := [Part(hours, 'H'), Part(minutes, 'M'), Part(seconds, 'S')];
    var s := "PT" + hours + "H" + minutes + "M" + seconds + "S";
    assert parts[1..] == [Part(minutes, 'M'), Part(seconds, 'S')] && parts[1..][1..] == [Part(seconds, 'S')];
    assert parts[1..][1..][1..] == [];
    ThreeRendered(hours, minutes, seconds);
    NothingIsDecimal();
    assert Spells(s, parts, "");
    ParsesExactly(s);
    ThreeSum(parts[0], parts[1], parts[2]);
  }

  lemma ThreeSum(h: Part, m: Part, s: Part)
    requires h.Valid() && m.Valid() && s.Valid() && h.unit == 'H' && m.unit == 'M' && s.unit == 'S'
    ensures AllValid([h, m, s]) && Seconds([h, m, s]) ==
            3600.0 * ParseDecimal(h.number).value + 60.0 * ParseDecimal(m.number).value + ParseDecimal(s.number).value
  {
    hide ParseDecimal, Decimals;
    assert [h, m, s][1..] == [m, s] && [m, s][1..] == [s] && [s][1..] == [];
    assert Seconds([s]) == PartSeconds(s);
    assert Seconds([m, s]) == PartSeconds(m) + Seconds([s]);
  }

  lemma ThreeRendered(hours: string, minutes: string, seconds: string)
    ensures "PT" + hours + "H" + minutes + "M" + seconds + "S" ==
            "PT" + (Render([Part(hours, 'H'), Part(minutes, 'M'), Part(seconds, 'S')]) + "")
  {
    var parts := [Part(hours, 'H'), Part(minutes, 'M'), Part(seconds, 'S')];
    assert parts[1..] == [Part(minutes, 'M'), Part(seconds, 'S')] && parts[1..][1..] == [Part(seconds, 'S')];
    assert parts[1..][1..][1..] == [];
    assert Render(parts[1..][1..]) == seconds + "S" + "";
    assert Render(parts[1..]) == minutes + "M" + (seconds + "S" + "");
    assert Render(parts) == hours + "H" + (minutes + "M" + (seconds + "S" + ""));
  }

  /** Hours count 3600 seconds, minutes 60, and decimals by their place. */
  lemma ClockTextReads(h: nat, m: nat, s: nat, digits: string)
    requires Digits(digits)
    ensures Parse("PT" + Decimal(h) + "H" + Decimal(m) + "M" + Decimal(s) + "S") ==
            Some((3600 * h + 60 * m + s) as real)
    ensures Parse("PT" + Decimal(h) + "H" + Decimal(m) + "M" + (Decimal(s) + "." + digits) + "S") ==
            Some((3600 * h + 60 * m + s) as real + Number(digits) as real / Power10(|digits|))
  {
    hide Decimal, ParseDecimal, Parse, Number, Power10, Decimals;
    WholeReads(h);
    WholeReads(m);
    WholeReads(s);
    FractionReads(s, digits);
    ThreeParts(Decimal(h), Decimal(m), Decimal(s));
    ThreeParts(Decimal(h), Decimal(m), Decimal(s) + "." + digits);
  }
}
