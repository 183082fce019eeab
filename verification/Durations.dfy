/** ISO 8601 durations of the form PT..H..M..S, over exact decimals. */
module Durations {
  import opened Strings
  import opened Wrappers

  predicate DecimalChar(c: char) {
    '0' <= c <= '9' || c == '.'
  }

  predicate Decimals(s: string) {
    forall i :: 0 <= i < |s| ==> DecimalChar(s[i])
  }

  predicate UnitChar(c: char) {
    c == 'H' || c == 'M' || c == 'S'
  }

  function Factor(unit: char): real {
    if unit == 'H' then 3600.0 else if unit == 'M' then 60.0 else 1.0
  }

  function Whole(digits: string): real
    requires Digits(digits)
  {
    if digits == "" then 0.0
    else Whole(digits[..|digits| - 1]) * 10.0 + (digits[|digits| - 1] as int - '0' as int) as real
  }

  function Fraction(digits: string): real
    requires Digits(digits)
  {
    if digits == "" then 0.0
    else ((digits[0] as int - '0' as int) as real + Fraction(digits[1..])) / 10.0
  }

  /** Number parsing on digits and dots: at most one dot, at least one digit. */
  function ParseDecimal(text: string): Option<real>
    requires Decimals(text)
  {
    var i := Find(text, '.');
    var whole := text[..i];
    var fraction := if i < |text| then text[i + 1..] else "";
    if Find(fraction, '.') < |fraction| || |whole + fraction| == 0 then None
    else Some(Whole(whole) + Fraction(fraction))
  }

  function Plus(total: real, value: real, unit: char): real {
    total + value * Factor(unit)
  }

  /** The scan over the characters after `PT`: pending digits and the total so far. */
  function Scan(s: string, buf: string, total: real): Option<real>
    requires Decimals(buf)
  {
    if s == "" then Some(total)
    else if DecimalChar(s[0]) then Scan(s[1..], buf + [s[0]], total)
    else if UnitChar(s[0]) then
      match ParseDecimal(buf)
      case None => None
      case Some(v) => Scan(s[1..], "", Plus(total, v, s[0]))
    else None
  }

  function Parse(s: string): Option<real> {
    if "PT" <= s then Scan(s[2..], "", 0.0) else None
  }

  /** One character of the scan. */
  lemma ScanStep(s: string, buf: string, total: real)
    requires Decimals(buf) && s != ""
    ensures Scan(s, buf, total) ==
            if DecimalChar(s[0]) then Scan(s[1..], buf + [s[0]], total)
            else if !UnitChar(s[0]) || ParseDecimal(buf).None? then None
            else Scan(s[1..], "", Plus(total, ParseDecimal(buf).value, s[0]))
  {
    hide ParseDecimal, Plus;
  }

  lemma NothingToScan(buf: string, total: real)
    requires Decimals(buf)
    ensures Scan("", buf, total) == Some(total)
  {
  }

  method ParseIso8601Duration(s: string) returns (r: Option<real>)
    ensures r == Parse(s)
  {
    hide ParseDecimal, Scan, Plus;
    if !("PT" <= s) {
      return None;
    }
    var chars := s[2..];
    var total := 0.0;
    var buf := "";
    ghost var rest := chars;
    for i := 0 to |chars|
      invariant Decimals(buf) && rest == chars[i..]
      invariant Parse(s) == Scan(rest, buf, total)
    {
      var ch := chars[i];
      assert rest[0] == ch;
      ScanStep(rest, buf, total);
      rest := rest[1..];
      if DecimalChar(ch) {
        buf := buf + [ch];
      } else if UnitChar(ch) {
        var v := ParseDecimal(buf);
        if v.None? {
          return None;
        }
        total := Plus(total, v.value, ch);
        buf := "";
      } else {
        return None;
      }
    }
    assert rest == "";
    NothingToScan(buf, total);
    return Some(total);
  }

  // ---- The accepted language, and its value ----

  /** A decimal number and the unit after it. */
  datatype Part = Part(number: string, unit: char) {
    predicate Valid() {
      && UnitChar(unit)
      && Decimals(number)
      && ParseDecimal(number).Some?
    }
  }

  function PartSeconds(p: Part): real
    requires p.Valid()
  {
    ParseDecimal(p.number).value * Factor(p.unit)
  }

  predicate AllValid(parts: seq<Part>) {
    forall i :: 0 <= i < |parts| ==> parts[i].Valid()
  }

  function Render(parts: seq<Part>): string {
    if parts == [] then "" else parts[0].number + [parts[0].unit] + Render(parts[1..])
  }

  function Seconds(parts: seq<Part>): real
    requires AllValid(parts)
  {
    if parts == [] then 0.0
    else PartSeconds(parts[0]) + Seconds(parts[1..])
  }

  lemma {:induction false} ScanNumber(number: string, k: nat, rest: string, total: real)
    requires k <= |number| && Decimals(number)
    ensures Scan(number[k..] + rest, number[..k], total) == Scan(rest, number, total)
    decreases |number| - k
  {
    if k == |number| {
      assert number[k..] + rest == rest && number[..k] == number;
    } else {
      var s := number[k..] + rest;
      assert s[0] == number[k] && s[1..] == number[k + 1..] + rest;
      assert number[..k] + [number[k]] == number[..k + 1];
      ScanNumber(number, k + 1, rest, total);
    }
  }

  lemma ScanUnit(p: Part, rest: string, total: real)
    requires p.Valid()
    ensures Scan([p.unit] + rest, p.number, total) == Scan(rest, "", total + PartSeconds(p))
  {
    hide ParseDecimal;
    assert ([p.unit] + rest)[1..] == rest && ([p.unit] + rest)[0] == p.unit;
  }

  lemma ScanPart(p: Part, rest: string, total: real)
    requires p.Valid()
    ensures Scan(p.number + ([p.unit] + rest), "", total) == Scan(rest, "", total + PartSeconds(p))
  {
    ScanNumber(p.number, 0, [p.unit] + rest, total);
    assert p.number[0..] == p.number && p.number[..0] == "";
    ScanUnit(p, rest, total);
  }

  lemma RenderFirst(parts: seq<Part>, trailing: string)
    requires parts != []
    ensures Render(parts) + trailing == parts[0].number + ([parts[0].unit] + (Render(parts[1..]) + trailing))
  {
  }

  lemma {:induction false} ScanParts(parts: seq<Part>, trailing: string, total: real)
    requires AllValid(parts) && Decimals(trailing)
    ensures Scan(Render(parts) + trailing, "", total) == Some(total + Seconds(parts))
  {
    hide ParseDecimal, PartSeconds;
    if parts == [] {
      assert Render(parts) + trailing == trailing[0..] + "";
      ScanNumber(trailing, 0, "", total);
    } else {
      RenderFirst(parts, trailing);
      ScanPart(parts[0], Render(parts[1..]) + trailing, total);
      ScanParts(parts[1..], trailing, total + PartSeconds(parts[0]));
    }
  }

  /** Recovers the parts and the trailing number from a text that was accepted. */
  lemma {:induction false} ScanAccepts(s: string, buf: string, total: real) returns (parts: seq<Part>, trailing: string)
    requires Decimals(buf)
    requires Scan(s, buf, total).Some?
    ensures AllValid(parts) && Decimals(trailing)
    ensures buf + s == Render(parts) + trailing
  {
    hide ParseDecimal;
    if s == "" {
      parts, trailing := [], buf;
    } else if DecimalChar(s[0]) {
      parts, trailing := ScanAccepts(s[1..], buf + [s[0]], total);
      assert buf + s == buf + [s[0]] + s[1..];
    } else {
      var p := Part(buf, s[0]);
      var more, end := ScanAccepts(s[1..], "", total + PartSeconds(p));
      parts, trailing := [p] + more, end;
      FirstPart(p, more, end, s);
    }
  }

  lemma FirstPart(p: Part, more: seq<Part>, end: string, s: string)
    requires s != "" && s[0] == p.unit && "" + s[1..] == Render(more) + end
    ensures p.number + s == Render([p] + more) + end
  {
    RenderFirst([p] + more, end);
    assert ([p] + more)[1..] == more;
    assert s == [p.unit] + s[1..];
  }

  ghost predicate Spells(s: string, parts: seq<Part>, trailing: string) {
    && AllValid(parts)
    && Decimals(trailing)
    && s == "PT" + (Render(parts) + trailing)
  }

  /**
   The parser accepts exactly `PT`, numbers with units in any order and number, and then digits
   without a unit, which it ignores; the value is the sum of the parts.
   */
  lemma ParsesExactly(s: string)
    ensures Parse(s).Some? <==> exists parts, trailing :: Spells(s, parts, trailing)
    ensures forall parts, trailing :: Spells(s, parts, trailing) ==> Parse(s) == Some(Seconds(parts))
  {
    hide Scan, Render, Seconds, AllValid, Decimals;
    NothingIsDecimal();
    forall parts, trailing | Spells(s, parts, trailing) ensures Parse(s) == Some(Seconds(parts)) {
      assert s[2..] == Render(parts) + trailing;
      ScanParts(parts, trailing, 0.0);
      assert 0.0 + Seconds(parts) == Seconds(parts);
    }
    if Parse(s).Some? {
      var parts, trailing := ScanAccepts(s[2..], "", 0.0);
      assert s == "PT" + s[2..] && "" + s[2..] == s[2..];
      assert Spells(s, parts, trailing);
    }
  }

  lemma NothingIsDecimal()
    ensures Decimals("")
  {
  }
}
