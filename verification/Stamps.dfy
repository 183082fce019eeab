/** Fixed-width UTC stamps, whose text order is time order, and the names of deploy attempts made of them. */
module Stamps {
  import opened Calendar
  import opened TextOrder

  // ---- Zero-padded decimals ----

  function Digit(n: nat): char
    requires n < 10
  {
    ('0' as int + n) as char
  }

  /** `{n:0w}`: decimal digits, at least w of them. */
  function Pad(w: nat, n: nat): string
    decreases n + w
  {
    if n < 10 && w <= 1 then [Digit(n)]
    else Pad(if w > 0 then w - 1 else 0, n / 10) + [Digit(n % 10)]
  }

  function Pow10(w: nat): (p: nat)
    ensures p >= 1
  {
    if w == 0 then 1 else 10 * Pow10(w - 1)
  }

  lemma {:induction false} PadWidth(w: nat, n: nat)
    requires 1 <= w && n < Pow10(w)
    ensures |Pad(w, n)| == w
  {
    if w > 1 {
      PadWidth(w - 1, n / 10);
    } else {
      assert Pow10(1) == 10 * Pow10(0);
    }
  }

  /** On numbers that fit the width, text order is numeric order. */
  lemma {:induction false} PadOrder(w: nat, a: nat, b: nat)
    requires 1 <= w && a < Pow10(w) && b < Pow10(w)
    ensures Less(Pad(w, a), Pad(w, b)) <==> a < b
    ensures Pad(w, a) == Pad(w, b) <==> a == b
  {
    if w == 1 {
      assert Pow10(1) == 10 * Pow10(0);
      assert Pad(w, a)[1..] == "" && Pad(w, b)[1..] == "";
      assert Pad(w, a)[0] == Digit(a) && Pad(w, b)[0] == Digit(b);
    } else {
      PadWidth(w - 1, a / 10);
      PadWidth(w - 1, b / 10);
      PadOrder(w - 1, a / 10, b / 10);
      var da, db := [Digit(a % 10)], [Digit(b % 10)];
      LessConcat(Pad(w - 1, a / 10), Pad(w - 1, b / 10), da, db);
      assert Less(da, db) <==> da[0] < db[0];
      TailDigit(Pad(w - 1, a / 10), da[0], Pad(w - 1, b / 10), db[0]);
    }
  }

  lemma TailDigit(s: string, c: char, t: string, d: char)
    ensures s + [c] == t + [d] <==> s == t && c == d
  {
    if s + [c] == t + [d] {
      assert |s| == |t|;
      assert s == (s + [c])[..|s|] == (t + [d])[..|t|] == t;
      assert c == (s + [c])[|s|] == d;
    }
  }

  // ---- Stamps ----

  /** Year, month, day. */
  function DateFields(days: int): (f: seq<nat>)
    requires 0 <= days && days + 719_468 < 0x8000_0000_0000_0000
    ensures |f| == 3
  {
    var (y, mo, d) := CivilFromDays(days as i64);
    FromEpoch(days);
    [y as int, mo as int, d as int]
  }

  /** Hour, minute, second. */
  function ClockFields(secondsToday: nat): (f: seq<nat>)
    ensures |f| == 3
  {
    [secondsToday / 3600, secondsToday % 3600 / 60, secondsToday % 60]
  }

  function Fields(t: u64): (f: seq<nat>)
    requires InRange(t)
    ensures |f| == 6
  {
    DateFields(t as int / SECONDS_PER_DAY) + ClockFields(t as int % SECONDS_PER_DAY)
  }

  /** All but the last nine million of the 64-bit seconds; it covers every year a clock can show. */
  predicate InRange(t: u64) {
    t as int / SECONDS_PER_DAY + 719_468 < 0x8000_0000_0000_0000
  }

  /** Days at or after the epoch belong to years at or after 1970. */
  lemma FromEpoch(z: int)
    requires 0 <= z && z + 719_468 < 0x8000_0000_0000_0000
    ensures CivilFromDays(z as i64).0 >= 1970
  {
    var r := CivilFromDays(z as i64);
    if r.0 < 1970 {
      MonthTable(r.0 as int);
      YearsAscend(r.0 as int, 1970);
    }
  }

  /** Digits of each field, each followed by its separator. */
  function Render(f: seq<nat>, separators: seq<string>): string
    requires |f| == |separators| <= 6
  {
    if f == [] then "" else Pad(Width(|f|), f[0]) + (separators[0] + Render(f[1..], separators[1..]))
  }

  /** The year, the first of six fields, has four digits and the others two. */
  function Width(fieldsLeft: nat): nat {
    if fieldsLeft == 6 then 4 else 2
  }

  /** Suffix of a deployment name. */
  const DEPLOYMENT := ["", "", "-", "", "", ""]
  /** `started_at` of a pending deployment. */
  const ISO8601 := ["-", "-", "T", ":", ":", "Z"]
  /** File name of a timing capture. */
  const CAPTURE := ["-", "-", "T", "", "", "Z"]

  function UtcStamp(t: u64): string
    requires InRange(t)
  {
    Render(Fields(t), DEPLOYMENT)
  }

  function UtcIso8601(t: u64): string
    requires InRange(t)
  {
    Render(Fields(t), ISO8601)
  }

  /** The stamp of a capture goes through the year and month loops, and is the same text. */
  method CurrentUtcStamp(now: u64) returns (stamp: string)
    requires YearFits(now) && InRange(now)
    ensures stamp == Render(Fields(now), CAPTURE)
  {
    var y, mo, d, h, m, s := EpochToYmdhms(now);
    FieldsOfLoops(now, h as int, m as int, s as int);
    stamp := Pad(4, y as int) + ("-" + (Pad(2, mo as int) + ("-" + (Pad(2, d as int) + ("T" + (
               Pad(2, h as int) + ("" + (Pad(2, m as int) + ("" + (Pad(2, s as int) + ("Z" + "")))))))))));
    assert Fields(now) == [y as int, mo as int, d as int, h as int, m as int, s as int];
    RenderCapture(y as int, mo as int, d as int, h as int, m as int, s as int);
  }

  lemma FieldsOfLoops(t: u64, h: int, m: int, s: int)
    requires InRange(t)
    requires 0 <= h < 24 && 0 <= m < 60 && 0 <= s < 60
    requires t as int == (t as int / SECONDS_PER_DAY) * SECONDS_PER_DAY + h * 3600 + m * 60 + s
    ensures ClockFields(t as int % SECONDS_PER_DAY) == [h, m, s]
  {
    var today := t as int % SECONDS_PER_DAY;
    assert today == h * 3600 + m * 60 + s;
    assert today / 3600 == h;
    assert today % 3600 == m * 60 + s;
    assert today % 60 == s;
  }

  lemma RenderStep(x: nat, f: seq<nat>, separator: string, separators: seq<string>)
    requires |f| == |separators| < 6
    ensures Render([x] + f, [separator] + separators) == Pad(Width(|f| + 1), x) + (separator + Render(f, separators))
  {
    assert ([x] + f)[1..] == f && ([separator] + separators)[1..] == separators;
  }

  lemma RenderCapture(y: nat, mo: nat, d: nat, h: nat, m: nat, s: nat)
    ensures Render([y, mo, d, h, m, s], CAPTURE)
         == Pad(4, y) + ("-" + (Pad(2, mo) + ("-" + (Pad(2, d) + ("T" + (
              Pad(2, h) + ("" + (Pad(2, m) + ("" + (Pad(2, s) + ("Z" + "")))))))))))
  {
    hide Pad;
    RenderStep(s, [], "Z", []);
    RenderStep(m, [s], "", ["Z"]);
    RenderStep(h, [m, s], "", ["", "Z"]);
    RenderStep(d, [h, m, s], "T", ["", "", "Z"]);
    RenderStep(mo, [d, h, m, s], "-", ["T", "", "", "Z"]);
    RenderStep(y, [mo, d, h, m, s], "-", ["-", "T", "", "", "Z"]);
    assert [s] + [] == [s] && ["Z"] + [] == ["Z"];
    assert [m] + [s] == [m, s] && [h] + [m, s] == [h, m, s] && [d] + [h, m, s] == [d, h, m, s];
    assert [mo] + [d, h, m, s] == [mo, d, h, m, s] && [y] + [mo, d, h, m, s] == [y, mo, d, h, m, s];
    assert [""] + ["Z"] == ["", "Z"] && [""] + ["", "Z"] == ["", "", "Z"];
    assert ["T"] + ["", "", "Z"] == ["T", "", "", "Z"] && ["-"] + ["T", "", "", "Z"] == ["-", "T", "", "", "Z"];
    assert ["-"] + ["-", "T", "", "", "Z"] == CAPTURE;
  }

  // ---- Text order is time order ----

  predicate FieldsLess(f: seq<nat>, g: seq<nat>)
    requires |f| == |g|
  {
    f != [] && (f[0] < g[0] || (f[0] == g[0] && FieldsLess(f[1..], g[1..])))
  }

  predicate FitsWidths(f: seq<nat>)
    requires |f| <= 6
  {
    f != [] ==> f[0] < Pow10(Width(|f|)) && FitsWidths(f[1..])
  }

  lemma {:induction false} RenderOrder(f: seq<nat>, g: seq<nat>, separators: seq<string>)
    requires |f| == |g| == |separators| <= 6
    requires FitsWidths(f) && FitsWidths(g)
    ensures Less(Render(f, separators), Render(g, separators)) <==> FieldsLess(f, g)
    ensures |Render(f, separators)| == |Render(g, separators)|
  {
    if f != [] {
      var w := Width(|f|);
      var x, y := Render(f[1..], separators[1..]), Render(g[1..], separators[1..]);
      PadWidth(w, f[0]);
      PadWidth(w, g[0]);
      PadOrder(w, f[0], g[0]);
      LessConcat(Pad(w, f[0]), Pad(w, g[0]), separators[0] + x, separators[0] + y);
      LessConcat(separators[0], separators[0], x, y);
      LessTotal(separators[0], separators[0]);
      RenderOrder(f[1..], g[1..], separators[1..]);
    }
  }

  /** Seconds at which the year 10000 begins. */
  const YEAR_10000: int := 253_402_300_800

  lemma YearTenThousand()
    ensures DaysBeforeYear(10_000) == 2_932_897
    ensures 2_932_897 * SECONDS_PER_DAY == YEAR_10000
  {
    DaysBeforeYearClosed(10_000);
    assert LeapsThrough(9999) == 2424 && LeapsThrough(1969) == 477;
  }

  lemma YearBelow(y: int, m: int, d: int, bound: int)
    requires ValidDate(y, m, d) && DayNumber(y, m, d) < DaysBeforeYear(bound)
    ensures y < bound
  {
    if bound < y {
      YearsAscend(bound, y);
    }
    MonthTable(y);
  }

  lemma FieldsFit(t: u64)
    requires t as int < YEAR_10000
    ensures InRange(t)
    ensures FitsWidths(Fields(t))
  {
    var r := CivilFromDays((t as int / SECONDS_PER_DAY) as i64);
    YearTenThousand();
    YearBelow(r.0 as int, r.1 as int, r.2 as int, 10_000);
    FitsSix(Fields(t));
  }

  lemma FitsSix(f: seq<nat>)
    requires |f| == 6
    requires f[0] < 10_000 && f[1] < 100 && f[2] < 100 && f[3] < 100 && f[4] < 100 && f[5] < 100
    ensures FitsWidths(f)
  {
    assert Pow10(2) == 10 * Pow10(1) && Pow10(4) == 10 * Pow10(3);
    assert FitsWidths(f[5..]) && f[5..][1..] == [];
    assert f[4..][1..] == f[5..] && f[3..][1..] == f[4..] && f[2..][1..] == f[3..] && f[1..][1..] == f[2..];
    assert FitsWidths(f[3..]);
    assert FitsWidths(f[1..]);
  }

  lemma {:induction false} FieldsConcat(f: seq<nat>, g: seq<nat>, x: seq<nat>, y: seq<nat>)
    requires |f| == |g| && |x| == |y|
    requires FieldsLess(f, g) || (f == g && FieldsLess(x, y))
    ensures FieldsLess(f + x, g + y)
  {
    if f == [] {
      assert f + x == x && g + y == y;
    } else {
      assert (f + x)[1..] == f[1..] + x && (g + y)[1..] == g[1..] + y;
      if f[0] == g[0] {
        FieldsConcat(f[1..], g[1..], x, y);
      }
    }
  }

  lemma ThreeFields(f: seq<nat>, g: seq<nat>)
    requires |f| == |g| == 3 && EarlierDate(f[0], f[1], f[2], g[0], g[1], g[2])
    ensures FieldsLess(f, g)
  {
    assert f[1..][1..] == f[2..] && g[1..][1..] == g[2..];
    assert FieldsLess(f[2..], g[2..]) <==> f[2] < g[2];
  }

  lemma EarlierDays(a: int, b: int)
    requires 0 <= a < b && b + 719_468 < 0x8000_0000_0000_0000
    ensures var f, g := CivilFromDays(a as i64), CivilFromDays(b as i64);
            EarlierDate(f.0 as int, f.1 as int, f.2 as int, g.0 as int, g.1 as int, g.2 as int)
  {
    var f, g := CivilFromDays(a as i64), CivilFromDays(b as i64);
    if EarlierDate(g.0 as int, g.1 as int, g.2 as int, f.0 as int, f.1 as int, f.2 as int) {
      DatesAscend(g.0 as int, g.1 as int, g.2 as int, f.0 as int, f.1 as int, f.2 as int);
    }
  }

  lemma DateFieldsAscend(a: int, b: int)
    requires 0 <= a < b && b + 719_468 < 0x8000_0000_0000_0000
    ensures FieldsLess(DateFields(a), DateFields(b))
  {
    EarlierDays(a, b);
    ThreeFields(DateFields(a), DateFields(b));
  }

  lemma ClockFieldsAscend(a: int, b: int)
    requires 0 <= a < b < SECONDS_PER_DAY
    ensures FieldsLess(ClockFields(a), ClockFields(b))
  {
    TimesAscend(a, b);
    ThreeFields(ClockFields(a), ClockFields(b));
  }

  lemma DayThenClock(t: int, u: int)
    requires 0 <= t < u
    ensures t / SECONDS_PER_DAY < u / SECONDS_PER_DAY
         || (t / SECONDS_PER_DAY == u / SECONDS_PER_DAY && t % SECONDS_PER_DAY < u % SECONDS_PER_DAY)
  {
  }

  lemma PartsAscend(a: int, x: int, b: int, y: int)
    requires 0 <= a <= b && b + 719_468 < 0x8000_0000_0000_0000
    requires 0 <= x < SECONDS_PER_DAY && 0 <= y < SECONDS_PER_DAY
    requires a < b || (a == b && x < y)
    ensures FieldsLess(DateFields(a) + ClockFields(x), DateFields(b) + ClockFields(y))
  {
    if a < b {
      DateFieldsAscend(a, b);
    } else {
      ClockFieldsAscend(x, y);
    }
    FieldsConcat(DateFields(a), DateFields(b), ClockFields(x), ClockFields(y));
  }

  lemma EarlierFields(t: u64, u: u64)
    requires InRange(t) && InRange(u) && t < u
    ensures FieldsLess(Fields(t), Fields(u))
  {
    DayThenClock(t as int, u as int);
    PartsAscend(t as int / SECONDS_PER_DAY, t as int % SECONDS_PER_DAY, u as int / SECONDS_PER_DAY,
                u as int % SECONDS_PER_DAY);
  }

  /** The fields of a second of the day, by multiplication only. */
  lemma ClockParts(a: int) returns (h: int, m: int, s: int)
    requires 0 <= a
    ensures h == a / 3600 && m == a % 3600 / 60 && s == a % 60
    ensures a == 3600 * h + 60 * m + s && 0 <= m < 60 && 0 <= s < 60
  {
    h, m, s := a / 3600, a % 3600 / 60, a % 60;
    assert a % 3600 == 60 * m + a % 3600 % 60;
    assert a == 60 * (60 * h + m) + a % 3600 % 60;
  }

  lemma TimesAscend(a: int, b: int)
    requires 0 <= a < b < SECONDS_PER_DAY
    ensures EarlierDate(a / 3600, a % 3600 / 60, a % 60, b / 3600, b % 3600 / 60, b % 60)
  {
    var h, m, s := ClockParts(a);
    var h', m', s' := ClockParts(b);
  }

  lemma {:induction false} FieldsLessAsymmetric(f: seq<nat>, g: seq<nat>)
    requires |f| == |g|
    ensures !(FieldsLess(f, g) && FieldsLess(g, f)) && !FieldsLess(f, f)
  {
    if f != [] {
      FieldsLessAsymmetric(f[1..], g[1..]);
      FieldsLessAsymmetric(f[1..], f[1..]);
    }
  }

  /** Up to the end of the year 9999, whatever the separators: text order is time order. */
  lemma StampOrderIsTimeOrder(t: u64, u: u64, separators: seq<string>)
    requires |separators| == 6
    requires t as int < YEAR_10000 && u as int < YEAR_10000
    ensures InRange(t) && InRange(u)
    ensures Less(Render(Fields(t), separators), Render(Fields(u), separators)) <==> t < u
    ensures Render(Fields(t), separators) == Render(Fields(u), separators) <==> t == u
    ensures |Render(Fields(t), separators)| == |Render(Fields(u), separators)|
  {
    FieldsFit(t);
    FieldsFit(u);
    RenderOrder(Fields(t), Fields(u), separators);
    RenderOrder(Fields(u), Fields(t), separators);
    FieldsLessAsymmetric(Fields(t), Fields(u));
    if t < u {
      EarlierFields(t, u);
    } else if u < t {
      EarlierFields(u, t);
    }
    LessTotal(Render(Fields(t), separators), Render(Fields(u), separators));
  }

  /** The bound is exact: the first second of the year 10000 sorts before the last one of 9999. */
  lemma StampOrderEndsWithYear9999(separators: seq<string>)
    requires |separators| == 6
    ensures InRange((YEAR_10000 - 1) as u64) && InRange(YEAR_10000 as u64)
    ensures Less(Render(Fields(YEAR_10000 as u64), separators), Render(Fields((YEAR_10000 - 1) as u64), separators))
  {
    LastSecondOf9999();
    var f, g := Fields((YEAR_10000 - 1) as u64), Fields(YEAR_10000 as u64);
    var a, b := Render(f, separators), Render(g, separators);
    Leading(9999, '9');
    Leading(10_000, '1');
    assert a[0] == '9' && b[0] == '1';
  }

  lemma LastSecondOf9999()
    ensures Fields((YEAR_10000 - 1) as u64)[0] == 9999 && Fields(YEAR_10000 as u64)[0] == 10_000
  {
    YearTenThousand();
    NextYear(9999);
    MonthTable(9999);
    assert DayNumber(9999, 12, 31) == 2_932_896;
    CivilOfDayNumber(9999, 12, 31);
    assert DayNumber(10_000, 1, 1) == 2_932_897;
    CivilOfDayNumber(10_000, 1, 1);
    assert (YEAR_10000 - 1) / SECONDS_PER_DAY == 2_932_896;
  }

  lemma Leading(y: nat, c: char)
    requires (y == 9999 && c == '9') || (y == 10_000 && c == '1')
    ensures |Pad(4, y)| >= 4 && Pad(4, y)[0] == c
  {
    if y == 9999 {
      assert Pad(1, 9) == "9" && Pad(2, 99) == "99" && Pad(3, 999) == "999" && Pad(4, 9999) == "9999";
    } else {
      assert Pad(0, 1) == "1" && Pad(1, 10) == "10" && Pad(2, 100) == "100";
      assert Pad(3, 1000) == "1000" && Pad(4, 10_000) == "10000";
    }
  }

  datatype Kind = SlurmAttempt | AksAttempt

  function Prefix(kind: Kind, cluster: string): string {
    match kind
    case SlurmAttempt => "azcluster-" + cluster + "-"
    case AksAttempt => "azcluster-aks-" + cluster + "-"
  }

  /** The name of a deploy attempt. */
  function DeploymentName(kind: Kind, cluster: string, t: u64): string
    requires InRange(t)
  {
    Prefix(kind, cluster) + UtcStamp(t)
  }

  /**
   Attempts of one cluster have one name exactly when they are of one kind and begin in one second. Names
   of one kind sort by time, as do start times.
   */
  lemma AttemptsAreToldApart(cluster: string, k: Kind, t: u64, l: Kind, u: u64)
    requires t as int < YEAR_10000 && u as int < YEAR_10000
    ensures InRange(t) && InRange(u)
    ensures DeploymentName(k, cluster, t) == DeploymentName(l, cluster, u) <==> k == l && t == u
    ensures k == l ==> (Less(DeploymentName(k, cluster, t), DeploymentName(l, cluster, u)) <==> t < u)
    ensures Less(UtcIso8601(t), UtcIso8601(u)) <==> t < u
  {
    hide Fields, Render, Less;
    StampOrderIsTimeOrder(t, u, DEPLOYMENT);
    StampOrderIsTimeOrder(t, u, ISO8601);
    if k != l {
      assert |Prefix(AksAttempt, cluster)| == |Prefix(SlurmAttempt, cluster)| + 4;
    } else {
      var head := Prefix(k, cluster);
      LessTotal(head, head);
      LessConcat(head, head, UtcStamp(t), UtcStamp(u));
      assert DeploymentName(k, cluster, t)[|head|..] == UtcStamp(t);
      assert DeploymentName(k, cluster, u)[|head|..] == UtcStamp(u);
    }
  }
}
