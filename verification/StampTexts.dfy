/** The stamps read back: their digits spell the second they were made from. */
module StampTexts {
  import opened Calendar
  import opened Captures
  import opened Ldif
  import opened Stamps
  import opened Strings
  import opened Wrappers

  /** Numbers of the given widths, each with its separator behind it, up to the end of the text. */
  function ReadFields(text: string, widths: seq<nat>, separators: seq<string>): Option<seq<nat>>
    requires |widths| == |separators|
  {
    if widths == [] then
      if text == "" then Some([]) else None
    else
      var w := widths[0];
      if |text| < w || !(separators[0] <= text[w..]) then None
      else Prepend(text, w, ReadFields(text[w + |separators[0]|..], widths[1..], separators[1..]))
  }

  /** The number of the first `w` digits, before what the rest is read as. */
  function Prepend(text: string, w: nat, rest: Option<seq<nat>>): Option<seq<nat>> {
    if |text| < w || !Digits(text[..w]) || rest.None? then None
    else Some([Number(text[..w])] + rest.value)
  }

  /** The second that six numbers from the year to the second name. */
  ghost predicate Names(fields: seq<nat>, t: int) {
    && |fields| == 6 && ValidDate(fields[0], fields[1], fields[2])
    && fields[3] < 24 && fields[4] < 60 && fields[5] < 60
    && t == 86_400 * DayNumber(fields[0], fields[1], fields[2]) + 3600 * fields[3] + 60 * fields[4] + fields[5]
  }

  lemma {:induction false} PadReads(w: nat, n: nat)
    requires 1 <= w && n < Pow10(w)
    ensures |Pad(w, n)| == w && Digits(Pad(w, n)) && Number(Pad(w, n)) == n
    decreases w
  {
    if w == 1 {
      assert Pow10(1) == 10 * Pow10(0);
      assert Pad(1, n) == [Digit(n)] && Pad(1, n)[..0] == "";
    } else {
      PadReads(w - 1, n / 10);
      assert Pad(w, n) == Pad(w - 1, n / 10) + [Digit(n % 10)];
      assert Pad(w, n)[..w - 1] == Pad(w - 1, n / 10);
    }
  }

  /** The widths of the fields left, of which the year is the first. */
  function Widths(n: nat): (widths: seq<nat>)
    ensures |widths| == n
  {
    if n == 0 then [] else [Width(n)] + Widths(n - 1)
  }

  lemma {:induction false} RenderReads(f: seq<nat>, separators: seq<string>)
    requires |f| == |separators| <= 6 && FitsWidths(f)
    ensures ReadFields(Render(f, separators), Widths(|f|), separators) == Some(f)
  {
    hide Pad, Number, Digits, Pow10;
    if f != [] {
      var w := Width(|f|);
      var rest := Render(f[1..], separators[1..]);
      PadReads(w, f[0]);
      RenderReads(f[1..], separators[1..]);
      var text := Render(f, separators);
      assert text == Pad(w, f[0]) + (separators[0] + rest);
      assert text[..w] == Pad(w, f[0]) && text[w..] == separators[0] + rest;
      assert text[w + |separators[0]|..] == text[w..][|separators[0]|..] == rest;
      assert Widths(|f|)[1..] == Widths(|f| - 1) && Widths(|f|)[0] == w;
      assert [f[0]] + f[1..] == f;
      assert ReadFields(rest, Widths(|f| - 1), separators[1..]) == Some(f[1..]);
    }
  }

  lemma SixWidths()
    ensures Widths(6) == [4, 2, 2, 2, 2, 2]
  {
    assert Widths(1) == [2];
    assert Widths(3) == [2, 2, 2];
    assert Widths(5) == [2, 2, 2, 2, 2];
  }

  /** A name is its head and, behind it, the stamp of a deployment. */
  predicate ReadBehind(head: string, name: string, fields: seq<nat>) {
    head <= name && ReadFields(name[|head|..], [4, 2, 2, 2, 2, 2], ["", "", "-", "", "", ""]) == Some(fields)
  }

  lemma FieldsName(t: u64)
    requires InRange(t)
    ensures Names(Fields(t), t as int)
  {
    var today := t as int % SECONDS_PER_DAY;
    var h, m, s := ClockParts(today);
    FromEpoch(t as int / SECONDS_PER_DAY);
  }

  /**
   Deployment suffix, start time, capture name and names of attempts are the date and time of the second,
   digit by digit in their formats.
   */
  lemma StampsRead(t: u64)
    requires t as int < YEAR_10000
    ensures InRange(t)
    ensures exists fields ::
              && Names(fields, t as int)
              && ReadFields(UtcStamp(t), [4, 2, 2, 2, 2, 2], ["", "", "-", "", "", ""]) == Some(fields)
              && ReadFields(UtcIso8601(t), [4, 2, 2, 2, 2, 2], ["-", "-", "T", ":", ":", "Z"]) == Some(fields)
              && (forall cluster ::
                    && ReadBehind("azcluster-" + cluster + "-", DeploymentName(SlurmAttempt, cluster, t), fields)
                    && ReadBehind("azcluster-aks-" + cluster + "-", DeploymentName(AksAttempt, cluster, t), fields))
              && ReadFields(CaptureName(t), [4, 2, 2, 2, 2, 2], ["-", "-", "T", "", "", "Z.json"]) == Some(fields)
  {
    hide Render, ReadFields, Names, Fields, InRange, FitsWidths;
    FieldsFit(t);
    FieldsName(t);
    SixWidths();
    var f := Fields(t);
    RenderReads(f, DEPLOYMENT);
    RenderReads(f, ISO8601);
    RenderReads(f, ["-", "-", "T", "", "", "Z.json"]);
    forall cluster
      ensures ReadBehind("azcluster-" + cluster + "-", DeploymentName(SlurmAttempt, cluster, t), f)
      ensures ReadBehind("azcluster-aks-" + cluster + "-", DeploymentName(AksAttempt, cluster, t), f)
    {
      BehindHead("azcluster-" + cluster + "-", UtcStamp(t), f);
      BehindHead("azcluster-aks-" + cluster + "-", UtcStamp(t), f);
    }
    NameOfCapture(f);
    assert CaptureName(t) == Render(f, ["-", "-", "T", "", "", "Z.json"]);
  }

  lemma BehindHead(head: string, stamp: string, fields: seq<nat>)
    requires ReadFields(stamp, [4, 2, 2, 2, 2, 2], ["", "", "-", "", "", ""]) == Some(fields)
    ensures ReadBehind(head, head + stamp, fields)
  {
    hide ReadFields;
    assert (head + stamp)[|head|..] == stamp;
  }

  lemma NameOfCapture(f: seq<nat>)
    requires |f| == 6
    ensures Render(f, CAPTURE) + ".json" == Render(f, ["-", "-", "T", "", "", "Z.json"])
  {
    hide Render;
    LongerEnd(f, CAPTURE, ".json");
    assert "Z" + ".json" == "Z.json";
    assert CAPTURE[..5] + ["Z.json"] == ["-", "-", "T", "", "", "Z.json"];
  }

  /** A text behind the stamp lengthens its last separator. */
  lemma {:induction false} LongerEnd(f: seq<nat>, separators: seq<string>, end: string)
    requires 0 < |f| == |separators| <= 6
    ensures var n := |f| - 1;
            Render(f, separators) + end == Render(f, separators[..n] + [separators[n] + end])
  {
    hide Pad;
    var n := |f| - 1;
    var longer := separators[..n] + [separators[n] + end];
    if n > 0 {
      LongerEnd(f[1..], separators[1..], end);
      assert longer[1..] == separators[1..][..n - 1] + [separators[n] + end];
    }
  }
}
