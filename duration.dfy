/** `parseDuration` (api/video-info.ts and server/youtube.ts, the same code
    twice): the time part of an ISO 8601 duration in the designator format
    ("PT1H2M3S") rendered as a clock, "1:02:03" or "2:03".

    The regular expression `PT(?:(\d+)H)?(?:(\d+)M)?(?:(\d+)S)?` is
    unanchored and every group after "PT" is optional, so it matches at the
    first "PT" in the text; each group then takes the maximal run of digits
    when the right designator follows it, and is skipped otherwise (a
    shorter run would be followed by a digit, never by the designator). */
module Duration {
  import opened Wrappers
  import opened Text

  /** "PT" starts at index `j` of `s`. */
  predicate PTAt(s: string, j: int) {
    0 <= j && j + 1 < |s| && s[j] == 'P' && s[j + 1] == 'T'
  }

  predicate ContainsPT(s: string) {
    exists j :: 0 <= j < |s| && PTAt(s, j)
  }

  /** The first "PT" at or after `from`. */
  function FindPT(s: string, from: nat): (r: Option<nat>)
    requires from <= |s|
    ensures r.Some? ==> from <= r.value && PTAt(s, r.value)
    ensures r.Some? ==> forall j :: from <= j < r.value ==> !PTAt(s, j)
    ensures r.None? ==> forall j :: from <= j ==> !PTAt(s, j)
    decreases |s| - from
  {
    if from + 1 >= |s| then None
    else if PTAt(s, from) then Some(from)
    else FindPT(s, from + 1)
  }

  /** One optional group `(?:(\d+)U)?`: the captured digits (empty when the
      group is skipped) and the text left after it. */
  function Component(rest: string, unit: char): (c: (string, string))
    requires !IsDigit(unit)
    ensures AllDigits(c.0)
    ensures c.0 == [] ==> c.1 == rest
    ensures c.0 != [] ==> rest == c.0 + [unit] + c.1
  {
    var k := DigitRun(rest, 0);
    if k > 0 && k < |rest| && rest[k] == unit then
      assert rest == rest[..k] + [unit] + rest[k + 1..];
      (rest[..k], rest[k + 1..])
    else ([], rest)
  }

  /** The three capture groups of a successful match; an empty string stands
      for a group that did not participate (`undefined`). */
  datatype Groups = Groups(hours: string, minutes: string, seconds: string)

  /** `isoDuration.match(...)`: no match exactly when there is no "PT". */
  function MatchDuration(s: string): (g: Option<Groups>)
    ensures g.None? <==> !ContainsPT(s)
    ensures g.Some? ==> AllDigits(g.value.hours) && AllDigits(g.value.minutes)
                        && AllDigits(g.value.seconds)
  {
    match FindPT(s, 0)
    case None => None
    case Some(i) =>
      var (h, r1) := Component(s[i + 2..], 'H');
      var (m, r2) := Component(r1, 'M');
      var (sec, _) := Component(r2, 'S');
      Some(Groups(h, m, sec))
  }

  /** `parseInt(group || '0')`. */
  function GroupValue(g: string): (n: nat)
    requires AllDigits(g)
    ensures g == [] ==> n == 0
    ensures g != [] ==> n == ParseDigits(g)
  {
    if g == [] then ParseDigits("0") else ParseDigits(g)
  }

  /** `n.toString().padStart(2, '0')`. */
  function Pad2(n: nat): (r: string)
    ensures |r| >= 2 && AllDigits(r) && ParseDigits(r) == n
    ensures n < 10 ==> r == ['0', DigitChar(n)]
    ensures n >= 10 ==> r == Show(n)
  {
    var s := Show(n);
    ParseShow(n);
    if n < 10 then
      assert |s| == 1;
      assert PadStart(s, 2, '0') == ['0'] + s;
      ParseLeadingZero(s);
      PadStart(s, 2, '0')
    else
      assert |s| >= 2;
      PadStart(s, 2, '0')
  }

  /** The clock text: `h:MM:SS` when there are hours, `M:SS` otherwise. */
  function Clock(h: nat, m: nat, s: nat): string {
    if h > 0 then Show(h) + ":" + Pad2(m) + ":" + Pad2(s)
    else Show(m) + ":" + Pad2(s)
  }

  /** `parseDuration`. */
  function ParseDuration(iso: string): (r: string)
    ensures !ContainsPT(iso) ==> r == "0:00"
    ensures ClockShape(r)
  {
    match MatchDuration(iso)
    case None =>
      ZeroClock();
      ClockShapeOf(0, 0, 0);
      "0:00"
    case Some(g) =>
      var h := GroupValue(g.hours);
      var m := GroupValue(g.minutes);
      var s := GroupValue(g.seconds);
      ClockShapeOf(h, m, s);
      Clock(h, m, s)
  }

  /** The fallback text is the clock of a zero duration. */
  lemma ZeroClock()
    ensures Clock(0, 0, 0) == "0:00"
  {
    assert Show(0) == "0" && Pad2(0) == "00";
  }

  // ---------------------------------------------------------------------
  // Reading a clock back: the partner of Clock.

  predicate Field(f: string) {
    f != [] && AllDigits(f)
  }

  /** `H:MM:SS` or `M:SS`: digit fields separated by colons, every field
      after the first at least two digits long, and a leading hours field
      that is not zero. */
  predicate ClockShape(t: string) {
    var parts := Split(t, ':');
    (|parts| == 3 && Field(parts[0]) && Field(parts[1]) && Field(parts[2])
     && |parts[1]| >= 2 && |parts[2]| >= 2 && ParseDigits(parts[0]) > 0)
    || (|parts| == 2 && Field(parts[0]) && Field(parts[1]) && |parts[1]| >= 2)
  }

  /** The hours, minutes and seconds a clock text shows. */
  function ReadClock(t: string): Option<(nat, nat, nat)> {
    var parts := Split(t, ':');
    if |parts| == 3 && Field(parts[0]) && Field(parts[1]) && Field(parts[2]) then
      Some((ParseDigits(parts[0]), ParseDigits(parts[1]), ParseDigits(parts[2])))
    else if |parts| == 2 && Field(parts[0]) && Field(parts[1]) then
      Some((0, ParseDigits(parts[0]), ParseDigits(parts[1])))
    else None
  }

  /** A digit field holds no colon. */
  lemma NoColon(f: string)
    requires AllDigits(f)
    ensures ':' !in f
  {
    forall k | 0 <= k < |f| ensures f[k] != ':' {
      assert IsDigit(f[k]);
    }
  }

  /** The fields of a clock text are the shown numbers. */
  lemma ClockParts(h: nat, m: nat, s: nat)
    ensures h > 0 ==> Split(Clock(h, m, s), ':') == [Show(h), Pad2(m), Pad2(s)]
    ensures h == 0 ==> Split(Clock(h, m, s), ':') == [Show(m), Pad2(s)]
  {
    if h > 0 {
      HoursClockParts(h, m, s);
    } else {
      MinutesClockParts(m, s);
    }
  }

  lemma HoursClockParts(h: nat, m: nat, s: nat)
    requires h > 0
    ensures Split(Clock(h, m, s), ':') == [Show(h), Pad2(m), Pad2(s)]
  {
    SplitFields3(Show(h), Pad2(m), Pad2(s));
  }

  lemma MinutesClockParts(m: nat, s: nat)
    ensures Split(Clock(0, m, s), ':') == [Show(m), Pad2(s)]
  {
    SplitFields2(Show(m), Pad2(s));
  }

  /** Three digit fields joined by colons split back into the fields. */
  lemma SplitFields3(a: string, b: string, c: string)
    requires AllDigits(a) && AllDigits(b) && AllDigits(c)
    ensures Split(a + ":" + b + ":" + c, ':') == [a, b, c]
  {
    var parts := [a, b, c];
    assert Join(parts, ':') == a + ":" + b + ":" + c by {
      assert parts[1..] == [b, c] && parts[1..][1..] == [c];
      assert Join(parts[1..], ':') == b + [':'] + c;
      assert ":" == [':'];
    }
    assert forall k :: 0 <= k < |parts| ==> ':' !in parts[k] by {
      NoColon(a);
      NoColon(b);
      NoColon(c);
    }
    SplitJoin(parts, ':');
  }

  /** Two digit fields joined by a colon split back into the fields. */
  lemma SplitFields2(a: string, b: string)
    requires AllDigits(a) && AllDigits(b)
    ensures Split(a + ":" + b, ':') == [a, b]
  {
    var parts := [a, b];
    assert Join(parts, ':') == a + ":" + b by {
      assert parts[1..] == [b];
    }
    assert forall k :: 0 <= k < |parts| ==> ':' !in parts[k] by {
      NoColon(a);
      NoColon(b);
    }
    SplitJoin(parts, ':');
  }

  lemma ClockShapeOf(h: nat, m: nat, s: nat)
    ensures ClockShape(Clock(h, m, s))
  {
    ClockParts(h, m, s);
    ParseShow(h);
  }

  /** The clock shows exactly the hours, minutes and seconds it was given:
      no carry from seconds to minutes or minutes to hours, so distinct
      durations give distinct texts. */
  lemma {:induction false} ClockRoundTrip(h: nat, m: nat, s: nat)
    ensures ReadClock(Clock(h, m, s)) == Some((h, m, s))
  {
    ClockParts(h, m, s);
    ParseShow(h);
    ParseShow(m);
  }

  lemma ClockInjective(h: nat, m: nat, s: nat, h': nat, m': nat, s': nat)
    requires Clock(h, m, s) == Clock(h', m', s')
    ensures h == h' && m == m' && s == s'
  {
    ClockRoundTrip(h, m, s);
    ClockRoundTrip(h', m', s');
  }

  // ---------------------------------------------------------------------
  // The regular expression on well-formed designator text.

  /** A designator component as written: digits then the unit letter, or
      nothing when the component is absent. */
  function Part(digits: string, unit: char): string {
    if digits == [] then [] else digits + [unit]
  }

  predicate IsUnit(c: char) {
    c == 'H' || c == 'M' || c == 'S'
  }

  /** A group whose digits are followed by its own designator takes them. */
  lemma ComponentTakes(d: string, unit: char, t: string)
    requires d != [] && AllDigits(d) && IsUnit(unit)
    ensures Component(d + [unit] + t, unit) == (d, t)
  {
    var rest := d + [unit] + t;
    assert rest[0..|d|] == d;
    assert rest[|d|] == unit;
    DigitRunExact(rest, 0, |d|);
    assert rest[..|d|] == d && rest[|d| + 1..] == t;
  }

  /** A group meets digits followed by another designator and is skipped. */
  lemma ComponentSkips(d: string, other: char, t: string, unit: char)
    requires AllDigits(d) && IsUnit(other) && IsUnit(unit) && other != unit
    ensures Component(d + [other] + t, unit) == ([], d + [other] + t)
  {
    var rest := d + [other] + t;
    assert rest[0..|d|] == d;
    assert rest[|d|] == other;
    DigitRunExact(rest, 0, |d|);
  }

  /** The seconds group takes the seconds component, if present. */
  lemma SecondsGroup(ds: string)
    requires AllDigits(ds)
    ensures Component(Part(ds, 'S'), 'S') == (ds, [])
  {
    if ds != [] {
      assert Part(ds, 'S') == ds + ['S'] + [];
      ComponentTakes(ds, 'S', []);
    }
  }

  /** The minutes group takes the minutes component, if present, and leaves
      the seconds component. */
  lemma MinutesGroup(dm: string, ds: string)
    requires AllDigits(dm) && AllDigits(ds)
    ensures Component(Part(dm, 'M') + Part(ds, 'S'), 'M') == (dm, Part(ds, 'S'))
  {
    var tail := Part(ds, 'S');
    if dm != [] {
      assert Part(dm, 'M') + tail == dm + ['M'] + tail;
      ComponentTakes(dm, 'M', tail);
    } else if ds != [] {
      assert Part(dm, 'M') + tail == ds + ['S'] + [];
      ComponentSkips(ds, 'S', [], 'M');
      assert ds + ['S'] + [] == tail;
    } else {
      assert Part(dm, 'M') + tail == [];
    }
  }

  /** The hours group takes the hours component, if present, and leaves the
      rest. */
  lemma HoursGroup(dh: string, dm: string, ds: string)
    requires AllDigits(dh) && AllDigits(dm) && AllDigits(ds)
    ensures Component(Part(dh, 'H') + (Part(dm, 'M') + Part(ds, 'S')), 'H')
            == (dh, Part(dm, 'M') + Part(ds, 'S'))
  {
    var tail := Part(dm, 'M') + Part(ds, 'S');
    if dh != [] {
      assert Part(dh, 'H') + tail == dh + ['H'] + tail;
      ComponentTakes(dh, 'H', tail);
    } else if dm != [] {
      assert Part(dh, 'H') + tail == dm + ['M'] + Part(ds, 'S');
      ComponentSkips(dm, 'M', Part(ds, 'S'), 'H');
    } else if ds != [] {
      assert Part(dh, 'H') + tail == ds + ['S'] + [];
      ComponentSkips(ds, 'S', [], 'H');
      assert ds + ['S'] + [] == tail;
    } else {
      assert Part(dh, 'H') + tail == [];
    }
  }

  /** The first "PT" of `pre + "PT" + body` is the one after `pre` when `pre`
      holds none. */
  lemma FindAfterPrefix(pre: string, body: string)
    requires !ContainsPT(pre)
    ensures FindPT(pre + "PT" + body, 0) == Some(|pre|)
  {
    var s := pre + "PT" + body;
    assert PTAt(s, |pre|);
    forall j | 0 <= j < |pre| ensures !PTAt(s, j) {
      if j + 1 < |pre| {
        assert !PTAt(pre, j);
        assert s[j] == pre[j] && s[j + 1] == pre[j + 1];
      } else {
        assert s[j + 1] == 'P';
      }
    }
  }

  /** `parseDuration` on an ISO 8601 time part, behind any text without a
      "PT": absent components count as zero and leading zeros vanish. */
  lemma ParseDesignators(pre: string, dh: string, dm: string, ds: string)
    requires !ContainsPT(pre) && AllDigits(dh) && AllDigits(dm) && AllDigits(ds)
    ensures ParseDuration(pre + "PT" + (Part(dh, 'H') + (Part(dm, 'M') + Part(ds, 'S'))))
            == Clock(GroupValue(dh), GroupValue(dm), GroupValue(ds))
  {
    var body := Part(dh, 'H') + (Part(dm, 'M') + Part(ds, 'S'));
    var s := pre + "PT" + body;
    FindAfterPrefix(pre, body);
    assert s[|pre| + 2..] == body;
    HoursGroup(dh, dm, ds);
    MinutesGroup(dm, ds);
    SecondsGroup(ds);
    assert MatchDuration(s) == Some(Groups(dh, dm, ds));
  }

  /** For hours, minutes and seconds written without padding, the text is
      read back unchanged: `parseDuration` loses nothing. */
  lemma ParseDurationRoundTrip(h: nat, m: nat, s: nat)
    ensures ReadClock(ParseDuration("PT" + (Show(h) + "H" + (Show(m) + "M" + (Show(s) + "S")))))
            == Some((h, m, s))
  {
    var text := "PT" + (Show(h) + "H" + (Show(m) + "M" + (Show(s) + "S")));
    assert text == [] + "PT" + (Part(Show(h), 'H') + (Part(Show(m), 'M') + Part(Show(s), 'S')));
    ParseDesignators([], Show(h), Show(m), Show(s));
    ParseShow(h);
    ParseShow(m);
    ParseShow(s);
    ClockRoundTrip(h, m, s);
  }

  /** A text with minutes only, behind "PT". */
  lemma MinutesText(d: string)
    requires AllDigits(d) && d != []
    ensures ParseDuration("PT" + d + "M") == Clock(0, ParseDigits(d), 0)
  {
    assert "PT" + d + "M" == [] + "PT" + (Part([], 'H') + (Part(d, 'M') + Part([], 'S')));
    ParseDesignators([], [], d, []);
  }

  /** A clock with neither hours nor seconds. */
  lemma ClockMinutes(m: nat)
    ensures Clock(0, m, 0) == Show(m) + ":00"
  {
    assert Pad2(0) == "00" by {
      assert Show(0) == ['0'];
      assert PadStart(['0'], 2, '0') == ['0', '0'];
    }
    assert Clock(0, m, 0) == Show(m) + ":" + Pad2(0);
  }

  /** Minutes alone are shown as they are, with no carry into hours:
      "PT90M" gives "90:00". */
  lemma MinutesOnly(m: nat)
    ensures ParseDuration("PT" + Show(m) + "M") == Show(m) + ":00"
  {
    ParseShow(m);
    ClockMinutes(m);
    MinutesText(Show(m));
  }

  /** A leading zero in the input vanishes: "PT05M" reads as "PT5M". */
  lemma MinutesLeadingZero(d: string)
    requires AllDigits(d) && d != []
    ensures ParseDuration("PT0" + d + "M") == ParseDuration("PT" + d + "M")
  {
    var z := "0" + d;
    ParseLeadingZero(d);
    assert "PT0" + d + "M" == "PT" + z + "M";
    MinutesText(z);
    MinutesText(d);
  }

  /** Two texts without "PT" joined without forming one at the seam. */
  lemma NoPTConcat(a: string, b: string)
    requires !ContainsPT(a) && !ContainsPT(b)
    requires a == [] || b == [] || a[|a| - 1] != 'P' || b[0] != 'T'
    ensures !ContainsPT(a + b)
  {
    var s := a + b;
    forall j | 0 <= j < |s| ensures !PTAt(s, j) {
      if j + 1 < |a| {
        assert s[j] == a[j] && s[j + 1] == a[j + 1];
        assert !PTAt(a, j);
      } else if j + 1 == |a| {
        if b != [] {
          assert s[j] == a[|a| - 1] && s[j + 1] == b[0];
        }
      } else if j + 1 < |s| {
        assert s[j] == b[j - |a|] && s[j + 1] == b[j - |a| + 1];
        assert !PTAt(b, j - |a|);
      }
    }
  }

  /** "P", a run of digits and "D" hold no "PT". */
  lemma DayPartHasNoPT(days: string)
    requires days != [] && AllDigits(days)
    ensures !ContainsPT("P" + days + "D")
  {
    var s := "P" + days + "D";
    forall j | 0 <= j < |s| ensures !PTAt(s, j) {
      if j + 1 < |s| {
        if j < |days| {
          assert s[j + 1] == days[j] && IsDigit(days[j]);
        } else {
          assert s[j + 1] == 'D';
        }
      }
    }
  }

  /** A day part comes before a "T" that does not follow a "P", so a
      duration such as "P1DT2H" contains no "PT" and renders as "0:00". */
  lemma DayFormHasNoPT(days: string, time: string)
    requires days != [] && AllDigits(days) && !ContainsPT(time)
    ensures ParseDuration("P" + days + "DT" + time) == "0:00"
  {
    DayPartHasNoPT(days);
    assert !ContainsPT("T");
    NoPTConcat("T", time);
    NoPTConcat("P" + days + "D", "T" + time);
    assert "P" + days + "DT" + time == ("P" + days + "D") + ("T" + time);
  }
}
