/** Display helpers of `client/src/lib/youtube-api.ts`: ISO 8601 durations (the time part of the
    format with designators, ISO 8601:2004 section 4.4.3.2) rendered as clock text, the
    verbatim branch of the view-count formatter, and the subject and level colour tables. */
module YoutubeApi {
  import opened Strings

  // ---------------------------------------------------------------- formatDuration

  /** Length of the run of decimal digits starting at `i`. */
  function DigitRun(s: string, i: nat): (n: nat)
    requires i <= |s|
    ensures i + n <= |s|
    ensures forall k :: i <= k < i + n ==> IsDigit(s[k])
    ensures i + n == |s| || !IsDigit(s[i + n])
    decreases |s| - i
  {
    if i < |s| && IsDigit(s[i]) then 1 + DigitRun(s, i + 1) else 0
  }

  /** One optional group `(\d+U)?` at `i`: the number and the position after the designator,
      or nothing and the same position. */
  function Component(s: string, i: nat, unit: char): (r: (Option<nat>, nat))
    requires i <= |s|
    ensures r.0.None? ==> r.1 == i
    ensures r.0.Some? ==> i < r.1 <= |s| && s[r.1 - 1] == unit
  {
    var n := DigitRun(s, i);
    if n > 0 && i + n < |s| && s[i + n] == unit then (Some(ParseDecimal(s[i..i + n])), i + n + 1)
    else (None, i)
  }

  datatype Duration = Duration(hours: nat, minutes: nat, seconds: nat)

  function OrZero(o: Option<nat>): nat
  {
    if o.Some? then o.value else 0
  }

  /** `duration.match(/PT(\d+H)?(\d+M)?(\d+S)?/)`: the match starts at the first "PT" and
      always succeeds there; an absent group counts as 0. */
  function ParseDuration(s: string): (r: Option<Duration>)
    ensures r.None? <==> !Contains(s, "PT")
  {
    match IndexOf(s, "PT", 0)
    case None =>
      None
    case Some(p) =>
      assert OccursAt(s, "PT", p);
      Some(ParseGroups(s, p + 2))
  }

  /** The three optional groups, hours then minutes then seconds, from `i` on. */
  function ParseGroups(s: string, i: nat): (r: Duration)
    requires i <= |s|
    ensures i == |s| || !IsDigit(s[i]) ==> r == Duration(0, 0, 0)
  {
    var (h, j) := Component(s, i, 'H');
    var (m, k) := Component(s, j, 'M');
    var (sec, _) := Component(s, k, 'S');
    Duration(OrZero(h), OrZero(m), OrZero(sec))
  }

  /** `h:mm:ss` when there are hours, otherwise `m:ss`; fields are padded, never truncated. */
  function Render(d: Duration): (r: string)
    ensures d.hours > 0 ==> Split(r, ':') == [NatToString(d.hours), Pad2(d.minutes), Pad2(d.seconds)]
    ensures d.hours == 0 ==> Split(r, ':') == [NatToString(d.minutes), Pad2(d.seconds)]
  {
    if d.hours > 0 then
      NumberHasNo(d.hours, ':');
      SplitPieces3(NatToString(d.hours), Pad2(d.minutes), Pad2(d.seconds), ':');
      NatToString(d.hours) + ":" + Pad2(d.minutes) + ":" + Pad2(d.seconds)
    else
      NumberHasNo(d.minutes, ':');
      SplitPieces2(NatToString(d.minutes), Pad2(d.seconds), ':');
      NatToString(d.minutes) + ":" + Pad2(d.seconds)
  }

  function FormatDuration(s: string): (r: string)
    ensures !Contains(s, "PT") ==> r == "0:00"
  {
    match ParseDuration(s)
    case None => "0:00"
    case Some(d) => Render(d)
  }

  /** Reading the numbers back from `h:mm:ss` gives the parsed hours, minutes and seconds,
      whatever their size: nothing is normalised or cut. */
  lemma ReadBackWithHours(d: Duration)
    requires d.hours > 0
    ensures var pieces := Split(Render(d), ':');
      |pieces| == 3 &&
      ParseDecimal(pieces[0]) == d.hours && ParseDecimal(pieces[1]) == d.minutes &&
      ParseDecimal(pieces[2]) == d.seconds
  {
    ParseNatToString(d.hours);
    ParsePad2(d.minutes);
    ParsePad2(d.seconds);
  }

  /** Reading the numbers back from `m:ss` gives the parsed minutes and seconds. */
  lemma ReadBackWithoutHours(d: Duration)
    requires d.hours == 0
    ensures var pieces := Split(Render(d), ':');
      |pieces| == 2 && ParseDecimal(pieces[0]) == d.minutes && ParseDecimal(pieces[1]) == d.seconds
  {
    ParseNatToString(d.minutes);
    ParsePad2(d.seconds);
  }

  /** The designator text for optional components, e.g. `PT1H30S`. */
  function Designators(h: Option<nat>, m: Option<nat>, s: Option<nat>): string
  {
    "PT" + Group(h, 'H') + Group(m, 'M') + Group(s, 'S')
  }

  lemma {:induction false} DigitRunOfNumber(t: string, i: nat, n: nat)
    requires i + |NatToString(n)| <= |t|
    requires t[i..i + |NatToString(n)|] == NatToString(n)
    requires i + |NatToString(n)| == |t| || !IsDigit(t[i + |NatToString(n)|])
    ensures DigitRun(t, i) == |NatToString(n)|
  {
    var w := NatToString(n);
    forall k | i <= k < i + |w|
      ensures IsDigit(t[k])
    {
      assert t[k] == w[k - i];
    }
    DigitRunAll(t, i, i + |w|);
  }

  lemma {:induction false} DigitRunAll(t: string, i: nat, e: nat)
    requires i <= e <= |t|
    requires forall k :: i <= k < e ==> IsDigit(t[k])
    requires e == |t| || !IsDigit(t[e])
    ensures DigitRun(t, i) == e - i
    decreases e - i
  {
    if i < e {
      DigitRunAll(t, i + 1, e);
    }
  }

  function Group(o: Option<nat>, unit: char): string
  {
    if o.Some? then NatToString(o.value) + [unit] else ""
  }

  /** A present group is read back with its value. */
  lemma ReadPresent(pre: string, v: nat, unit: char, post: string)
    requires !IsDigit(unit)
    ensures var t := pre + NatToString(v) + [unit] + post;
      Component(t, |pre|, unit) == (Some(v), |pre| + |NatToString(v)| + 1)
  {
    var w := NatToString(v);
    var t := pre + w + [unit] + post;
    assert t[|pre|..|pre| + |w|] == w;
    assert t[|pre| + |w|] == unit;
    DigitRunOfNumber(t, |pre|, v);
    ParseNatToString(v);
  }

  lemma {:induction false} DigitRunShift(pre: string, tail: string, i: nat)
    requires i <= |tail|
    ensures DigitRun(pre + tail, |pre| + i) == DigitRun(tail, i)
    decreases |tail| - i
  {
    if i < |tail| {
      assert (pre + tail)[|pre| + i] == tail[i];
      DigitRunShift(pre, tail, i + 1);
    }
  }

  /** What follows cannot be read as a group with designator `unit`. */
  predicate NotAGroup(tail: string, unit: char)
  {
    var n := DigitRun(tail, 0);
    !(n > 0 && n < |tail| && tail[n] == unit)
  }

  /** An absent group reads as nothing and consumes nothing. */
  lemma ReadAbsent(pre: string, tail: string, unit: char)
    requires NotAGroup(tail, unit)
    ensures Component(pre + tail, |pre|, unit) == (None, |pre|)
  {
    DigitRunShift(pre, tail, 0);
    var n := DigitRun(tail, 0);
    if n < |tail| {
      assert (pre + tail)[|pre| + n] == tail[n];
    }
  }

  /** A group of another designator is not a group of `unit`. */
  lemma OtherGroupNotAGroup(v: nat, other: char, rest: string, unit: char)
    requires !IsDigit(other) && other != unit
    ensures NotAGroup(NatToString(v) + [other] + rest, unit)
  {
    var w := NatToString(v);
    var t := w + [other] + rest;
    assert t[0..|w|] == w;
    assert t[|w|] == other;
    DigitRunOfNumber(t, 0, v);
  }

  /** The groups after a designator never read as a group of that designator. */
  lemma LaterGroupsNotAGroup(m: Option<nat>, s: Option<nat>, unit: char)
    requires unit != 'M' && unit != 'S'
    ensures NotAGroup(Group(m, 'M') + Group(s, 'S'), unit)
  {
    if m.Some? {
      assert Group(m, 'M') + Group(s, 'S') == NatToString(m.value) + ['M'] + Group(s, 'S');
      OtherGroupNotAGroup(m.value, 'M', Group(s, 'S'), unit);
    } else if s.Some? {
      assert Group(m, 'M') + Group(s, 'S') == NatToString(s.value) + ['S'] + [];
      OtherGroupNotAGroup(s.value, 'S', [], unit);
    } else {
      assert Group(m, 'M') + Group(s, 'S') == [];
    }
  }

  lemma ReadAbsentAtEnd(pre: string, unit: char)
    ensures Component(pre, |pre|, unit) == (None, |pre|)
  {
    DigitRunAll(pre, |pre|, |pre|);
  }

  /** Reading the group with designator `unit` at the end of `pre`. */
  lemma ReadGroup(pre: string, o: Option<nat>, unit: char, tail: string)
    requires !IsDigit(unit)
    requires o.None? ==> NotAGroup(tail, unit)
    ensures Component(pre + Group(o, unit) + tail, |pre|, unit) == (o, |pre| + |Group(o, unit)|)
  {
    if o.Some? {
      assert pre + Group(o, unit) + tail == pre + NatToString(o.value) + [unit] + tail;
      ReadPresent(pre, o.value, unit, tail);
    } else {
      assert pre + Group(o, unit) + tail == pre + tail;
      ReadAbsent(pre, tail, unit);
    }
  }

  /** Regrouping the last two of four pieces. */
  lemma Regroup(a: string, b: string, c: string, d: string)
    ensures a + b + c + d == a + b + (c + d)
  {
  }

  lemma HoursGroupRead(h: Option<nat>, m: Option<nat>, s: Option<nat>)
    ensures Component(Designators(h, m, s), 2, 'H') == (h, 2 + |Group(h, 'H')|)
  {
    var gm, gs := Group(m, 'M'), Group(s, 'S');
    Regroup("PT", Group(h, 'H'), gm, gs);
    LaterGroupsNotAGroup(m, s, 'H');
    ReadGroup("PT", h, 'H', gm + gs);
  }

  lemma MinutesGroupRead(h: Option<nat>, m: Option<nat>, s: Option<nat>)
    ensures var i := 2 + |Group(h, 'H')|;
      i <= |Designators(h, m, s)| &&
      Component(Designators(h, m, s), i, 'M') == (m, i + |Group(m, 'M')|)
  {
    var pre := "PT" + Group(h, 'H');
    var gs := Group(s, 'S');
    if s.Some? {
      OtherGroupNotAGroup(s.value, 'S', [], 'M');
      assert gs == NatToString(s.value) + ['S'] + [];
    }
    ReadGroup(pre, m, 'M', gs);
  }

  lemma SecondsGroupRead(h: Option<nat>, m: Option<nat>, s: Option<nat>)
    ensures var i := 2 + |Group(h, 'H')| + |Group(m, 'M')|;
      i <= |Designators(h, m, s)| &&
      Component(Designators(h, m, s), i, 'S').0 == s
  {
    var pre := "PT" + Group(h, 'H') + Group(m, 'M');
    assert |pre| == 2 + |Group(h, 'H')| + |Group(m, 'M')|;
    assert Designators(h, m, s) == pre + Group(s, 'S');
    ReadLastGroup(pre, s, 'S');
  }

  /** Reading the group with designator `unit` that ends the text. */
  lemma ReadLastGroup(pre: string, o: Option<nat>, unit: char)
    requires !IsDigit(unit)
    ensures Component(pre + Group(o, unit), |pre|, unit).0 == o
  {
    ReadGroup(pre, o, unit, []);
    assert pre + Group(o, unit) + [] == pre + Group(o, unit);
  }

  /** The three groups read one after the other. */
  lemma ParseGroupsOf(t: string, i: nat, j: nat, k: nat, h: Option<nat>, m: Option<nat>, s: Option<nat>)
    requires i <= j <= k <= |t|
    requires Component(t, i, 'H') == (h, j)
    requires Component(t, j, 'M') == (m, k)
    requires Component(t, k, 'S').0 == s
    ensures ParseGroups(t, i) == Duration(OrZero(h), OrZero(m), OrZero(s))
  {
  }

  lemma GroupsRoundTrip(h: Option<nat>, m: Option<nat>, s: Option<nat>)
    ensures ParseGroups(Designators(h, m, s), 2) == Duration(OrZero(h), OrZero(m), OrZero(s))
  {
    var t := Designators(h, m, s);
    var j := 2 + |Group(h, 'H')|;
    var k := j + |Group(m, 'M')|;
    HoursGroupRead(h, m, s);
    MinutesGroupRead(h, m, s);
    SecondsGroupRead(h, m, s);
    ParseGroupsOf(t, 2, j, k, h, m, s);
  }

  lemma DesignatorsStartWithPT(h: Option<nat>, m: Option<nat>, s: Option<nat>)
    ensures IndexOf(Designators(h, m, s), "PT", 0) == Some(0)
  {
    assert OccursAt(Designators(h, m, s), "PT", 0);
  }

  /** Round trip: formatting the designator text of any components yields the clock text of
      those components, with the missing ones as zero. */
  lemma DesignatorsRoundTrip(h: Option<nat>, m: Option<nat>, s: Option<nat>)
    ensures ParseDuration(Designators(h, m, s)) == Some(Duration(OrZero(h), OrZero(m), OrZero(s)))
    ensures FormatDuration(Designators(h, m, s)) == Render(Duration(OrZero(h), OrZero(m), OrZero(s)))
  {
    var t := Designators(h, m, s);
    GroupsRoundTrip(h, m, s);
    DesignatorsStartWithPT(h, m, s);
    assert ParseDuration(t) == Some(ParseGroups(t, 2));
  }

  lemma DayPartHasNoPT(days: nat, hours: nat)
    ensures !Contains("P" + NatToString(days) + "DT" + NatToString(hours) + "H", "PT")
  {
    var dd := NatToString(days);
    var rest := dd + "DT" + NatToString(hours) + "H";
    var t := "P" + rest;
    assert t == "P" + NatToString(days) + "DT" + NatToString(hours) + "H";
    assert 'P' !in dd && 'P' !in NatToString(hours);
    assert 'P' !in rest;
    assert t[1] == dd[0];
    forall j | 0 <= j <= |t| - 2
      ensures !OccursAt(t, "PT", j)
    {
      if j > 0 {
        assert t[j] == rest[j - 1];
      } else {
        assert t[j + 1] != 'T';
      }
    }
  }

  /** A duration with a day part, such as `P1DT2H`, has no "PT" and renders as "0:00". */
  lemma DayPartGivesZero(days: nat, hours: nat)
    ensures FormatDuration("P" + NatToString(days) + "DT" + NatToString(hours) + "H") == "0:00"
  {
    DayPartHasNoPT(days, hours);
  }

  /** Seconds are not carried into minutes: `PT90S` gives "0:90". */
  lemma SecondsNotCarried(seconds: nat)
    requires seconds >= 10
    ensures FormatDuration(Designators(None, None, Some(seconds))) == "0:" + NatToString(seconds)
  {
    var d := Duration(0, 0, seconds);
    DesignatorsRoundTrip(None, None, Some(seconds));
    assert FormatDuration(Designators(None, None, Some(seconds))) == Render(d);
    RenderMinutesSeconds(0, seconds);
    ZeroString();
    assert NatToString(0) + ":" == "0:";
  }

  lemma ZeroString()
    ensures NatToString(0) == "0"
  {
  }

  lemma RenderMinutesSeconds(minutes: nat, seconds: nat)
    requires seconds >= 10
    ensures Render(Duration(0, minutes, seconds)) == NatToString(minutes) + ":" + NatToString(seconds)
  {
    assert |NatToString(seconds)| >= 2;
    assert Pad2(seconds) == NatToString(seconds);
  }

  // ---------------------------------------------------------------- formatViewCount

  predicate IsHexDigit(c: char)
  {
    IsDigit(c) || ('a' <= c <= 'f') || ('A' <= c <= 'F')
  }

  function HexValue(c: char): nat
    requires IsHexDigit(c)
  {
    if IsDigit(c) then c as int - '0' as int
    else if 'a' <= c <= 'f' then c as int - 'a' as int + 10
    else c as int - 'A' as int + 10
  }

  function HexRun(s: string, i: nat): (n: nat)
    requires i <= |s|
    ensures i + n <= |s|
    ensures forall k :: i <= k < i + n ==> IsHexDigit(s[k])
    decreases |s| - i
  {
    if i < |s| && IsHexDigit(s[i]) then 1 + HexRun(s, i + 1) else 0
  }

  function ParseHex(s: string): nat
    requires forall k :: 0 <= k < |s| ==> IsHexDigit(s[k])
  {
    if |s| == 0 then 0
    else
      var last := s[|s| - 1];
      assert IsHexDigit(last);
      16 * ParseHex(s[..|s| - 1]) + HexValue(last)
  }

  /** A magnitude with its sign applied. */
  function Signed(neg: bool, v: nat): int
  {
    if neg then -(v as int) else v
  }

  /** The longest run of decimal digits at the start of `u`, read; `None` when there is none. */
  function DecimalPrefix(u: string): Option<nat>
  {
    var n := DigitRun(u, 0);
    var digits := u[..n];
    assert forall k :: 0 <= k < |digits| ==> IsDigit(digits[k]);
    if n == 0 then None else Some(ParseDecimal(digits))
  }

  /** The longest run of hexadecimal digits after the two-character prefix of `u`, read. */
  function HexPrefix(u: string): Option<nat>
    requires |u| >= 2
  {
    var n := HexRun(u, 2);
    var digits := u[2..2 + n];
    assert forall k :: 0 <= k < |digits| ==> IsHexDigit(digits[k]);
    if n == 0 then None else Some(ParseHex(digits))
  }

  /** The digits after the sign: hexadecimal after "0x" or "0X", decimal otherwise. */
  function UnsignedPrefix(u: string): Option<nat>
  {
    if |u| >= 2 && u[0] == '0' && (u[1] == 'x' || u[1] == 'X') then HexPrefix(u) else DecimalPrefix(u)
  }

  /** `parseInt(count)`: leading whitespace, an optional sign, a "0x" prefix for hexadecimal,
      then the longest run of digits; `None` is NaN. */
  function ParseIntPrefix(count: string): (r: Option<int>)
    ensures var t := TrimStart(count);
      t == [] || (!IsDigit(t[0]) && t[0] != '-' && t[0] != '+') ==> r.None?
    ensures r.Some? && r.value < 0 ==> TrimStart(count) != [] && TrimStart(count)[0] == '-'
  {
    var (neg, u) := SignSplit(TrimStart(count));
    match UnsignedPrefix(u)
    case None => None
    case Some(v) => Some(Signed(neg, v))
  }

  /** An optional leading sign: whether it is a minus, and the text after it. */
  function SignSplit(t: string): (bool, string)
  {
    if t != [] && t[0] == '-' then (true, t[1..])
    else if t != [] && t[0] == '+' then (false, t[1..])
    else (false, t)
  }

  /** A plain string of decimal digits parses to its decimal value. */
  lemma ParseIntOfDecimal(count: string)
    requires count != [] && forall k :: 0 <= k < |count| ==> IsDigit(count[k])
    ensures ParseIntPrefix(count) == Some(ParseDecimal(count))
  {
    DigitsUntrimmed(count);
    assert SignSplit(TrimStart(count)) == (false, count);
    UnsignedOfDigits(count);
  }

  /** All of a string of decimal digits is read as one decimal number. */
  lemma UnsignedOfDigits(u: string)
    requires u != [] && forall k :: 0 <= k < |u| ==> IsDigit(u[k])
    ensures UnsignedPrefix(u) == Some(ParseDecimal(u))
  {
    assert |u| >= 2 ==> IsDigit(u[1]);
    DigitRunAll(u, 0, |u|);
    assert u[..|u|] == u;
  }

  /** Leading whitespace trimming leaves a string that starts with a digit alone. */
  lemma DigitsUntrimmed(count: string)
    requires count != [] && IsDigit(count[0])
    ensures TrimStart(count) == count
    ensures count[0] != '-' && count[0] != '+'
  {
  }

  /** Which branch `formatViewCount` takes; the rounding of the compact forms is not modelled. */
  datatype ViewCountText = Verbatim(text: string) | Thousands(value: int) | Millions(value: int)

  function FormatViewCount(count: string): (r: ViewCountText)
    ensures r == Verbatim(count) <==> ParseIntPrefix(count).None? || ParseIntPrefix(count).value < 1000
    ensures r.Thousands? ==> 1000 <= r.value < 1000000
    ensures r.Millions? ==> r.value >= 1000000
    ensures var n := ParseIntPrefix(count); n.Some? && n.value >= 1000000 ==> r == Millions(n.value)
    ensures var n := ParseIntPrefix(count); n.Some? && 1000 <= n.value < 1000000 ==> r == Thousands(n.value)
  {
    var num := ParseIntPrefix(count);
    if num.Some? && num.value >= 1000000 then Millions(num.value)
    else if num.Some? && num.value >= 1000 then Thousands(num.value)
    else Verbatim(count)
  }

  /** A count with no leading digits (NaN) is shown exactly as given. */
  lemma NonNumericShownVerbatim(count: string)
    requires count == [] || !(IsDigit(count[0]) || IsSpace(count[0]) || count[0] == '-' || count[0] == '+')
    ensures FormatViewCount(count) == Verbatim(count)
  {
    if count != [] {
      assert TrimStart(count) == count;
      assert DigitRun(count, 0) == 0;
    }
  }

  // ---------------------------------------------------------------- colour tables

  const GrayBadge := "bg-gray-100 text-gray-700"

  const SubjectColors: map<string, string> := map[
    "Mathematics" := "bg-blue-100 text-blue-700",
    "Math" := "bg-blue-100 text-blue-700",
    "Science" := "bg-green-100 text-green-700",
    "Physics" := "bg-purple-100 text-purple-700",
    "Chemistry" := "bg-yellow-100 text-yellow-700",
    "History" := "bg-red-100 text-red-700",
    "Programming" := "bg-indigo-100 text-indigo-700",
    "Coding" := "bg-indigo-100 text-indigo-700",
    "Biology" := "bg-emerald-100 text-emerald-700",
    "Competitive Exams" := "bg-orange-100 text-orange-700"
  ]

  const LevelColors: map<string, string> := map[
    "Beginner" := "bg-green-100 text-green-700",
    "Intermediate" := "bg-yellow-100 text-yellow-700",
    "Advanced" := "bg-red-100 text-red-700"
  ]

  /** `colors[key] || default`: a missing key and an empty (falsy) entry both give the default. */
  function Lookup(table: map<string, string>, key: string, default: string): (r: string)
    ensures key in table && table[key] != [] ==> r == table[key]
    ensures !(key in table && table[key] != []) ==> r == default
  {
    if key in table && table[key] != [] then table[key] else default
  }

  function SubjectColor(subject: string): (r: string)
    ensures subject in SubjectColors ==> r == SubjectColors[subject]
    ensures subject !in SubjectColors ==> r == GrayBadge
  {
    Lookup(SubjectColors, subject, GrayBadge)
  }

  function LevelColor(level: string): (r: string)
    ensures level in LevelColors ==> r == LevelColors[level]
    ensures level !in LevelColors ==> r == GrayBadge
  {
    Lookup(LevelColors, level, GrayBadge)
  }

  /** Synonyms share a badge, and no listed subject or level falls back to gray. */
  lemma ColorTables()
    ensures SubjectColor("Math") == SubjectColor("Mathematics")
    ensures SubjectColor("Coding") == SubjectColor("Programming")
    ensures forall k | k in SubjectColors :: SubjectColor(k) != GrayBadge
    ensures forall k | k in LevelColors :: LevelColor(k) != GrayBadge
    ensures SubjectColor("Art") == GrayBadge && LevelColor("Expert") == GrayBadge
  {
  }
}
