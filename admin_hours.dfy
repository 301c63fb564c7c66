/**
 * The opening-hours editor of src/pages/admin/AdminHours.jsx: the half-hour
 * grid offered in its selects, the codec between a day's `hours_text`
 * ("09h00 - 12h30 & 14h00 - 19h00") and its four editable fields, and the
 * updates of the day list.
 */
module AdminHours {
  import opened Text

  // ---------------------------------------------------------------------------
  // The time grid of the selects
  // ---------------------------------------------------------------------------

  const FirstHour: nat := 6
  const LastHour: nat := 23

  /** The labels `HHh00`, `HHh30` for the hours a .. b - 1. */
  function HalfHours(a: nat, b: nat): (r: seq<string>)
    requires a <= b <= 100
    ensures |r| == 2 * (b - a)
    decreases b
  {
    if a == b then [] else HalfHours(a, b - 1) + [ClockLabel(b - 1, 0), ClockLabel(b - 1, 30)]
  }

  /** `timeSlots`: the empty choice, then 06h00, 06h30, ..., 23h30. */
  function TimeSlots(): seq<string> {
    [""] + HalfHours(FirstHour, LastHour + 1)
  }

  /** `generateTimeSlots`: starts from `['']` and pushes two labels per hour 6..23. */
  method GenerateTimeSlots() returns (slots: seq<string>)
    ensures slots == TimeSlots()
  {
    slots := [""];
    var h := FirstHour;
    while h <= LastHour
      invariant FirstHour <= h <= LastHour + 1
      invariant slots == [""] + HalfHours(FirstHour, h)
    {
      var hour := TwoDigits(h);
      assert hour + "h00" == ClockLabel(h, 0) && hour + "h30" == ClockLabel(h, 30);
      slots := slots + [hour + "h00", hour + "h30"];
      h := h + 1;
    }
  }

  /** Entry j of the half-hour labels is a clock label for a:00 + 30 j minutes. */
  lemma {:induction false} HalfHoursAt(a: nat, b: nat, j: nat)
    requires a <= b <= 100 && j < 2 * (b - a)
    ensures IsClockLabel(HalfHours(a, b)[j])
    ensures LabelMinutes(HalfHours(a, b)[j]) == a * 60 + 30 * j
    decreases b
  {
    if j < 2 * (b - 1 - a) {
      HalfHoursAt(a, b - 1, j);
    } else if j == 2 * (b - 1 - a) {
      ClockLabelMinutes(b - 1, 0);
    } else {
      ClockLabelMinutes(b - 1, 30);
    }
  }

  /** Every half-hour label is a clock label, each 30 minutes after the one before. */
  lemma HalfHoursShape(a: nat, b: nat)
    requires a <= b <= 100
    ensures forall j :: 0 <= j < 2 * (b - a) ==>
      IsClockLabel(HalfHours(a, b)[j]) && LabelMinutes(HalfHours(a, b)[j]) == a * 60 + 30 * j
  {
    forall j | 0 <= j < 2 * (b - a)
      ensures IsClockLabel(HalfHours(a, b)[j]) && LabelMinutes(HalfHours(a, b)[j]) == a * 60 + 30 * j
    {
      HalfHoursAt(a, b, j);
    }
  }

  /**
   * The grid has 37 entries: the empty choice first, then a label every 30
   * minutes from 06h00 to 23h30, so in strictly ascending order.
   */
  lemma TimeSlotsShape()
    ensures |TimeSlots()| == 37 && TimeSlots()[0] == ""
    ensures forall i :: 1 <= i < 37 ==>
      IsClockLabel(TimeSlots()[i]) && LabelMinutes(TimeSlots()[i]) == 6 * 60 + 30 * (i - 1)
  {
    var h := HalfHours(FirstHour, LastHour + 1);
    HalfHoursShape(FirstHour, LastHour + 1);
    assert forall i :: 1 <= i < 37 ==> TimeSlots()[i] == h[i - 1];
  }

  /** A clock label is a clean endpoint: trimmed, and free of `-` and `&`. */
  lemma ClockLabelClean(s: string)
    requires IsClockLabel(s)
    ensures Clean(s)
  {
  }

  /** Every choice of the selects is empty or a clean endpoint. */
  lemma TimeSlotsClean(i: nat)
    requires i < |TimeSlots()|
    ensures TimeSlots()[i] == "" || Clean(TimeSlots()[i])
  {
    TimeSlotsShape();
    if i > 0 { ClockLabelClean(TimeSlots()[i]); }
  }

  // ---------------------------------------------------------------------------
  // The hours_text codec
  // ---------------------------------------------------------------------------

  /** `parsed`: the four endpoints of a day, `''` when unset. */
  datatype Parsed = Parsed(mStart: string, mEnd: string, aStart: string, aEnd: string)

  const Unset: Parsed := Parsed("", "", "", "")

  /** An endpoint the codec carries unchanged: non-empty, trimmed, no `-` and no `&`. */
  predicate Clean(s: string) {
    Trimmed(s) && '-' !in s && '&' !in s
  }

  predicate CleanOrEmpty(s: string) {
    s == "" || Clean(s)
  }

  predicate CleanFields(p: Parsed) {
    CleanOrEmpty(p.mStart) && CleanOrEmpty(p.mEnd) && CleanOrEmpty(p.aStart) && CleanOrEmpty(p.aEnd)
  }

  /** `xs[i] || ''` on an array of strings. */
  function At(xs: seq<string>, i: nat): (s: string)
    ensures i < |xs| ==> s == xs[i]
    ensures i >= |xs| ==> s == ""
  {
    if i < |xs| then xs[i] else ""
  }

  /** `part ? part.split('-').map(s => s.trim()) : ['', '']`. */
  function Half(part: string): seq<string> {
    if part != "" then TrimAll(Split(part, '-')) else ["", ""]
  }

  /** The fields read from the trimmed `&`-separated parts of a non-empty text. */
  function FromParts(parts: seq<string>): Parsed
    requires |parts| >= 1
  {
    var morning := Half(parts[0]);
    var afternoon := if |parts| > 1 then Half(parts[1]) else ["", ""];
    Parsed(At(morning, 0), At(morning, 1), At(afternoon, 0), At(afternoon, 1))
  }

  /** `parseHoursText`: absent or empty text leaves every field unset. */
  function ParseHoursText(text: Option<string>): (p: Parsed)
    ensures text == None || text == Some("") ==> p == Unset
    ensures text.Some? && text.value != "" ==> p == FromParts(TrimAll(Split(text.value, '&')))
  {
    if text.None? || text.value == "" then Unset
    else FromParts(TrimAll(Split(text.value, '&')))
  }

  /** `start - end` when both ends of a half are set, else `''`. */
  function Range(start: string, end: string): string {
    if start != "" && end != "" then start + " - " + end else ""
  }

  /** `buildHoursText`. */
  function BuildHoursText(p: Parsed): string {
    var morning := Range(p.mStart, p.mEnd);
    var afternoon := Range(p.aStart, p.aEnd);
    if morning != "" && afternoon != "" then morning + " & " + afternoon
    else if morning != "" then morning
    else if afternoon != "" then afternoon
    else ""
  }

  /**
   * What survives a build followed by a parse: a half counts only when both of
   * its ends are set, and a lone afternoon is read back as the morning.
   */
  function Normalize(p: Parsed): (n: Parsed)
    ensures n.mStart == "" <==> n.mEnd == ""
    ensures n.aStart == "" <==> n.aEnd == ""
  {
    var m := p.mStart != "" && p.mEnd != "";
    var a := p.aStart != "" && p.aEnd != "";
    if m && a then p
    else if m then Parsed(p.mStart, p.mEnd, "", "")
    else if a then Parsed(p.aStart, p.aEnd, "", "")
    else Unset
  }

  /** `a - b` for clean a and b is trimmed and holds no `&`. */
  lemma RangeShape(a: string, b: string)
    requires Clean(a) && Clean(b)
    ensures Range(a, b) == a + " - " + b
    ensures Trimmed(a + " - " + b) && '&' !in a + " - " + b
  {
    var r := a + " - " + b;
    assert r[0] == a[0] && r[|r| - 1] == b[|b| - 1];
    forall i | 0 <= i < |r| ensures r[i] != '&' {
      if i < |a| { assert r[i] == a[i]; }
      else if i >= |a| + 3 { assert r[i] == b[i - |a| - 3]; }
    }
  }

  /** The morning half of `a - b` splits back into a and b. */
  lemma HalfOfRange(a: string, b: string)
    requires Clean(a) && Clean(b)
    ensures Half(a + " - " + b) == [a, b]
  {
    assert a + " - " + b == a + [' ', '-', ' '] + b;
    SplitSpaced(a, '-', b);
    TrimPadRight(a);
    TrimPadLeft(b);
    TrimPair(a + " ", " " + b, a, b);
  }

  lemma TrimPair(x: string, y: string, a: string, b: string)
    requires Trim(x) == a && Trim(y) == b
    ensures TrimAll([x, y]) == [a, b]
  {
  }

  /** `m & n` splits at its one `&` into the padded halves. */
  lemma SplitAmpersand(m: string, n: string)
    requires '&' !in m && '&' !in n
    ensures Split(m + " & " + n, '&') == [m + " ", " " + n]
  {
    assert m + " & " + n == m + [' ', '&', ' '] + n;
    SplitSpaced(m, '&', n);
  }

  /** Parsing a single range `a - b` sets the morning and leaves the afternoon unset. */
  lemma ParseOneRange(a: string, b: string)
    requires Clean(a) && Clean(b)
    ensures ParseHoursText(Some(a + " - " + b)) == Parsed(a, b, "", "")
  {
    var t := a + " - " + b;
    RangeShape(a, b);
    SplitWithout(t, '&');
    TrimTrimmed(t);
    assert TrimAll([t]) == [t];
    HalfOfRange(a, b);
  }

  /** Parsing `a - b & c - d` sets all four fields. */
  lemma ParseTwoRanges(a: string, b: string, c: string, d: string)
    requires Clean(a) && Clean(b) && Clean(c) && Clean(d)
    ensures ParseHoursText(Some(TwoRanges(a, b, c, d))) == Parsed(a, b, c, d)
  {
    var m, n := a + " - " + b, c + " - " + d;
    RangeShape(a, b);
    RangeShape(c, d);
    SplitAmpersand(m, n);
    TrimPadRight(m);
    TrimPadLeft(n);
    TrimPair(m + " ", " " + n, m, n);
    HalfOfRange(a, b);
    HalfOfRange(c, d);
  }

  /** The text `a - b & c - d`. */
  function TwoRanges(a: string, b: string, c: string, d: string): string {
    (a + " - " + b) + " & " + (c + " - " + d)
  }

  /** build(parse(t)) == t for `A - B` with clean endpoints. */
  lemma BuildParseOneRange(a: string, b: string)
    requires Clean(a) && Clean(b)
    ensures BuildHoursText(ParseHoursText(Some(a + " - " + b))) == a + " - " + b
  {
    ParseOneRange(a, b);
  }

  /** build(parse(t)) == t for `A - B & C - D` with clean endpoints. */
  lemma BuildParseTwoRanges(a: string, b: string, c: string, d: string)
    requires Clean(a) && Clean(b) && Clean(c) && Clean(d)
    ensures BuildHoursText(ParseHoursText(Some(TwoRanges(a, b, c, d)))) == TwoRanges(a, b, c, d)
  {
    ParseTwoRanges(a, b, c, d);
  }

  /** parse(build(p)) is Normalize(p) whenever every field is unset or clean. */
  lemma ParseBuild(p: Parsed)
    requires CleanFields(p)
    ensures ParseHoursText(Some(BuildHoursText(p))) == Normalize(p)
  {
    var m := p.mStart != "" && p.mEnd != "";
    var a := p.aStart != "" && p.aEnd != "";
    if m && a {
      ParseTwoRanges(p.mStart, p.mEnd, p.aStart, p.aEnd);
    } else if m {
      ParseOneRange(p.mStart, p.mEnd);
    } else if a {
      ParseOneRange(p.aStart, p.aEnd);
    }
  }

  /** With the morning fully set and the afternoon fully set or fully unset, the round trip is exact. */
  lemma ParseBuildExact(p: Parsed)
    requires CleanFields(p) && p.mStart != "" && p.mEnd != ""
    requires (p.aStart == "") == (p.aEnd == "")
    ensures ParseHoursText(Some(BuildHoursText(p))) == p
  {
    ParseBuild(p);
  }

  /** An afternoon without a morning comes back as the morning: the round trip is lossy. */
  lemma AfternoonOnlyComesBackAsMorning(c: string, d: string)
    requires Clean(c) && Clean(d)
    ensures BuildHoursText(Parsed("", "", c, d)) == c + " - " + d
    ensures ParseHoursText(Some(BuildHoursText(Parsed("", "", c, d)))) == Parsed(c, d, "", "")
  {
    ParseBuild(Parsed("", "", c, d));
  }

  /** A half with one end unset adds nothing to the text. */
  lemma LoneEndpointIgnored(p: Parsed)
    requires (p.aStart == "") != (p.aEnd == "")
    ensures BuildHoursText(p) == BuildHoursText(p.(aStart := "", aEnd := ""))
    ensures BuildHoursText(p) == Range(p.mStart, p.mEnd)
  {
  }

  // ---------------------------------------------------------------------------
  // The day list
  // ---------------------------------------------------------------------------

  /** A day record as fetched from `/api/hours`. */
  datatype DayRow = DayRow(id: int, dayName: string, isClosed: bool, hoursText: Option<string>)

  /** A day of `hoursUI`: the record plus its parsed fields. */
  datatype Day = Day(id: int, dayName: string, isClosed: bool, hoursText: Option<string>, parsed: Parsed)

  /** One element of the PUT body: `{ id, is_closed, hours_text }`. */
  datatype Payload = Payload(id: int, isClosed: bool, hoursText: Option<string>)

  /** The endpoint a select edits. */
  datatype Endpoint = MStart | MEnd | AStart | AEnd

  /** `{ ...parsed, [type]: value }`. */
  function SetEndpoint(p: Parsed, e: Endpoint, v: string): (r: Parsed)
    ensures e == MStart ==> r == p.(mStart := v)
    ensures e == MEnd ==> r == p.(mEnd := v)
    ensures e == AStart ==> r == p.(aStart := v)
    ensures e == AEnd ==> r == p.(aEnd := v)
  {
    match e
    case MStart => p.(mStart := v)
    case MEnd => p.(mEnd := v)
    case AStart => p.(aStart := v)
    case AEnd => p.(aEnd := v)
  }

  /** A day whose text is the one its fields build. */
  predicate Consistent(d: Day) {
    d.hoursText == Some(BuildHoursText(d.parsed))
  }

  /** The load: every fetched record gets the fields parsed from its text. */
  function LoadDays(rows: seq<DayRow>): (ds: seq<Day>)
    ensures |ds| == |rows|
    ensures forall i :: 0 <= i < |rows| ==>
      ds[i] == Day(rows[i].id, rows[i].dayName, rows[i].isClosed, rows[i].hoursText, ParseHoursText(rows[i].hoursText))
  {
    seq(|rows|, i requires 0 <= i < |rows| =>
      Day(rows[i].id, rows[i].dayName, rows[i].isClosed, rows[i].hoursText, ParseHoursText(rows[i].hoursText)))
  }

  /** `handleToggleClosed(id)`: the matching days flip `is_closed`; nothing else changes. */
  function ToggleClosed(ds: seq<Day>, id: int): (r: seq<Day>)
    ensures |r| == |ds|
    ensures forall i :: 0 <= i < |ds| ==>
      r[i] == if ds[i].id == id then ds[i].(isClosed := !ds[i].isClosed) else ds[i]
  {
    seq(|ds|, i requires 0 <= i < |ds| =>
      if ds[i].id == id then ds[i].(isClosed := !ds[i].isClosed) else ds[i])
  }

  /** Toggling the same day twice restores the list. */
  lemma ToggleTwice(ds: seq<Day>, id: int)
    ensures ToggleClosed(ToggleClosed(ds, id), id) == ds
  {
  }

  /**
   * `handleTimeChange(id, type, value)`: the matching days get the new field
   * and the text built from their new fields; the other days are unchanged.
   */
  function TimeChange(ds: seq<Day>, id: int, e: Endpoint, v: string): (r: seq<Day>)
    ensures |r| == |ds|
    ensures forall i :: 0 <= i < |ds| && ds[i].id != id ==> r[i] == ds[i]
    ensures forall i :: 0 <= i < |ds| && ds[i].id == id ==>
      r[i].parsed == SetEndpoint(ds[i].parsed, e, v) && Consistent(r[i])
      && r[i].id == id && r[i].dayName == ds[i].dayName && r[i].isClosed == ds[i].isClosed
  {
    seq(|ds|, i requires 0 <= i < |ds| =>
      if ds[i].id == id then
        var np := SetEndpoint(ds[i].parsed, e, v);
        ds[i].(parsed := np, hoursText := Some(BuildHoursText(np)))
      else ds[i])
  }

  /** A time change keeps every consistent day consistent. */
  lemma TimeChangeKeepsConsistent(ds: seq<Day>, id: int, e: Endpoint, v: string)
    requires forall i :: 0 <= i < |ds| ==> Consistent(ds[i])
    ensures forall i :: 0 <= i < |TimeChange(ds, id, e, v)| ==> Consistent(TimeChange(ds, id, e, v)[i])
  {
  }

  /**
   * Edits through the selects keep the fields clean, so the saved text of an
   * edited day parses back to the normalised fields.
   */
  lemma EditedDayReloads(d: Day, e: Endpoint, i: nat)
    requires CleanFields(d.parsed) && i < |TimeSlots()|
    ensures var r := TimeChange([d], d.id, e, TimeSlots()[i])[0];
      CleanFields(r.parsed) && ParseHoursText(r.hoursText) == Normalize(r.parsed)
  {
    TimeSlotsClean(i);
    var r := TimeChange([d], d.id, e, TimeSlots()[i])[0];
    ParseBuild(r.parsed);
  }

  /** `handleSave`: the payload keeps id, `is_closed` and `hours_text` of every day, in order. */
  function SavePayload(ds: seq<Day>): (ps: seq<Payload>)
    ensures |ps| == |ds|
    ensures forall i :: 0 <= i < |ds| ==> ps[i] == Payload(ds[i].id, ds[i].isClosed, ds[i].hoursText)
  {
    seq(|ds|, i requires 0 <= i < |ds| => Payload(ds[i].id, ds[i].isClosed, ds[i].hoursText))
  }

  /** Loading and saving without edits sends back exactly what was fetched. */
  lemma LoadSaveUnchanged(rows: seq<DayRow>)
    ensures |SavePayload(LoadDays(rows))| == |rows|
    ensures forall i :: 0 <= i < |rows| ==>
      SavePayload(LoadDays(rows))[i] == Payload(rows[i].id, rows[i].isClosed, rows[i].hoursText)
  {
  }
}
