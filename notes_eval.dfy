/** The evaluation of the notes extractor: dates are reformatted the way the
    human annotations write them, the strings of interest are collected from
    each patient record, and the human and extracted sets are compared. */
module NotesEval {
  import opened Wrappers
  import opened Text
  import opened EvalMetrics

  // ---------------------------------------------------------------------
  // Dates.

  datatype Date = Date(year: nat, month: nat, day: nat)

  predicate LeapYear(y: nat) {
    y % 4 == 0 && (y % 100 != 0 || y % 400 == 0)
  }

  function DaysInMonth(y: nat, m: nat): nat
    requires 1 <= m <= 12
  {
    if m == 2 then (if LeapYear(y) then 29 else 28)
    else if m == 4 || m == 6 || m == 9 || m == 11 then 30
    else 31
  }

  /** A date the calendar has, with a year of four digits at most. */
  predicate ValidDate(d: Date) {
    1 <= d.year <= 9999 && 1 <= d.month <= 12 && 1 <= d.day <= DaysInMonth(d.year, d.month)
  }

  predicate AllDigits(s: string) {
    forall k :: 0 <= k < |s| ==> IsDigit(s[k])
  }

  predicate NonZeroDigit(c: char) {
    '1' <= c <= '9'
  }

  /** The month texts `%m` accepts (`1[0-2]`, `0[1-9]` or `[1-9]`) and
      their values. */
  function MonthField(m: string): (r: Option<nat>)
    ensures r.Some? ==> 1 <= r.value <= 12
  {
    if |m| == 1 && NonZeroDigit(m[0]) then Some(DigitValue(m[0]))
    else if |m| == 2 && m[0] == '0' && NonZeroDigit(m[1]) then Some(DigitValue(m[1]))
    else if |m| == 2 && m[0] == '1' && '0' <= m[1] <= '2' then Some(10 + DigitValue(m[1]))
    else None
  }

  /** The day texts `%d` accepts (`3[01]`, `[12]\d`, `0[1-9]`, `[1-9]` or a
      space and `[1-9]`) and their values. */
  function DayField(d: string): (r: Option<nat>)
    ensures r.Some? ==> 1 <= r.value <= 31
  {
    if |d| == 1 && NonZeroDigit(d[0]) then Some(DigitValue(d[0]))
    else if |d| == 2 && (d[0] == '0' || d[0] == ' ') && NonZeroDigit(d[1]) then Some(DigitValue(d[1]))
    else if |d| == 2 && (d[0] == '1' || d[0] == '2') && IsDigit(d[1]) then Some(DigitValue(d[0]) * 10 + DigitValue(d[1]))
    else if |d| == 2 && d[0] == '3' && (d[1] == '0' || d[1] == '1') then Some(30 + DigitValue(d[1]))
    else None
  }

  /** `datetime.strptime(s, "%Y-%m-%d")`: four year digits, a dash, the
      month, a dash and the day, with nothing after it, naming a day the
      calendar has in a year from 1 on. `None` stands for the `ValueError`. */
  function ParseIsoDate(s: string): (r: Option<Date>)
    ensures r.Some? ==> ValidDate(r.value)
  {
    if |s| < 8 || !AllDigits(s[..4]) || s[4] != '-' then None
    else
      var rest := s[5..];
      var monthLength := if rest[1] == '-' then 1 else 2;
      if rest[monthLength] != '-' then None
      else
        var year := DigitsValue(s[..4]);
        DigitsValueBound(s[..4]);
        match (MonthField(rest[..monthLength]), DayField(rest[monthLength + 1..]))
        case (Some(month), Some(day)) =>
          if 1 <= year && day <= DaysInMonth(year, month) then Some(Date(year, month, day)) else None
        case _ => None
  }

  const MonthAbbreviations := ["Jan", "Feb", "Mar", "Apr", "May", "Jun", "Jul", "Aug", "Sep", "Oct", "Nov", "Dec"]

  /** `strftime("%b %d %Y")`. */
  function Render(d: Date): string
    requires ValidDate(d)
  {
    MonthAbbreviations[d.month - 1] + " " + Pad2(d.day) + " " + Pad4(d.year)
  }

  /** `format_date`: a parsed date is written as `Mon DD YYYY`; any other
      text comes back unchanged. */
  function FormatDate(s: string): (r: string)
    ensures ParseIsoDate(s).None? ==> r == s
    ensures ParseIsoDate(s).Some? ==>
      |r| == 11 && r[..3] in MonthAbbreviations && r[3] == ' ' && r[6] == ' ' &&
      AllDigits(r[4..6]) && AllDigits(r[7..])
  {
    match ParseIsoDate(s)
    case None => s
    case Some(d) =>
      var r := Render(d);
      assert r[..3] == MonthAbbreviations[d.month - 1];
      assert r[4..6] == Pad2(d.day) && r[7..] == Pad4(d.year);
      r
  }

  /** The formatted text reads back as the parsed date: the month name of its
      month, its day and its year. */
  lemma FormatDateReadsBack(s: string)
    requires ParseIsoDate(s).Some?
    ensures var d, r := ParseIsoDate(s).value, FormatDate(s);
      r[..3] == MonthAbbreviations[d.month - 1] && DigitsValue(r[4..6]) == d.day && DigitsValue(r[7..]) == d.year
  {
    var d, r := ParseIsoDate(s).value, FormatDate(s);
    assert r[..3] == MonthAbbreviations[d.month - 1];
    assert r[4..6] == Pad2(d.day) && r[7..] == Pad4(d.year);
  }

  /** Formatting twice is formatting once: a formatted date starts with a
      letter, so it no longer parses. */
  lemma FormatDateIdempotent(s: string)
    ensures FormatDate(FormatDate(s)) == FormatDate(s)
  {
    var r := FormatDate(s);
    if ParseIsoDate(s).Some? {
      assert r[..4][0] == r[..3][0];
      assert !IsDigit(r[..4][0]);
      assert ParseIsoDate(r).None?;
    }
  }

  /** The zero-padded ISO form of a date. */
  function IsoText(d: Date): string
    requires ValidDate(d)
  {
    Pad4(d.year) + "-" + Pad2(d.month) + "-" + Pad2(d.day)
  }

  lemma Pad2Month(m: nat)
    requires 1 <= m <= 12
    ensures MonthField(Pad2(m)) == Some(m)
  {
    var p := Pad2(m);
    assert p[..1] == [p[0]];
    assert DigitValue(p[0]) * 10 + DigitValue(p[1]) == m;
  }

  lemma Pad2Day(d: nat)
    requires 1 <= d <= 31
    ensures DayField(Pad2(d)) == Some(d)
  {
    var p := Pad2(d);
    assert p[..1] == [p[0]];
    assert DigitValue(p[0]) * 10 + DigitValue(p[1]) == d;
  }

  /** Every date of the calendar parses back from its zero-padded ISO form. */
  lemma IsoRoundTrip(d: Date)
    requires ValidDate(d)
    ensures ParseIsoDate(IsoText(d)) == Some(d)
  {
    var s := IsoText(d);
    var rest := s[5..];
    assert s[..4] == Pad4(d.year);
    assert rest[..2] == Pad2(d.month);
    assert rest[2] == '-';
    assert rest[3..] == Pad2(d.day);
    Pad2Month(d.month);
    Pad2Day(d.day);
  }

  /** So every date of the calendar is formatted from its ISO form. */
  lemma FormatIso(d: Date)
    requires ValidDate(d)
    ensures FormatDate(IsoText(d)) == Render(d)
  {
    IsoRoundTrip(d);
  }

  /** Unpadded fields and a space-padded day are accepted like their
      zero-padded forms. */
  lemma UnpaddedFields()
    ensures ParseIsoDate("2024-3-5") == Some(Date(2024, 3, 5))
    ensures ParseIsoDate("2024-03- 5") == Some(Date(2024, 3, 5))
  {
    var s, t := "2024-3-5", "2024-03- 5";
    assert s[..4] == "2024" && t[..4] == "2024";
    assert DigitsValue("2024") == 2024 by {
      assert "2024"[..3] == "202" && "202"[..2] == "20" && "20"[..1] == "2" && "2"[..0] == "";
    }
    assert s[5..][..1] == "3" && s[5..][2..] == "5";
    assert t[5..][..2] == "03" && t[5..][3..] == " 5";
  }

  lemma Year2023()
    ensures AllDigits("2023") && DigitsValue("2023") == 2023
  {
    assert "2023"[..3] == "202" && "202"[..2] == "20" && "20"[..1] == "2" && "2"[..0] == "";
  }

  /** A day the month does not have and a month past twelve are rejected,
      so the text is kept unchanged. */
  lemma RejectedDates()
    ensures ParseIsoDate("2023-02-29") == None
    ensures ParseIsoDate("2023-13-01") == None
  {
    var s, t := "2023-02-29", "2023-13-01";
    assert s[..4] == "2023" && t[..4] == "2023";
    Year2023();
    assert s[5..][..2] == "02" && s[5..][3..] == "29";
    assert t[5..][..2] == "13";
  }

  // ---------------------------------------------------------------------
  // The strings of a notes file.

  /** The keys of a `medication` object that the evaluation reads. */
  datatype Medication = Medication(name: Option<string>, date: Option<string>)

  /** A patient record: each field is `None` when its key is absent. */
  datatype NotesItem = NotesItem(patientId: Option<string>, medication: Option<Medication>,
                                 sideEffects: Option<seq<string>>)

  /** The strings one record adds to the set. */
  function ItemStrings(item: NotesItem): set<string>
    requires item.patientId.Some?
  {
    {item.patientId.value}
    + (if item.medication.Some? && item.medication.value.name.Some? then {item.medication.value.name.value} else {})
    + (if item.medication.Some? && item.medication.value.date.Some? then {FormatDate(item.medication.value.date.value)} else {})
    + (if item.sideEffects.Some? then NonEmpty(item.sideEffects.value) else {})
  }

  predicate AllIdentified(data: seq<NotesItem>) {
    forall i :: 0 <= i < |data| ==> data[i].patientId.Some?
  }

  /** The strings of all records. */
  function Strings(data: seq<NotesItem>): set<string>
    requires AllIdentified(data)
  {
    if data == [] then {} else Strings(data[..|data| - 1]) + ItemStrings(data[|data| - 1])
  }

  /** Where a string of the set may come from, field by field. */
  predicate FromItem(item: NotesItem, s: string) {
    || item.patientId == Some(s)
    || (item.medication.Some? && item.medication.value.name == Some(s))
    || (item.medication.Some? && item.medication.value.date.Some? && s == FormatDate(item.medication.value.date.value))
    || (item.sideEffects.Some? && s in item.sideEffects.value && s != "")
  }

  lemma ItemStringsFrom(item: NotesItem, s: string)
    requires item.patientId.Some?
    ensures s in ItemStrings(item) <==> FromItem(item, s)
  {
  }

  /** A string is in the set exactly when some record holds it as its
      patient id, its medication name, its formatted medication date or a
      non-empty side effect: every such string enters, and nothing else. */
  lemma {:induction false} StringsFromItems(data: seq<NotesItem>, s: string)
    requires AllIdentified(data)
    ensures s in Strings(data) <==> exists i :: 0 <= i < |data| && FromItem(data[i], s)
    decreases |data|
  {
    if data != [] {
      var init, last := data[..|data| - 1], data[|data| - 1];
      assert AllIdentified(init) by {
        forall i | 0 <= i < |init| ensures init[i].patientId.Some? {
          assert init[i] == data[i];
        }
      }
      StringsFromItems(init, s);
      ItemStringsFrom(last, s);
      assert Strings(data) == Strings(init) + ItemStrings(last);
      if s in Strings(data) {
        if s in Strings(init) {
          var i :| 0 <= i < |init| && FromItem(init[i], s);
          assert data[i] == init[i];
        } else {
          assert FromItem(data[|data| - 1], s);
        }
      }
      if exists i :: 0 <= i < |data| && FromItem(data[i], s) {
        var i :| 0 <= i < |data| && FromItem(data[i], s);
        if i < |init| {
          assert FromItem(init[i], s);
        }
      }
    }
  }

  /** `extract_specific_strings`: a record without `patient_id` raises. */
  method ExtractSpecificStrings(data: seq<NotesItem>) returns (r: Result<set<string>, KeyError>)
    ensures AllIdentified(data) ==> r == Success(Strings(data))
    ensures !AllIdentified(data) ==> r == Failure(KeyError("patient_id"))
  {
    var all: set<string> := {};
    for i := 0 to |data|
      invariant AllIdentified(data[..i])
      invariant all == Strings(data[..i])
    {
      var item := data[i];
      if item.patientId.None? {
        return Failure(KeyError("patient_id"));
      }
      all := all + {item.patientId.value};
      if item.medication.Some? && item.medication.value.name.Some? {
        all := all + {item.medication.value.name.value};
      }
      if item.medication.Some? && item.medication.value.date.Some? {
        var formatted := FormatDate(item.medication.value.date.value);
        all := all + {formatted};
      }
      if item.sideEffects.Some? {
        all := all + NonEmpty(item.sideEffects.value);
      }
      assert data[..i + 1][..i] == data[..i];
    }
    assert data[..|data|] == data;
    return Success(all);
  }

  /** `evaluate_extraction` on the two loaded files: the human file's
      strings are collected first, so its missing key is reported first. */
  method EvaluateExtraction(human: seq<NotesItem>, extracted: seq<NotesItem>) returns (r: Result<Metrics, KeyError>)
    ensures r.Success? <==> AllIdentified(human) && AllIdentified(extracted)
    ensures r.Failure? ==> r.error == KeyError("patient_id")
    ensures r.Success? ==> r.value == Compare(Strings(human), Strings(extracted))
  {
    var humanStrings := ExtractSpecificStrings(human);
    if humanStrings.Failure? {
      return Failure(humanStrings.error);
    }
    var extractedStrings := ExtractSpecificStrings(extracted);
    if extractedStrings.Failure? {
      return Failure(extractedStrings.error);
    }
    return Success(Compare(humanStrings.value, extractedStrings.value));
  }
}
