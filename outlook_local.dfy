/**
 * The line scan of _get_event_details (class OutlookLocalReader in
 * outlook_local.py): given the decoded text of an event's data file, fill the
 * subject, location, body, organizer and attendees from iCalendar-style
 * prefixed lines.
 */
module OutlookLocal {
  import opened Text

  const SummaryPrefix: string := "SUMMARY:"
  const LocationPrefix: string := "LOCATION:"
  const DescriptionPrefix: string := "DESCRIPTION:"
  const OrganizerPrefix: string := "ORGANIZER"
  const AttendeePrefix: string := "ATTENDEE"

  datatype Details = Details(subject: string, location: string, body: string, organizer: string, attendees: seq<string>)

  /** The details before any line is read. */
  const NoDetails: Details := Details("", "", "", "", [])

  /** Which field a line fills, by the first prefix it starts with. */
  datatype LineKind = SummaryLine | LocationLine | DescriptionLine | OrganizerLine | AttendeeLine | OtherLine

  function KindOf(line: string): LineKind {
    if StartsWith(line, SummaryPrefix) then SummaryLine
    else if StartsWith(line, LocationPrefix) then LocationLine
    else if StartsWith(line, DescriptionPrefix) then DescriptionLine
    else if StartsWith(line, OrganizerPrefix) then OrganizerLine
    else if StartsWith(line, AttendeePrefix) then AttendeeLine
    else OtherLine
  }

  /** line.replace(prefix, '').strip(): every occurrence of the prefix removed, not only the leading one. */
  function PrefixedValue(line: string, prefix: string): string
    requires prefix != []
  {
    Strip(ReplaceAll(line, prefix, ""))
  }

  /** line.split(':')[-1].strip(): the text after the last colon. */
  function AfterLastColon(line: string): string {
    Strip(LastPiece(line, ':'))
  }

  /** The effect of one line on the details. */
  function ReadLine(d: Details, line: string): Details {
    match KindOf(line)
    case SummaryLine => d.(subject := PrefixedValue(line, SummaryPrefix))
    case LocationLine => d.(location := PrefixedValue(line, LocationPrefix))
    case DescriptionLine => d.(body := PrefixedValue(line, DescriptionPrefix))
    case OrganizerLine => d.(organizer := AfterLastColon(line))
    case AttendeeLine =>
      var attendee := AfterLastColon(line);
      if attendee != "" then d.(attendees := d.attendees + [attendee]) else d
    case OtherLine => d
  }

  /** The details after reading the lines in order. */
  function ReadLines(lines: seq<string>): Details
    decreases |lines|
  {
    if lines == [] then NoDetails else ReadLine(ReadLines(lines[..|lines| - 1]), lines[|lines| - 1])
  }

  /** The details the scan of the decoded text gives. */
  function EventDetails(text: string): Details {
    ReadLines(Split(text, "\n"))
  }

  /** The loop over text.split('\n') in _get_event_details. */
  method ScanEventText(text: string) returns (details: Details)
    ensures details == EventDetails(text)
  {
    details := NoDetails;
    var lines := Split(text, "\n");
    var i := 0;
    while i < |lines|
      invariant 0 <= i <= |lines|
      invariant details == ReadLines(lines[..i])
    {
      ReadLinesStep(lines, i);
      details := ReadEventLine(details, lines[i]);
      i := i + 1;
    }
    assert lines[..|lines|] == lines;
  }

  lemma {:induction false} ReadLinesStep(lines: seq<string>, i: nat)
    requires i < |lines|
    ensures ReadLines(lines[..i + 1]) == ReadLine(ReadLines(lines[..i]), lines[i])
  {
    assert lines[..i + 1][..i] == lines[..i];
  }

  /** One pass of the line loop of _get_event_details. */
  method ReadEventLine(d: Details, line: string) returns (details: Details)
    ensures details == ReadLine(d, line)
  {
    ghost var kind := KindOf(line);
    details := d;
    if StartsWith(line, SummaryPrefix) {
      assert kind == SummaryLine;
      details := details.(subject := Strip(ReplaceAll(line, SummaryPrefix, "")));
    } else if StartsWith(line, LocationPrefix) {
      assert kind == LocationLine;
      details := details.(location := Strip(ReplaceAll(line, LocationPrefix, "")));
    } else if StartsWith(line, DescriptionPrefix) {
      assert kind == DescriptionLine;
      details := details.(body := Strip(ReplaceAll(line, DescriptionPrefix, "")));
    } else if StartsWith(line, OrganizerPrefix) {
      assert kind == OrganizerLine;
      details := details.(organizer := Strip(LastPiece(line, ':')));
    } else if StartsWith(line, AttendeePrefix) {
      assert kind == AttendeeLine;
      var attendee := Strip(LastPiece(line, ':'));
      if attendee != "" {
        details := details.(attendees := details.attendees + [attendee]);
      }
    } else {
      assert kind == OtherLine;
    }
  }

  // ---------------------------------------------------------------------------
  // Properties

  /** The five prefixes begin with five different letters, so a line starts with at most one of them. */
  lemma {:induction false} PrefixesExclusive(line: string)
    ensures StartsWith(line, SummaryPrefix) ==> line[0] == 'S'
    ensures StartsWith(line, LocationPrefix) ==> line[0] == 'L'
    ensures StartsWith(line, DescriptionPrefix) ==> line[0] == 'D'
    ensures StartsWith(line, OrganizerPrefix) ==> line[0] == 'O'
    ensures StartsWith(line, AttendeePrefix) ==> line[0] == 'A'
  {
    if StartsWith(line, SummaryPrefix) { assert line[0] == line[..|SummaryPrefix|][0]; }
    if StartsWith(line, LocationPrefix) { assert line[0] == line[..|LocationPrefix|][0]; }
    if StartsWith(line, DescriptionPrefix) { assert line[0] == line[..|DescriptionPrefix|][0]; }
    if StartsWith(line, OrganizerPrefix) { assert line[0] == line[..|OrganizerPrefix|][0]; }
    if StartsWith(line, AttendeePrefix) { assert line[0] == line[..|AttendeePrefix|][0]; }
  }

  /** A line fills a field exactly when it starts with that field's prefix. */
  lemma {:induction false} KindOfSpec(line: string)
    ensures KindOf(line) == SummaryLine <==> StartsWith(line, SummaryPrefix)
    ensures KindOf(line) == LocationLine <==> StartsWith(line, LocationPrefix)
    ensures KindOf(line) == DescriptionLine <==> StartsWith(line, DescriptionPrefix)
    ensures KindOf(line) == OrganizerLine <==> StartsWith(line, OrganizerPrefix)
    ensures KindOf(line) == AttendeeLine <==> StartsWith(line, AttendeePrefix)
  {
    PrefixesExclusive(line);
  }

  /** Each line changes at most one field, the one its prefix names, and only to that line's value. */
  lemma {:induction false} ReadLineChangesOneField(d: Details, line: string)
    ensures var r := ReadLine(d, line);
      && (r.subject != d.subject ==> KindOf(line) == SummaryLine && r.subject == PrefixedValue(line, SummaryPrefix))
      && (r.location != d.location ==> KindOf(line) == LocationLine && r.location == PrefixedValue(line, LocationPrefix))
      && (r.body != d.body ==> KindOf(line) == DescriptionLine && r.body == PrefixedValue(line, DescriptionPrefix))
      && (r.organizer != d.organizer ==> KindOf(line) == OrganizerLine && r.organizer == AfterLastColon(line))
      && (r.attendees != d.attendees ==>
            KindOf(line) == AttendeeLine && AfterLastColon(line) != "" && r.attendees == d.attendees + [AfterLastColon(line)])
  {
    var r := ReadLine(d, line);
    match KindOf(line)
    case SummaryLine => assert r == d.(subject := PrefixedValue(line, SummaryPrefix));
    case LocationLine => assert r == d.(location := PrefixedValue(line, LocationPrefix));
    case DescriptionLine => assert r == d.(body := PrefixedValue(line, DescriptionPrefix));
    case OrganizerLine => assert r == d.(organizer := AfterLastColon(line));
    case AttendeeLine =>
      if AfterLastColon(line) != "" {
        assert r == d.(attendees := d.attendees + [AfterLastColon(line)]);
      } else {
        assert r == d;
      }
    case OtherLine => assert r == d;
  }

  /** Without a line that starts with one of the prefixes, every field stays empty. */
  lemma {:induction false} NoMatchingLines(lines: seq<string>)
    requires forall i :: 0 <= i < |lines| ==> KindOf(lines[i]) == OtherLine
    ensures ReadLines(lines) == NoDetails
    decreases |lines|
  {
    if lines != [] {
      NoMatchingLines(lines[..|lines| - 1]);
    }
  }

  /** Lines that fill other fields leave a field as it was. */
  lemma {:induction false} ReadLinesFrame(a: seq<string>, b: seq<string>)
    ensures (forall i :: 0 <= i < |b| ==> KindOf(b[i]) != SummaryLine) ==> ReadLines(a + b).subject == ReadLines(a).subject
    ensures (forall i :: 0 <= i < |b| ==> KindOf(b[i]) != LocationLine) ==> ReadLines(a + b).location == ReadLines(a).location
    ensures (forall i :: 0 <= i < |b| ==> KindOf(b[i]) != DescriptionLine) ==> ReadLines(a + b).body == ReadLines(a).body
    ensures (forall i :: 0 <= i < |b| ==> KindOf(b[i]) != OrganizerLine) ==> ReadLines(a + b).organizer == ReadLines(a).organizer
    decreases |b|
  {
    if b != [] {
      var init := b[..|b| - 1];
      assert (a + b)[..|a + b| - 1] == a + init;
      assert (a + b)[|a + b| - 1] == b[|b| - 1];
      ReadLinesFrame(a, init);
      ReadLineChangesOneField(ReadLines(a + init), b[|b| - 1]);
    } else {
      assert a + b == a;
    }
  }

  /** For subject, location, body and organizer the last line with the field's prefix wins. */
  lemma {:induction false} LastMatchWins(a: seq<string>, line: string, b: seq<string>)
    ensures KindOf(line) == SummaryLine && (forall i :: 0 <= i < |b| ==> KindOf(b[i]) != SummaryLine) ==>
      ReadLines(a + [line] + b).subject == PrefixedValue(line, SummaryPrefix)
    ensures KindOf(line) == LocationLine && (forall i :: 0 <= i < |b| ==> KindOf(b[i]) != LocationLine) ==>
      ReadLines(a + [line] + b).location == PrefixedValue(line, LocationPrefix)
    ensures KindOf(line) == DescriptionLine && (forall i :: 0 <= i < |b| ==> KindOf(b[i]) != DescriptionLine) ==>
      ReadLines(a + [line] + b).body == PrefixedValue(line, DescriptionPrefix)
    ensures KindOf(line) == OrganizerLine && (forall i :: 0 <= i < |b| ==> KindOf(b[i]) != OrganizerLine) ==>
      ReadLines(a + [line] + b).organizer == AfterLastColon(line)
  {
    ReadLinesFrame(a + [line], b);
    assert (a + [line])[..|a + [line]| - 1] == a;
  }

  /** The attendees of all lines are those of the first run of lines followed by those of the second. */
  lemma {:induction false} AttendeesConcat(a: seq<string>, b: seq<string>)
    ensures ReadLines(a + b).attendees == ReadLines(a).attendees + ReadLines(b).attendees
    decreases |b|
  {
    if b != [] {
      var init, line := b[..|b| - 1], b[|b| - 1];
      assert (a + b)[..|a + b| - 1] == a + init;
      assert (a + b)[|a + b| - 1] == line;
      AttendeesConcat(a, init);
      var added := ReadLineAttendees(ReadLines(a + init), line);
      var added' := ReadLineAttendees(ReadLines(init), line);
      assert ReadLines(a + b).attendees == (ReadLines(a).attendees + ReadLines(init).attendees) + added;
      assert ReadLines(b).attendees == ReadLines(init).attendees + added;
    } else {
      assert a + b == a;
    }
  }

  /** What one line adds to the attendees depends on the line alone. */
  lemma {:induction false} ReadLineAttendees(d: Details, line: string) returns (added: seq<string>)
    ensures added == if KindOf(line) == AttendeeLine && AfterLastColon(line) != "" then [AfterLastColon(line)] else []
    ensures ReadLine(d, line).attendees == d.attendees + added
  {
    added := if KindOf(line) == AttendeeLine && AfterLastColon(line) != "" then [AfterLastColon(line)] else [];
    if added == [] {
      assert d.attendees + added == d.attendees;
    }
  }

  /** One line adds an attendee exactly when it is an ATTENDEE line with something after its last colon. */
  lemma {:induction false} AttendeeOfLine(line: string)
    ensures ReadLines([line]).attendees ==
      if KindOf(line) == AttendeeLine && AfterLastColon(line) != "" then [AfterLastColon(line)] else []
  {
    assert [line][..0] == [];
  }

  lemma {:induction false} AfterLastColonClean(line: string)
    ensures ':' !in AfterLastColon(line) && Strip(AfterLastColon(line)) == AfterLastColon(line)
  {
    SplitCharLast(line, ':');
    StripChars(LastPiece(line, ':'), ':');
    StripIdempotent(LastPiece(line, ':'));
  }

  /** The organizer and every attendee are free of ':' and of surrounding whitespace; no attendee is empty. */
  lemma {:induction false} ColonValues(lines: seq<string>)
    ensures ':' !in ReadLines(lines).organizer
    ensures forall i :: 0 <= i < |ReadLines(lines).attendees| ==>
      var a := ReadLines(lines).attendees[i]; a != "" && ':' !in a && Strip(a) == a
    decreases |lines|
  {
    if lines != [] {
      var init, line := lines[..|lines| - 1], lines[|lines| - 1];
      ColonValues(init);
      AfterLastColonClean(line);
      ReadLineChangesOneField(ReadLines(init), line);
      var before, v := ReadLines(init).attendees, AfterLastColon(line);
      var after := ReadLines(lines).attendees;
      assert after == before || (after == before + [v] && v != "");
      forall i | 0 <= i < |after|
        ensures after[i] != "" && ':' !in after[i] && Strip(after[i]) == after[i]
      {
        if i < |before| {
          assert after[i] == before[i];
        } else {
          assert after[i] == v;
        }
      }
    }
  }

  /**
   * The value is the line with every occurrence of the prefix deleted, then
   * stripped: "SUMMARY:a SUMMARY:b" gives the subject "a b", where removing
   * the leading prefix alone would give "a SUMMARY:b".
   */
  lemma {:induction false} ReplaceDeletesEveryPrefix(line: string)
    requires line == "SUMMARY:" + "a " + "SUMMARY:" + "b"
    ensures KindOf(line) == SummaryLine
    ensures PrefixedValue(line, SummaryPrefix) == "a b"
    ensures PrefixedValue(line, SummaryPrefix) != Strip(line[|SummaryPrefix|..])
  {
    var p := SummaryPrefix;
    assert StartsWith(line, p);
    assert line == "" + p + ("a " + p + "b");
    assert p[0] == 'S';
    SplitAfterPiece("", p, "a " + p + "b");
    SplitAfterPiece("a ", p, "b");
    SplitWithoutLead("b", p);
    assert Split(line, p) == ["", "a ", "b"];
    ReplaceIsJoinSplit(line, p, "");
    assert Join("", ["", "a ", "b"]) == "a b";
    StripUnchanged("a b");
    var rest := line[|p|..];
    assert rest == "a " + p + "b";
    assert |rest| == 11 && rest[0] == 'a' && rest[|rest| - 1] == 'b';
    StripUnchanged(rest);
  }
}
