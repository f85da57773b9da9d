/**
 * The parsers for the text the Outlook AppleScript bridge returns
 * (_parse_email_results and _parse_event_results of OutlookAppleScript in
 * outlook_applescript.py). The script writes each record as a start marker,
 * fields separated by "|||", and an end marker; a script error comes back as
 * text starting with "ERROR:".
 */
module OutlookScript {
  import opened Wrappers
  import opened Text

  const ErrorPrefix: string := "ERROR:"
  const EmailStart: string := "EMAILSTART|||"
  const EmailEnd: string := "|||EMAILEND"
  const EventStart: string := "EVENTSTART|||"
  const EventEnd: string := "|||EVENTEND"
  const FieldSep: string := "|||"
  const AttendeeSep: string := ";"
  /** The fewest fields a block needs to become an email. */
  const EmailFields: nat := 4
  /** The fewest fields a block needs to become an event; the script writes six. */
  const EventFields: nat := 7

  /** An email record; preview and body both hold the fourth field. */
  datatype ScriptEmail = ScriptEmail(subject: string, sentDate: string, recipients: string, preview: string, body: string)

  datatype ScriptEvent = ScriptEvent(subject: string, start: string, end: string, location: string,
                                     organizer: string, attendees: string, attendeeList: seq<string>)

  // ---------------------------------------------------------------------------
  // Blocks

  /** The fields of a block: the text before its first end marker, split on "|||"; None without an end marker. */
  function BlockFields(block: string, endMarker: string): Option<seq<string>>
    requires endMarker != []
  {
    if Contains(block, endMarker) then Some(Split(Split(block, endMarker)[0], FieldSep)) else None
  }

  function EmailOfFields(parts: seq<string>): Option<ScriptEmail> {
    if |parts| >= EmailFields then
      Some(ScriptEmail(Strip(parts[0]), Strip(parts[1]), Strip(parts[2]), Strip(parts[3]), Strip(parts[3])))
    else None
  }

  function EmailOfBlock(block: string): Option<ScriptEmail> {
    match BlockFields(block, EmailEnd)
    case None => None
    case Some(parts) => EmailOfFields(parts)
  }

  /** The stripped pieces that are not empty, in order. */
  function NonEmptyStripped(pieces: seq<string>): seq<string>
    decreases |pieces|
  {
    if pieces == [] then []
    else
      var init := NonEmptyStripped(pieces[..|pieces| - 1]);
      var piece := Strip(pieces[|pieces| - 1]);
      if piece != "" then init + [piece] else init
  }

  /** The attendee_list comprehension: the attendees field split on ';', stripped, empty names dropped. */
  function AttendeeList(field: string): seq<string> {
    NonEmptyStripped(Split(field, AttendeeSep))
  }

  function EventOfFields(parts: seq<string>): Option<ScriptEvent> {
    if |parts| >= EventFields then
      Some(ScriptEvent(Strip(parts[0]), Strip(parts[1]), Strip(parts[2]), Strip(parts[3]),
                       Strip(parts[4]), Strip(parts[5]), AttendeeList(parts[5])))
    else None
  }

  function EventOfBlock(block: string): Option<ScriptEvent> {
    match BlockFields(block, EventEnd)
    case None => None
    case Some(parts) => EventOfFields(parts)
  }

  // ---------------------------------------------------------------------------
  // Whole results

  /** The records of the blocks that yield one, in block order. */
  function Emails(blocks: seq<string>): (r: seq<ScriptEmail>)
    ensures |r| <= |blocks|
    decreases |blocks|
  {
    if blocks == [] then []
    else
      var init := Emails(blocks[..|blocks| - 1]);
      match EmailOfBlock(blocks[|blocks| - 1])
      case Some(e) => init + [e]
      case None => init
  }

  function Events(blocks: seq<string>): (r: seq<ScriptEvent>)
    ensures |r| <= |blocks|
    decreases |blocks|
  {
    if blocks == [] then []
    else
      var init := Events(blocks[..|blocks| - 1]);
      match EventOfBlock(blocks[|blocks| - 1])
      case Some(e) => init + [e]
      case None => init
  }

  /** What _parse_email_results returns, or the exception it raises. */
  function EmailResults(result: string): Result<seq<ScriptEmail>, string> {
    if StartsWith(result, ErrorPrefix) then Failure(result) else Success(Emails(Split(result, EmailStart)[1..]))
  }

  /** What _parse_event_results returns, or the exception it raises. */
  function EventResults(result: string): Result<seq<ScriptEvent>, string> {
    if StartsWith(result, ErrorPrefix) then Failure(result) else Success(Events(Split(result, EventStart)[1..]))
  }

  /** _parse_email_results. */
  method ParseEmailResults(result: string) returns (r: Result<seq<ScriptEmail>, string>)
    ensures r == EmailResults(result)
  {
    if StartsWith(result, ErrorPrefix) {
      return Failure(result);
    }
    var emailBlocks := Split(result, EmailStart)[1..];
    var emails: seq<ScriptEmail> := [];
    var i := 0;
    while i < |emailBlocks|
      invariant 0 <= i <= |emailBlocks|
      invariant emails == Emails(emailBlocks[..i])
    {
      var block := emailBlocks[i];
      assert emailBlocks[..i + 1][..i] == emailBlocks[..i];
      i := i + 1;
      if !Contains(block, EmailEnd) {
        continue;
      }
      block := Split(block, EmailEnd)[0];
      var parts := Split(block, FieldSep);
      if |parts| >= EmailFields {
        emails := emails + [ScriptEmail(Strip(parts[0]), Strip(parts[1]), Strip(parts[2]), Strip(parts[3]), Strip(parts[3]))];
      }
    }
    assert emailBlocks[..|emailBlocks|] == emailBlocks;
    return Success(emails);
  }

  /** _parse_event_results. */
  method ParseEventResults(result: string) returns (r: Result<seq<ScriptEvent>, string>)
    ensures r == EventResults(result)
  {
    if StartsWith(result, ErrorPrefix) {
      return Failure(result);
    }
    var eventBlocks := Split(result, EventStart)[1..];
    var events: seq<ScriptEvent> := [];
    var i := 0;
    while i < |eventBlocks|
      invariant 0 <= i <= |eventBlocks|
      invariant events == Events(eventBlocks[..i])
    {
      var block := eventBlocks[i];
      assert eventBlocks[..i + 1][..i] == eventBlocks[..i];
      i := i + 1;
      if !Contains(block, EventEnd) {
        continue;
      }
      block := Split(block, EventEnd)[0];
      var parts := Split(block, FieldSep);
      if |parts| >= EventFields {
        events := events + [ScriptEvent(Strip(parts[0]), Strip(parts[1]), Strip(parts[2]), Strip(parts[3]),
                                        Strip(parts[4]), Strip(parts[5]), AttendeeList(parts[5]))];
      }
    }
    assert eventBlocks[..|eventBlocks|] == eventBlocks;
    return Success(events);
  }

  // ---------------------------------------------------------------------------
  // Properties

  /**
   * An "ERROR:" result is raised with the result as its message, and nothing
   * else is; a successful parse has at most one email per start marker.
   */
  lemma {:induction false} EmailResultsSpec(result: string)
    ensures EmailResults(result).Failure? <==> StartsWith(result, ErrorPrefix)
    ensures EmailResults(result).Failure? ==> EmailResults(result).error == result
    ensures EmailResults(result).Success? ==> |EmailResults(result).value| <= Occurrences(result, EmailStart)
  {
    SplitCount(result, EmailStart);
  }

  lemma {:induction false} EventResultsSpec(result: string)
    ensures EventResults(result).Failure? <==> StartsWith(result, ErrorPrefix)
    ensures EventResults(result).Failure? ==> EventResults(result).error == result
    ensures EventResults(result).Success? ==> |EventResults(result).value| <= Occurrences(result, EventStart)
  {
    SplitCount(result, EventStart);
  }

  /** Parsing keeps block order: the records of two runs of blocks are those of each, one after the other. */
  lemma {:induction false} EmailsConcat(a: seq<string>, b: seq<string>)
    ensures Emails(a + b) == Emails(a) + Emails(b)
    decreases |b|
  {
    if b != [] {
      var init := b[..|b| - 1];
      assert (a + b)[..|a + b| - 1] == a + init;
      assert (a + b)[|a + b| - 1] == b[|b| - 1];
      EmailsConcat(a, init);
    } else {
      assert a + b == a;
    }
  }

  lemma {:induction false} EventsConcat(a: seq<string>, b: seq<string>)
    ensures Events(a + b) == Events(a) + Events(b)
    decreases |b|
  {
    if b != [] {
      var init := b[..|b| - 1];
      assert (a + b)[..|a + b| - 1] == a + init;
      assert (a + b)[|a + b| - 1] == b[|b| - 1];
      EventsConcat(a, init);
    } else {
      assert a + b == a;
    }
  }

  /** A single block gives its record exactly when the block yields one. */
  lemma {:induction false} EmailsSingle(block: string)
    ensures Emails([block]) == match EmailOfBlock(block) case Some(e) => [e] case None => []
  {
    assert [block][..0] == [];
  }

  lemma {:induction false} EventsSingle(block: string)
    ensures Events([block]) == match EventOfBlock(block) case Some(e) => [e] case None => []
  {
    assert [block][..0] == [];
  }

  lemma {:induction false} EmailEndNoBorder()
    ensures NoBorder(EmailEnd)
  {
    var s := EmailEnd;
    forall k | 0 < k < |s|
      ensures s[k..] != s[..|s| - k]
    {
      assert s[k..][|s| - k - 1] != s[..|s| - k][|s| - k - 1];
    }
  }

  lemma {:induction false} EventEndNoBorder()
    ensures NoBorder(EventEnd)
  {
    var s := EventEnd;
    forall k | 0 < k < |s|
      ensures s[k..] != s[..|s| - k]
    {
      assert s[k..][|s| - k - 1] != s[..|s| - k][|s| - k - 1];
    }
  }

  lemma {:induction false} EmailStartNoBorder()
    ensures NoBorder(EmailStart)
  {
    var s := EmailStart;
    forall k | 0 < k < |s|
      ensures s[k..] != s[..|s| - k]
    {
      assert s[k..][0] != s[..|s| - k][0];
    }
  }

  lemma {:induction false} EventStartNoBorder()
    ensures NoBorder(EventStart)
  {
    NoBorderByLeads(EventStart);
  }

  /** Text before the first start marker is ignored: a successful parse is the same without it. */
  lemma {:induction false} LeadingTextIgnoredByEmails(lead: string, rest: string)
    requires !Contains(lead, EmailStart)
    ensures EmailResults(lead + EmailStart + rest).Success? ==>
      EmailResults(lead + EmailStart + rest) == EmailResults(EmailStart + rest)
  {
    EmailStartNoBorder();
    SplitAtFirst(lead, EmailStart, rest);
    SplitAtFirst("", EmailStart, rest);
    assert "" + EmailStart + rest == EmailStart + rest;
    assert (EmailStart + rest)[1] != ErrorPrefix[1];
  }

  lemma {:induction false} LeadingTextIgnoredByEvents(lead: string, rest: string)
    requires !Contains(lead, EventStart)
    ensures EventResults(lead + EventStart + rest).Success? ==>
      EventResults(lead + EventStart + rest) == EventResults(EventStart + rest)
  {
    EventStartNoBorder();
    SplitAtFirst(lead, EventStart, rest);
    SplitAtFirst("", EventStart, rest);
    assert "" + EventStart + rest == EventStart + rest;
    assert (EventStart + rest)[1] != ErrorPrefix[1];
  }

  /** Only the text before the first email end marker counts; whatever follows it is ignored. */
  lemma {:induction false} EmailEndCutsBlock(head: string, tail: string)
    requires !Contains(head, EmailEnd)
    ensures BlockFields(head + EmailEnd + tail, EmailEnd) == Some(Split(head, FieldSep))
  {
    EmailEndNoBorder();
    SplitAtFirst(head, EmailEnd, tail);
    EndMarkerPresent(head, EmailEnd, tail);
  }

  /** Only the text before the first event end marker counts; whatever follows it is ignored. */
  lemma {:induction false} EventEndCutsBlock(head: string, tail: string)
    requires !Contains(head, EventEnd)
    ensures BlockFields(head + EventEnd + tail, EventEnd) == Some(Split(head, FieldSep))
  {
    EventEndNoBorder();
    SplitAtFirst(head, EventEnd, tail);
    EndMarkerPresent(head, EventEnd, tail);
  }

  lemma {:induction false} EndMarkerPresent(head: string, marker: string, tail: string)
    ensures Contains(head + marker + tail, marker)
  {
    assert StartsWith(marker, marker);
    ContainsInfix(head, marker, tail, marker);
  }

  /** An email block without its end marker is skipped. */
  lemma {:induction false} UnterminatedEmailSkipped(block: string)
    requires !Contains(block, EmailEnd)
    ensures EmailOfBlock(block) == None && Emails([block]) == []
  {
    EmailsSingle(block);
  }

  /** An event block without its end marker is skipped. */
  lemma {:induction false} UnterminatedEventSkipped(block: string)
    requires !Contains(block, EventEnd)
    ensures EventOfBlock(block) == None && Events([block]) == []
  {
    EventsSingle(block);
  }

  /**
   * A block of at least four fields free of '|', closed by the end marker,
   * becomes the email of its first four fields stripped, with the fourth as
   * both preview and body; further fields are ignored.
   */
  lemma {:induction false} EmailRoundTrip(fields: seq<string>, tail: string)
    requires |fields| >= EmailFields
    requires forall i :: 0 <= i < |fields| ==> '|' !in fields[i]
    requires !Contains(Join(FieldSep, fields), EmailEnd)
    ensures EmailOfBlock(Join(FieldSep, fields) + EmailEnd + tail) ==
      Some(ScriptEmail(Strip(fields[0]), Strip(fields[1]), Strip(fields[2]), Strip(fields[3]), Strip(fields[3])))
  {
    var joined := Join(FieldSep, fields);
    var block := joined + EmailEnd + tail;
    EmailEndNoBorder();
    SplitAtFirst(joined, EmailEnd, tail);
    assert Split(block, EmailEnd)[0] == joined;
    EndMarkerPresent(joined, EmailEnd, tail);
    assert FieldSep[0] == '|';
    SplitJoin(fields, FieldSep);
    assert BlockFields(block, EmailEnd) == Some(fields);
  }

  /** A block of at least seven fields free of '|', closed by the end marker, becomes the event of its first six. */
  lemma {:induction false} EventRoundTrip(fields: seq<string>, tail: string)
    requires |fields| >= EventFields
    requires forall i :: 0 <= i < |fields| ==> '|' !in fields[i]
    requires !Contains(Join(FieldSep, fields), EventEnd)
    ensures EventOfBlock(Join(FieldSep, fields) + EventEnd + tail) ==
      Some(ScriptEvent(Strip(fields[0]), Strip(fields[1]), Strip(fields[2]), Strip(fields[3]),
                       Strip(fields[4]), Strip(fields[5]), AttendeeList(fields[5])))
  {
    var joined := Join(FieldSep, fields);
    var block := joined + EventEnd + tail;
    EventEndNoBorder();
    SplitAtFirst(joined, EventEnd, tail);
    assert Split(block, EventEnd)[0] == joined;
    EndMarkerPresent(joined, EventEnd, tail);
    assert FieldSep[0] == '|';
    SplitJoin(fields, FieldSep);
    assert BlockFields(block, EventEnd) == Some(fields);
  }

  /**
   * The converse of EmailRoundTrip: however they read, a block of fewer than
   * four fields free of '|' yields no email.
   */
  lemma {:induction false} ShortEmailBlockDropped(fields: seq<string>, tail: string)
    requires 0 < |fields| < EmailFields
    requires forall i :: 0 <= i < |fields| ==> '|' !in fields[i]
    ensures EmailOfBlock(Join(FieldSep, fields) + EmailEnd + tail) == None
    ensures Emails([Join(FieldSep, fields) + EmailEnd + tail]) == []
  {
    var joined := Join(FieldSep, fields);
    var block := joined + EmailEnd + tail;
    var piece := FieldTextIsPrefix(joined, EmailEnd, tail);
    FewerPieces(fields, EmailFields, piece, joined[|piece|..]);
    EndMarkerPresent(joined, EmailEnd, tail);
    assert BlockFields(block, EmailEnd) == Some(Split(piece, FieldSep));
    EmailsSingle(block);
  }

  /**
   * The event script writes subject, start, end, location, organizer and
   * attendees: six fields. However they read, a block of fewer than seven
   * fields free of '|' yields no event, so every event the script writes is
   * dropped.
   */
  lemma {:induction false} ShortEventBlockDropped(fields: seq<string>, tail: string)
    requires 0 < |fields| < EventFields
    requires forall i :: 0 <= i < |fields| ==> '|' !in fields[i]
    ensures EventOfBlock(Join(FieldSep, fields) + EventEnd + tail) == None
    ensures Events([Join(FieldSep, fields) + EventEnd + tail]) == []
  {
    var joined := Join(FieldSep, fields);
    var block := joined + EventEnd + tail;
    var piece := FieldTextIsPrefix(joined, EventEnd, tail);
    FewerPieces(fields, EventFields, piece, joined[|piece|..]);
    EndMarkerPresent(joined, EventEnd, tail);
    assert BlockFields(block, EventEnd) == Some(Split(piece, FieldSep));
    EventsSingle(block);
  }

  /** The text a block's fields are read from is a prefix of the text before its end marker. */
  lemma {:induction false} FieldTextIsPrefix(joined: string, marker: string, tail: string) returns (piece: string)
    requires marker != []
    ensures piece == Split(joined + marker + tail, marker)[0]
    ensures |piece| <= |joined| && joined == piece + joined[|piece|..]
  {
    var block := joined + marker + tail;
    piece := Split(block, marker)[0];
    SplitHeadBound(joined, marker, tail);
    assert piece == block[..|piece|];
  }

  /** A prefix of fewer than n '|'-free fields joined by "|||" splits into fewer than n pieces. */
  lemma {:induction false} FewerPieces(fields: seq<string>, n: nat, piece: string, rest: string)
    requires 0 < |fields| < n
    requires forall i :: 0 <= i < |fields| ==> '|' !in fields[i]
    requires Join(FieldSep, fields) == piece + rest
    ensures |Split(piece, FieldSep)| < n
  {
    var joined := Join(FieldSep, fields);
    OccurrencesPrefix(piece, rest, FieldSep);
    assert FieldSep[0] == '|';
    SplitJoin(fields, FieldSep);
    SplitCount(joined, FieldSep);
    SplitCount(piece, FieldSep);
  }

  /** Every kept name is a non-empty stripped piece of the field. */
  lemma {:induction false} NonEmptyStrippedSound(pieces: seq<string>)
    ensures |NonEmptyStripped(pieces)| <= |pieces|
    ensures forall a :: a in NonEmptyStripped(pieces) ==>
      a != "" && Strip(a) == a && exists i :: 0 <= i < |pieces| && Strip(pieces[i]) == a
  {
    NonEmptyStrippedLength(pieces);
    forall a | a in NonEmptyStripped(pieces)
      ensures a != "" && Strip(a) == a && exists i :: 0 <= i < |pieces| && Strip(pieces[i]) == a
    {
      var i := NonEmptyStrippedOrigin(pieces, a);
      StripIdempotent(pieces[i]);
    }
  }

  lemma {:induction false} NonEmptyStrippedLength(pieces: seq<string>)
    ensures |NonEmptyStripped(pieces)| <= |pieces|
    decreases |pieces|
  {
    if pieces != [] {
      NonEmptyStrippedLength(pieces[..|pieces| - 1]);
    }
  }

  /** The piece a kept attendee comes from. */
  lemma {:induction false} NonEmptyStrippedOrigin(pieces: seq<string>, a: string) returns (i: nat)
    requires a in NonEmptyStripped(pieces)
    ensures i < |pieces| && Strip(pieces[i]) == a && a != ""
    decreases |pieces|
  {
    var init, last := pieces[..|pieces| - 1], pieces[|pieces| - 1];
    if Strip(last) != "" && a == Strip(last) {
      i := |pieces| - 1;
    } else {
      assert a in NonEmptyStripped(init);
      i := NonEmptyStrippedOrigin(init, a);
      assert pieces[i] == init[i];
    }
  }

  /** Every piece of the field that strips to a non-empty name is kept. */
  lemma {:induction false} NonEmptyStrippedComplete(pieces: seq<string>)
    ensures forall i :: 0 <= i < |pieces| && Strip(pieces[i]) != "" ==> Strip(pieces[i]) in NonEmptyStripped(pieces)
  {
    forall i | 0 <= i < |pieces| && Strip(pieces[i]) != ""
      ensures Strip(pieces[i]) in NonEmptyStripped(pieces)
    {
      NonEmptyStrippedKeeps(pieces, i);
    }
  }

  lemma {:induction false} NonEmptyStrippedKeeps(pieces: seq<string>, i: nat)
    requires i < |pieces| && Strip(pieces[i]) != ""
    ensures Strip(pieces[i]) in NonEmptyStripped(pieces)
    decreases |pieces|
  {
    var init, last := pieces[..|pieces| - 1], pieces[|pieces| - 1];
    if i < |init| {
      assert pieces[i] == init[i];
      NonEmptyStrippedKeeps(init, i);
      assert Strip(pieces[i]) in NonEmptyStripped(init);
    }
  }

  /** The names keep the order of the pieces: the pieces of two runs give the names of each, one after the other. */
  lemma {:induction false} NonEmptyStrippedConcat(a: seq<string>, b: seq<string>)
    ensures NonEmptyStripped(a + b) == NonEmptyStripped(a) + NonEmptyStripped(b)
    decreases |b|
  {
    if b != [] {
      var init := b[..|b| - 1];
      assert (a + b)[..|a + b| - 1] == a + init;
      assert (a + b)[|a + b| - 1] == b[|b| - 1];
      NonEmptyStrippedConcat(a, init);
    } else {
      assert a + b == a;
    }
  }

  /** Leading spaces do not change a strip. */
  lemma {:induction false} StripAfterSpace(n: string)
    ensures Strip(" " + n) == Strip(n)
  {
    assert (" " + n)[1..] == n;
  }

  /** The script's "; " joining of attendee names is undone by attendee_list for names without ';'. */
  lemma {:induction false} AttendeeListRoundTrip(names: seq<string>)
    requires forall i :: 0 <= i < |names| ==> names[i] != "" && Strip(names[i]) == names[i] && ';' !in names[i]
    ensures AttendeeList(Join("; ", names)) == names
    decreases |names|
  {
    if names != [] {
      var init, last := names[..|names| - 1], names[|names| - 1];
      assert names == init + [last];
      AttendeeListRoundTrip(init);
      if init == [] {
        AttendeeListSingle(last);
        assert Join("; ", names) == last;
      } else {
        AttendeeListSnoc(init, last);
      }
    } else {
      assert Split("", AttendeeSep) == [""];
      assert [""][..0] == [];
      assert Strip("") == "";
    }
  }

  /** A single stripped name without ';' is its own attendee list. */
  lemma {:induction false} AttendeeListSingle(last: string)
    requires last != "" && Strip(last) == last && ';' !in last
    ensures AttendeeList(last) == [last]
  {
    assert AttendeeSep == [';'];
    SplitWithoutLead(last, AttendeeSep);
    assert [last][..0] == [];
    assert NonEmptyStripped([last]) == [last];
  }

  /** Appending "; " and one more name to a joined list appends that name to its attendee list. */
  lemma {:induction false} AttendeeListSnoc(init: seq<string>, last: string)
    requires init != [] && AttendeeList(Join("; ", init)) == init
    requires last != "" && Strip(last) == last && ';' !in last
    ensures AttendeeList(Join("; ", init + [last])) == init + [last]
  {
    var before := Split(Join("; ", init), AttendeeSep);
    AttendeePieces(init, last);
    var pieces := before + [" " + last];
    assert pieces[..|pieces| - 1] == before && pieces[|pieces| - 1] == " " + last;
    StripAfterSpace(last);
    assert NonEmptyStripped(pieces) == NonEmptyStripped(before) + [last];
  }

  /** The "; "-joined list with one more name splits on ';' into the old pieces and " " + that name. */
  lemma {:induction false} AttendeePieces(init: seq<string>, last: string)
    requires init != [] && ';' !in last
    ensures Split(Join("; ", init + [last]), AttendeeSep) == Split(Join("; ", init), AttendeeSep) + [" " + last]
  {
    var joined := Join("; ", init);
    JoinSnoc("; ", init, last);
    assert AttendeeSep == [';'];
    assert Join("; ", init + [last]) == joined + [';'] + (" " + last);
    SplitBeforeLast(joined, ';', " " + last);
  }
}
