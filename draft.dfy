/**
 * The draft renderer (class EmailDraftGenerator in email_generator.py): the
 * "Top 5 Things" subject line, the body built line by line from the ranked
 * items, the draft record with its metadata, and the plain-text display form.
 */
module DraftGenerator {
  import opened Wrappers
  import opened Text
  import opened Tables
  import opened Analyzer

  // ---------------------------------------------------------------------------
  // Inputs and outputs

  /**
   * The analysis results as the renderer reads them: each key may be absent,
   * and an absent key reads as its .get() default (no items, a count of 0).
   */
  datatype AnalysisDict = AnalysisDict(topItems: Option<seq<TopItem>>, calendarCount: Option<nat>, emailCount: Option<nat>)

  /** The dictionary analyze_data returns: every key present. */
  function FromResult(r: AnalysisResult): AnalysisDict {
    AnalysisDict(Some(r.topItems), Some(r.calendarCount), Some(r.emailCount))
  }

  /** The draft's metadata, without its generation timestamp. */
  datatype Metadata = Metadata(calendarEventsAnalyzed: nat, emailsAnalyzed: nat, itemsCount: nat)

  datatype Draft = Draft(subject: string, body: string, metadata: Metadata)

  const SubjectPrefix: string := "Top 5 Things - "
  const DefaultSubject: string := "Top 5 Things - Monthly Update"
  const SubjectSeparator: string := " | "
  // The longer texts are written as several literals so that the verifier can
  // see, piece by piece, that no line feed occurs in them.
  const Header: string := "Industry " + "Business " + "Development " + "/ Account " + "Updates"
  const MeetingTag: string := "Meeting:"
  const MeetingLead: string := "  Ongoing " + "discussions " + "and meetings: "
  const PlaceholderNote: string := "  [Add " + "specific " + "details " + "about " + "current " + "activities " + "and status]"
  const Note: string := "Note: " + "Please " + "review " + "and add " + "specific " + "details, " + "metrics, " + "and action " + "items for " + "each entry."
  const SubjectNames: nat := 3
  const ContextLinesPerItem: nat := 3

  // ---------------------------------------------------------------------------
  // Subject

  /** The item names, in item order. */
  function NameList(items: seq<TopItem>): (r: seq<string>)
    ensures |r| == |items| && forall i :: 0 <= i < |items| ==> r[i] == items[i].name
  {
    seq(|items|, i requires 0 <= i < |items| => items[i].name)
  }

  /** The non-empty names of the items, each kept at its first occurrence. */
  function DistinctNames(items: seq<TopItem>): seq<string>
    decreases |items|
  {
    if items == [] then []
    else
      var acc := DistinctNames(items[..|items| - 1]);
      var name := items[|items| - 1].name;
      if name != "" && name !in acc then acc + [name] else acc
  }

  /** The subject line for the given items. */
  function Subject(items: seq<TopItem>): string {
    var names := DistinctNames(Take(items, SubjectNames));
    if names != [] then SubjectPrefix + Join(SubjectSeparator, Take(names, SubjectNames)) else DefaultSubject
  }

  /** Position of the first occurrence of x. */
  function IndexOf(s: seq<string>, x: string): (r: nat)
    requires x in s
    ensures r < |s| && s[r] == x && x !in s[..r]
  {
    if s[0] == x then 0 else assert s[1..][..IndexOf(s[1..], x)] == s[1..IndexOf(s[1..], x) + 1]; 1 + IndexOf(s[1..], x)
  }

  lemma {:induction false} IndexOfPrefix(s: seq<string>, y: string, x: string)
    requires x in s
    ensures IndexOf(s + [y], x) == IndexOf(s, x)
    decreases |s|
  {
    if s[0] != x {
      assert (s + [y])[1..] == s[1..] + [y];
      IndexOfPrefix(s[1..], y, x);
    }
  }

  /**
   * The names of the subject: distinct, non-empty, exactly the non-empty
   * names among the items, and in order of first occurrence.
   */
  lemma {:induction false} DistinctNamesSpec(items: seq<TopItem>)
    ensures Distinct(DistinctNames(items)) && |DistinctNames(items)| <= |items|
    ensures forall n :: n in DistinctNames(items) <==> n != "" && n in NameList(items)
    ensures forall i, j :: 0 <= i < j < |DistinctNames(items)| ==>
      IndexOf(NameList(items), DistinctNames(items)[i]) < IndexOf(NameList(items), DistinctNames(items)[j])
  {
    DistinctNamesMembers(items);
    DistinctNamesOrder(items);
  }

  lemma {:induction false} DistinctNamesMembers(items: seq<TopItem>)
    ensures Distinct(DistinctNames(items)) && |DistinctNames(items)| <= |items|
    ensures forall n :: n in DistinctNames(items) <==> n != "" && n in NameList(items)
    decreases |items|
  {
    if items != [] {
      var init := items[..|items| - 1];
      DistinctNamesMembers(init);
      assert NameList(items) == NameList(init) + [items[|items| - 1].name];
    }
  }

  lemma {:induction false} DistinctNamesOrder(items: seq<TopItem>)
    requires forall n :: n in DistinctNames(items) ==> n in NameList(items)
    ensures forall i, j :: 0 <= i < j < |DistinctNames(items)| ==>
      IndexOf(NameList(items), DistinctNames(items)[i]) < IndexOf(NameList(items), DistinctNames(items)[j])
    decreases |items|
  {
    if items != [] {
      var init := items[..|items| - 1];
      var name := items[|items| - 1].name;
      DistinctNamesMembers(init);
      DistinctNamesOrder(init);
      var acc, nli := DistinctNames(init), NameList(init);
      assert NameList(items) == nli + [name];
      IndexOrderSnoc(acc, nli, name);
      if name != "" && name !in acc {
        assert name !in nli;
        assert DistinctNames(items) == acc + [name];
      } else {
        assert DistinctNames(items) == acc;
      }
    }
  }

  lemma {:induction false} IndexOfPrefixAll(s: seq<string>, y: string)
    ensures forall x :: x in s ==> IndexOf(s + [y], x) == IndexOf(s, x) < |s|
  {
    forall x | x in s
      ensures IndexOf(s + [y], x) == IndexOf(s, x) < |s|
    {
      IndexOfPrefix(s, y, x);
    }
  }

  /** Extending the list of names keeps the first-occurrence order of r, and a new name comes after all of r. */
  lemma {:induction false} IndexOrderSnoc(r: seq<string>, s: seq<string>, y: string)
    requires forall x :: x in r ==> x in s
    requires forall i, j :: 0 <= i < j < |r| ==> IndexOf(s, r[i]) < IndexOf(s, r[j])
    ensures forall i, j :: 0 <= i < j < |r| ==> IndexOf(s + [y], r[i]) < IndexOf(s + [y], r[j])
    ensures y !in s ==> forall i, j :: 0 <= i < j < |r + [y]| ==>
      IndexOf(s + [y], (r + [y])[i]) < IndexOf(s + [y], (r + [y])[j])
  {
    IndexOfPrefixAll(s, y);
    if y !in s {
      var r' := r + [y];
      assert IndexOf(s + [y], y) == |s|;
      forall i, j | 0 <= i < j < |r'|
        ensures IndexOf(s + [y], r'[i]) < IndexOf(s + [y], r'[j])
      {
        assert r'[i] == r[i] && r[i] in s;
        if j < |r| {
          assert r'[j] == r[j];
        }
      }
    }
  }

  /** _generate_subject. */
  method GenerateSubject(topItems: seq<TopItem>) returns (subject: string)
    ensures subject == Subject(topItems)
  {
    var topNames: seq<string> := [];
    var first := Take(topItems, SubjectNames);
    var i := 0;
    while i < |first|
      invariant 0 <= i <= |first|
      invariant topNames == DistinctNames(first[..i])
    {
      var name := first[i].name;
      if name != "" && name !in topNames {
        topNames := topNames + [name];
      }
      assert first[..i + 1][..i] == first[..i];
      i := i + 1;
    }
    assert first[..|first|] == first;
    if topNames != [] {
      subject := SubjectPrefix + Join(SubjectSeparator, Take(topNames, SubjectNames));
    } else {
      subject := DefaultSubject;
    }
  }

  /**
   * The subject lists the distinct non-empty names of the first three items,
   * joined by " | " without further truncation; with none it is the default.
   */
  lemma {:induction false} SubjectSpec(items: seq<TopItem>)
    ensures var names := DistinctNames(Take(items, SubjectNames));
      && |names| <= SubjectNames
      && (forall n :: n in names <==> n != "" && n in NameList(Take(items, SubjectNames)))
      && Subject(items) == if names == [] then DefaultSubject else SubjectPrefix + Join(SubjectSeparator, names)
  {
    DistinctNamesSpec(Take(items, SubjectNames));
  }

  // ---------------------------------------------------------------------------
  // Body

  /** A context string with CRLF and LF turned into spaces, then stripped. */
  function Cleaned(ctx: string): string {
    Strip(ReplaceAll(ReplaceAll(ctx, "\r\n", " "), "\n", " "))
  }

  /** The body line a context string gives, if any. */
  function ContextLine(ctx: string): Option<string> {
    var clean := Cleaned(ctx);
    if clean != "" && !StartsWith(clean, MeetingTag) then Some("  " + clean)
    else if StartsWith(clean, MeetingTag) then Some(MeetingLead + Strip(ReplaceAll(clean, MeetingTag, "")))
    else None
  }

  /** The body line of a context string, as a sequence of zero or one lines. */
  function ContextPiece(ctx: string): seq<string> {
    match ContextLine(ctx)
    case Some(line) => [line]
    case None => []
  }

  function ContextLines(ctxs: seq<string>): (r: seq<string>)
    ensures |r| <= |ctxs|
    decreases |ctxs|
  {
    if ctxs == [] then []
    else
      var init := ContextLines(ctxs[..|ctxs| - 1]);
      match ContextLine(ctxs[|ctxs| - 1])
      case Some(line) => init + [line]
      case None => init
  }

  function Placeholder(frequency: nat): string {
    "  Active " + "engagement " + "with " + NatToString(frequency) + " interactions " + "this month"
  }

  /** The lines of one item: its name line, its context (or two placeholder lines), a blank line. */
  function ItemLines(item: TopItem): seq<string> {
    [item.name + " -"]
      + (if item.context != [] then ContextLines(Take(item.context, ContextLinesPerItem))
         else [Placeholder(item.frequency), PlaceholderNote])
      + [""]
  }

  function ItemsLines(items: seq<TopItem>): seq<string>
    decreases |items|
  {
    if items == [] then [] else ItemsLines(items[..|items| - 1]) + ItemLines(items[|items| - 1])
  }

  function Footer(calendarCount: nat, emailCount: nat): string {
    "Generated " + "from " + NatToString(calendarCount) + " calendar " + "events and "
      + NatToString(emailCount) + " sent emails " + "from the " + "past 30 days."
  }

  function Trailer(calendarCount: nat, emailCount: nat): seq<string> {
    ["", "---", Footer(calendarCount, emailCount), "", Note]
  }

  function BodyLines(items: seq<TopItem>, calendarCount: nat, emailCount: nat): seq<string> {
    [Header, ""] + ItemsLines(items) + Trailer(calendarCount, emailCount)
  }

  function Body(items: seq<TopItem>, calendarCount: nat, emailCount: nat): string {
    Join("\n", BodyLines(items, calendarCount, emailCount))
  }

  /** The context loop of _generate_body: one line per context string that cleans to something. */
  method AppendContextLines(lines: seq<string>, ctxs: seq<string>) returns (bodyLines: seq<string>)
    ensures bodyLines == lines + ContextLines(ctxs)
  {
    bodyLines := lines;
    var j := 0;
    while j < |ctxs|
      invariant 0 <= j <= |ctxs|
      invariant bodyLines == lines + ContextLines(ctxs[..j])
    {
      bodyLines := AppendContextLine(bodyLines, ctxs[j]);
      ContextLinesStep(ctxs, j);
      ConcatAssoc(lines, ContextLines(ctxs[..j]), ContextPiece(ctxs[j]));
      j := j + 1;
    }
    assert ctxs[..|ctxs|] == ctxs;
  }

  /** One pass of the context loop of _generate_body. */
  method AppendContextLine(lines: seq<string>, ctx: string) returns (bodyLines: seq<string>)
    ensures bodyLines == lines + ContextPiece(ctx)
  {
    bodyLines := lines;
    var ctxClean := Strip(ReplaceAll(ReplaceAll(ctx, "\r\n", " "), "\n", " "));
    if ctxClean != "" && !StartsWith(ctxClean, MeetingTag) {
      bodyLines := bodyLines + ["  " + ctxClean];
    } else if StartsWith(ctxClean, MeetingTag) {
      var meetingName := Strip(ReplaceAll(ctxClean, MeetingTag, ""));
      bodyLines := bodyLines + [MeetingLead + meetingName];
    }
  }

  lemma {:induction false} ContextLinesStep(ctxs: seq<string>, j: nat)
    requires j < |ctxs|
    ensures ContextLines(ctxs[..j + 1])
      == ContextLines(ctxs[..j]) + ContextPiece(ctxs[j])
  {
    assert ctxs[..j + 1][..j] == ctxs[..j];
  }

  /** One pass of the item loop of _generate_body: the name line, the context or placeholder lines, a blank line. */
  method AppendItemLines(lines: seq<string>, item: TopItem) returns (bodyLines: seq<string>)
    ensures bodyLines == lines + ItemLines(item)
  {
    bodyLines := lines + [item.name + " -"];
    ghost var middle := if item.context != [] then ContextLines(Take(item.context, ContextLinesPerItem))
      else [Placeholder(item.frequency), PlaceholderNote];
    if item.context != [] {
      bodyLines := AppendContextLines(bodyLines, Take(item.context, ContextLinesPerItem));
    } else {
      bodyLines := bodyLines + [Placeholder(item.frequency), PlaceholderNote];
    }
    bodyLines := bodyLines + [""];
    ConcatAssoc(lines, [item.name + " -"], middle);
    ConcatAssoc(lines, [item.name + " -"] + middle, [""]);
  }

  lemma {:induction false} ConcatAssoc(a: seq<string>, b: seq<string>, c: seq<string>)
    ensures (a + b) + c == a + (b + c)
  {
  }

  /** _generate_body. */
  method GenerateBody(topItems: seq<TopItem>, calendarCount: nat, emailCount: nat) returns (body: string)
    ensures body == Body(topItems, calendarCount, emailCount)
  {
    var bodyLines := [Header, ""];
    var idx := 0;
    while idx < |topItems|
      invariant 0 <= idx <= |topItems|
      invariant bodyLines == [Header, ""] + ItemsLines(topItems[..idx])
    {
      ghost var done, head := ItemsLines(topItems[..idx]), [Header, ""];
      bodyLines := AppendItemLines(bodyLines, topItems[idx]);
      assert topItems[..idx + 1][..idx] == topItems[..idx];
      assert ItemsLines(topItems[..idx + 1]) == done + ItemLines(topItems[idx]);
      ghost var block := ItemLines(topItems[idx]);
      assert bodyLines == (head + done) + block;
      ConcatAssoc(head, done, block);
      idx := idx + 1;
    }
    assert topItems[..|topItems|] == topItems;
    bodyLines := bodyLines + Trailer(calendarCount, emailCount);
    body := Join("\n", bodyLines);
  }

  /** The body opens with the header and a blank line and closes with the footer block. */
  lemma {:induction false} BodyFrame(items: seq<TopItem>, calendarCount: nat, emailCount: nat)
    ensures var lines := BodyLines(items, calendarCount, emailCount);
      && |lines| >= 7
      && lines[..2] == [Header, ""]
      && lines[|lines| - 5..] == ["", "---", Footer(calendarCount, emailCount), "", Note]
  {
    var lines := BodyLines(items, calendarCount, emailCount);
    assert lines[|lines| - 5..] == Trailer(calendarCount, emailCount);
  }

  /** Each item block: the name line, at most three context lines or exactly two placeholders, a blank line. */
  lemma {:induction false} ItemLinesShape(item: TopItem)
    ensures var lines := ItemLines(item);
      && 2 <= |lines| && lines[0] == item.name + " -" && lines[|lines| - 1] == ""
      && (item.context == [] ==> lines[1..|lines| - 1] == [Placeholder(item.frequency), PlaceholderNote])
      && (item.context != [] ==> |lines| - 2 <= ContextLinesPerItem
                                 && lines[1..|lines| - 1] == ContextLines(Take(item.context, ContextLinesPerItem)))
  {
    var lines := ItemLines(item);
    var middle := if item.context != [] then ContextLines(Take(item.context, ContextLinesPerItem))
                  else [Placeholder(item.frequency), PlaceholderNote];
    assert lines == [item.name + " -"] + middle + [""];
    assert lines[1..|lines| - 1] == middle;
  }

  /** The placeholder states the item's frequency, and in a form that reads back as that number. */
  lemma {:induction false} PlaceholderFrequency(frequency: nat)
    ensures var digits := NatToString(frequency);
      Placeholder(frequency) == "  Active engagement with " + digits + " interactions this month"
      && ParseNat(digits) == frequency
  {
    ParseNatToString(frequency);
  }

  /** A cleaned context string holds no line feed. */
  lemma {:induction false} CleanedHasNoNewline(ctx: string)
    ensures '\n' !in Cleaned(ctx)
  {
    ReplaceRemovesChar(ReplaceAll(ctx, "\r\n", " "), '\n', " ");
    StripChars(ReplaceAll(ReplaceAll(ctx, "\r\n", " "), "\n", " "), '\n');
  }

  /**
   * A context string gives no line exactly when it cleans to the empty string;
   * a "Meeting:" string gives the meetings line with every "Meeting:" removed;
   * any other gives the cleaned text indented by two spaces; no line holds a line feed.
   */
  lemma {:induction false} ContextLineSpec(ctx: string)
    ensures ContextLine(ctx).None? <==> Cleaned(ctx) == ""
    ensures StartsWith(Cleaned(ctx), MeetingTag) ==>
      ContextLine(ctx) == Some(MeetingLead + Strip(ReplaceAll(Cleaned(ctx), MeetingTag, "")))
    ensures Cleaned(ctx) != "" && !StartsWith(Cleaned(ctx), MeetingTag) ==> ContextLine(ctx) == Some("  " + Cleaned(ctx))
    ensures ContextLine(ctx).Some? ==> '\n' !in ContextLine(ctx).value
  {
    ContextLineSingle(ctx);
  }

  lemma {:induction false} ContextLineSingle(ctx: string)
    ensures ContextLine(ctx).Some? ==> '\n' !in ContextLine(ctx).value
  {
    var clean := Cleaned(ctx);
    CleanedHasNoNewline(ctx);
    if StartsWith(clean, MeetingTag) {
      var name := Strip(ReplaceAll(clean, MeetingTag, ""));
      ReplaceKeepsAbsentChar(clean, MeetingTag, "", '\n');
      StripChars(ReplaceAll(clean, MeetingTag, ""), '\n');
      var lead := MeetingLeadNoNewline();
      var line := AppendSingleLine(lead, name);
    } else if clean != "" {
      var line := AppendSingleLine("  ", clean);
    }
  }

  lemma {:induction false} MeetingLeadNoNewline() returns (lead: string)
    ensures lead == MeetingLead && '\n' !in lead
  {
    lead := AppendSingleLine("  Ongoing ", "discussions ");
    lead := AppendSingleLine(lead, "and meetings: ");
  }

  lemma {:induction false} ContextLinesNoNewline(ctxs: seq<string>)
    ensures SingleLines(ContextLines(ctxs))
    decreases |ctxs|
  {
    if ctxs != [] {
      ContextLinesNoNewline(ctxs[..|ctxs| - 1]);
      ContextLineSpec(ctxs[|ctxs| - 1]);
    }
  }

  /** The fixed texts of the body are single lines. */
  lemma {:induction false} FixedTextsNoNewline()
    ensures '\n' !in Header && '\n' !in PlaceholderNote && '\n' !in Note
  {
    HeaderNoNewline();
    PlaceholderNoteNoNewline();
    NoteNoNewline();
  }

  /** Appending a piece without a line feed keeps a text free of line feeds. */
  lemma {:induction false} AppendSingleLine(a: string, b: string) returns (r: string)
    requires '\n' !in a && '\n' !in b
    ensures r == a + b && '\n' !in r
  {
    r := a + b;
  }

  lemma {:induction false} HeaderNoNewline()
    ensures '\n' !in Header
  {
    var h := AppendSingleLine("Industry ", "Business ");
    h := AppendSingleLine(h, "Development ");
    h := AppendSingleLine(h, "/ Account ");
    h := AppendSingleLine(h, "Updates");
  }

  lemma {:induction false} PlaceholderNoteNoNewline()
    ensures '\n' !in PlaceholderNote
  {
    var h := AppendSingleLine("  [Add ", "specific ");
    h := AppendSingleLine(h, "details ");
    h := AppendSingleLine(h, "about ");
    h := AppendSingleLine(h, "current ");
    h := AppendSingleLine(h, "activities ");
    h := AppendSingleLine(h, "and status]");
  }

  lemma {:induction false} NoteNoNewline()
    ensures '\n' !in Note
  {
    var h := NoteStartNoNewline();
    h := AppendSingleLine(h, "details, ");
    h := AppendSingleLine(h, "metrics, ");
    h := AppendSingleLine(h, "and action ");
    h := AppendSingleLine(h, "items for ");
    h := AppendSingleLine(h, "each entry.");
  }

  lemma {:induction false} NoteStartNoNewline() returns (h: string)
    ensures h == "Note: " + "Please " + "review " + "and add " + "specific " && '\n' !in h
  {
    h := AppendSingleLine("Note: ", "Please ");
    h := AppendSingleLine(h, "review ");
    h := AppendSingleLine(h, "and add ");
    h := AppendSingleLine(h, "specific ");
  }

  /** The placeholder and the footer are single lines. */
  lemma {:induction false} CountTextsNoNewline(frequency: nat, calendarCount: nat, emailCount: nat)
    ensures '\n' !in Placeholder(frequency) && '\n' !in Footer(calendarCount, emailCount)
  {
    PlaceholderNoNewline(frequency);
    FooterNoNewline(calendarCount, emailCount);
  }

  /** Decimal digits hold no line feed. */
  lemma {:induction false} DigitsNoNewline(n: nat) returns (digits: string)
    ensures digits == NatToString(n) && '\n' !in digits
  {
    digits := NatToString(n);
    assert forall i :: 0 <= i < |digits| ==> digits[i] != '\n';
  }

  lemma {:induction false} PlaceholderNoNewline(frequency: nat)
    ensures '\n' !in Placeholder(frequency)
  {
    var f := DigitsNoNewline(frequency);
    var h := AppendSingleLine("  Active ", "engagement ");
    h := AppendSingleLine(h, "with ");
    h := AppendSingleLine(h, f);
    h := AppendSingleLine(h, " interactions ");
    h := AppendSingleLine(h, "this month");
  }

  lemma {:induction false} FooterNoNewline(calendarCount: nat, emailCount: nat)
    ensures '\n' !in Footer(calendarCount, emailCount)
  {
    var c := DigitsNoNewline(calendarCount);
    var e := DigitsNoNewline(emailCount);
    var h := FooterStartNoNewline(c);
    h := AppendSingleLine(h, e);
    h := AppendSingleLine(h, " sent emails ");
    h := AppendSingleLine(h, "from the ");
    h := AppendSingleLine(h, "past 30 days.");
  }

  lemma {:induction false} FooterStartNoNewline(c: string) returns (h: string)
    requires '\n' !in c
    ensures h == "Generated " + "from " + c + " calendar " + "events and " && '\n' !in h
  {
    h := AppendSingleLine("Generated ", "from ");
    h := AppendSingleLine(h, c);
    h := AppendSingleLine(h, " calendar ");
    h := AppendSingleLine(h, "events and ");
  }

  /** Every line of the list is a single line: none holds a line feed. */
  predicate SingleLines(lines: seq<string>) {
    forall i :: 0 <= i < |lines| ==> '\n' !in lines[i]
  }

  lemma {:induction false} SingleLinesConcat(a: seq<string>, b: seq<string>)
    requires SingleLines(a) && SingleLines(b)
    ensures SingleLines(a + b)
  {
    forall i | 0 <= i < |a + b|
      ensures '\n' !in (a + b)[i]
    {
      if i >= |a| {
        assert (a + b)[i] == b[i - |a|];
      }
    }
  }

  /** No line of an item block holds a line feed when the item name does not. */
  lemma {:induction false} ItemLinesNoNewline(item: TopItem)
    requires '\n' !in item.name
    ensures SingleLines(ItemLines(item))
  {
    var middle := if item.context != [] then ContextLines(Take(item.context, ContextLinesPerItem))
                  else [Placeholder(item.frequency), PlaceholderNote];
    assert ItemLines(item) == [item.name + " -"] + middle + [""];
    if item.context != [] {
      ContextLinesNoNewline(Take(item.context, ContextLinesPerItem));
    } else {
      FixedTextsNoNewline();
      CountTextsNoNewline(item.frequency, 0, 0);
    }
    assert SingleLines([item.name + " -"]);
    SingleLinesConcat([item.name + " -"], middle);
    SingleLinesConcat([item.name + " -"] + middle, [""]);
  }

  /** No body line holds a line feed when no item name does. */
  lemma {:induction false} ItemsLinesNoNewline(items: seq<TopItem>)
    requires forall i :: 0 <= i < |items| ==> '\n' !in items[i].name
    ensures SingleLines(ItemsLines(items))
    decreases |items|
  {
    if items != [] {
      var init, item := items[..|items| - 1], items[|items| - 1];
      ItemsLinesNoNewline(init);
      ItemLinesNoNewline(item);
      SingleLinesConcat(ItemsLines(init), ItemLines(item));
    }
  }

  /** When no item name holds a line feed, splitting the body on "\n" gives back exactly its lines. */
  lemma {:induction false} BodySplitsIntoLines(items: seq<TopItem>, calendarCount: nat, emailCount: nat)
    requires forall i :: 0 <= i < |items| ==> '\n' !in items[i].name
    ensures Split(Body(items, calendarCount, emailCount), "\n") == BodyLines(items, calendarCount, emailCount)
  {
    BodyLinesSingle(items, calendarCount, emailCount);
    SplitJoin(BodyLines(items, calendarCount, emailCount), "\n");
  }

  lemma {:induction false} BodyLinesSingle(items: seq<TopItem>, calendarCount: nat, emailCount: nat)
    requires forall i :: 0 <= i < |items| ==> '\n' !in items[i].name
    ensures SingleLines(BodyLines(items, calendarCount, emailCount))
  {
    FixedTextsNoNewline();
    ItemsLinesNoNewline(items);
    TrailerSingle(calendarCount, emailCount);
    assert SingleLines([Header, ""]);
    SingleLinesConcat([Header, ""], ItemsLines(items));
    SingleLinesConcat([Header, ""] + ItemsLines(items), Trailer(calendarCount, emailCount));
  }

  lemma {:induction false} TrailerSingle(calendarCount: nat, emailCount: nat)
    ensures SingleLines(Trailer(calendarCount, emailCount))
  {
    NoteNoNewline();
    FooterNoNewline(calendarCount, emailCount);
  }

  // ---------------------------------------------------------------------------
  // The draft and its display

  /** generate_draft, without the generated_at timestamp. */
  method GenerateDraft(analysisResults: AnalysisDict) returns (draft: Draft)
    ensures var items := analysisResults.topItems.GetOr([]);
      var calendarCount := analysisResults.calendarCount.GetOr(0);
      var emailCount := analysisResults.emailCount.GetOr(0);
      && draft.subject == Subject(items)
      && draft.body == Body(items, calendarCount, emailCount)
      && draft.metadata == Metadata(calendarCount, emailCount, |items|)
  {
    var topItems := analysisResults.topItems.GetOr([]);
    var subject := GenerateSubject(topItems);
    var body := GenerateBody(topItems, analysisResults.calendarCount.GetOr(0), analysisResults.emailCount.GetOr(0));
    draft := Draft(subject, body, Metadata(analysisResults.calendarCount.GetOr(0), analysisResults.emailCount.GetOr(0), |topItems|));
  }

  /** A line of n '=' characters. */
  function Rule(n: nat): (r: string)
    ensures |r| == n && forall i :: 0 <= i < n ==> r[i] == '='
  {
    seq(n, i requires 0 <= i < n => '=')
  }

  /** format_for_display. */
  function FormatForDisplay(draft: Draft): string {
    "Subject: " + draft.subject + "\n\n" + Rule(80) + "\n\n" + draft.body
  }

  /** The display text takes apart into its pieces again: the subject, an 80-column rule, the body. */
  lemma {:induction false} DisplayLayout(draft: Draft)
    ensures var r := FormatForDisplay(draft);
      var n := |draft.subject|;
      && |r| == n + |draft.body| + 93
      && r[..9] == "Subject: "
      && r[9..9 + n] == draft.subject
      && r[9 + n..11 + n] == "\n\n"
      && r[11 + n..91 + n] == Rule(80)
      && r[91 + n..93 + n] == "\n\n"
      && r[93 + n..] == draft.body
  {
  }

  /** The first display line names the subject, when the subject is a single line. */
  lemma {:induction false} DisplayFirstLine(draft: Draft)
    requires '\n' !in draft.subject
    ensures Split(FormatForDisplay(draft), "\n")[0] == "Subject: " + draft.subject
  {
    var head := "Subject: " + draft.subject;
    assert '\n' !in head;
    var rest := "\n" + Rule(80) + "\n\n" + draft.body;
    assert FormatForDisplay(draft) == head + ['\n'] + rest;
    SplitAfterPiece(head, "\n", rest);
  }
}
