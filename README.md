# Top-5 status draft: entity ranking, draft rendering and Outlook text parsers

This Dafny project models the text-processing core of a tool that reads a
month of calendar events and sent e-mails, ranks the organizations they
mention, and writes a "Top 5 Things" status-update draft. It covers four
pieces.

- **The entity-ranking engine** (`DataAnalyzer`, analyzer.py), in `analyzer.dfy`.
  - It builds four frequency tables per source: organizations, topics, projects and people.
  - Weights are exact: an ORG span counts 1 from a calendar event and 2 from an e-mail. A PERSON span counts 1. A topic keyword counts once per record, with weight 1 or 2. Each project match counts 1. Each counting recipient domain counts 1.
  - The calendar and e-mail tables are merged by adding counts.
  - The ten most common organizations are kept. Each gets context snippets: "Meeting: " lines from the first 50 events, then, from the first 50 e-mails, at most one sentence per e-mail: the first '.'-separated sentence of its preview that mentions the organization. At most five snippets are kept in all.
  - Organizations without context are dropped, and the first seven by frequency are kept.
  - The named-entity tagger and the two project regexes are parameters (the `Nlp` value). Only the counting around them is modelled.
- **The draft renderer** (`EmailDraftGenerator`, email_generator.py), in `draft.dfy`.
  - It builds the subject line from the distinct names of the first three items.
  - It builds the body line by line: header, one block per item, footer with the counts.
  - It builds the draft record with its metadata and the plain-text display form.
- **The AppleScript result parsers** (outlook_applescript.py), in `outlook_script.dfy`.
  - They take the marker-delimited text the Outlook script returns and turn it into e-mail and event records.
  - An "ERROR:" reply becomes a raised error.
- **The event-file line scan** (the loop of `_get_event_details`, outlook_local.py), in `outlook_local.dfy`.
  - It fills subject, location, body, organizer and attendees from iCalendar-style prefixed lines.

Supporting modules:
- `wrappers.dfy`: Option and Result values.
- `text.dfy`: the Python string operations used, over `seq<char>`. These are `strip`, `lower`, `capitalize`, `startswith`, `in`, `split`, `join`, `replace` and `str(n)`. It also holds their laws, for example joining the pieces of a split gives back the original.
- `tables.dfy`: `collections.Counter` as an insertion-ordered table. It includes `update` and a stable `most_common`.

Imperative code stays imperative:
- The extraction loops, the context search, the subject and body builders, and both parsers are methods with loops.
- So is the line scan.
- Each method is proved equal to a specification function. The properties are proved as lemmas about that function.

Behaviours of the code that the model keeps as written, though a reader might expect otherwise:
- The recipient "domain" is the text after the first `@`, up to the next `.` or `@`, not the text before it.
- Ties among equally frequent organizations keep the table's insertion order, as `most_common` and the stable `sort` do. It is not a name order.
- A pattern-B project match (one regex group) is joined character by character: its characters at the even positions and a space at every odd one (`SpacedOutLayout`). So the match `"Ab "` counts as the project `"A b"` (`SpacedOutExample`).
- Events need at least seven `|||` fields, while the event script writes six. The model keeps this: every event the script writes is dropped.

## Model

| member | source | states |
|---|---|---|
| Tables.Counter.Add | analyzer.py:79 | `counter[k] += n`: the count of k grows by n, every other count is unchanged, and k is appended to the keys only when new |
| Tables.Merge | analyzer.py:155-156 | `Counter.update` as a definition: the argument's keys are added one by one, in its order, and the result is again a valid table; MergeCounts gives its counts |
| Tables.Counter.Get | analyzer.py:79 | `counter[k]`: the stored count of k, and 0 for a key the table does not hold, as Counter's default |
| Tables.MergeCounts | analyzer.py:155-156 | `Counter.update`: every merged count is the sum of the two counts, an absent key counting 0 |
| Tables.MergeEmptyLeft | analyzer.py:155 | updating a fresh Counter with a table gives that table back |
| Tables.SortDesc | analyzer.py:181 | the descending `list.sort` by key: the result has the input's length and elements (the same multiset) and is ordered by descending key; SortStable gives the tie order |
| Tables.SortStable | analyzer.py:181 | sorting by a key in descending order is stable: items with equal keys keep their order |
| Tables.SortSortedUnchanged | analyzer.py:181 | re-sorting an already descending list leaves it unchanged |
| Tables.TakeSorted | analyzer.py:182 | a prefix `[:n]` of a descending list is descending and drawn from the list |
| Tables.Counter.Items | analyzer.py:166 | the table's (key, count) pairs in insertion order, the input `most_common` ranks: one pair per key, with that key's count |
| Tables.MostCommon | analyzer.py:166 | `most_common(n)` as a definition: the first n items of the stably sorted table; MostCommonSpec states its properties |
| Tables.MostCommonSpec | analyzer.py:166 | `most_common(n)`: min(n, keys) entries, each a key with its count, in descending count order; no key left out has a larger count than one kept; ties in insertion order |
| Analyzer.KeywordsDistinct | analyzer.py:20-27 | the keyword vocabulary has no repeated entry (it is a set) |
| Analyzer.EventText | analyzer.py:69-73 | the text analysed for an event: the subject, one space, the body content |
| Analyzer.EmailText | analyzer.py:113-117 | the text analysed for an e-mail: the subject, one space, the body preview |
| Analyzer.Recipients | analyzer.py:134 | the to-recipients followed by the cc-recipients, in order |
| Analyzer.AddSpan | analyzer.py:78-81 | tallying one span keeps the tables well formed |
| Analyzer.AddSpans | analyzer.py:77-81 | tallying the spans keeps the tables well formed |
| Analyzer.AddTopics | analyzer.py:85-87 | tallying the keywords keeps the tables well formed |
| Analyzer.AddProjects | analyzer.py:96-99 | tallying project names keeps the tables well formed |
| Analyzer.AddDomains | analyzer.py:135-141 | tallying recipient domains keeps the tables well formed |
| Analyzer.CalendarStep | analyzer.py:68-99 | one calendar event keeps the tables well formed |
| Analyzer.EmailStep | analyzer.py:112-141 | one e-mail keeps the tables well formed |
| Analyzer.CalendarTally | analyzer.py:59-101 | the calendar tally is well formed |
| Analyzer.EmailTally | analyzer.py:103-143 | the e-mail tally is well formed |
| Analyzer.CountSpans | analyzer.py:77-81 | the doc.ents loop gives the tally that AddSpans specifies |
| Analyzer.CountTopics | analyzer.py:84-87 | the keyword loop, walked over the keyword list, gives the tally that AddTopics specifies |
| Analyzer.CountNames | analyzer.py:96-99 | the loop over one pattern's matches gives AddProjects of those names |
| Analyzer.AddProjectsConcat | analyzer.py:94-99 | tallying the matches of pattern A and then of pattern B is tallying them all in that order |
| Analyzer.CountProjects | analyzer.py:89-99 | the pattern loop tallies every match of pattern A, then of pattern B |
| Analyzer.CountDomains | analyzer.py:134-141 | the recipients loop gives AddDomains of all to+cc addresses |
| Analyzer.AddDomain | analyzer.py:136-141 | one address's update: the organization DomainOrg gives gains 1 and the tables stay valid; an address DomainOrg rejects changes nothing |
| Analyzer.CountRecipient | analyzer.py:136-141 | one address gives the tally AddDomain describes: no change without '@' or for an excluded provider, otherwise one more for the capitalised domain label |
| Analyzer.ExtractCalendarEntities | analyzer.py:59-101 | `_extract_calendar_entities` returns the calendar tally of the events |
| Analyzer.ExtractEmailEntities | analyzer.py:103-143 | `_extract_email_entities` returns the e-mail tally of the e-mails |
| Analyzer.ProjectNames | analyzer.py:90-97 | the names of both project patterns, `' '.join(match).strip()`, in findall order with pattern A first; ProjectCounts gives their counts |
| Analyzer.SpacedOut | analyzer.py:97 | `' '.join` over the single group a pattern-B match gives; SpacedOutLayout states its layout |
| Analyzer.SpacedOutLayout | analyzer.py:97 | joining a non-empty string's characters gives 2n-1 characters: the string's characters at the even positions and a space at every odd one |
| Analyzer.SpacedOutExample | analyzer.py:92-97 | a single-group pattern-B match "Ab " is joined character by character and stripped to the project name "A b" |
| Analyzer.RecipientDomain | analyzer.py:139 | `split('@')[1].split('.')[0]` for an address holding '@'; RecipientDomainSpec characterises it |
| Analyzer.DomainOrg | analyzer.py:138-141 | the organization one address counts for: none without '@' or when the raw domain is excluded, otherwise the capitalised domain; DomainOrgsSpec and ExclusionBeforeCapitalize state its properties |
| Analyzer.RecipientDomainSpec | analyzer.py:139 | the domain starts right after the first `@`, holds no `@` or `.`, and ends at a `.`, an `@` or the end of the address |
| Analyzer.RecipientDomainOf | analyzer.py:139 | for local@dom followed by `.`, `@` or nothing, the domain is exactly dom |
| Analyzer.ExclusionBeforeCapitalize | analyzer.py:140-141 | the exclusion list is checked before capitalizing: "ann@NVIDIA.com" still counts, for "Nvidia" |
| Analyzer.DomainOrgs | analyzer.py:134-141 | the organizations the recipient loop counts, one entry per accepted address, in address order; DomainOrgsSpec states its properties |
| Analyzer.DomainOrgsSpec | analyzer.py:134-141 | every counted organization comes from an address with `@`; every address with `@` and a non-excluded domain is counted |
| Analyzer.AddSpanCounts | analyzer.py:77-81 | one ORG span of text k adds the record weight to organizations[k], one PERSON span 1 to people[k]; nothing else changes |
| Analyzer.SpanCounts | analyzer.py:77-81 | each ORG span adds the weight (1 or 2) to organizations, each PERSON span adds 1 to people; topics and projects unchanged |
| Analyzer.TopicCounts | analyzer.py:84-87 | a keyword adds the weight once when it occurs in the lower-cased text and nothing otherwise; other tables unchanged |
| Analyzer.ProjectCounts | analyzer.py:96-99 | each occurrence of a non-empty project name adds 1 and an empty one nothing; other tables unchanged |
| Analyzer.DomainCounts | analyzer.py:134-141 | each counting recipient adds 1 to its organization; other tables unchanged |
| Analyzer.TopicHit | analyzer.py:84-87 | a reference statement of one record's topic hit for a key: 1 exactly when the key is a listed keyword contained in the lower-cased text, else 0 |
| Analyzer.CalendarHits | analyzer.py:68-99 | a reference statement, independent of the tally functions, of what one event adds for a key: the ORG spans of the key, its topic hit, its project matches (none for the empty name), its PERSON spans; CalendarRecordCounts ties CalendarStep to it |
| Analyzer.EmailHits | analyzer.py:112-141 | the same for one e-mail: twice the ORG spans plus the counting recipients, twice the topic hit, no projects, the PERSON spans; EmailRecordCounts ties EmailStep to it |
| Analyzer.CalendarRecordCounts | analyzer.py:68-99 | a calendar event adds, for each key, its ORG spans times 1, its PERSON spans, its topic hit times 1 and its project matches |
| Analyzer.EmailRecordCounts | analyzer.py:112-141 | an e-mail adds its ORG spans times 2, its counting recipients, its topic hit times 2 and its PERSON spans, and no projects |
| Analyzer.SumCalendarHits | analyzer.py:68-99 | the reference sum of CalendarHits over the events, in order; CalendarTallyCounts ties CalendarTally to it |
| Analyzer.SumEmailHits | analyzer.py:112-141 | the reference sum of EmailHits over the e-mails, in order; EmailTallyCounts ties EmailTally to it |
| Analyzer.CalendarTallyCounts | analyzer.py:59-101 | every calendar count is the sum over the events of what each adds |
| Analyzer.EmailTallyCounts | analyzer.py:103-143 | every e-mail count is the sum over the e-mails of what each adds |
| Analyzer.EmailTallyHasNoProjects | analyzer.py:103-143 | the e-mail tally's projects table is always empty |
| Analyzer.SumCalendarHitsConcat | analyzer.py:68 | the calendar hits of two runs of events add up |
| Analyzer.SumEmailHitsConcat | analyzer.py:112 | the e-mail hits of two runs of e-mails add up |
| Analyzer.CombineCounters | analyzer.py:155-156 | combining two tables gives a well-formed table |
| Analyzer.Combine | analyzer.py:145-158 | combining two tallies gives a well-formed tally |
| Analyzer.CombineCountersSum | analyzer.py:155-156 | a combined count is the calendar count plus the e-mail count; a key is present iff it is present on either side |
| Analyzer.CombineCounts | analyzer.py:145-158 | in all four tables each combined count is the sum of both sides, and no organization is lost |
| Analyzer.CombineWithEmpty | analyzer.py:145-158 | combining with an empty tally on either side returns the other tally unchanged |
| Analyzer.CalendarAdditive | analyzer.py:59-101 | tallying two batches of events and combining gives the counts of tallying them together |
| Analyzer.EmailAdditive | analyzer.py:103-143 | tallying two batches of e-mails and combining gives the counts of tallying them together |
| Analyzer.EventSnippets | analyzer.py:191-194 | at most one meeting snippet per event |
| Analyzer.MeetingSnippets | analyzer.py:191-194 | the event loop of `_find_context` gives EventSnippets |
| Analyzer.SentenceSnippet | analyzer.py:201-207 | one e-mail's body of the loop gives its EmailSnippet |
| Analyzer.EmailSnippets | analyzer.py:197-207 | the snippets of the e-mails in order, each e-mail giving its EmailSnippet if any |
| Analyzer.MailSnippets | analyzer.py:197-207 | the e-mail loop of `_find_context` gives EmailSnippets |
| Analyzer.Context | analyzer.py:184-209 | the context has at most five snippets |
| Analyzer.FindContext | analyzer.py:184-209 | `_find_context` returns the first five of the event snippets of the first 50 events followed by the e-mail snippets of the first 50 e-mails |
| Analyzer.EventSnippetsSpec | analyzer.py:191-194 | every event snippet is "Meeting: " + the subject of an event whose lower-cased subject contains the entity, and every such event gives one |
| Analyzer.EmailSnippetsAtMostOne | analyzer.py:197-207 | the e-mail snippets number no more than the e-mails |
| Analyzer.EmailSnippetOfOne | analyzer.py:201-207 | one e-mail gives at most one snippet, the break's effect: exactly its EmailSnippet when there is one, and nothing otherwise |
| Analyzer.EmailSnippetsConcat | analyzer.py:197 | the snippets of two runs of e-mails are the first run's followed by the second's, so each e-mail contributes its own snippet in e-mail order |
| Analyzer.FirstSentence | analyzer.py:203-207 | the first '.'-separated piece whose lower-cased text contains the entity, stripped, with the loop's break; FirstSentenceSpec states its properties |
| Analyzer.EmailSnippet | analyzer.py:198-207 | one e-mail's snippet: none unless the subject or the preview mentions the entity, else FirstSentence of the preview's pieces; SubjectOnlyMatchGivesNothing and EmailSnippetOfOne state its properties |
| Analyzer.FirstSentenceSpec | analyzer.py:203-207 | the snippet is the stripped first `.`-sentence mentioning the entity, and there is none only when no sentence mentions it |
| Analyzer.SentenceInPreview | analyzer.py:203-205 | a sentence that mentions the entity means the preview mentions it |
| Analyzer.SubjectOnlyMatchGivesNothing | analyzer.py:201-207 | an e-mail whose subject matches but whose preview does not gives no snippet |
| Analyzer.Candidates | analyzer.py:168-178 | there are no more candidates than organizations considered |
| Analyzer.CandidatesFrom | analyzer.py:166-178 | every candidate is an organization of the pool with its count and its non-empty context, in pool order; a descending pool gives descending candidates |
| Analyzer.CandidatesComplete | analyzer.py:168-178 | conversely, every pool organization whose context is not empty becomes a candidate, with its count and that context |
| Analyzer.TopItemsOf | analyzer.py:160-182 | `_extract_top_items` as a function of the combined organizations: the candidates of `most_common(10)`, stably sorted, cut to seven; TopItemsSpec states its properties |
| Analyzer.ExtractTopItems | analyzer.py:160-182 | `_extract_top_items` returns TopItemsOf of the combined organizations |
| Analyzer.TopItemsKeepOrder | analyzer.py:180-182 | the stable re-sort by frequency leaves the candidates as they are, so the result is their first seven |
| Analyzer.TopItemsSpec | analyzer.py:160-182 | at most 7 items, descending by frequency; each a customer among the 10 most common organizations, with frequency equal to its combined count and 1 to 5 context snippets equal to its context |
| Analyzer.TopItemsComplete | analyzer.py:172-182 | when at most seven candidates have context, the `[:7]` cut drops none of them: every candidate is a top item |
| Analyzer.UnmentionedNeverRanked | analyzer.py:170-172 | an organization without context never becomes a top item |
| Analyzer.AnalyzeData | analyzer.py:29-57 | the counts are the input lengths, the entities are the combined tallies, the top items are those of the combined organizations; empty inputs give no items and empty tables |
| Analyzer.AnalysisCounts | analyzer.py:29-57 | every count of the analysis is what the events add plus what the e-mails add |
| DraftGenerator.DistinctNames | email_generator.py:42-46 | the `not in` loop as a definition: each non-empty name at its first occurrence; DistinctNamesSpec states its properties |
| DraftGenerator.DistinctNamesSpec | email_generator.py:42-46 | the names are distinct and non-empty, exactly the non-empty names of the items, in first-occurrence order |
| DraftGenerator.GenerateSubject | email_generator.py:39-53 | `_generate_subject` returns Subject of the items |
| DraftGenerator.Subject | email_generator.py:39-53 | the subject as a definition: the prefix and the " \| " join of the distinct names of the first three items, or the fixed fallback; SubjectSpec states its properties |
| DraftGenerator.SubjectSpec | email_generator.py:39-53 | the subject is "Top 5 Things - " + the distinct non-empty names of the first three items joined by " \| ", or "Top 5 Things - Monthly Update" when there are none |
| DraftGenerator.ContextPiece | email_generator.py:76-81 | one context string's body lines: its ContextLine as a list of zero or one lines |
| DraftGenerator.ContextLines | email_generator.py:74-81 | at most one line per context string |
| DraftGenerator.AppendContextLines | email_generator.py:74-81 | the context loop appends ContextLines of the strings |
| DraftGenerator.AppendContextLine | email_generator.py:76-81 | one context string appends exactly its ContextPiece: the indented cleaned text, the meeting line, or nothing when it cleans to empty |
| DraftGenerator.AppendItemLines | email_generator.py:64-88 | one item's pass appends that item's lines |
| DraftGenerator.GenerateBody | email_generator.py:55-98 | `_generate_body` returns the body lines joined with "\n" |
| DraftGenerator.ItemsLines | email_generator.py:64-88 | the blocks of all items, in item order; ItemsLinesNoNewline states its property |
| DraftGenerator.Footer | email_generator.py:93-94 | the footer line with the calendar and e-mail counts in decimal; CountTextsNoNewline states it is one line |
| DraftGenerator.Trailer | email_generator.py:90-96 | the closing lines: a blank line, "---", the footer, a blank line, the Note; BodyFrame states them |
| DraftGenerator.BodyLines | email_generator.py:57-96 | the list body_lines as a definition: header, blank line, the item blocks, the trailer; BodyFrame states its frame |
| DraftGenerator.Body | email_generator.py:98 | the lines joined with "\n"; BodySplitsIntoLines shows the lines come back from the text |
| DraftGenerator.BodyFrame | email_generator.py:59-96 | the body opens with the header and a blank line and closes with "", "---", the footer, "" and the Note line |
| DraftGenerator.ItemLines | email_generator.py:64-88 | one item's block: the name line, the cleaned context lines of its first three strings or the two placeholder lines, a blank line; ItemLinesShape states its shape |
| DraftGenerator.ItemLinesShape | email_generator.py:64-88 | an item block is "<name> -", then at most three context lines or exactly the two placeholder lines, then a blank line |
| DraftGenerator.Placeholder | email_generator.py:84 | the placeholder line for an item without context, showing its frequency in decimal; PlaceholderFrequency and CountTextsNoNewline state its properties |
| DraftGenerator.PlaceholderFrequency | email_generator.py:84 | the first placeholder line states the item's frequency in digits that read back as that number |
| DraftGenerator.Cleaned | email_generator.py:76 | a context string with CR-LF and then LF replaced by a space, then stripped; CleanedHasNoNewline states its property |
| DraftGenerator.CleanedHasNoNewline | email_generator.py:76 | a cleaned context string holds no line feed |
| DraftGenerator.ContextLine | email_generator.py:76-81 | the body line one context string gives: the indented text, the meetings line, or none; ContextLineSpec states its three cases |
| DraftGenerator.ContextLineSpec | email_generator.py:76-81 | an empty cleaned string gives no line; a "Meeting:" one gives the meetings line with every "Meeting:" removed; any other is indented by two spaces |
| DraftGenerator.ContextLinesNoNewline | email_generator.py:74-81 | no context line holds a line feed |
| DraftGenerator.FixedTextsNoNewline | email_generator.py:60-96 | the header, the placeholder note and the Note line are single lines |
| DraftGenerator.CountTextsNoNewline | email_generator.py:84-94 | the placeholder and the footer are single lines |
| DraftGenerator.ItemLinesNoNewline | email_generator.py:64-88 | an item block has no line feed inside a line when the name has none |
| DraftGenerator.ItemsLinesNoNewline | email_generator.py:64-88 | no item line holds a line feed when no name does |
| DraftGenerator.BodySplitsIntoLines | email_generator.py:57-98 | splitting the body on "\n" gives back exactly the body lines when no item name holds a line feed |
| DraftGenerator.GenerateDraft | email_generator.py:10-37 | the draft's subject and body come from the items (default none), and the metadata copies the counts (default 0) and the number of items |
| DraftGenerator.Rule | email_generator.py:106 | `"=" * n` has length n and only '=' |
| DraftGenerator.FormatForDisplay | email_generator.py:100-109 | the display text as a definition: "Subject: ", the subject, a blank line, a rule of 80 '=', a blank line, the body; DisplayLayout and DisplayFirstLine state its layout |
| DraftGenerator.DisplayLayout | email_generator.py:100-109 | the display text is "Subject: ", the subject, "\n\n", 80 '=', "\n\n" and the body, at those offsets |
| DraftGenerator.DisplayFirstLine | email_generator.py:105 | the first display line is "Subject: " + the subject when the subject is a single line |
| OutlookScript.BlockFields | outlook_applescript.py:233-240 | a block's fields: none without the end marker, else the text before the first end marker split on "\|\|\|"; EmailEndCutsBlock, EventEndCutsBlock, UnterminatedEmailSkipped and UnterminatedEventSkipped state its properties |
| OutlookScript.EmailOfFields | outlook_applescript.py:242-250 | at least four fields give the email of the first four stripped, the fourth as preview and body; fewer give none |
| OutlookScript.AttendeeList | outlook_applescript.py:282 | the attendee comprehension: the field split on ';', each piece stripped, empty ones dropped; NonEmptyStrippedSound and NonEmptyStrippedComplete state its properties |
| OutlookScript.EventOfFields | outlook_applescript.py:274-284 | at least seven fields give the event of the first six stripped, with the sixth's attendee list; fewer give none |
| OutlookScript.EmailOfBlock | outlook_applescript.py:233-250 | one email block's record: none without the end marker or with fewer than four fields; EmailRoundTrip, ShortEmailBlockDropped and UnterminatedEmailSkipped state its behaviour |
| OutlookScript.EventOfBlock | outlook_applescript.py:265-284 | one event block's record: none without the end marker or with fewer than seven fields; EventRoundTrip, ShortEventBlockDropped and UnterminatedEventSkipped state its behaviour |
| OutlookScript.Emails | outlook_applescript.py:232-250 | at most one e-mail per block |
| OutlookScript.Events | outlook_applescript.py:264-284 | at most one event per block |
| OutlookScript.ParseEmailResults | outlook_applescript.py:222-252 | `_parse_email_results` returns EmailResults of the text |
| OutlookScript.ParseEventResults | outlook_applescript.py:254-286 | `_parse_event_results` returns EventResults of the text |
| OutlookScript.EmailResults | outlook_applescript.py:222-252 | `_parse_email_results` as a function: Failure for an "ERROR:" reply, else the emails of the blocks after the first start marker; EmailResultsSpec states its properties |
| OutlookScript.EventResults | outlook_applescript.py:254-286 | the same for `_parse_event_results`; EventResultsSpec states its properties |
| OutlookScript.EmailResultsSpec | outlook_applescript.py:222-252 | an "ERROR:" text, and only such a text, is raised with itself as the message; otherwise there are no more e-mails than start markers |
| OutlookScript.EventResultsSpec | outlook_applescript.py:254-286 | an "ERROR:" text, and only such a text, is raised with itself as the message; otherwise there are no more events than start markers |
| OutlookScript.EmailsConcat | outlook_applescript.py:232-250 | the e-mails keep block order: two runs of blocks give their e-mails one after the other |
| OutlookScript.EventsConcat | outlook_applescript.py:264-284 | the events keep block order |
| OutlookScript.EmailsSingle | outlook_applescript.py:232-250 | a block adds an e-mail exactly when it yields one |
| OutlookScript.EventsSingle | outlook_applescript.py:264-284 | a block adds an event exactly when it yields one |
| OutlookScript.LeadingTextIgnoredByEmails | outlook_applescript.py:230 | text before the first start marker is ignored |
| OutlookScript.LeadingTextIgnoredByEvents | outlook_applescript.py:262 | text before the first start marker is ignored |
| OutlookScript.EmailEndCutsBlock | outlook_applescript.py:233-240 | for text free of the email end marker, only the text before that marker's first occurrence is split into fields; what follows is ignored |
| OutlookScript.EventEndCutsBlock | outlook_applescript.py:265-272 | the same for the event end marker and text free of it |
| OutlookScript.UnterminatedEmailSkipped | outlook_applescript.py:233-234 | an email block without the email end marker gives no email |
| OutlookScript.UnterminatedEventSkipped | outlook_applescript.py:265-266 | an event block without the event end marker gives no event |
| OutlookScript.EmailRoundTrip | outlook_applescript.py:240-250 | a block of four or more fields becomes the e-mail of its first four stripped fields, with preview and body both the fourth; extra fields are ignored |
| OutlookScript.EventRoundTrip | outlook_applescript.py:271-284 | a block of seven or more fields becomes the event of its first six stripped fields, with the attendee list of the sixth |
| OutlookScript.ShortEmailBlockDropped | outlook_applescript.py:240-242 | the converse of EmailRoundTrip: one to three '\|'-free fields closed by the end marker give no email, and the block adds nothing to the list |
| OutlookScript.ShortEventBlockDropped | outlook_applescript.py:271-284 | a block of fewer than seven fields, such as the six the event script writes, yields no event |
| OutlookScript.NonEmptyStripped | outlook_applescript.py:282 | the comprehension's filter and map: each piece stripped, the empty ones dropped, in order; NonEmptyStrippedSound, NonEmptyStrippedComplete and NonEmptyStrippedConcat state its properties |
| OutlookScript.NonEmptyStrippedSound | outlook_applescript.py:282 | every attendee is a non-empty, stripped piece of the field |
| OutlookScript.NonEmptyStrippedComplete | outlook_applescript.py:282 | every piece that strips to a non-empty name is kept |
| OutlookScript.NonEmptyStrippedConcat | outlook_applescript.py:282 | attendees keep the order of the pieces |
| OutlookScript.AttendeeListRoundTrip | outlook_applescript.py:282 | names joined with "; " come back unchanged through `attendee_list` |
| OutlookLocal.ScanEventText | outlook_local.py:179-213 | the loop over the text's lines gives EventDetails of the text |
| OutlookLocal.ReadEventLine | outlook_local.py:202-213 | one line gives the details ReadLine describes, the first matching prefix deciding the one field that may change |
| OutlookLocal.KindOf | outlook_local.py:202-211 | which branch of the if/elif chain a line takes, tested in source order; KindOfSpec states it |
| OutlookLocal.PrefixedValue | outlook_local.py:203-207 | `line.replace(prefix, '').strip()`; ReplaceDeletesEveryPrefix shows every occurrence goes |
| OutlookLocal.AfterLastColon | outlook_local.py:208-211 | `line.split(':')[-1].strip()`; AfterLastColonClean states its properties |
| OutlookLocal.ReadLine | outlook_local.py:202-213 | the effect of one line on the details; ReadLineChangesOneField states that at most one field changes |
| OutlookLocal.ReadLines | outlook_local.py:201-213 | the lines read one by one, in order, from the empty details; ReadLinesFrame, LastMatchWins and AttendeesConcat state its properties |
| OutlookLocal.EventDetails | outlook_local.py:179-213 | the details from `text.split('\n')` read in order from the empty details; NoMatchingLines and LastMatchWins state its properties |
| OutlookLocal.PrefixesExclusive | outlook_local.py:202-211 | the five prefixes begin with five different letters |
| OutlookLocal.KindOfSpec | outlook_local.py:202-211 | a line fills a field exactly when it starts with that field's prefix |
| OutlookLocal.ReadLineChangesOneField | outlook_local.py:202-213 | a line changes at most the field its prefix names, and only to that line's value |
| OutlookLocal.NoMatchingLines | outlook_local.py:179-185 | without prefixed lines all strings stay "" and there are no attendees |
| OutlookLocal.ReadLinesFrame | outlook_local.py:201-209 | lines for other fields leave a field unchanged |
| OutlookLocal.LastMatchWins | outlook_local.py:201-209 | for subject, location, body and organizer the last line with the field's prefix decides the value |
| OutlookLocal.AttendeesConcat | outlook_local.py:210-213 | attendees keep line order |
| OutlookLocal.AttendeeOfLine | outlook_local.py:210-213 | a line adds an attendee exactly when it is an ATTENDEE line with something after its last colon |
| OutlookLocal.AfterLastColonClean | outlook_local.py:208-211 | the text after the last ':' holds no ':' and is stripped |
| OutlookLocal.ColonValues | outlook_local.py:208-213 | the organizer holds no ':'; every attendee is non-empty, stripped and free of ':' |
| OutlookLocal.ReplaceDeletesEveryPrefix | outlook_local.py:202-207 | every occurrence of the prefix is removed: "SUMMARY:a SUMMARY:b" gives "a b", not "a SUMMARY:b" |

## Left out

- The named-entity tagger (spaCy) and its model loading, and the Python regex engine for the two project patterns, are outside the model. They are function-typed parameters of `Nlp`. Only what the code does with their output is modelled.
- Lower-casing, `capitalize` and `strip` cover ASCII only. Python applies Unicode case mapping and Unicode whitespace.
- The keyword set is iterated in a fixed listed order. Python's set order affects only the insertion order of the topics table, which nothing downstream reads.
- Records are modelled with every field present. A missing `subject`, `body.content`, `bodyPreview` or recipient `address` reads as "" in the source. The caller passes "" for it, so the missing key itself is not a case in the model.
- `analyze_data`'s result dictionary is a datatype. Its `entities` are the four-table tally.
- Counters are value types rebuilt by each step. They are local to one call and never shared, so in-place update and rebuilding agree.
- The `f'Item {idx}'` default name and the `context`/`frequency` defaults in `_generate_body` are not modelled. Items always carry all three fields.
- The `subject`/`body` defaults of `format_for_display` are not modelled, for the same reason.
- The `generated_at` timestamp of `generate_draft` is left out, because it reads the clock.
- `format_as_html` is left out. It is an HTML template with no logic.
- The AppleScript programs themselves are not modelled: running them through `osascript`, checking that Outlook is running, `get_*` and `test_connection`. They are process I/O. `ShortEventBlockDropped` refers to the event script's six-field format only in prose.
- The `if len(parts) > 3 else ''` branches of the e-mail parser are not modelled. Under the `len(parts) >= 4` guard they are unreachable.
- For outlook_local.py, the SQLite queries, the file checks, reading the data file and its UTF-8 decoding are left out. They are database and file I/O. `ScanEventText` starts from the decoded text. The surrounding `try`/`except` is left out: nothing in the loop raises.
- EmailRoundTrip: proved only for fields without the character '|' whose joined text holds no end marker. A '|' inside a field can move the field boundaries.
- EventRoundTrip: proved only for fields without '|' and without an end marker in the joined text, for the same reason.
- ShortEventBlockDropped: proved only for blocks whose fields hold no '|'.
- ShortEmailBlockDropped: proved only for blocks whose fields hold no '|', for the same reason.
- AttendeeListRoundTrip: proved only for names that are already stripped, non-empty and free of ';'.
- LeadingTextIgnoredByEmails: stated for a successful parse, that is, when the text does not start with "ERROR:".
- LeadingTextIgnoredByEvents: stated for a successful parse, as above.
