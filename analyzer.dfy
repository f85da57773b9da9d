/**
 * The entity-ranking engine (class DataAnalyzer in analyzer.py).
 *
 * Calendar events and sent e-mails are scanned for organizations, people,
 * topic keywords and project mentions; the per-source tallies are summed; the
 * ten most frequent organizations get context snippets found by substring
 * search; those with no snippet are dropped and at most seven are kept.
 *
 * The named-entity tagger and the regular-expression engine are foreign code:
 * they are the uninterpreted functions of an `Nlp` value, and everything here
 * holds for every choice of them.
 */
module Analyzer {
  import opened Wrappers
  import opened Text
  import opened Tables
  import opened Seqs

  // ---------------------------------------------------------------------------
  // Inputs, oracles and results

  datatype Label = Org | Person | OtherLabel

  /** One entity found by the tagger: its text and its label. */
  datatype Span = Span(text: string, category: Label)

  /**
   * The foreign engines. `tag` is the NER pass (doc.ents). The two project
   * patterns go through re.findall: the first has two groups, so each match is
   * a pair; the second has one group, so each match is a plain string.
   */
  datatype Nlp = Nlp(
    tag: string -> seq<Span>,
    projectFirst: string -> seq<(string, string)>,
    nameFirst: string -> seq<string>)

  /** A calendar event: its subject and body content; a missing field is the empty string. */
  datatype Event = Event(subject: string, body: string)

  /** A sent e-mail: subject, body preview and the addresses of its to- and cc-recipients. */
  datatype Email = Email(subject: string, bodyPreview: string, toRecipients: seq<string>, ccRecipients: seq<string>)

  /** The four frequency tables of one analysis. */
  datatype Tally = Tally(organizations: Counter, topics: Counter, projects: Counter, people: Counter) {
    ghost predicate Valid() {
      organizations.Valid() && topics.Valid() && projects.Valid() && people.Valid()
    }
  }

  const EmptyTally: Tally := Tally(Empty, Empty, Empty, Empty)

  /** One ranked organization; `kind` is always "customer". */
  datatype TopItem = TopItem(name: string, kind: string, frequency: nat, context: seq<string>)

  datatype AnalysisResult = AnalysisResult(topItems: seq<TopItem>, calendarCount: nat, emailCount: nat, entities: Tally)

  /**
   * DataAnalyzer.tech_keywords (a set in the source; listed here in its source
   * order, in four runs of eight so that their distinctness is checked run by run).
   */
  const Keywords: seq<string> := KeywordsA + KeywordsB + KeywordsC + KeywordsD
  const KeywordsA: seq<string> := ["poc", "pov", "proof of concept", "proof of value", "pilot", "kubernetes", "k8s", "gpu"]
  const KeywordsB: seq<string> := ["inference", "training", "ml", "ai", "deployment", "integration", "testing", "validation"]
  const KeywordsC: seq<string> := ["demo", "ebc", "technical review", "architecture", "platform", "scheduler", "workload", "cluster"]
  const KeywordsD: seq<string> := ["node", "container", "docker", "ray", "distributed", "optimization", "efficiency", "performance"]

  /** Recipient domains that never count as organizations (compared before capitalization). */
  const ExcludedDomains: seq<string> := ["nvidia", "gmail", "outlook", "hotmail"]

  const CalendarWeight: nat := 1
  const EmailWeight: nat := 2
  const CandidatePool: nat := 10
  const ContextWindow: nat := 50
  const MaxSnippets: nat := 5
  const TopN: nat := 7

  /** No keyword is listed twice, as in the source's set. */
  lemma {:induction false} KeywordsDistinct()
    ensures Distinct(Keywords)
  {
    RunsDistinct();
    RunsDisjoint();
    var (a, b, c, d) := (KeywordsA, KeywordsB, KeywordsC, KeywordsD);
    DistinctConcat(a, b);
    DisjointConcat(a, b, c);
    DistinctConcat(a + b, c);
    DisjointConcat(a, b, d);
    DisjointConcat(a + b, c, d);
    DistinctConcat(a + b + c, d);
  }

  lemma {:induction false} RunsDistinct()
    ensures Distinct(KeywordsA) && Distinct(KeywordsB) && Distinct(KeywordsC) && Distinct(KeywordsD)
  {
    assert Distinct(KeywordsA);
    assert Distinct(KeywordsB);
    assert Distinct(KeywordsC);
  }

  lemma {:induction false} RunsDisjoint()
    ensures Disjoint(KeywordsA, KeywordsB) && Disjoint(KeywordsA, KeywordsC) && Disjoint(KeywordsA, KeywordsD)
    ensures Disjoint(KeywordsB, KeywordsC) && Disjoint(KeywordsB, KeywordsD) && Disjoint(KeywordsC, KeywordsD)
  {
    assert Disjoint(KeywordsA, KeywordsB);
    assert Disjoint(KeywordsA, KeywordsC);
    assert Disjoint(KeywordsA, KeywordsD);
    assert Disjoint(KeywordsB, KeywordsC);
    assert Disjoint(KeywordsB, KeywordsD);
  }

  // ---------------------------------------------------------------------------
  // Extraction, as functions of the tally before and after

  function EventText(e: Event): string {
    e.subject + " " + e.body
  }

  function EmailText(m: Email): string {
    m.subject + " " + m.bodyPreview
  }

  /** One tagged span: ORG adds `orgWeight` to organizations, PERSON adds 1 to people (counts: AddSpanCounts). */
  function AddSpan(t: Tally, sp: Span, orgWeight: nat): (r: Tally)
    requires t.Valid()
    ensures r.Valid()
  {
    match sp.category
    case Org => t.(organizations := t.organizations.Add(sp.text, orgWeight))
    case Person => t.(people := t.people.Add(sp.text, 1))
    case OtherLabel => t
  }

  /** The spans of doc.ents, in order (counts: SpanCounts). */
  function AddSpans(t: Tally, spans: seq<Span>, orgWeight: nat): (r: Tally)
    requires t.Valid()
    ensures r.Valid()
    decreases |spans|
  {
    if spans == [] then t
    else AddSpan(AddSpans(t, spans[..|spans| - 1], orgWeight), spans[|spans| - 1], orgWeight)
  }

  /** Each keyword found in the lower-cased text adds `weight` to its topic (counts: TopicCounts). */
  function AddTopics(t: Tally, lowered: string, kws: seq<string>, weight: nat): (r: Tally)
    requires t.Valid()
    ensures r.Valid()
    decreases |kws|
  {
    if kws == [] then t
    else
      var t' := AddTopics(t, lowered, kws[..|kws| - 1], weight);
      var k := kws[|kws| - 1];
      if Contains(lowered, k) then t'.(topics := t'.topics.Add(k, weight)) else t'
  }

  /** ' '.join(s) for a string s: its characters separated by single spaces. */
  function SpacedOut(s: string): string {
    Join(" ", Chars(s))
  }

  /** The characters of s, each as a one-character string. */
  function Chars(s: string): (r: seq<string>)
    ensures |r| == |s| && forall i :: 0 <= i < |s| ==> r[i] == [s[i]]
  {
    seq(|s|, i requires 0 <= i < |s| => [s[i]])
  }

  /** ' '.join over a string puts its characters at the even positions and a space at every odd one. */
  lemma {:induction false} SpacedOutLayout(s: string)
    requires s != []
    ensures |SpacedOut(s)| == 2 * |s| - 1
    ensures forall j :: 0 <= j < |SpacedOut(s)| && j % 2 == 0 ==> SpacedOut(s)[j] == s[j / 2]
    ensures forall j :: 0 <= j < |SpacedOut(s)| && j % 2 == 1 ==> SpacedOut(s)[j] == ' '
    decreases |s|
  {
    var parts := Chars(s);
    if |s| == 1 {
      assert SpacedOut(s) == [s[0]];
    } else {
      SpacedOutLayout(s[1..]);
      assert parts[1..] == Chars(s[1..]);
      var rest := SpacedOut(s[1..]);
      assert SpacedOut(s) == [s[0]] + " " + rest;
      forall j | 2 <= j < |SpacedOut(s)|
        ensures SpacedOut(s)[j] == rest[j - 2]
      {
      }
      forall j | 0 <= j < |SpacedOut(s)| && j % 2 == 0
        ensures SpacedOut(s)[j] == s[j / 2]
      {
        if j >= 2 {
          assert (j - 2) / 2 == j / 2 - 1 && (j - 2) % 2 == 0;
          assert s[j / 2] == s[1..][j / 2 - 1];
        }
      }
      forall j | 0 <= j < |SpacedOut(s)| && j % 2 == 1
        ensures SpacedOut(s)[j] == ' '
      {
        if j >= 2 {
          assert (j - 2) % 2 == 1;
        }
      }
    }
  }

  /** A pattern-B match is spaced out character by character, and its trailing space is stripped. */
  lemma {:induction false} SpacedOutExample(m: string)
    requires m == "Ab "
    ensures Strip(SpacedOut(m)) == "A b"
  {
    SpacedOutAb();
    StripAb();
  }

  lemma {:induction false} SpacedOutAb()
    ensures SpacedOut("Ab ") == "A b  "
  {
    var parts := Chars("Ab ");
    assert parts == ["A", "b", " "];
    assert parts[1..] == ["b", " "];
    assert Join(" ", parts[1..]) == "b" + " " + " ";
    assert Join(" ", parts) == "A" + " " + ("b" + " " + " ");
  }

  lemma {:induction false} StripAb()
    ensures Strip("A b  ") == "A b"
  {
    var t := "A b";
    assert "A b  " == t + "  ";
    assert TrimStart(t + "  ") == t + "  ";
    assert (t + "  ")[..|t| + 1] == t + " ";
    assert (t + " ")[..|t|] == t;
    assert TrimEnd(t) == t;
  }

  /** The project names ' '.join(match).strip() of both patterns, in findall order, pattern A first. */
  function ProjectNames(nlp: Nlp, text: string): seq<string> {
    var a := nlp.projectFirst(text);
    var b := nlp.nameFirst(text);
    seq(|a|, i requires 0 <= i < |a| => Strip(a[i].0 + " " + a[i].1))
      + seq(|b|, i requires 0 <= i < |b| => Strip(SpacedOut(b[i])))
  }

  /** Each non-empty project name adds 1 to its project (counts: ProjectCounts). */
  function AddProjects(t: Tally, names: seq<string>): (r: Tally)
    requires t.Valid()
    ensures r.Valid()
    decreases |names|
  {
    if names == [] then t
    else
      var t' := AddProjects(t, names[..|names| - 1]);
      var n := names[|names| - 1];
      if n != "" then t'.(projects := t'.projects.Add(n, 1)) else t'
  }

  /** email_addr.split('@')[1].split('.')[0], for an address that contains '@'. */
  function RecipientDomain(addr: string): string
    requires '@' in addr
  {
    SplitCharHead(addr, '@');
    Split(Split(addr, "@")[1], ".")[0]
  }

  /**
   * The domain of an address whose first '@' is at index k: the text after
   * that '@' up to, not including, the next '.' or '@' (or to the end).
   */
  lemma {:induction false} RecipientDomainSpec(addr: string, k: nat)
    requires k < |addr| && addr[k] == '@' && '@' !in addr[..k]
    ensures '@' !in RecipientDomain(addr) && '.' !in RecipientDomain(addr)
    ensures StartsWith(addr[k + 1..], RecipientDomain(addr))
    ensures |RecipientDomain(addr)| == |addr[k + 1..]| || addr[k + 1 + |RecipientDomain(addr)|] in ".@"
  {
    var after := addr[k + 1..];
    SecondPieceAfterFirst(addr, k);
    var h1 := Split(after, "@")[0];
    SplitCharHead(after, '@');
    SplitCharHead(h1, '.');
    var d := Split(h1, ".")[0];
    assert d == RecipientDomain(addr);
    NestedPrefix(after, h1, d);
  }

  /** The second '@'-piece of addr is the first '@'-piece of the text after its first '@'. */
  lemma {:induction false} SecondPieceAfterFirst(addr: string, k: nat)
    requires k < |addr| && addr[k] == '@' && '@' !in addr[..k]
    ensures |Split(addr, "@")| >= 2 && Split(addr, "@")[1] == Split(addr[k + 1..], "@")[0]
  {
    SplitCharHead(addr, '@');
    var h0 := Split(addr, "@")[0];
    assert addr[..|h0|] == h0;
    assert forall j :: 0 <= j < |h0| ==> addr[j] == h0[j] != '@';
    assert forall j :: 0 <= j < k ==> addr[j] == addr[..k][j] != '@';
  }

  /** A prefix d of a prefix h1 of `after`, each ending where the given separator (or the text) does. */
  lemma {:induction false} NestedPrefix(after: string, h1: string, d: string)
    requires StartsWith(after, h1) && '@' !in h1 && (|h1| < |after| ==> after[|h1|] == '@')
    requires StartsWith(h1, d) && '.' !in d && (|d| < |h1| ==> h1[|d|] == '.')
    ensures '@' !in d && StartsWith(after, d)
    ensures |d| == |after| || after[|d|] in ".@"
  {
    assert after[..|h1|] == h1;
    assert h1[..|d|] == d;
    assert after[..|d|] == d;
    if |d| < |h1| {
      assert after[|d|] == h1[|d|];
    } else {
      assert d == h1;
    }
  }

  /** The organization a recipient address counts for, if any. */
  function DomainOrg(addr: string): Option<string> {
    if '@' in addr then
      var d := RecipientDomain(addr);
      if d !in ExcludedDomains then Some(Capitalize(d)) else None
    else None
  }

  /** The organizations the addresses count for, one entry per counting address. */
  function DomainOrgs(addrs: seq<string>): seq<string>
    decreases |addrs|
  {
    if addrs == [] then []
    else
      var init := DomainOrgs(addrs[..|addrs| - 1]);
      match DomainOrg(addrs[|addrs| - 1])
      case Some(o) => init + [o]
      case None => init
  }

  /** The counting recipients, in order: exactly the addresses DomainOrg accepts. */
  lemma {:induction false} DomainOrgsSpec(addrs: seq<string>)
    ensures |DomainOrgs(addrs)| <= |addrs|
    ensures forall o :: o in DomainOrgs(addrs) ==> exists a :: a in addrs && '@' in a && DomainOrg(a) == Some(o)
    ensures forall a :: a in addrs && DomainOrg(a).Some? ==> DomainOrg(a).value in DomainOrgs(addrs)
    decreases |addrs|
  {
    if addrs != [] {
      var init, last := addrs[..|addrs| - 1], addrs[|addrs| - 1];
      assert addrs == init + [last];
      DomainOrgsSpec(init);
    }
  }

  /** For local@dom followed by '.', '@' or nothing, the domain is dom. */
  lemma {:induction false} RecipientDomainOf(local: string, dom: string, rest: string)
    requires '@' !in local && '@' !in dom && '.' !in dom
    requires rest == [] || rest[0] in ".@"
    ensures '@' in local + "@" + dom + rest
    ensures RecipientDomain(local + "@" + dom + rest) == dom
  {
    var addr := local + "@" + dom + rest;
    var k := |local|;
    assert addr[k] == '@';
    assert addr[..k] == local;
    RecipientDomainSpec(addr, k);
    var d := RecipientDomain(addr);
    var after := addr[k + 1..];
    assert after == dom + rest;
    assert forall i :: 0 <= i < |dom| ==> after[i] == dom[i] && after[i] !in ".@";
    assert |after| == |dom| || after[|dom|] in ".@";
    assert forall i :: 0 <= i < |d| ==> after[i] == d[i] && d[i] !in ".@";
    assert |d| == |dom|;
    assert d == after[..|dom|] == dom;
  }

  /** The exclusion list is checked against the raw domain, so an upper-case excluded domain still counts. */
  lemma {:induction false} ExclusionBeforeCapitalize(addr: string)
    requires addr == "ann@NVIDIA.com"
    ensures DomainOrg(addr) == Some("Nvidia")
  {
    RecipientDomainOf("ann", "NVIDIA", ".com");
    UpperAddressPieces();
    UpperNotExcluded();
    CapitalizeUpper();
  }

  lemma {:induction false} UpperAddressPieces()
    ensures "ann@NVIDIA.com" == "ann" + "@" + "NVIDIA" + ".com"
  {
  }

  lemma {:induction false} UpperNotExcluded()
    ensures "NVIDIA" !in ExcludedDomains
  {
  }

  lemma {:induction false} CapitalizeUpper()
    ensures Capitalize("NVIDIA") == "Nvidia"
  {
    assert Lower("VIDIA") == "vidia";
  }

  /** Each address adds 1 to the organization its domain names, unless the domain is excluded (counts: DomainCounts). */
  function AddDomains(t: Tally, addrs: seq<string>): (r: Tally)
    requires t.Valid()
    ensures r.Valid()
    decreases |addrs|
  {
    if addrs == [] then t
    else AddDomain(AddDomains(t, addrs[..|addrs| - 1]), addrs[|addrs| - 1])
  }

  /** One address adds 1 to the organization its domain names, unless the domain is excluded. */
  function AddDomain(t: Tally, addr: string): (r: Tally)
    requires t.Valid()
    ensures r.Valid()
  {
    match DomainOrg(addr)
    case Some(o) => t.(organizations := t.organizations.Add(o, 1))
    case None => t
  }

  function Recipients(m: Email): seq<string> {
    m.toRecipients + m.ccRecipients
  }

  /** One calendar event: entity spans (ORG weight 1), topics (weight 1), project patterns (counts: CalendarRecordCounts). */
  function CalendarStep(nlp: Nlp, t: Tally, e: Event): (r: Tally)
    requires t.Valid()
    ensures r.Valid()
  {
    var text := EventText(e);
    AddProjects(AddTopics(AddSpans(t, nlp.tag(text), CalendarWeight), Lower(text), Keywords, CalendarWeight),
                ProjectNames(nlp, text))
  }

  /** One e-mail: entity spans (ORG weight 2), topics (weight 2), recipient domains; no project step (counts: EmailRecordCounts). */
  function EmailStep(nlp: Nlp, t: Tally, m: Email): (r: Tally)
    requires t.Valid()
    ensures r.Valid()
  {
    var text := EmailText(m);
    AddDomains(AddTopics(AddSpans(t, nlp.tag(text), EmailWeight), Lower(text), Keywords, EmailWeight),
               Recipients(m))
  }

  /** _extract_calendar_entities: every event in turn, from empty tables (counts: CalendarTallyCounts). */
  function CalendarTally(nlp: Nlp, events: seq<Event>): (r: Tally)
    ensures r.Valid()
    decreases |events|
  {
    if events == [] then EmptyTally
    else CalendarStep(nlp, CalendarTally(nlp, events[..|events| - 1]), events[|events| - 1])
  }

  /** _extract_email_entities: every e-mail in turn, from empty tables (counts: EmailTallyCounts). */
  function EmailTally(nlp: Nlp, emails: seq<Email>): (r: Tally)
    ensures r.Valid()
    decreases |emails|
  {
    if emails == [] then EmptyTally
    else EmailStep(nlp, EmailTally(nlp, emails[..|emails| - 1]), emails[|emails| - 1])
  }

  // ---------------------------------------------------------------------------
  // Extraction, as the source's loops

  /** The doc.ents loop: tally every ORG and PERSON span. */
  method CountSpans(t0: Tally, spans: seq<Span>, orgWeight: nat) returns (t: Tally)
    requires t0.Valid()
    ensures t == AddSpans(t0, spans, orgWeight)
  {
    t := t0;
    var i := 0;
    while i < |spans|
      invariant 0 <= i <= |spans|
      invariant t == AddSpans(t0, spans[..i], orgWeight)
    {
      var sp := spans[i];
      AddSpansStep(t0, spans, orgWeight, i);
      if sp.category == Org {
        t := t.(organizations := t.organizations.Add(sp.text, orgWeight));
      } else if sp.category == Person {
        t := t.(people := t.people.Add(sp.text, 1));
      }
      i := i + 1;
    }
    assert spans[..|spans|] == spans;
  }

  lemma {:induction false} AddSpansStep(t: Tally, spans: seq<Span>, orgWeight: nat, i: nat)
    requires t.Valid() && i < |spans|
    ensures AddSpans(t, spans[..i + 1], orgWeight) == AddSpan(AddSpans(t, spans[..i], orgWeight), spans[i], orgWeight)
  {
    assert spans[..i + 1][..i] == spans[..i];
  }

  /** One more keyword: its topic gains `weight` when the text contains it. */
  lemma {:induction false} AddTopicsStep(t: Tally, lowered: string, kws: seq<string>, weight: nat, i: nat)
    requires t.Valid() && i < |kws|
    ensures var prev := AddTopics(t, lowered, kws[..i], weight);
      AddTopics(t, lowered, kws[..i + 1], weight) ==
        if Contains(lowered, kws[i]) then prev.(topics := prev.topics.Add(kws[i], weight)) else prev
  {
    assert kws[..i + 1][..i] == kws[..i];
  }

  /** The tech_keywords loop over the lower-cased text; `keywords` is the keyword list it walks. */
  method CountTopics(t0: Tally, lowered: string, keywords: seq<string>, weight: nat) returns (t: Tally)
    requires t0.Valid()
    ensures t == AddTopics(t0, lowered, keywords, weight)
  {
    t := t0;
    var i := 0;
    while i < |keywords|
      invariant 0 <= i <= |keywords|
      invariant t == AddTopics(t0, lowered, keywords[..i], weight)
    {
      var keyword := keywords[i];
      AddTopicsStep(t0, lowered, keywords, weight, i);
      if Contains(lowered, keyword) {
        t := t.(topics := t.topics.Add(keyword, weight));
      }
      i := i + 1;
    }
    assert keywords[..|keywords|] == keywords;
  }

  /** Tallying a + b is tallying a, then b. */
  lemma {:induction false} AddProjectsConcat(t: Tally, a: seq<string>, b: seq<string>)
    requires t.Valid()
    ensures AddProjects(t, a + b) == AddProjects(AddProjects(t, a), b)
    decreases |b|
  {
    if b == [] {
      assert a + b == a;
    } else {
      assert (a + b)[..|a + b| - 1] == a + b[..|b| - 1];
      AddProjectsConcat(t, a, b[..|b| - 1]);
    }
  }

  lemma {:induction false} AddProjectsStep(t: Tally, names: seq<string>, i: nat)
    requires t.Valid() && i < |names|
    ensures var prev := AddProjects(t, names[..i]);
      AddProjects(t, names[..i + 1]) ==
        if names[i] != "" then prev.(projects := prev.projects.Add(names[i], 1)) else prev
  {
    assert names[..i + 1][..i] == names[..i];
  }

  lemma {:induction false} AddDomainsStep(t: Tally, addrs: seq<string>, i: nat)
    requires t.Valid() && i < |addrs|
    ensures AddDomains(t, addrs[..i + 1]) == AddDomain(AddDomains(t, addrs[..i]), addrs[i])
  {
    assert addrs[..i + 1][..i] == addrs[..i];
  }

  /** The inner loop over one pattern's matches, each already joined and stripped. */
  method CountNames(t0: Tally, names: seq<string>) returns (t: Tally)
    requires t0.Valid()
    ensures t == AddProjects(t0, names)
  {
    t := t0;
    var i := 0;
    while i < |names|
      invariant 0 <= i <= |names|
      invariant t == AddProjects(t0, names[..i])
    {
      var projectName := names[i];
      AddProjectsStep(t0, names, i);
      if projectName != "" {
        t := t.(projects := t.projects.Add(projectName, 1));
      }
      i := i + 1;
    }
    assert names[..|names|] == names;
  }

  /** The project_patterns loop: every findall match of pattern A, then of pattern B. */
  method CountProjects(t0: Tally, nlp: Nlp, text: string) returns (t: Tally)
    requires t0.Valid()
    ensures t == AddProjects(t0, ProjectNames(nlp, text))
  {
    var pairs := nlp.projectFirst(text);
    var singles := nlp.nameFirst(text);
    var namesA := seq(|pairs|, i requires 0 <= i < |pairs| => Strip(pairs[i].0 + " " + pairs[i].1));
    var namesB := seq(|singles|, i requires 0 <= i < |singles| => Strip(SpacedOut(singles[i])));
    t := CountNames(t0, namesA);
    t := CountNames(t, namesB);
    assert ProjectNames(nlp, text) == namesA + namesB;
    AddProjectsConcat(t0, namesA, namesB);
  }

  /** The recipients loop: every to/cc address with '@' whose domain is not excluded. */
  method CountDomains(t0: Tally, addrs: seq<string>) returns (t: Tally)
    requires t0.Valid()
    ensures t == AddDomains(t0, addrs)
  {
    t := t0;
    var i := 0;
    while i < |addrs|
      invariant 0 <= i <= |addrs|
      invariant t == AddDomains(t0, addrs[..i])
    {
      AddDomainsStep(t0, addrs, i);
      t := CountRecipient(t, addrs[i]);
      i := i + 1;
    }
    assert addrs[..|addrs|] == addrs;
  }

  /** One pass of the recipients loop: an address with '@' whose domain is not excluded counts once. */
  method CountRecipient(t0: Tally, emailAddr: string) returns (t: Tally)
    requires t0.Valid()
    ensures t == AddDomain(t0, emailAddr)
  {
    t := t0;
    if '@' in emailAddr {
      var domain := RecipientDomain(emailAddr);
      if domain !in ExcludedDomains {
        t := t.(organizations := t.organizations.Add(Capitalize(domain), 1));
      }
    }
  }

  /** _extract_calendar_entities. */
  method ExtractCalendarEntities(nlp: Nlp, events: seq<Event>) returns (t: Tally)
    ensures t == CalendarTally(nlp, events)
  {
    t := EmptyTally;
    var i := 0;
    while i < |events|
      invariant 0 <= i <= |events|
      invariant t == CalendarTally(nlp, events[..i])
    {
      var event := events[i];
      var text := event.subject + " " + event.body;
      t := CountSpans(t, nlp.tag(text), CalendarWeight);
      t := CountTopics(t, Lower(text), Keywords, CalendarWeight);
      t := CountProjects(t, nlp, text);
      assert events[..i + 1][..i] == events[..i];
      i := i + 1;
    }
    assert events[..|events|] == events;
  }

  /** _extract_email_entities. */
  method ExtractEmailEntities(nlp: Nlp, emails: seq<Email>) returns (t: Tally)
    ensures t == EmailTally(nlp, emails)
  {
    t := EmptyTally;
    var i := 0;
    while i < |emails|
      invariant 0 <= i <= |emails|
      invariant t == EmailTally(nlp, emails[..i])
    {
      var email := emails[i];
      var text := email.subject + " " + email.bodyPreview;
      t := CountSpans(t, nlp.tag(text), EmailWeight);
      t := CountTopics(t, Lower(text), Keywords, EmailWeight);
      t := CountDomains(t, email.toRecipients + email.ccRecipients);
      assert emails[..i + 1][..i] == emails[..i];
      i := i + 1;
    }
    assert emails[..|emails|] == emails;
  }

  // ---------------------------------------------------------------------------
  // What each record adds

  /** The four counts of one key, one per table. */
  datatype Hits = Hits(organizations: nat, topics: nat, projects: nat, people: nat) {
    function Plus(o: Hits): Hits {
      Hits(organizations + o.organizations, topics + o.topics, projects + o.projects, people + o.people)
    }
  }

  const NoHits: Hits := Hits(0, 0, 0, 0)

  lemma {:induction false} PlusAssoc(x: Hits, y: Hits, z: Hits)
    ensures x.Plus(y).Plus(z) == x.Plus(y.Plus(z))
    ensures x.Plus(NoHits) == x
  {
  }

  function CountsOf(t: Tally, k: string): Hits {
    Hits(t.organizations.Get(k), t.topics.Get(k), t.projects.Get(k), t.people.Get(k))
  }

  /** 1 when k is a keyword found in the lower-cased text, else 0. */
  function TopicHit(text: string, k: string): nat {
    if k in Keywords && Contains(Lower(text), k) then 1 else 0
  }

  /** What one calendar event adds for key k: each ORG span 1, each PERSON span 1, topic 1, each project match 1. */
  function CalendarHits(nlp: Nlp, e: Event, k: string): Hits {
    var text := EventText(e);
    var spans := multiset(nlp.tag(text));
    Hits(spans[Span(k, Org)], TopicHit(text, k),
         if k == "" then 0 else multiset(ProjectNames(nlp, text))[k],
         spans[Span(k, Person)])
  }

  /** What one e-mail adds for key k: each ORG span 2, each counting recipient 1, topic 2, each PERSON span 1, no projects. */
  function EmailHits(nlp: Nlp, m: Email, k: string): Hits {
    var text := EmailText(m);
    var spans := multiset(nlp.tag(text));
    Hits(EmailWeight * spans[Span(k, Org)] + multiset(DomainOrgs(Recipients(m)))[k],
         EmailWeight * TopicHit(text, k), 0, spans[Span(k, Person)])
  }

  /** Assembles a four-table equation from its four components. */
  lemma {:induction false} CountsFromParts(t: Tally, x: Tally, k: string, h: Hits)
    requires x.organizations.Get(k) == t.organizations.Get(k) + h.organizations
    requires x.topics.Get(k) == t.topics.Get(k) + h.topics
    requires x.projects.Get(k) == t.projects.Get(k) + h.projects
    requires x.people.Get(k) == t.people.Get(k) + h.people
    ensures CountsOf(x, k) == CountsOf(t, k).Plus(h)
  {
  }

  lemma {:induction false} MulSucc(w: nat, n: nat)
    ensures w * (n + 1) == w * n + w
  {
  }

  /** One span: an ORG span of text k adds w to organizations[k], a PERSON span of text k adds 1 to people[k]. */
  lemma {:induction false} AddSpanCounts(t: Tally, sp: Span, w: nat, k: string)
    requires t.Valid()
    ensures AddSpan(t, sp, w).organizations.Get(k) == t.organizations.Get(k) + (if sp == Span(k, Org) then w else 0)
    ensures AddSpan(t, sp, w).people.Get(k) == t.people.Get(k) + (if sp == Span(k, Person) then 1 else 0)
    ensures AddSpan(t, sp, w).topics == t.topics && AddSpan(t, sp, w).projects == t.projects
  {
    match sp.category
    case Org =>
      assert AddSpan(t, sp, w) == t.(organizations := t.organizations.Add(sp.text, w));
    case Person =>
      assert AddSpan(t, sp, w) == t.(people := t.people.Add(sp.text, 1));
    case OtherLabel =>
      assert AddSpan(t, sp, w) == t;
  }

  /** The entity pass: each ORG span of text k adds w to organizations, each PERSON span 1 to people. */
  lemma {:induction false} SpanCounts(t: Tally, spans: seq<Span>, w: nat, k: string)
    requires t.Valid()
    ensures AddSpans(t, spans, w).organizations.Get(k) == t.organizations.Get(k) + w * multiset(spans)[Span(k, Org)]
    ensures AddSpans(t, spans, w).people.Get(k) == t.people.Get(k) + multiset(spans)[Span(k, Person)]
    ensures AddSpans(t, spans, w).topics == t.topics && AddSpans(t, spans, w).projects == t.projects
    decreases |spans|
  {
    if spans != [] {
      var init, last := spans[..|spans| - 1], spans[|spans| - 1];
      SpanCounts(t, init, w, k);
      var prev := AddSpans(t, init, w);
      assert AddSpans(t, spans, w) == AddSpan(prev, last, w);
      AddSpanCounts(prev, last, w, k);
      MultisetSnoc(spans, Span(k, Org));
      MultisetSnoc(spans, Span(k, Person));
      MulSucc(w, multiset(init)[Span(k, Org)]);
    }
  }

  /** The keyword pass: a keyword among kws found in the text adds w to topics; nothing else changes. */
  lemma {:induction false} TopicCounts(t: Tally, lowered: string, kws: seq<string>, w: nat, k: string)
    requires t.Valid() && Distinct(kws)
    ensures AddTopics(t, lowered, kws, w).topics.Get(k) ==
      t.topics.Get(k) + (if k in kws && Contains(lowered, k) then w else 0)
    ensures AddTopics(t, lowered, kws, w).organizations == t.organizations
    ensures AddTopics(t, lowered, kws, w).projects == t.projects && AddTopics(t, lowered, kws, w).people == t.people
    decreases |kws|
  {
    if kws != [] {
      var init, last := kws[..|kws| - 1], kws[|kws| - 1];
      assert Distinct(init);
      TopicCounts(t, lowered, init, w, k);
      assert k in kws <==> k in init || k == last;
      if k == last {
        assert k !in init;
      }
    }
  }

  /** The project pass: each occurrence of a non-empty name adds 1 to projects; nothing else changes. */
  lemma {:induction false} ProjectCounts(t: Tally, names: seq<string>, k: string)
    requires t.Valid()
    ensures AddProjects(t, names).projects.Get(k) == t.projects.Get(k) + (if k == "" then 0 else multiset(names)[k])
    ensures AddProjects(t, names).organizations == t.organizations
    ensures AddProjects(t, names).topics == t.topics && AddProjects(t, names).people == t.people
    decreases |names|
  {
    if names != [] {
      var init, last := names[..|names| - 1], names[|names| - 1];
      assert names == init + [last];
      ProjectCounts(t, init, k);
    }
  }

  /** The recipient pass: each counting recipient adds 1 to its organization; nothing else changes. */
  lemma {:induction false} DomainCounts(t: Tally, addrs: seq<string>, k: string)
    requires t.Valid()
    ensures AddDomains(t, addrs).organizations.Get(k) == t.organizations.Get(k) + multiset(DomainOrgs(addrs))[k]
    ensures AddDomains(t, addrs).topics == t.topics && AddDomains(t, addrs).projects == t.projects
    ensures AddDomains(t, addrs).people == t.people
    decreases |addrs|
  {
    if addrs != [] {
      DomainCounts(t, addrs[..|addrs| - 1], k);
    }
  }

  /** The weight law for one calendar event. */
  lemma {:induction false} CalendarRecordCounts(nlp: Nlp, t: Tally, e: Event, k: string)
    requires t.Valid()
    ensures CountsOf(CalendarStep(nlp, t, e), k) == CountsOf(t, k).Plus(CalendarHits(nlp, e, k))
  {
    var text := EventText(e);
    var t1 := AddSpans(t, nlp.tag(text), CalendarWeight);
    var t2 := AddTopics(t1, Lower(text), Keywords, CalendarWeight);
    SpanCounts(t, nlp.tag(text), CalendarWeight, k);
    KeywordsDistinct();
    TopicCounts(t1, Lower(text), Keywords, CalendarWeight, k);
    ProjectCounts(t2, ProjectNames(nlp, text), k);
    CountsFromParts(t, CalendarStep(nlp, t, e), k, CalendarHits(nlp, e, k));
  }

  /** The weight law for one e-mail. */
  lemma {:induction false} EmailRecordCounts(nlp: Nlp, t: Tally, m: Email, k: string)
    requires t.Valid()
    ensures CountsOf(EmailStep(nlp, t, m), k) == CountsOf(t, k).Plus(EmailHits(nlp, m, k))
    ensures EmailStep(nlp, t, m).projects == t.projects
  {
    var text := EmailText(m);
    var t1 := AddSpans(t, nlp.tag(text), EmailWeight);
    var t2 := AddTopics(t1, Lower(text), Keywords, EmailWeight);
    SpanCounts(t, nlp.tag(text), EmailWeight, k);
    KeywordsDistinct();
    TopicCounts(t1, Lower(text), Keywords, EmailWeight, k);
    DomainCounts(t2, Recipients(m), k);
    CountsFromParts(t, EmailStep(nlp, t, m), k, EmailHits(nlp, m, k));
  }

  function SumCalendarHits(nlp: Nlp, events: seq<Event>, k: string): Hits
    decreases |events|
  {
    if events == [] then NoHits
    else SumCalendarHits(nlp, events[..|events| - 1], k).Plus(CalendarHits(nlp, events[|events| - 1], k))
  }

  function SumEmailHits(nlp: Nlp, emails: seq<Email>, k: string): Hits
    decreases |emails|
  {
    if emails == [] then NoHits
    else SumEmailHits(nlp, emails[..|emails| - 1], k).Plus(EmailHits(nlp, emails[|emails| - 1], k))
  }

  /** Every count of the calendar tally is the sum of what each event adds. */
  lemma {:induction false} CalendarTallyCounts(nlp: Nlp, events: seq<Event>, k: string)
    ensures CountsOf(CalendarTally(nlp, events), k) == SumCalendarHits(nlp, events, k)
    decreases |events|
  {
    if events != [] {
      var init := events[..|events| - 1];
      CalendarTallyCounts(nlp, init, k);
      CalendarRecordCounts(nlp, CalendarTally(nlp, init), events[|events| - 1], k);
    }
  }

  /** Every count of the e-mail tally is the sum of what each e-mail adds. */
  lemma {:induction false} EmailTallyCounts(nlp: Nlp, emails: seq<Email>, k: string)
    ensures CountsOf(EmailTally(nlp, emails), k) == SumEmailHits(nlp, emails, k)
    decreases |emails|
  {
    if emails != [] {
      var init := emails[..|emails| - 1];
      EmailTallyCounts(nlp, init, k);
      EmailRecordCounts(nlp, EmailTally(nlp, init), emails[|emails| - 1], k);
    }
  }

  /** E-mails never contribute projects: the e-mail tally's projects table stays empty. */
  lemma {:induction false} EmailTallyHasNoProjects(nlp: Nlp, emails: seq<Email>)
    ensures EmailTally(nlp, emails).projects == Empty
    decreases |emails|
  {
    if emails != [] {
      EmailTallyHasNoProjects(nlp, emails[..|emails| - 1]);
      EmailRecordCounts(nlp, EmailTally(nlp, emails[..|emails| - 1]), emails[|emails| - 1], "");
    }
  }

  lemma {:induction false} SumCalendarHitsConcat(nlp: Nlp, a: seq<Event>, b: seq<Event>, k: string)
    ensures SumCalendarHits(nlp, a + b, k) == SumCalendarHits(nlp, a, k).Plus(SumCalendarHits(nlp, b, k))
    decreases |b|
  {
    if b != [] {
      var init, last := b[..|b| - 1], b[|b| - 1];
      assert (a + b)[..|a + b| - 1] == a + init;
      assert (a + b)[|a + b| - 1] == last;
      var x, y, z := SumCalendarHits(nlp, a, k), SumCalendarHits(nlp, init, k), CalendarHits(nlp, last, k);
      calc {
        SumCalendarHits(nlp, a + b, k);
        SumCalendarHits(nlp, a + init, k).Plus(z);
        { SumCalendarHitsConcat(nlp, a, init, k); }
        x.Plus(y).Plus(z);
        { PlusAssoc(x, y, z); }
        x.Plus(y.Plus(z));
      }
    } else {
      assert a + b == a;
      PlusAssoc(SumCalendarHits(nlp, a, k), NoHits, NoHits);
    }
  }

  lemma {:induction false} SumEmailHitsConcat(nlp: Nlp, a: seq<Email>, b: seq<Email>, k: string)
    ensures SumEmailHits(nlp, a + b, k) == SumEmailHits(nlp, a, k).Plus(SumEmailHits(nlp, b, k))
    decreases |b|
  {
    if b != [] {
      var init, last := b[..|b| - 1], b[|b| - 1];
      assert (a + b)[..|a + b| - 1] == a + init;
      assert (a + b)[|a + b| - 1] == last;
      var x, y, z := SumEmailHits(nlp, a, k), SumEmailHits(nlp, init, k), EmailHits(nlp, last, k);
      calc {
        SumEmailHits(nlp, a + b, k);
        SumEmailHits(nlp, a + init, k).Plus(z);
        { SumEmailHitsConcat(nlp, a, init, k); }
        x.Plus(y).Plus(z);
        { PlusAssoc(x, y, z); }
        x.Plus(y.Plus(z));
      }
    } else {
      assert a + b == a;
      PlusAssoc(SumEmailHits(nlp, a, k), NoHits, NoHits);
    }
  }

  // ---------------------------------------------------------------------------
  // Combining

  /** A fresh Counter updated with a, then with b (counts: CombineCountersSum). */
  function CombineCounters(a: Counter, b: Counter): (r: Counter)
    requires a.Valid() && b.Valid()
    ensures r.Valid()
  {
    Merge(Merge(Empty, a), b)
  }

  /** _combine_entities: the four tables combined one by one (counts: CombineCounts). */
  function Combine(cal: Tally, mail: Tally): (r: Tally)
    requires cal.Valid() && mail.Valid()
    ensures r.Valid()
  {
    Tally(CombineCounters(cal.organizations, mail.organizations),
          CombineCounters(cal.topics, mail.topics),
          CombineCounters(cal.projects, mail.projects),
          CombineCounters(cal.people, mail.people))
  }

  lemma {:induction false} CombineCountersSum(a: Counter, b: Counter, k: string)
    requires a.Valid() && b.Valid()
    ensures CombineCounters(a, b).Get(k) == a.Get(k) + b.Get(k)
    ensures k in CombineCounters(a, b).keys <==> k in a.keys || k in b.keys
  {
    MergeEmptyLeft(a);
    MergeCounts(a, b, k);
  }

  /** Every combined count is the calendar count plus the e-mail count; no key is lost. */
  lemma {:induction false} CombineCounts(cal: Tally, mail: Tally, k: string)
    requires cal.Valid() && mail.Valid()
    ensures CountsOf(Combine(cal, mail), k) == CountsOf(cal, k).Plus(CountsOf(mail, k))
    ensures k in Combine(cal, mail).organizations.keys <==> k in cal.organizations.keys || k in mail.organizations.keys
  {
    CombineCountersSum(cal.organizations, mail.organizations, k);
    CombineCountersSum(cal.topics, mail.topics, k);
    CombineCountersSum(cal.projects, mail.projects, k);
    CombineCountersSum(cal.people, mail.people, k);
    CountsFromParts(cal, Combine(cal, mail), k, CountsOf(mail, k));
  }

  /** Combining with an empty tally, on either side, returns the other tally unchanged. */
  lemma {:induction false} CombineWithEmpty(t: Tally)
    requires t.Valid()
    ensures Combine(t, EmptyTally) == t
    ensures Combine(EmptyTally, t) == t
  {
    MergeEmptyLeft(t.organizations);
    MergeEmptyLeft(t.topics);
    MergeEmptyLeft(t.projects);
    MergeEmptyLeft(t.people);
    assert Merge(Empty, Empty) == Empty;
  }

  /** Additivity: tallying two batches separately and combining gives the counts of tallying them together. */
  lemma {:induction false} CalendarAdditive(nlp: Nlp, a: seq<Event>, b: seq<Event>, k: string)
    ensures CountsOf(Combine(CalendarTally(nlp, a), CalendarTally(nlp, b)), k) == CountsOf(CalendarTally(nlp, a + b), k)
  {
    CombineCounts(CalendarTally(nlp, a), CalendarTally(nlp, b), k);
    CalendarTallyCounts(nlp, a, k);
    CalendarTallyCounts(nlp, b, k);
    CalendarTallyCounts(nlp, a + b, k);
    SumCalendarHitsConcat(nlp, a, b, k);
  }

  lemma {:induction false} EmailAdditive(nlp: Nlp, a: seq<Email>, b: seq<Email>, k: string)
    ensures CountsOf(Combine(EmailTally(nlp, a), EmailTally(nlp, b)), k) == CountsOf(EmailTally(nlp, a + b), k)
  {
    CombineCounts(EmailTally(nlp, a), EmailTally(nlp, b), k);
    EmailTallyCounts(nlp, a, k);
    EmailTallyCounts(nlp, b, k);
    EmailTallyCounts(nlp, a + b, k);
    SumEmailHitsConcat(nlp, a, b, k);
  }

  // ---------------------------------------------------------------------------
  // Context search

  /** "Meeting: <subject>" for every event whose lower-cased subject contains `el`, in order. */
  function EventSnippets(el: string, events: seq<Event>): (r: seq<string>)
    ensures |r| <= |events|
    decreases |events|
  {
    if events == [] then []
    else
      var init := EventSnippets(el, events[..|events| - 1]);
      var e := events[|events| - 1];
      if Contains(Lower(e.subject), el) then init + ["Meeting: " + e.subject] else init
  }

  /** The first sentence containing `el` (case-insensitively), stripped. */
  function FirstSentence(el: string, sentences: seq<string>): Option<string>
    decreases |sentences|
  {
    if sentences == [] then None
    else if Contains(Lower(sentences[0]), el) then Some(Strip(sentences[0]))
    else FirstSentence(el, sentences[1..])
  }

  /** The one snippet an e-mail can give: only when its subject or preview mentions `el`. */
  function EmailSnippet(el: string, m: Email): Option<string> {
    if Contains(Lower(m.subject), el) || Contains(Lower(m.bodyPreview), el)
    then FirstSentence(el, Split(m.bodyPreview, "."))
    else None
  }

  function EmailSnippets(el: string, emails: seq<Email>): (r: seq<string>)
    decreases |emails|
  {
    if emails == [] then []
    else
      var init := EmailSnippets(el, emails[..|emails| - 1]);
      match EmailSnippet(el, emails[|emails| - 1])
      case Some(s) => init + [s]
      case None => init
  }

  /** _find_context: event snippets of the first 50 events, then e-mail snippets of the first 50 e-mails, at most 5. */
  function Context(entity: string, events: seq<Event>, emails: seq<Email>): (r: seq<string>)
    ensures |r| <= MaxSnippets
  {
    var el := Lower(entity);
    Take(EventSnippets(el, Take(events, ContextWindow)) + EmailSnippets(el, Take(emails, ContextWindow)), MaxSnippets)
  }

  /** The loop over the recent events of _find_context. */
  method MeetingSnippets(entityLower: string, recentEvents: seq<Event>) returns (context: seq<string>)
    ensures context == EventSnippets(entityLower, recentEvents)
  {
    context := [];
    var i := 0;
    while i < |recentEvents|
      invariant 0 <= i <= |recentEvents|
      invariant context == EventSnippets(entityLower, recentEvents[..i])
    {
      var subject := recentEvents[i].subject;
      if Contains(Lower(subject), entityLower) {
        context := context + ["Meeting: " + subject];
      }
      assert recentEvents[..i + 1][..i] == recentEvents[..i];
      i := i + 1;
    }
    assert recentEvents[..|recentEvents|] == recentEvents;
  }

  /** The body of the e-mail loop of _find_context: the first matching sentence, if the e-mail mentions the entity. */
  method SentenceSnippet(entityLower: string, email: Email) returns (snippet: Option<string>)
    ensures snippet == EmailSnippet(entityLower, email)
  {
    snippet := None;
    if Contains(Lower(email.subject), entityLower) || Contains(Lower(email.bodyPreview), entityLower) {
      var sentences := Split(email.bodyPreview, ".");
      var k := 0;
      while k < |sentences|
        invariant 0 <= k <= |sentences|
        invariant snippet == None
        invariant FirstSentence(entityLower, sentences) == FirstSentence(entityLower, sentences[k..])
      {
        if Contains(Lower(sentences[k]), entityLower) {
          snippet := Some(Strip(sentences[k]));
          break;
        }
        assert sentences[k..][1..] == sentences[k + 1..];
        k := k + 1;
      }
    }
  }

  /** The loop over the recent e-mails of _find_context. */
  method MailSnippets(entityLower: string, recentEmails: seq<Email>) returns (context: seq<string>)
    ensures context == EmailSnippets(entityLower, recentEmails)
  {
    context := [];
    var j := 0;
    while j < |recentEmails|
      invariant 0 <= j <= |recentEmails|
      invariant context == EmailSnippets(entityLower, recentEmails[..j])
    {
      var snippet := SentenceSnippet(entityLower, recentEmails[j]);
      if snippet.Some? {
        context := context + [snippet.value];
      }
      assert recentEmails[..j + 1][..j] == recentEmails[..j];
      j := j + 1;
    }
    assert recentEmails[..|recentEmails|] == recentEmails;
  }

  /** _find_context: event snippets, then e-mail snippets, cut to the first five. */
  method FindContext(entity: string, events: seq<Event>, emails: seq<Email>) returns (context: seq<string>)
    ensures context == Context(entity, events, emails)
  {
    var entityLower := Lower(entity);
    var fromEvents := MeetingSnippets(entityLower, Take(events, ContextWindow));
    var fromEmails := MailSnippets(entityLower, Take(emails, ContextWindow));
    context := Take(fromEvents + fromEmails, MaxSnippets);
  }

  /** Event snippets are exactly "Meeting: " + the subject of each matching event. */
  lemma {:induction false} EventSnippetsSpec(el: string, events: seq<Event>)
    ensures forall s :: s in EventSnippets(el, events) ==>
      exists i :: 0 <= i < |events| && Contains(Lower(events[i].subject), el) && s == "Meeting: " + events[i].subject
    ensures forall i :: 0 <= i < |events| && Contains(Lower(events[i].subject), el) ==>
      "Meeting: " + events[i].subject in EventSnippets(el, events)
    decreases |events|
  {
    if events != [] {
      var init := events[..|events| - 1];
      EventSnippetsSpec(el, init);
      forall i | 0 <= i < |init|
        ensures events[i] == init[i]
      {
      }
    }
  }

  /** An e-mail gives at most one snippet. */
  lemma {:induction false} EmailSnippetsAtMostOne(el: string, emails: seq<Email>)
    ensures |EmailSnippets(el, emails)| <= |emails|
    decreases |emails|
  {
    if emails != [] {
      EmailSnippetsAtMostOne(el, emails[..|emails| - 1]);
    }
  }

  /** The snippets of two runs of e-mails are those of the first run followed by those of the second. */
  lemma {:induction false} EmailSnippetsConcat(el: string, a: seq<Email>, b: seq<Email>)
    ensures EmailSnippets(el, a + b) == EmailSnippets(el, a) + EmailSnippets(el, b)
    decreases |b|
  {
    if b != [] {
      var init := b[..|b| - 1];
      assert (a + b)[..|a + b| - 1] == a + init;
      assert (a + b)[|a + b| - 1] == b[|b| - 1];
      EmailSnippetsConcat(el, a, init);
    } else {
      assert a + b == a;
    }
  }

  /** One e-mail gives at most one snippet: the first mentioning sentence of its preview, and only on a match. */
  lemma {:induction false} EmailSnippetOfOne(el: string, m: Email)
    ensures |EmailSnippets(el, [m])| <= 1
    ensures EmailSnippets(el, [m]) != [] <==> EmailSnippet(el, m).Some?
    ensures EmailSnippet(el, m).Some? ==> EmailSnippets(el, [m]) == [EmailSnippet(el, m).value]
  {
    assert [m][..0] == [];
  }

  /** FirstSentence picks the stripped first sentence that mentions `el`, and finds none only when none does. */
  lemma {:induction false} FirstSentenceSpec(el: string, sentences: seq<string>)
    ensures FirstSentence(el, sentences).None? <==> forall i :: 0 <= i < |sentences| ==> !Contains(Lower(sentences[i]), el)
    ensures FirstSentence(el, sentences).Some? ==>
      exists i :: 0 <= i < |sentences| && Contains(Lower(sentences[i]), el) && FirstSentence(el, sentences).value == Strip(sentences[i])
        && forall j :: 0 <= j < i ==> !Contains(Lower(sentences[j]), el)
  {
    FirstSentenceNone(el, sentences);
    if FirstSentence(el, sentences).Some? {
      var i := FirstSentenceSome(el, sentences);
    }
  }

  /** FirstSentence finds nothing exactly when no sentence mentions `el`. */
  lemma {:induction false} FirstSentenceNone(el: string, sentences: seq<string>)
    ensures FirstSentence(el, sentences).None? <==> forall i :: 0 <= i < |sentences| ==> !Contains(Lower(sentences[i]), el)
    decreases |sentences|
  {
    if sentences != [] {
      var rest := sentences[1..];
      FirstSentenceNone(el, rest);
      assert forall i :: 0 <= i < |rest| ==> rest[i] == sentences[i + 1];
      if !Contains(Lower(sentences[0]), el) {
        assert FirstSentence(el, sentences) == FirstSentence(el, rest);
        assert (forall i :: 0 <= i < |sentences| ==> !Contains(Lower(sentences[i]), el))
          <==> (forall i :: 0 <= i < |rest| ==> !Contains(Lower(rest[i]), el)) by {
          forall i | 0 < i < |sentences|
            ensures sentences[i] == rest[i - 1]
          {
          }
        }
      }
    }
  }

  /** A found sentence is at the first index whose sentence mentions `el`. */
  lemma {:induction false} FirstSentenceSome(el: string, sentences: seq<string>) returns (i: nat)
    requires FirstSentence(el, sentences).Some?
    ensures i < |sentences| && Contains(Lower(sentences[i]), el) && FirstSentence(el, sentences).value == Strip(sentences[i])
    ensures forall j :: 0 <= j < i ==> !Contains(Lower(sentences[j]), el)
    decreases |sentences|
  {
    assert sentences != [];
    if Contains(Lower(sentences[0]), el) {
      i := 0;
    } else {
      var rest := sentences[1..];
      assert FirstSentence(el, sentences) == FirstSentence(el, rest);
      var k := FirstSentenceSome(el, rest);
      i := k + 1;
      assert sentences[i] == rest[k];
      forall j | 0 <= j < i
        ensures !Contains(Lower(sentences[j]), el)
      {
        if j > 0 {
          assert sentences[j] == rest[j - 1];
        }
      }
    }
  }

  /** A sentence of the preview that mentions `el` means the preview mentions it. */
  lemma {:induction false} SentenceInPreview(el: string, preview: string, i: nat)
    requires i < |Split(preview, ".")| && Contains(Lower(Split(preview, ".")[i]), el)
    ensures Contains(Lower(preview), el)
  {
    var a, b := SplitPieceInfix(preview, ".", i);
    var sentence := Split(preview, ".")[i];
    LowerConcat(a + sentence, b);
    LowerConcat(a, sentence);
    ContainsInfix(Lower(a), Lower(sentence), Lower(b), el);
  }

  /** An e-mail whose subject mentions the entity but whose preview does not gives no snippet. */
  lemma {:induction false} SubjectOnlyMatchGivesNothing(el: string, m: Email)
    requires !Contains(Lower(m.bodyPreview), el)
    ensures EmailSnippet(el, m) == None
  {
    var sentences := Split(m.bodyPreview, ".");
    FirstSentenceSpec(el, sentences);
    forall i | 0 <= i < |sentences|
      ensures !Contains(Lower(sentences[i]), el)
    {
      if Contains(Lower(sentences[i]), el) {
        SentenceInPreview(el, m.bodyPreview, i);
      }
    }
  }

  // ---------------------------------------------------------------------------
  // Ranking

  function Frequency(t: TopItem): nat {
    t.frequency
  }

  /** The candidates of top_orgs that have context, in top_orgs order. */
  function Candidates(top: seq<(string, nat)>, events: seq<Event>, emails: seq<Email>): (r: seq<TopItem>)
    ensures |r| <= |top|
    decreases |top|
  {
    if top == [] then []
    else
      var init := Candidates(top[..|top| - 1], events, emails);
      var (org, count) := top[|top| - 1];
      var context := Context(org, events, emails);
      if context != [] then init + [TopItem(org, "customer", count, context)] else init
  }

  /** _extract_top_items, as a function of the combined organizations table. */
  function TopItemsOf(orgs: Counter, events: seq<Event>, emails: seq<Email>): seq<TopItem>
    requires orgs.Valid()
  {
    Take(SortDesc(Candidates(MostCommon(orgs, CandidatePool), events, emails), Frequency), TopN)
  }

  method ExtractTopItems(entities: Tally, events: seq<Event>, emails: seq<Email>) returns (topItems: seq<TopItem>)
    requires entities.Valid()
    ensures topItems == TopItemsOf(entities.organizations, events, emails)
  {
    topItems := [];
    var topOrgs := MostCommon(entities.organizations, CandidatePool);
    var i := 0;
    while i < |topOrgs|
      invariant 0 <= i <= |topOrgs|
      invariant topItems == Candidates(topOrgs[..i], events, emails)
    {
      var (org, count) := topOrgs[i];
      var context := FindContext(org, events, emails);
      if context != [] {
        topItems := topItems + [TopItem(org, "customer", count, context)];
      }
      assert topOrgs[..i + 1][..i] == topOrgs[..i];
      i := i + 1;
    }
    assert topOrgs[..|topOrgs|] == topOrgs;
    topItems := SortDesc(topItems, Frequency);
    topItems := Take(topItems, TopN);
  }

  /** Every candidate is an organization of `top` with its count and its (non-empty) context, kept in `top`'s order. */
  lemma {:induction false} CandidatesFrom(top: seq<(string, nat)>, events: seq<Event>, emails: seq<Email>)
    ensures forall it :: it in Candidates(top, events, emails) ==>
      && it.kind == "customer"
      && (it.name, it.frequency) in top
      && it.context == Context(it.name, events, emails)
      && it.context != []
    ensures SortedDesc(top, Count) ==> SortedDesc(Candidates(top, events, emails), Frequency)
  {
    CandidatesMembers(top, events, emails);
    if SortedDesc(top, Count) {
      CandidatesSorted(top, events, emails);
    }
  }

  /** Conversely, every organization of `top` whose context is not empty becomes a candidate, with its count and context. */
  lemma {:induction false} CandidatesComplete(top: seq<(string, nat)>, events: seq<Event>, emails: seq<Email>)
    ensures forall i :: 0 <= i < |top| && Context(top[i].0, events, emails) != [] ==>
      TopItem(top[i].0, "customer", top[i].1, Context(top[i].0, events, emails)) in Candidates(top, events, emails)
    decreases |top|
  {
    if top != [] {
      var init, last := top[..|top| - 1], top[|top| - 1];
      CandidatesComplete(init, events, emails);
      var ci := Candidates(init, events, emails);
      var context := Context(last.0, events, emails);
      assert Candidates(top, events, emails) == if context != [] then ci + [TopItem(last.0, "customer", last.1, context)] else ci;
      forall i | 0 <= i < |init|
        ensures top[i] == init[i]
      {
      }
    }
  }

  lemma {:induction false} CandidatesMembers(top: seq<(string, nat)>, events: seq<Event>, emails: seq<Email>)
    ensures forall it :: it in Candidates(top, events, emails) ==>
      && it.kind == "customer"
      && (it.name, it.frequency) in top
      && it.context == Context(it.name, events, emails)
      && it.context != []
    decreases |top|
  {
    if top != [] {
      var init, last := top[..|top| - 1], top[|top| - 1];
      CandidatesMembers(init, events, emails);
      var ci := Candidates(init, events, emails);
      var context := Context(last.0, events, emails);
      assert Candidates(top, events, emails) == if context != [] then ci + [TopItem(last.0, "customer", last.1, context)] else ci;
      forall it | it in ci
        ensures (it.name, it.frequency) in top
      {
        var j :| 0 <= j < |init| && init[j] == (it.name, it.frequency);
        assert top[j] == init[j];
      }
    }
  }

  lemma {:induction false} CandidatesSorted(top: seq<(string, nat)>, events: seq<Event>, emails: seq<Email>)
    requires SortedDesc(top, Count)
    ensures SortedDesc(Candidates(top, events, emails), Frequency)
    decreases |top|
  {
    if top != [] {
      var init, last := top[..|top| - 1], top[|top| - 1];
      assert SortedDesc(init, Count);
      CandidatesSorted(init, events, emails);
      CandidatesMembers(init, events, emails);
      var ci := Candidates(init, events, emails);
      var context := Context(last.0, events, emails);
      assert Candidates(top, events, emails) == if context != [] then ci + [TopItem(last.0, "customer", last.1, context)] else ci;
      if context != [] {
        forall k | 0 <= k < |ci|
          ensures Frequency(ci[k]) >= last.1
        {
          assert ci[k] in ci;
          var j :| 0 <= j < |init| && init[j] == (ci[k].name, ci[k].frequency);
          assert top[j] == init[j];
        }
        SortedSnoc(ci, TopItem(last.0, "customer", last.1, context), Frequency);
      }
    }
  }

  /**
   * The final re-sort never reorders anything: the top items are the first
   * seven candidates in most_common's order, so ties stay in that order.
   */
  lemma {:induction false} TopItemsKeepOrder(orgs: Counter, events: seq<Event>, emails: seq<Email>)
    requires orgs.Valid()
    ensures TopItemsOf(orgs, events, emails) == Take(Candidates(MostCommon(orgs, CandidatePool), events, emails), TopN)
    ensures SortedDesc(Candidates(MostCommon(orgs, CandidatePool), events, emails), Frequency)
  {
    var top := MostCommon(orgs, CandidatePool);
    MostCommonSpec(orgs, CandidatePool);
    CandidatesFrom(top, events, emails);
    SortSortedUnchanged(Candidates(top, events, emails), Frequency);
  }

  /**
   * When at most seven candidates have context, none is cut: every candidate
   * is a top item. With CandidatesComplete, every organization of the ten
   * most common that has context is then ranked.
   */
  lemma {:induction false} TopItemsComplete(orgs: Counter, events: seq<Event>, emails: seq<Email>)
    requires orgs.Valid()
    ensures var c := Candidates(MostCommon(orgs, CandidatePool), events, emails);
      |c| <= TopN ==> forall it :: it in c ==> it in TopItemsOf(orgs, events, emails)
  {
    var c := Candidates(MostCommon(orgs, CandidatePool), events, emails);
    if |c| <= TopN {
      var sorted := SortDesc(c, Frequency);
      assert Take(sorted, TopN) == sorted;
      forall it | it in c
        ensures it in sorted
      {
        assert it in multiset(c);
      }
    }
  }

  /**
   * The top items: at most 7; each a customer among the 10 most common
   * organizations, with its combined count and its non-empty context of at
   * most five snippets; in descending frequency.
   */
  lemma {:induction false} TopItemsSpec(orgs: Counter, events: seq<Event>, emails: seq<Email>)
    requires orgs.Valid()
    ensures |TopItemsOf(orgs, events, emails)| <= TopN
    ensures SortedDesc(TopItemsOf(orgs, events, emails), Frequency)
    ensures forall it :: it in TopItemsOf(orgs, events, emails) ==>
      && it.kind == "customer"
      && (it.name, it.frequency) in MostCommon(orgs, CandidatePool)
      && it.frequency == orgs.Get(it.name)
      && it.context == Context(it.name, events, emails)
      && 0 < |it.context| <= MaxSnippets
  {
    var top := MostCommon(orgs, CandidatePool);
    var cands := Candidates(top, events, emails);
    TopItemsKeepOrder(orgs, events, emails);
    TakeSorted(cands, TopN, Frequency);
    MostCommonSpec(orgs, CandidatePool);
    CandidatesFrom(top, events, emails);
    forall it | it in TopItemsOf(orgs, events, emails)
      ensures (it.name, it.frequency) in top && it.frequency == orgs.Get(it.name)
    {
      var j :| 0 <= j < |top| && top[j] == (it.name, it.frequency);
    }
  }

  /** An organization whose name is never mentioned in the scanned window never becomes a top item. */
  lemma {:induction false} UnmentionedNeverRanked(orgs: Counter, events: seq<Event>, emails: seq<Email>, name: string)
    requires orgs.Valid() && Context(name, events, emails) == []
    ensures forall it :: it in TopItemsOf(orgs, events, emails) ==> it.name != name
  {
    TopItemsSpec(orgs, events, emails);
  }

  // ---------------------------------------------------------------------------
  // The whole analysis

  /** analyze_data. */
  method AnalyzeData(nlp: Nlp, events: seq<Event>, emails: seq<Email>) returns (r: AnalysisResult)
    ensures r.calendarCount == |events| && r.emailCount == |emails|
    ensures r.entities.Valid() && r.entities == Combine(CalendarTally(nlp, events), EmailTally(nlp, emails))
    ensures r.topItems == TopItemsOf(r.entities.organizations, events, emails)
    ensures events == [] && emails == [] ==> r.topItems == [] && r.entities == EmptyTally
  {
    var calendarEntities := ExtractCalendarEntities(nlp, events);
    var emailEntities := ExtractEmailEntities(nlp, emails);
    var combined := Combine(calendarEntities, emailEntities);
    var topItems := ExtractTopItems(combined, events, emails);
    r := AnalysisResult(topItems, |events|, |emails|, combined);
    if events == [] && emails == [] {
      CombineWithEmpty(EmptyTally);
      assert combined.organizations == Empty;
      assert MostCommon(Empty, CandidatePool) == [];
    }
  }

  /** Every count of the analysis is what the events add plus what the e-mails add. */
  lemma {:induction false} AnalysisCounts(nlp: Nlp, events: seq<Event>, emails: seq<Email>, k: string)
    ensures CountsOf(Combine(CalendarTally(nlp, events), EmailTally(nlp, emails)), k) ==
      SumCalendarHits(nlp, events, k).Plus(SumEmailHits(nlp, emails, k))
  {
    CombineCounts(CalendarTally(nlp, events), EmailTally(nlp, emails), k);
    CalendarTallyCounts(nlp, events, k);
    EmailTallyCounts(nlp, emails, k);
  }
}
