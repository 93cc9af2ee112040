/** The self-analysis page: personal entries newest first, entry titles and
    paragraph formatting, the ten-field analysis form, its plain-text export,
    and the guards on saving and clearing. */
module SelfAnalysis {
  import opened Common
  import Sorting

  // ---------------------------------------------------------------------------
  // Entries
  // ---------------------------------------------------------------------------

  /** A journal entry as the page receives it. `updatedMs` is the `updated`
      time already parsed to milliseconds. */
  datatype Entry = Entry(id: string, entryType: string, content: string, created: string, updatedMs: int)

  function EntryId(e: Entry): string {
    e.id
  }

  /** `data.filter(entry => entry.type === 'personal')`. */
  function PersonalOnly(data: seq<Entry>): (r: seq<Entry>)
    ensures forall e :: e in r <==> e in data && e.entryType == "personal"
    ensures |r| <= |data|
  {
    if data == [] then []
    else (if data[0].entryType == "personal" then [data[0]] else []) + PersonalOnly(data[1..])
  }

  lemma {:induction false} PersonalOnlyMultiset(data: seq<Entry>)
    ensures forall e :: e in multiset(PersonalOnly(data)) ==> e.entryType == "personal"
    ensures forall e: Entry :: e.entryType == "personal" ==> multiset(PersonalOnly(data))[e] == multiset(data)[e]
  {
    if data != [] {
      PersonalOnlyMultiset(data[1..]);
      assert data == [data[0]] + data[1..];
    }
  }

  /** Newer entries rank lower, so they sort first. */
  function NewestFirstRank(e: Entry): int {
    -e.updatedMs
  }

  /** `loadEntries`: the personal entries, sorted by `updated`, newest first. */
  function LoadedEntries(data: seq<Entry>): seq<Entry> {
    Sorting.SortByRank(PersonalOnly(data), NewestFirstRank)
  }

  /** The loaded list holds exactly the personal entries, each as often as
      in the input, newest first. */
  lemma LoadedEntriesShape(data: seq<Entry>)
    ensures var r := LoadedEntries(data);
      (forall e :: e in r ==> e.entryType == "personal") &&
      (forall e: Entry :: e.entryType == "personal" ==> multiset(r)[e] == multiset(data)[e]) &&
      (forall i, j :: 0 <= i < j < |r| ==> r[i].updatedMs >= r[j].updatedMs)
  {
    var r := LoadedEntries(data);
    PersonalOnlyMultiset(data);
    assert multiset(r) == multiset(PersonalOnly(data));
    forall e | e in r
      ensures e.entryType == "personal"
    {
      assert e in multiset(r);
    }
    forall i, j | 0 <= i < j < |r|
      ensures r[i].updatedMs >= r[j].updatedMs
    {
      assert NewestFirstRank(r[i]) <= NewestFirstRank(r[j]);
    }
  }

  // ---------------------------------------------------------------------------
  // Titles and content display
  // ---------------------------------------------------------------------------

  /** `content.split('\n')[0]`. */
  function FirstLine(content: string): string {
    SplitOn(content, '\n')[0]
  }

  /** The first line is the text up to the first newline, or all of it. */
  lemma FirstLineIsLine(content: string)
    ensures var l := FirstLine(content);
      l == content[..|l|] && '\n' !in l && (|l| == |content| || content[|l|] == '\n')
  {
    var ps := SplitOn(content, '\n');
    SplitOnJoin(content, '\n');
    if |ps| > 1 {
      assert Join(ps, "\n") == ps[0] + "\n" + Join(ps[1..], "\n");
      assert content[|ps[0]|] == '\n';
    }
  }

  /** `getEntryTitle`: one non-empty line of at most 53 characters, the
      trimmed first line, cut to 50 characters plus "..." when longer, or
      "Untitled Entry" when that line is blank. */
  function GetEntryTitle(content: string): (r: string)
    ensures r != "" && |r| <= 53 && '\n' !in r
    ensures IsBlank(FirstLine(content)) ==> r == "Untitled Entry"
    ensures !IsBlank(FirstLine(content)) && |Trim(FirstLine(content))| <= 50 ==> r == Trim(FirstLine(content))
    ensures |Trim(FirstLine(content))| > 50 ==>
      |r| == 53 && r[..50] == Trim(FirstLine(content))[..50] && r[50..] == "..."
  {
    FirstLineIsLine(content);
    TrimChars(FirstLine(content));
    TrimEmptyIffBlank(FirstLine(content));
    var firstLine := Trim(FirstLine(content));
    if |firstLine| > 50 then firstLine[..50] + "..."
    else if firstLine == "" then "Untitled Entry"
    else firstLine
  }

  const EmptyContentHtml: string := "<p class=\"empty-content\">" + "No content in this entry." + "</p>"

  /** `paragraph.split('\n').filter(line => line.trim().length > 0)`. */
  function ParagraphLines(p: string): seq<string> {
    NonBlank(SplitOn(p, '\n'))
  }

  function MapEscape(lines: seq<string>, escape: string -> string): (r: seq<string>)
    ensures |r| == |lines| && forall i :: 0 <= i < |r| ==> r[i] == escape(lines[i])
  {
    if lines == [] then [] else [escape(lines[0])] + MapEscape(lines[1..], escape)
  }

  /** What one paragraph's `<p>` element holds: its single line escaped, or
      its escaped lines joined by `<br>`. */
  function ParagraphBody(p: string, escape: string -> string): string {
    var lines := ParagraphLines(p);
    if |lines| == 1 then escape(lines[0])
    else Join(MapEscape(lines, escape), "<br>")
  }

  /** One paragraph of `formatJournalContent`. */
  function ParagraphHtml(p: string, escape: string -> string): string {
    "<p>" + ParagraphBody(p, escape) + "</p>"
  }

  /** Both branches of a paragraph agree: its escaped non-blank lines joined
      by "<br>", inside one `<p>` element. */
  lemma ParagraphHtmlIsJoin(p: string, escape: string -> string)
    ensures ParagraphHtml(p, escape) == "<p>" + Join(MapEscape(ParagraphLines(p), escape), "<br>") + "</p>"
  {
    var lines := ParagraphLines(p);
    if |lines| == 1 {
      assert MapEscape(lines, escape) == [escape(lines[0])];
    }
  }

  function ParagraphBlocks(ps: seq<string>, escape: string -> string): (r: seq<string>)
    ensures |r| == |ps| && forall i :: 0 <= i < |r| ==> r[i] == ParagraphHtml(ps[i], escape)
  {
    if ps == [] then [] else [ParagraphHtml(ps[0], escape)] + ParagraphBlocks(ps[1..], escape)
  }

  /** `formatJournalContent`; `escape` is the page's HTML escaping. */
  function FormatJournalContent(content: string, escape: string -> string): (r: string)
    ensures r == EmptyContentHtml <==> NonBlank(Paragraphs(content)) == []
  {
    var paragraphs := NonBlank(Paragraphs(content));
    if |paragraphs| == 0 then EmptyContentHtml
    else
      FormattedOpensWithParagraph(paragraphs, escape);
      Join(ParagraphBlocks(paragraphs, escape), "")
  }

  lemma JoinStartsWithFirst(xs: seq<string>, sep: string)
    requires xs != []
    ensures |xs[0]| <= |Join(xs, sep)| && Join(xs, sep)[..|xs[0]|] == xs[0]
  {
    if |xs| > 1 {
      assert Join(xs, sep) == xs[0] + (sep + Join(xs[1..], sep));
    }
  }

  /** Blank content always gives the placeholder; otherwise the output opens
      with the first paragraph's `<p>`. */
  lemma FormatJournalContentShape(content: string, escape: string -> string)
    ensures var r := FormatJournalContent(content, escape);
      (IsBlank(content) ==> r == EmptyContentHtml) &&
      (r != EmptyContentHtml ==>
        r[..|ParagraphHtml(NonBlank(Paragraphs(content))[0], escape)|] ==
          ParagraphHtml(NonBlank(Paragraphs(content))[0], escape))
  {
    var ps := NonBlank(Paragraphs(content));
    if IsBlank(content) {
      BlankParagraphs(content);
      NonBlankOfBlanks(Paragraphs(content));
    }
    if ps != [] {
      FormattedOpensWithParagraph(ps, escape);
    }
  }

  lemma FormattedOpensWithParagraph(ps: seq<string>, escape: string -> string)
    requires ps != []
    ensures var r := Join(ParagraphBlocks(ps, escape), "");
      r != EmptyContentHtml &&
      |ParagraphHtml(ps[0], escape)| <= |r| && r[..|ParagraphHtml(ps[0], escape)|] == ParagraphHtml(ps[0], escape)
  {
    var blocks := ParagraphBlocks(ps, escape);
    var first := ParagraphHtml(ps[0], escape);
    JoinStartsWithFirst(blocks, "");
    ParagraphHtmlOpens(ps[0], escape);
    EmptyContentOpening();
    var r := Join(blocks, "");
    assert r[2] == first[2];
  }

  /** Every paragraph's markup opens with a bare `<p>` tag. */
  lemma ParagraphHtmlOpens(p: string, escape: string -> string)
    ensures |ParagraphHtml(p, escape)| >= 3 && ParagraphHtml(p, escape)[2] == '>'
  {
    var body := ParagraphBody(p, escape);
    assert ParagraphHtml(p, escape) == "<p>" + (body + "</p>");
  }

  lemma EmptyContentOpening()
    ensures |EmptyContentHtml| >= 3 && EmptyContentHtml[2] == ' '
  {
    var open := "<p class=\"empty-content\">";
    assert open[2] == ' ';
  }

  /** Every paragraph of blank content is blank. */
  lemma BlankParagraphs(content: string)
    requires IsBlank(content)
    ensures forall p :: p in Paragraphs(content) ==> Trim(p) == ""
  {
    forall p | p in Paragraphs(content)
      ensures Trim(p) == ""
    {
      TrimEmptyIffBlank(p);
      forall i | 0 <= i < |p|
        ensures IsSpace(p[i])
      {
        assert p[i] in p;
      }
    }
  }

  lemma {:induction false} NonBlankOfBlanks(ps: seq<string>)
    requires forall p :: p in ps ==> Trim(p) == ""
    ensures NonBlank(ps) == []
  {
    if ps != [] {
      assert ps[0] in ps;
      NonBlankOfBlanks(ps[1..]);
    }
  }

  // ---------------------------------------------------------------------------
  // The analysis form and its export
  // ---------------------------------------------------------------------------

  datatype AnalysisData = AnalysisData(
    facts: string, judgment: string,
    intent: string, action: string, outcome: string, gap: string,
    globalLabel: string, skillDeficit: string,
    plan: string, conclusion: string)

  const EmptyAnalysis := AnalysisData("", "", "", "", "", "", "", "", "", "")

  datatype Field =
    | Facts | Judgment | Intent | Action | Outcome | Gap
    | GlobalLabel | SkillDeficit | Plan | Conclusion

  function Value(d: AnalysisData, f: Field): string {
    match f
    case Facts => d.facts
    case Judgment => d.judgment
    case Intent => d.intent
    case Action => d.action
    case Outcome => d.outcome
    case Gap => d.gap
    case GlobalLabel => d.globalLabel
    case SkillDeficit => d.skillDeficit
    case Plan => d.plan
    case Conclusion => d.conclusion
  }

  /** The form's input handler for one text area. */
  function WithField(d: AnalysisData, f: Field, v: string): (r: AnalysisData)
    ensures Value(r, f) == v
    ensures forall g :: g != f ==> Value(r, g) == Value(d, g)
  {
    match f
    case Facts => d.(facts := v)
    case Judgment => d.(judgment := v)
    case Intent => d.(intent := v)
    case Action => d.(action := v)
    case Outcome => d.(outcome := v)
    case Gap => d.(gap := v)
    case GlobalLabel => d.(globalLabel := v)
    case SkillDeficit => d.(skillDeficit := v)
    case Plan => d.(plan := v)
    case Conclusion => d.(conclusion := v)
  }

  /** `Object.values(analysisData)`, in declaration order. */
  function Values(d: AnalysisData): seq<string> {
    [d.facts, d.judgment, d.intent, d.action, d.outcome, d.gap,
     d.globalLabel, d.skillDeficit, d.plan, d.conclusion]
  }

  /** `values.some(value => value.trim() !== '')`. */
  function SomeNonBlank(vs: seq<string>): (r: bool)
    ensures r <==> exists i :: 0 <= i < |vs| && Trim(vs[i]) != ""
  {
    if vs == [] then false
    else Trim(vs[0]) != "" || SomeNonBlank(vs[1..])
  }

  /** The fields each export section reports on. */
  function SectionFields(k: nat): seq<Field> {
    if k == 1 then [Facts]
    else if k == 2 then [Judgment]
    else if k == 3 then [Intent, Action, Outcome, Gap]
    else if k == 4 then [GlobalLabel, SkillDeficit]
    else if k == 5 then [Plan]
    else if k == 6 then [Conclusion]
    else []
  }

  /** The section that reports on `f`. */
  function SectionOf(f: Field): nat {
    match f
    case Facts => 1
    case Judgment => 2
    case Intent => 3
    case Action => 3
    case Outcome => 3
    case Gap => 3
    case GlobalLabel => 4
    case SkillDeficit => 4
    case Plan => 5
    case Conclusion => 6
  }

  /** Every field is reported in exactly one of the six sections. */
  lemma SectionsPartitionFields(f: Field)
    ensures 1 <= SectionOf(f) <= 6 && f in SectionFields(SectionOf(f))
    ensures forall k :: 1 <= k <= 6 && f in SectionFields(k) ==> k == SectionOf(f)
  {
  }

  /** The position of each field in `Values`. */
  function FieldIndex(f: Field): nat {
    match f
    case Facts => 0
    case Judgment => 1
    case Intent => 2
    case Action => 3
    case Outcome => 4
    case Gap => 5
    case GlobalLabel => 6
    case SkillDeficit => 7
    case Plan => 8
    case Conclusion => 9
  }

  const AllFields: seq<Field> :=
    [Facts, Judgment, Intent, Action, Outcome, Gap, GlobalLabel, SkillDeficit, Plan, Conclusion]

  lemma ValuesAreFields(d: AnalysisData)
    ensures |Values(d)| == 10
    ensures forall i :: 0 <= i < 10 ==> Values(d)[i] == Value(d, AllFields[i])
    ensures forall f :: FieldIndex(f) < 10 && Values(d)[FieldIndex(f)] == Value(d, f)
  {
  }

  /** Section `k` reports on a field whose value is not blank. */
  predicate Included(d: AnalysisData, k: nat) {
    exists f :: f in SectionFields(k) && Trim(Value(d, f)) != ""
  }

  /** `"=".repeat(50)`. */
  const Rule: string := "=========================" + "========================="

  // The heading and label characters are those stored in the source file.
  const FactsHeading: string := "1. \U{F8FF}\U{00FC}\U{00EC}\U{00E3} FACTS (Raw Data)"
  const JudgmentHeading: string := "2. \U{F8FF}\U{00FC}\U{00EE}\U{00E7} SELF-JUDGMENT (Internal Critic)"
  const DeconstructionHeading: string := "3. \U{F8FF}\U{00FC}\U{00EE}\U{00DF} DECONSTRUCTION"
  const IntentLabel: string := "\U{F8FF}\U{00FC}\U{00E9}\U{00D8} Intent: "
  const ActionLabel: string := "\U{201A}\U{00F6}\U{00B0} Action: "
  const OutcomeLabel: string := "\U{F8FF}\U{00FC}\U{00EC}\U{00E4} Outcome: "
  const GapLabel: string := "\U{F8FF}\U{00FC}\U{00EE}\U{00E7} The Gap: "
  const ReframeHeading: string := "4. \U{F8FF}\U{00FC}\U{00EE}\U{00D1} REFRAME"
  const GlobalLabelLabel: string := "\U{201A}\U{00F9}\U{00E5} Global Label: "
  const SkillDeficitLabel: string := "\U{201A}\U{00FA}\U{00D6} Specific Skill Deficit: "
  const PlanHeading: string := "5. \U{F8FF}\U{00FC}\U{00E9}\U{00D8} PRACTICAL PLAN"
  const ConclusionHeading: string := "6. \U{F8FF}\U{00FC}\U{00ED}\U{00B0} UNFORGIVING CONCLUSION"

  const ExportHeader: string := "=== CRITICAL SELF-ANALYSIS ===\n\n"

  /** The export's opening: the header, then, with an entry selected, the
      entry's and today's date as the page's locale renders them. */
  function Preamble(dates: Option<(string, string)>): string {
    ExportHeader +
    (if dates.Some? then "Original Entry: " + dates.value.0 + "\n" + "Analysis Date: " + dates.value.1 + "\n\n"
     else "")
  }

  /** The text section `k` appends: its heading, the rule, and its body. */
  function SectionText(d: AnalysisData, k: nat): string {
    if k == 1 then FactsHeading + "\n" + Rule + "\n" + d.facts + "\n\n"
    else if k == 2 then JudgmentHeading + "\n" + Rule + "\n" + d.judgment + "\n\n"
    else if k == 3 then
      DeconstructionHeading + "\n" + Rule + "\n" +
      IntentLabel + d.intent + "\n\n" + ActionLabel + d.action + "\n\n" +
      OutcomeLabel + d.outcome + "\n\n" + GapLabel + d.gap + "\n\n"
    else if k == 4 then
      ReframeHeading + "\n" + Rule + "\n" +
      GlobalLabelLabel + d.globalLabel + "\n\n" + SkillDeficitLabel + d.skillDeficit + "\n\n"
    else if k == 5 then PlanHeading + "\n" + Rule + "\n" + d.plan + "\n\n"
    else if k == 6 then ConclusionHeading + "\n" + Rule + "\n" + d.conclusion + "\n"
    else ""
  }

  /** The condition under which `formatAnalysisForExport` appends section
      `k`, as written for each section: some of its fields trims to a
      non-empty string. */
  predicate Guard(d: AnalysisData, k: nat) {
    if k == 1 then Trim(d.facts) != ""
    else if k == 2 then Trim(d.judgment) != ""
    else if k == 3 then Trim(d.intent) != "" || Trim(d.action) != "" || Trim(d.outcome) != "" || Trim(d.gap) != ""
    else if k == 4 then Trim(d.globalLabel) != "" || Trim(d.skillDeficit) != ""
    else if k == 5 then Trim(d.plan) != ""
    else if k == 6 then Trim(d.conclusion) != ""
    else false
  }

  /** The export text once the guards of sections 1 to `k` have run: section
      `k` is appended after the text built so far when its guard holds. */
  function Built(d: AnalysisData, dates: Option<(string, string)>, k: nat): string
    requires k <= 6
  {
    if k == 0 then Preamble(dates)
    else if Guard(d, k) then Built(d, dates, k - 1) + SectionText(d, k)
    else Built(d, dates, k - 1)
  }

  /** `formatAnalysisForExport`, the preamble and the six guarded appends, is
      the preamble followed by exactly the included sections, in the order 1
      to 6. */
  function FormatAnalysisForExport(d: AnalysisData, dates: Option<(string, string)>): (r: string)
    ensures r == Preamble(dates) + SectionsFrom(d, 1)
  {
    BuiltLayout(d, dates);
    assert Built(d, dates, 6) + "" == Built(d, dates, 6);
    Built(d, dates, 6)
  }

  /** The hand-written guards agree with the field-to-section table: section
      `k` is appended exactly when one of the fields it reports on is not
      blank. */
  lemma GuardIsIncluded(d: AnalysisData, k: nat)
    requires 1 <= k <= 6
    ensures Guard(d, k) <==> Included(d, k)
  {
    if Included(d, k) {
      var f :| f in SectionFields(k) && Trim(Value(d, f)) != "";
      SectionsPartitionFields(f);
      GuardOfField(d, f);
    }
    if Guard(d, k) {
      var f := GuardWitness(d, k);
    }
  }

  /** A field that is not blank makes its section's guard hold. */
  lemma GuardOfField(d: AnalysisData, f: Field)
    requires Trim(Value(d, f)) != ""
    ensures Guard(d, SectionOf(f))
  {
  }

  /** A field of section `k` whose value is not blank, when the guard holds. */
  lemma GuardWitness(d: AnalysisData, k: nat) returns (f: Field)
    requires Guard(d, k)
    ensures f in SectionFields(k) && Trim(Value(d, f)) != ""
  {
    if k == 1 {
      f := Facts;
    } else if k == 2 {
      f := Judgment;
    } else if k == 3 {
      f := if Trim(d.intent) != "" then Intent
        else if Trim(d.action) != "" then Action
        else if Trim(d.outcome) != "" then Outcome
        else Gap;
    } else if k == 4 {
      f := if Trim(d.globalLabel) != "" then GlobalLabel else SkillDeficit;
    } else if k == 5 {
      f := Plan;
    } else {
      f := Conclusion;
    }
  }

  /** What section `k` contributes to the export. */
  function Part(d: AnalysisData, k: nat): string {
    if Guard(d, k) then SectionText(d, k) else ""
  }

  /** The contributions of sections `k` to 6, in order. */
  function SectionsFrom(d: AnalysisData, k: nat): string
    requires 1 <= k <= 7
    decreases 7 - k
  {
    if k == 7 then "" else Part(d, k) + SectionsFrom(d, k + 1)
  }

  /** The six guarded appends leave the preamble followed by the included
      sections, one section at a time. */
  lemma BuiltLayout(d: AnalysisData, dates: Option<(string, string)>)
    ensures Built(d, dates, 6) + SectionsFrom(d, 7) == Preamble(dates) + SectionsFrom(d, 1)
  {
    assert Built(d, dates, 0) == Preamble(dates);
    BuiltLayoutStep(d, dates, 1);
    BuiltLayoutStep(d, dates, 2);
    BuiltLayoutStep(d, dates, 3);
    BuiltLayoutStep(d, dates, 4);
    BuiltLayoutStep(d, dates, 5);
    BuiltLayoutStep(d, dates, 6);
  }

  /** `BuiltLayout` for `k` from the claim for `k - 1`. */
  lemma BuiltLayoutStep(d: AnalysisData, dates: Option<(string, string)>, k: nat)
    requires 1 <= k <= 6
    requires Built(d, dates, k - 1) + SectionsFrom(d, k) == Preamble(dates) + SectionsFrom(d, 1)
    ensures Built(d, dates, k) + SectionsFrom(d, k + 1) == Preamble(dates) + SectionsFrom(d, 1)
  {
    var b, part, rest := Built(d, dates, k - 1), Part(d, k), SectionsFrom(d, k + 1);
    BuiltStep(d, dates, k);
    assert SectionsFrom(d, k) == part + rest;
    AppendAssoc(b, part, rest);
    EqualTrans(Built(d, dates, k) + rest, b + SectionsFrom(d, k), Preamble(dates) + SectionsFrom(d, 1));
  }

  lemma BuiltStep(d: AnalysisData, dates: Option<(string, string)>, k: nat)
    requires 1 <= k <= 6
    ensures Built(d, dates, k) == Built(d, dates, k - 1) + Part(d, k)
  {
    if !Guard(d, k) {
      EmptyBack(Built(d, dates, k - 1));
    }
  }

  /** Some field is non-blank exactly when some section is included. */
  lemma ContentIffSomeSection(d: AnalysisData)
    ensures SomeNonBlank(Values(d)) <==> exists k :: 1 <= k <= 6 && Included(d, k)
  {
    var vs := Values(d);
    ValuesAreFields(d);
    if SomeNonBlank(vs) {
      var i :| 0 <= i < |vs| && Trim(vs[i]) != "";
      var f := AllFields[i];
      SectionsPartitionFields(f);
      assert Included(d, SectionOf(f));
    }
    if exists k :: 1 <= k <= 6 && Included(d, k) {
      var k :| 1 <= k <= 6 && Included(d, k);
      var f :| f in SectionFields(k) && Trim(Value(d, f)) != "";
      assert Trim(vs[FieldIndex(f)]) != "";
    }
  }

  /** Every section's text is non-empty. */
  lemma SectionTextNonEmpty(d: AnalysisData, k: nat)
    requires 1 <= k <= 6
    ensures |SectionText(d, k)| > 0
  {
  }

  lemma {:induction false} SectionsFromEmpty(d: AnalysisData, k: nat)
    requires 1 <= k <= 7
    ensures SectionsFrom(d, k) == "" <==> forall l :: k <= l <= 6 ==> !Included(d, l)
    decreases 7 - k
  {
    if k == 7 {
      assert SectionsFrom(d, k) == "";
      assert forall l :: k <= l <= 6 ==> !Included(d, l);
      assert SectionsFrom(d, k) == "" <==> forall l :: k <= l <= 6 ==> !Included(d, l);
    } else {
      SectionsFromEmpty(d, k + 1);
      GuardIsIncluded(d, k);
      var part, rest := Part(d, k), SectionsFrom(d, k + 1);
      assert SectionsFrom(d, k) == part + rest;
      assert |SectionsFrom(d, k)| == |part| + |rest|;
      if Guard(d, k) {
        SectionTextNonEmpty(d, k);
        assert |part| > 0;
        assert SectionsFrom(d, k) != "";
        assert Included(d, k);
        assert SectionsFrom(d, k) == "" <==> forall l :: k <= l <= 6 ==> !Included(d, l);
      } else {
        assert part == "";
        assert SectionsFrom(d, k) == "" <==> rest == "";
        assert !Included(d, k);
        NoneFromStep(d, k);
        assert SectionsFrom(d, k) == "" <==> forall l :: k <= l <= 6 ==> !Included(d, l);
      }
    }
  }

  lemma NoneFromStep(d: AnalysisData, k: nat)
    requires 1 <= k <= 6 && !Included(d, k)
    ensures (forall l :: k <= l <= 6 ==> !Included(d, l)) <==> (forall l :: k + 1 <= l <= 6 ==> !Included(d, l))
  {
  }

  /** The export adds nothing to its preamble exactly when every field is
      blank, which is when saving is refused. */
  lemma ExportEmptyIffNoContent(d: AnalysisData, dates: Option<(string, string)>)
    ensures FormatAnalysisForExport(d, dates) == Preamble(dates) <==> !SomeNonBlank(Values(d))
  {
    SectionsFromEmpty(d, 1);
    ContentIffSomeSection(d);
    var p := Preamble(dates);
    assert p + SectionsFrom(d, 1) == p <==> SectionsFrom(d, 1) == "" by {
      if p + SectionsFrom(d, 1) == p {
        assert |p + SectionsFrom(d, 1)| == |p| + |SectionsFrom(d, 1)|;
      }
    }
  }

  /** What `saveAnalysis` hands to the file store. */
  datatype SavedAnalysis = SavedAnalysis(
    data: AnalysisData, originalEntryId: string, originalEntryContent: string, analysisDate: string)

  datatype SaveOutcome =
    | NoEntrySelected
    | NothingToSave
    | Save(record: SavedAnalysis)

  /** The analysis page's state. */
  class AnalysisApp {
    var entries: seq<Entry>
    var currentEntry: Option<Entry>
    var analysisData: AnalysisData

    constructor ()
      ensures entries == [] && currentEntry == None && analysisData == EmptyAnalysis
    {
      entries := [];
      currentEntry := None;
      analysisData := EmptyAnalysis;
    }

    /** `loadEntries`, with the file store's reply as `data`. */
    method LoadEntries(data: seq<Entry>)
      modifies this
      ensures entries == LoadedEntries(data)
      ensures currentEntry == old(currentEntry) && analysisData == old(analysisData)
    {
      entries := LoadedEntries(data);
    }

    /** `selectEntryById`: an unknown id leaves the selection alone. */
    method SelectEntryById(id: string)
      modifies this
      ensures var found := FirstWith(old(entries), EntryId, id);
        currentEntry == (if found.Some? then found else old(currentEntry))
      ensures entries == old(entries) && analysisData == old(analysisData)
    {
      var found := FirstWith(entries, EntryId, id);
      if found.Some? {
        currentEntry := found;
      }
    }

    /** `refreshEntries`: reload, then reselect the current entry by id, or
        drop the selection when its id is gone. */
    method RefreshEntries(data: seq<Entry>)
      modifies this
      ensures entries == LoadedEntries(data)
      ensures old(currentEntry).None? ==> currentEntry.None?
      ensures old(currentEntry).Some? ==>
        currentEntry == FirstWith(entries, EntryId, old(currentEntry).value.id)
      ensures old(currentEntry).Some? ==>
        (currentEntry.None? <==> forall e :: e in entries ==> e.id != old(currentEntry).value.id)
      ensures analysisData == old(analysisData)
    {
      LoadEntries(data);
      if currentEntry.Some? {
        currentEntry := FirstWith(entries, EntryId, currentEntry.value.id);
      }
    }

    /** The input handler of one text area. */
    method SetField(f: Field, value: string)
      modifies this
      ensures analysisData == WithField(old(analysisData), f, value)
      ensures entries == old(entries) && currentEntry == old(currentEntry)
    {
      analysisData := WithField(analysisData, f, value);
    }

    /** `clearAnalysis`: needs a selected entry and the user's confirmation;
        then every field is reset to the empty string. */
    method ClearAnalysis(confirmed: bool)
      modifies this
      ensures currentEntry.Some? && confirmed ==> analysisData == EmptyAnalysis
      ensures currentEntry.Some? && confirmed ==> forall f :: Value(analysisData, f) == ""
      ensures !(currentEntry.Some? && confirmed) ==> analysisData == old(analysisData)
      ensures entries == old(entries) && currentEntry == old(currentEntry)
    {
      if currentEntry.None? {
        return;
      }
      if confirmed {
        analysisData := EmptyAnalysis;
      }
    }

    /** `saveAnalysis`: refused without a selected entry or when every field
        is blank (exactly when the export would hold no section); otherwise
        the fields go out with the entry's id and content. */
    method SaveAnalysis(analysisDate: string) returns (r: SaveOutcome)
      ensures r == NoEntrySelected <==> currentEntry.None?
      ensures r == NothingToSave <==> currentEntry.Some? && !SomeNonBlank(Values(analysisData))
      ensures r == NothingToSave ==>
        forall dates :: FormatAnalysisForExport(analysisData, dates) == Preamble(dates)
      ensures r.Save? ==>
        currentEntry.Some? &&
        r.record == SavedAnalysis(analysisData, currentEntry.value.id, currentEntry.value.content, analysisDate)
    {
      if currentEntry.None? {
        return NoEntrySelected;
      }
      if !SomeNonBlank(Values(analysisData)) {
        forall dates: Option<(string, string)>
          ensures FormatAnalysisForExport(analysisData, dates) == Preamble(dates)
        {
          ExportEmptyIffNoContent(analysisData, dates);
        }
        return NothingToSave;
      }
      r := Save(SavedAnalysis(analysisData, currentEntry.value.id, currentEntry.value.content, analysisDate));
    }
  }
}
