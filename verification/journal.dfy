/** The journal page: entries whose word count, character count and dated
    header are derived from their content, the text analysis, the entry-list
    filter, and the list edits behind saving, deleting and undoing. */
module Journal {
  import opened Common

  // ---------------------------------------------------------------------------
  // Words
  // ---------------------------------------------------------------------------

  /** The run of non-whitespace characters at the front of `s`. */
  function TakeWord(s: string): (r: string)
    ensures |r| <= |s| && r == s[..|r|]
    ensures forall i :: 0 <= i < |r| ==> !IsSpace(r[i])
    ensures |r| == |s| || IsSpace(s[|r|])
  {
    if s == [] || IsSpace(s[0]) then [] else [s[0]] + TakeWord(s[1..])
  }

  /** The words of `s`: its maximal runs of non-whitespace characters, in
      order. This is the reference the counting code is measured against. */
  function Words(s: string): (r: seq<string>)
    ensures forall i :: 0 <= i < |r| ==> r[i] != []
    ensures forall i, j :: 0 <= i < |r| && 0 <= j < |r[i]| ==> !IsSpace(r[i][j])
    decreases |s|
  {
    if s == [] then []
    else if IsSpace(s[0]) then Words(s[1..])
    else
      var w := TakeWord(s);
      [w] + Words(s[|w|..])
  }

  /** Leading whitespace does not change the words. */
  lemma {:induction false} WordsSkipSpaces(s: string, k: nat)
    requires k <= |s|
    requires forall i :: 0 <= i < k ==> IsSpace(s[i])
    ensures Words(s) == Words(s[k..])
  {
    if k > 0 {
      WordsSkipSpaces(s[1..], k - 1);
      assert s[1..][k - 1..] == s[k..];
    }
  }

  lemma {:induction false} TakeWordAppendSpaces(s: string, sp: string)
    requires IsBlank(sp)
    ensures TakeWord(s + sp) == TakeWord(s)
  {
    if s != [] && !IsSpace(s[0]) {
      assert (s + sp)[1..] == s[1..] + sp;
      TakeWordAppendSpaces(s[1..], sp);
    }
  }

  /** Trailing whitespace does not change the words. */
  lemma {:induction false} WordsAppendSpaces(s: string, sp: string)
    requires IsBlank(sp)
    ensures Words(s + sp) == Words(s)
    decreases |s|
  {
    if s == [] {
      assert s + sp == sp;
      WordsSkipSpaces(sp, |sp|);
    } else if IsSpace(s[0]) {
      assert (s + sp)[1..] == s[1..] + sp;
      WordsAppendSpaces(s[1..], sp);
    } else {
      var w := TakeWord(s);
      TakeWordAppendSpaces(s, sp);
      assert (s + sp)[|w|..] == s[|w|..] + sp;
      WordsAppendSpaces(s[|w|..], sp);
    }
  }

  /** Trimming does not change the words. */
  lemma WordsTrim(s: string)
    ensures Words(Trim(s)) == Words(s)
  {
    WordsTrimStart(s);
    WordsTrimEnd(TrimStart(s));
  }

  lemma WordsTrimStart(s: string)
    ensures Words(TrimStart(s)) == Words(s)
  {
    WordsSkipSpaces(s, |s| - |TrimStart(s)|);
  }

  lemma WordsTrimEnd(t: string)
    ensures Words(TrimEnd(t)) == Words(t)
  {
    var e := TrimEnd(t);
    var sp := t[|e|..];
    assert t == e + sp;
    WordsAppendSpaces(e, sp);
  }

  /** On text without leading or trailing whitespace, `split(/\s+/)` gives
      exactly the words; with a leading whitespace run it adds one empty
      piece in front. */
  lemma {:induction false} SplitOnRunsWords(s: string)
    requires s != [] && !IsSpace(s[|s| - 1])
    ensures SplitOnRuns(s, Whitespace) == (if IsSpace(s[0]) then [""] else []) + Words(s)
    decreases |s|
  {
    if IsSpace(s[0]) {
      var t := SkipRun(s[1..], Whitespace);
      assert t != [] && t[|t| - 1] == s[|s| - 1];
      SplitOnRunsWords(t);
      SplitAfterSpaces(s, t);
    } else if |s| == 1 {
      assert TakeWord(s) == s;
      assert s[1..] == [];
    } else {
      SplitOnRunsWords(s[1..]);
      SplitAfterLetter(s);
    }
  }

  lemma SplitAfterSpaces(s: string, t: string)
    requires s != [] && IsSpace(s[0])
    requires t == SkipRun(s[1..], Whitespace) && t != []
    requires SplitOnRuns(t, Whitespace) == Words(t)
    ensures SplitOnRuns(s, Whitespace) == [""] + Words(s)
  {
    WordsSkipRun(s);
    assert SplitOnRuns(s, Whitespace) == [""] + SplitOnRuns(t, Whitespace);
  }

  /** A whitespace run at the front does not change the words. */
  lemma WordsSkipRun(s: string)
    requires s != [] && IsSpace(s[0])
    ensures Words(s) == Words(SkipRun(s[1..], Whitespace))
  {
    var t := SkipRun(s[1..], Whitespace);
    SkippedSpaces(s);
    WordsSkipSpaces(s, |s| - |t|);
  }

  /** What `SkipRun` passes over after a leading space is all whitespace. */
  lemma SkippedSpaces(s: string)
    requires s != [] && IsSpace(s[0])
    ensures var t := SkipRun(s[1..], Whitespace);
      |t| < |s| && t == s[|s| - |t|..] && forall i :: 0 <= i < |s| - |t| ==> IsSpace(s[i])
  {
    assert SkipRun(s, Whitespace) == SkipRun(s[1..], Whitespace);
  }

  lemma SplitAfterLetter(s: string)
    requires |s| > 1 && !IsSpace(s[0])
    requires SplitOnRuns(s[1..], Whitespace) == (if IsSpace(s[1]) then [""] else []) + Words(s[1..])
    ensures SplitOnRuns(s, Whitespace) == Words(s)
  {
    var rest := SplitOnRuns(s[1..], Whitespace);
    assert SplitOnRuns(s, Whitespace) == [[s[0]] + rest[0]] + rest[1..];
    var w := TakeWord(s);
    assert Words(s) == [w] + Words(s[|w|..]);
    if IsSpace(s[1]) {
      WordEndsAtSpace(s);
      assert rest == [""] + Words(s[1..]);
      assert rest[0] == "" && rest[1..] == Words(s[1..]);
    } else {
      WordContinues(s);
      assert rest == Words(s[1..]);
      assert rest[0] == TakeWord(s[1..]) && rest[1..] == Words(s[|w|..]);
    }
  }

  lemma WordEndsAtSpace(s: string)
    requires |s| > 1 && !IsSpace(s[0]) && IsSpace(s[1])
    ensures TakeWord(s) == [s[0]]
  {
    assert TakeWord(s[1..]) == [];
  }

  lemma WordContinues(s: string)
    requires |s| > 1 && !IsSpace(s[0]) && !IsSpace(s[1])
    ensures Words(s[1..]) == [TakeWord(s[1..])] + Words(s[|TakeWord(s)|..])
    ensures TakeWord(s) == [s[0]] + TakeWord(s[1..])
  {
    var w1 := TakeWord(s[1..]);
    assert s[1..][|w1|..] == s[1 + |w1|..];
  }

  /** `calculateWordCount`: `text.trim() ? text.trim().split(/\s+/).length : 0`. */
  function CalculateWordCount(text: string): nat {
    var t := Trim(text);
    if t == [] then 0 else |SplitOnRuns(t, Whitespace)|
  }

  /** The word count is 0 exactly for blank text and otherwise the number of
      whitespace-separated runs. */
  lemma WordCountIsWords(text: string)
    ensures CalculateWordCount(text) == |Words(text)|
    ensures CalculateWordCount(text) == 0 <==> IsBlank(text)
  {
    TrimEmptyIffBlank(text);
    WordsTrim(text);
    TrimmedEnds(text);
    TrimmedWordCount(Trim(text));
  }

  /** On trimmed text the count is the number of words. */
  lemma TrimmedWordCount(t: string)
    requires t == [] || (!IsSpace(t[0]) && !IsSpace(t[|t| - 1]))
    ensures (if t == [] then 0 else |SplitOnRuns(t, Whitespace)|) == |Words(t)|
  {
    if t != [] {
      SplitOnRunsWords(t);
      EmptyFront(Words(t));
    }
  }

  /** `ps.filter(w => w.length > 0)`. */
  function NonEmpty(ps: seq<string>): (r: seq<string>)
    ensures forall i :: 0 <= i < |r| ==> r[i] != []
  {
    if ps == [] then []
    else (if ps[0] != [] then [ps[0]] else []) + NonEmpty(ps[1..])
  }

  lemma {:induction false} NonEmptyKeepsNonEmpty(ps: seq<string>)
    requires forall i :: 0 <= i < |ps| ==> ps[i] != []
    ensures NonEmpty(ps) == ps
  {
    if ps != [] {
      NonEmptyKeepsNonEmpty(ps[1..]);
    }
  }

  /** The words `analyzeContent` counts:
      `content.trim().split(/\s+/).filter(w => w.length > 0)`. */
  function AnalysisWords(content: string): seq<string> {
    NonEmpty(SplitOnRuns(Trim(content), Whitespace))
  }

  /** The analysis sees the same words as the entry's word count. */
  lemma AnalysisWordsAreWords(content: string)
    ensures AnalysisWords(content) == Words(content)
    ensures |AnalysisWords(content)| == CalculateWordCount(content)
  {
    var t := Trim(content);
    WordsTrim(content);
    WordCountIsWords(content);
    TrimmedEnds(content);
    NonEmptySplitOfTrimmed(t);
  }

  lemma TrimmedEnds(s: string)
    ensures var t := Trim(s); t == [] || (!IsSpace(t[0]) && !IsSpace(t[|t| - 1]))
  {
    var u := TrimStart(s);
    var t := TrimEnd(u);
    if t != [] {
      assert t[0] == u[0];
    }
  }

  lemma NonEmptySplitOfTrimmed(t: string)
    requires t == [] || (!IsSpace(t[0]) && !IsSpace(t[|t| - 1]))
    ensures NonEmpty(SplitOnRuns(t, Whitespace)) == Words(t)
  {
    if t == [] {
      assert SplitOnRuns(t, Whitespace) == [""];
      assert NonEmpty([""]) == [];
    } else {
      SplitOfTrimmedIsWords(t);
      NonEmptyKeepsNonEmpty(Words(t));
    }
  }

  lemma SplitOfTrimmedIsWords(t: string)
    requires t != [] && !IsSpace(t[0]) && !IsSpace(t[|t| - 1])
    ensures SplitOnRuns(t, Whitespace) == Words(t)
  {
    SplitOnRunsWords(t);
    assert [] + Words(t) == Words(t);
  }

  // ---------------------------------------------------------------------------
  // Entry text
  // ---------------------------------------------------------------------------

  /** The first lines of an entry's file text. `dateLabel` is the en-US
      rendering of the creation time. */
  function Header(dateLabel: string): string {
    "--- " + dateLabel + " ---\n\n"
  }

  /** `formatContentWithTimestamp`. */
  function FormatContentWithTimestamp(dateLabel: string, content: string): string {
    Header(dateLabel) + content
  }

  /** Reformatting other content under the same date keeps the header and
      replaces only the body. */
  lemma ReformatKeepsHeader(dateLabel: string, c1: string, c2: string)
    ensures var h := |Header(dateLabel)|;
      var f1 := FormatContentWithTimestamp(dateLabel, c1);
      var f2 := FormatContentWithTimestamp(dateLabel, c2);
      f1[..h] == f2[..h] && f1[h..] == c1 && f2[h..] == c2
  {
  }

  predicate IsMark(c: char) {
    c == '#' || c == '*' || c == '`'
  }

  /** `s.replace(/[#*`]/g, '')`. */
  function StripMarks(s: string): (r: string)
    ensures |r| <= |s|
    ensures forall c :: c in r <==> c in s && !IsMark(c)
  {
    if s == [] then []
    else (if IsMark(s[0]) then [] else [s[0]]) + StripMarks(s[1..])
  }

  /** Stripping works character by character: it distributes over concatenation. */
  lemma {:induction false} StripMarksAppend(a: string, b: string)
    ensures StripMarks(a + b) == StripMarks(a) + StripMarks(b)
  {
    if a == [] {
      assert a + b == b;
    } else {
      StripMarksAppend(a[1..], b);
      StripMarksCons(a, b);
    }
  }

  lemma StripMarksCons(a: string, b: string)
    requires a != []
    requires StripMarks(a[1..] + b) == StripMarks(a[1..]) + StripMarks(b)
    ensures StripMarks(a + b) == StripMarks(a) + StripMarks(b)
  {
    var head := if IsMark(a[0]) then [] else [a[0]];
    TailOfAppend(a, b);
    AppendAssoc(head, StripMarks(a[1..]), StripMarks(b));
  }

  /** Text without markup characters is left as it is, and a markup character
      on its own is removed. */
  lemma {:induction false} StripMarksUnmarked(s: string)
    ensures (forall i :: 0 <= i < |s| ==> !IsMark(s[i])) ==> StripMarks(s) == s
    ensures |s| == 1 && IsMark(s[0]) ==> StripMarks(s) == ""
  {
    if s != [] && forall i :: 0 <= i < |s| ==> !IsMark(s[i]) {
      var t := s[1..];
      assert forall i :: 0 <= i < |t| ==> !IsMark(t[i]) by {
        forall i | 0 <= i < |t| ensures !IsMark(t[i]) { assert t[i] == s[i + 1]; }
      }
      StripMarksUnmarked(t);
      assert s == [s[0]] + t;
    }
  }

  /** `getPreview(maxLength)`: the content without markup characters,
      trimmed, and cut to `maxLength` characters plus "..." when longer. */
  function Preview(content: string, maxLength: nat): (r: string)
    ensures forall c :: c in r ==> !IsMark(c)
    ensures |r| <= maxLength + 3
  {
    TrimChars(StripMarks(content));
    var plain := Trim(StripMarks(content));
    if |plain| > maxLength then
      CutHasNoMarks(plain, maxLength);
      plain[..maxLength] + "..."
    else plain
  }

  /** Cutting mark-free text and adding the ellipsis adds no mark. */
  lemma CutHasNoMarks(plain: string, n: nat)
    requires n <= |plain| && forall c :: c in plain ==> !IsMark(c)
    ensures forall c :: c in plain[..n] + "..." ==> !IsMark(c)
  {
    forall c | c in plain[..n] + "..."
      ensures !IsMark(c)
    {
      if c !in plain[..n] {
        assert c in "...";
      }
    }
  }

  /** The preview holds no markup character, is at most three characters
      longer than `maxLength`, and is the plain text itself when that fits;
      otherwise it is the plain text cut to `maxLength` followed by "...". */
  lemma PreviewShape(content: string, maxLength: nat)
    ensures var r := Preview(content, maxLength);
      var plain := Trim(StripMarks(content));
      (forall c :: c in r ==> !IsMark(c)) &&
      |r| <= maxLength + 3 &&
      (|plain| <= maxLength ==> r == plain) &&
      (|plain| > maxLength ==> |r| == maxLength + 3 && r[..maxLength] == plain[..maxLength] && r[maxLength..] == "...")
  {
    var plain := Trim(StripMarks(content));
    TrimChars(StripMarks(content));
    if |plain| > maxLength {
      var r := plain[..maxLength] + "...";
      forall c | c in r
        ensures !IsMark(c)
      {
        if c !in plain[..maxLength] {
          assert c in "...";
        }
      }
    }
  }

  /** A journal entry. The id and creation time are fixed; the content and
      the fields derived from it change together in `UpdateContent`. */
  class JournalEntry {
    const id: string
    const entryType: string
    const created: string
    /** The en-US date-and-time rendering of `created`. */
    const dateLabel: string
    var content: string
    var updated: string
    var wordCount: nat
    var charCount: nat
    var formattedContent: string

    /** The derived fields agree with the content. */
    predicate Valid()
      reads this
    {
      wordCount == CalculateWordCount(content) &&
      charCount == |content| &&
      formattedContent == FormatContentWithTimestamp(dateLabel, content)
    }

    /** `new JournalEntry(content, type, timestamp)`; an empty `timestamp`
        falls back to `now`. The random id is a parameter. */
    constructor (id: string, content: string, entryType: string, timestamp: string,
                 now: string, dateLabel: string)
      ensures Valid()
      ensures this.id == id && this.content == content && this.entryType == entryType
      ensures created == (if timestamp != "" then timestamp else now)
      ensures updated == now && this.dateLabel == dateLabel
    {
      this.id := id;
      this.content := content;
      this.entryType := entryType;
      this.created := if timestamp != "" then timestamp else now;
      this.dateLabel := dateLabel;
      this.updated := now;
      this.wordCount := CalculateWordCount(content);
      this.charCount := |content|;
      this.formattedContent := FormatContentWithTimestamp(dateLabel, content);
    }

    /** `updateContent`: the body is replaced and the derived fields follow;
        the header, built from the unchanged creation time, stays. */
    method UpdateContent(newContent: string, now: string)
      modifies this
      ensures Valid()
      ensures content == newContent && updated == now
      ensures formattedContent[..|Header(dateLabel)|] == Header(dateLabel)
    {
      content := newContent;
      updated := now;
      wordCount := CalculateWordCount(newContent);
      charCount := |newContent|;
      formattedContent := FormatContentWithTimestamp(dateLabel, newContent);
    }

    /** `getPreview`: no markup character, and at most `maxLength`
        characters plus the ellipsis. */
    function GetPreview(maxLength: nat): (r: string)
      reads this
      ensures forall c :: c in r ==> !IsMark(c)
      ensures |r| <= maxLength + 3
    {
      Preview(content, maxLength)
    }
  }

  // ---------------------------------------------------------------------------
  // Analysis
  // ---------------------------------------------------------------------------

  const PositiveWords: seq<string> :=
    ["good", "great", "happy", "joy", "love", "wonderful", "amazing", "excellent", "positive"]
  const NegativeWords: seq<string> :=
    ["bad", "sad", "angry", "hate", "terrible", "awful", "negative", "difficult", "hard"]

  /** `word.toLowerCase().replace(/[^a-z]/g, '')`. */
  function CleanWord(word: string): (r: string)
    ensures forall c :: c in r ==> 'a' <= c <= 'z'
    ensures |r| <= |word|
  {
    if word == [] then []
    else
      var c := LowerChar(word[0]);
      (if 'a' <= c <= 'z' then [c] else []) + CleanWord(word[1..])
  }

  predicate IsLetter(c: char) {
    'a' <= c <= 'z' || 'A' <= c <= 'Z'
  }

  /** Cleaning works character by character: it distributes over concatenation. */
  lemma {:induction false} CleanWordAppend(a: string, b: string)
    ensures CleanWord(a + b) == CleanWord(a) + CleanWord(b)
  {
    if a == [] {
      assert a + b == b;
    } else {
      CleanWordAppend(a[1..], b);
      var c := LowerChar(a[0]);
      var head: string := if 'a' <= c <= 'z' then [c] else [];
      assert (a + b)[0] == a[0] && (a + b)[1..] == a[1..] + b;
      assert CleanWord(a + b) == head + CleanWord(a[1..] + b);
      assert CleanWord(a) == head + CleanWord(a[1..]);
      AppendAssoc(head, CleanWord(a[1..]), CleanWord(b));
    }
  }

  /** A word made of letters only cleans to its lowercase form ("Happy" to
      "happy"); any other character is dropped ("!" to ""). */
  lemma {:induction false} CleanWordLetters(word: string)
    ensures (forall i :: 0 <= i < |word| ==> IsLetter(word[i])) ==> CleanWord(word) == Lower(word)
    ensures |word| == 1 && !IsLetter(word[0]) ==> CleanWord(word) == ""
  {
    if word != [] && forall i :: 0 <= i < |word| ==> IsLetter(word[i]) {
      var t := word[1..];
      assert forall i :: 0 <= i < |t| ==> IsLetter(t[i]) by {
        forall i | 0 <= i < |t| ensures IsLetter(t[i]) { assert t[i] == word[i + 1]; }
      }
      CleanWordLetters(t);
      assert Lower(word) == [LowerChar(word[0])] + Lower(t);
    }
  }

  /** The number of words whose cleaned form is in `list`. */
  function CountIn(words: seq<string>, list: seq<string>): (r: nat)
    ensures r <= |words|
  {
    if words == [] then 0
    else CountIn(words[..|words| - 1], list) + (if CleanWord(words[|words| - 1]) in list then 1 else 0)
  }

  /** No word is both positive and negative, so the two counts never exceed
      the number of words. */
  lemma {:induction false} CountsDisjoint(words: seq<string>)
    ensures CountIn(words, PositiveWords) + CountIn(words, NegativeWords) <= |words|
  {
    if words != [] {
      CountsDisjoint(words[..|words| - 1]);
      var w := CleanWord(words[|words| - 1]);
      assert !(w in PositiveWords && w in NegativeWords);
    }
  }

  datatype Sentiment = Positive | Negative | Neutral

  datatype Analysis = Analysis(
    wordCount: nat,
    sentenceCount: nat,
    paragraphCount: nat,
    readingTime: nat,
    sentiment: Sentiment,
    positiveWords: nat,
    negativeWords: nat)

  /** `analyzeContent`. Words are the whitespace runs; sentences and
      paragraphs are the non-blank pieces of `split(/[.!?]+/)` and
      `split(/\n\s*\n/)`; reading time is whole minutes at 200 words a
      minute, rounded up. */
  method AnalyzeContent(content: string) returns (a: Analysis)
    ensures a.wordCount == |Words(content)| == CalculateWordCount(content)
    ensures a.sentenceCount == |NonBlank(SplitOnRuns(content, Terminators))|
    ensures a.paragraphCount == |NonBlank(Paragraphs(content))|
    ensures a.positiveWords == CountIn(Words(content), PositiveWords)
    ensures a.negativeWords == CountIn(Words(content), NegativeWords)
    ensures a.positiveWords + a.negativeWords <= a.wordCount
    ensures a.sentiment == Positive <==> a.positiveWords > a.negativeWords
    ensures a.sentiment == Negative <==> a.negativeWords > a.positiveWords
    ensures a.sentiment == Neutral <==> a.positiveWords == a.negativeWords
    ensures 200 * a.readingTime >= a.wordCount
    ensures a.readingTime == 0 || 200 * (a.readingTime - 1) < a.wordCount
  {
    var words := NonEmpty(SplitOnRuns(Trim(content), Whitespace));
    AnalysisWordsAreWords(content);
    var sentences := NonBlank(SplitOnRuns(content, Terminators));
    var paragraphs := NonBlank(Paragraphs(content));
    var positive, negative := CountSentimentWords(words);
    CountsDisjoint(words);
    var sentiment :=
      if positive > negative then Positive
      else if negative > positive then Negative
      else Neutral;
    a := Analysis(|words|, |sentences|, |paragraphs|, (|words| + 199) / 200,
                  sentiment, positive, negative);
  }

  /** The `forEach` over the words that counts positive and negative ones. */
  method CountSentimentWords(words: seq<string>) returns (positive: nat, negative: nat)
    ensures positive == CountIn(words, PositiveWords)
    ensures negative == CountIn(words, NegativeWords)
  {
    positive, negative := 0, 0;
    var i := 0;
    while i < |words|
      invariant i <= |words|
      invariant positive == CountIn(words[..i], PositiveWords)
      invariant negative == CountIn(words[..i], NegativeWords)
    {
      assert words[..i + 1][..i] == words[..i];
      var w := CleanWord(words[i]);
      if w in PositiveWords {
        positive := positive + 1;
      }
      if w in NegativeWords {
        negative := negative + 1;
      }
      i := i + 1;
    }
    assert words[..i] == words;
  }

  // ---------------------------------------------------------------------------
  // The entry list
  // ---------------------------------------------------------------------------

  /** `r` is `s` with some elements left out, in the same order. */
  ghost predicate SubsequenceOf<T>(r: seq<T>, s: seq<T>)
    decreases |s|
  {
    if r == [] then true
    else if s == [] then false
    else (r[0] == s[0] && SubsequenceOf(r[1..], s[1..])) || SubsequenceOf(r, s[1..])
  }

  /** `entries.filter(entry => entry.type === filter)`, skipped for 'all'. */
  function ByType(es: seq<JournalEntry>, filter: string): (r: seq<JournalEntry>)
    ensures forall i :: 0 <= i < |r| ==> r[i] in es && (filter == "all" || r[i].entryType == filter)
    ensures forall i :: 0 <= i < |es| && (filter == "all" || es[i].entryType == filter) ==> es[i] in r
    ensures SubsequenceOf(r, es)
  {
    if es == [] then []
    else if filter == "all" || es[0].entryType == filter then [es[0]] + ByType(es[1..], filter)
    else ByType(es[1..], filter)
  }

  /** The lowercased content contains the (already lowercased) search term;
      an empty term matches everything. */
  predicate MatchesSearch(e: JournalEntry, searchTerm: string)
    reads e
  {
    searchTerm == "" || Contains(Lower(e.content), searchTerm)
  }

  /** `entries.filter(entry => entry.content.toLowerCase().includes(term))`,
      skipped for an empty term. */
  function BySearch(es: seq<JournalEntry>, searchTerm: string): (r: seq<JournalEntry>)
    reads es
    ensures forall i :: 0 <= i < |r| ==> r[i] in es && MatchesSearch(r[i], searchTerm)
    ensures forall i :: 0 <= i < |es| && MatchesSearch(es[i], searchTerm) ==> es[i] in r
    ensures SubsequenceOf(r, es)
  {
    if es == [] then []
    else if MatchesSearch(es[0], searchTerm) then [es[0]] + BySearch(es[1..], searchTerm)
    else BySearch(es[1..], searchTerm)
  }

  lemma {:induction false} SubsequenceTrans<T>(a: seq<T>, b: seq<T>, c: seq<T>)
    requires SubsequenceOf(a, b) && SubsequenceOf(b, c)
    ensures SubsequenceOf(a, c)
    decreases |c|
  {
    if a != [] && c != [] {
      if b[0] == c[0] && SubsequenceOf(b[1..], c[1..]) {
        if a[0] == b[0] && SubsequenceOf(a[1..], b[1..]) {
          SubsequenceTrans(a[1..], b[1..], c[1..]);
        } else {
          SubsequenceTrans(a, b[1..], c[1..]);
        }
      } else {
        SubsequenceTrans(a, b, c[1..]);
      }
    }
  }

  /** The entries `renderEntries` shows: stored entries, in the stored order,
      each of which passes the type filter and matches the search. */
  function VisibleEntries(es: seq<JournalEntry>, filter: string, searchTerm: string): (r: seq<JournalEntry>)
    reads es
    ensures SubsequenceOf(r, es)
    ensures forall i :: 0 <= i < |r| ==>
      (filter == "all" || r[i].entryType == filter) && MatchesSearch(r[i], searchTerm)
  {
    SubsequenceTrans(BySearch(ByType(es, filter), searchTerm), ByType(es, filter), es);
    BySearch(ByType(es, filter), searchTerm)
  }

  /** Conversely, every stored entry that passes both filters is shown. */
  lemma VisibleEntriesCharacterized(es: seq<JournalEntry>, filter: string, searchTerm: string)
    ensures forall e :: e in VisibleEntries(es, filter, searchTerm) <==>
      e in es && (filter == "all" || e.entryType == filter) && MatchesSearch(e, searchTerm)
  {
  }

  /** `entries.filter(e => e.id !== id)`. */
  function WithoutId(es: seq<JournalEntry>, id: string): (r: seq<JournalEntry>)
    ensures forall i :: 0 <= i < |r| ==> r[i] in es && r[i].id != id
    ensures forall i :: 0 <= i < |es| && es[i].id != id ==> es[i] in r
    ensures |r| <= |es|
  {
    if es == [] then []
    else if es[0].id != id then [es[0]] + WithoutId(es[1..], id)
    else WithoutId(es[1..], id)
  }

  predicate UniqueIds(es: seq<JournalEntry>) {
    forall i, j :: 0 <= i < j < |es| ==> es[i].id != es[j].id
  }

  lemma {:induction false} WithoutAbsentId(es: seq<JournalEntry>, id: string)
    requires forall i :: 0 <= i < |es| ==> es[i].id != id
    ensures WithoutId(es, id) == es
  {
    if es != [] {
      WithoutAbsentId(es[1..], id);
    }
  }

  /** Deleting an entry by id and putting it back in front gives the same
      entries, when ids are unique. */
  lemma {:induction false} DeleteThenRestore(es: seq<JournalEntry>, e: JournalEntry)
    requires UniqueIds(es) && e in es
    ensures multiset([e] + WithoutId(es, e.id)) == multiset(es)
    ensures |WithoutId(es, e.id)| == |es| - 1
  {
    UniqueIdsTail(es);
    HeadTail(es);
    if es[0] == e {
      WithoutAbsentId(es[1..], e.id);
    } else {
      assert e in es[1..];
      DeleteThenRestore(es[1..], e);
      DeleteThenRestoreStep(es, e);
    }
  }

  lemma UniqueIdsTail(es: seq<JournalEntry>)
    requires UniqueIds(es) && es != []
    ensures UniqueIds(es[1..])
    ensures forall i :: 0 <= i < |es[1..]| ==> es[1..][i].id != es[0].id
  {
    assert forall i :: 0 <= i < |es[1..]| ==> es[1..][i] == es[i + 1];
  }

  /** `DeleteThenRestore` when `e` is not the head, from the claim for the tail. */
  lemma DeleteThenRestoreStep(es: seq<JournalEntry>, e: JournalEntry)
    requires es != [] && es[0].id != e.id && es == [es[0]] + es[1..]
    requires multiset([e] + WithoutId(es[1..], e.id)) == multiset(es[1..])
    requires |WithoutId(es[1..], e.id)| == |es[1..]| - 1
    ensures multiset([e] + WithoutId(es, e.id)) == multiset(es)
    ensures |WithoutId(es, e.id)| == |es| - 1
  {
    var w := WithoutId(es[1..], e.id);
    assert WithoutId(es, e.id) == [es[0]] + w;
    assert multiset([e] + ([es[0]] + w)) == multiset([es[0]]) + multiset([e] + w);
  }

  /** The journal page's state. */
  class JournalApp {
    var entries: seq<JournalEntry>
    var currentEntry: JournalEntry?
    var filter: string
    var searchTerm: string
    var deletedEntry: JournalEntry?

    constructor ()
      ensures entries == [] && currentEntry == null && deletedEntry == null
      ensures filter == "all" && searchTerm == ""
    {
      entries := [];
      currentEntry := null;
      filter := "all";
      searchTerm := "";
      deletedEntry := null;
    }

    /** The search box handler stores the term lowercased. */
    method SetSearchTerm(value: string)
      modifies this
      ensures searchTerm == Lower(value)
      ensures entries == old(entries) && currentEntry == old(currentEntry)
      ensures filter == old(filter) && deletedEntry == old(deletedEntry)
    {
      searchTerm := Lower(value);
    }

    function Visible(): seq<JournalEntry>
      reads this, entries
    {
      VisibleEntries(entries, filter, searchTerm)
    }

    /** `saveEntry`. `edited` is the editor text with any copied timestamp
        lines already removed; `saveOk` is the outcome of the file write.
        Blank text changes nothing. A selected entry is updated in place
        (and stays updated even if the write fails). Otherwise a new entry
        goes to the front and becomes current; a failed write takes it out
        again and clears the selection. */
    method SaveEntry(edited: string, newId: string, now: string, dateLabel: string, saveOk: bool)
      modifies this, currentEntry
      ensures filter == old(filter) && searchTerm == old(searchTerm)
      ensures deletedEntry == old(deletedEntry)
      ensures IsBlank(edited) ==>
        entries == old(entries) && currentEntry == old(currentEntry) &&
        (currentEntry != null ==> unchanged(currentEntry))
      ensures !IsBlank(edited) && old(currentEntry) != null ==>
        entries == old(entries) && currentEntry == old(currentEntry) &&
        currentEntry.Valid() && currentEntry.content == Trim(edited) && currentEntry.updated == now
      ensures !IsBlank(edited) && old(currentEntry) == null && saveOk ==>
        currentEntry != null && fresh(currentEntry) && entries == [currentEntry] + old(entries) &&
        currentEntry.Valid() && currentEntry.content == Trim(edited) &&
        currentEntry.id == newId && currentEntry.entryType == "personal"
      ensures !IsBlank(edited) && old(currentEntry) == null && !saveOk ==>
        entries == old(entries) && currentEntry == null
    {
      var clean := Trim(edited);
      TrimEmptyIffBlank(edited);
      if clean == "" {
        return;
      }
      if currentEntry != null {
        currentEntry.UpdateContent(clean, now);
      } else {
        SaveNewEntry(clean, newId, now, dateLabel, saveOk);
      }
    }

    /** The branch of `saveEntry` with no entry selected. */
    method SaveNewEntry(clean: string, newId: string, now: string, dateLabel: string, saveOk: bool)
      requires currentEntry == null
      modifies this
      ensures filter == old(filter) && searchTerm == old(searchTerm)
      ensures deletedEntry == old(deletedEntry)
      ensures saveOk ==>
        currentEntry != null && fresh(currentEntry) && entries == [currentEntry] + old(entries) &&
        currentEntry.Valid() && currentEntry.content == clean &&
        currentEntry.id == newId && currentEntry.entryType == "personal"
      ensures !saveOk ==> entries == old(entries) && currentEntry == null
    {
      var e := new JournalEntry(newId, clean, "personal", "", now, dateLabel);
      Unshift(e);
      if !saveOk {
        Shift();
      }
    }

    /** `entries.unshift(e)` and the selection of `e`. */
    method Unshift(e: JournalEntry)
      modifies this
      ensures entries == [e] + old(entries) && currentEntry == e
      ensures filter == old(filter) && searchTerm == old(searchTerm) && deletedEntry == old(deletedEntry)
    {
      entries, currentEntry := [e] + entries, e;
    }

    /** `entries.shift()` and clearing the selection. */
    method Shift()
      requires entries != []
      modifies this
      ensures entries == old(entries)[1..] && currentEntry == null
      ensures filter == old(filter) && searchTerm == old(searchTerm) && deletedEntry == old(deletedEntry)
    {
      entries, currentEntry := entries[1..], null;
    }

    /** `confirmDelete`: with an entry selected, it is remembered for undo;
        only when the file delete succeeded is it removed by id and the
        selection cleared. */
    method ConfirmDelete(deleteOk: bool)
      modifies this
      ensures filter == old(filter) && searchTerm == old(searchTerm)
      ensures old(currentEntry) == null ==>
        entries == old(entries) && currentEntry == null && deletedEntry == old(deletedEntry)
      ensures old(currentEntry) != null ==> deletedEntry == old(currentEntry)
      ensures old(currentEntry) != null && deleteOk ==>
        entries == WithoutId(old(entries), old(currentEntry).id) && currentEntry == null
      ensures old(currentEntry) != null && !deleteOk ==>
        entries == old(entries) && currentEntry == old(currentEntry)
    {
      if currentEntry != null {
        deletedEntry := currentEntry;
        if deleteOk {
          entries := WithoutId(entries, currentEntry.id);
          currentEntry := null;
        }
      }
    }

    /** The Undo button: the deleted entry goes back to the front and is
        forgotten. */
    method HandleNotificationAction()
      modifies this
      ensures filter == old(filter) && searchTerm == old(searchTerm)
      ensures currentEntry == old(currentEntry) && deletedEntry == null
      ensures old(deletedEntry) != null ==> entries == [old(deletedEntry)] + old(entries)
      ensures old(deletedEntry) == null ==> entries == old(entries)
    {
      if deletedEntry != null {
        entries := [deletedEntry] + entries;
        deletedEntry := null;
      }
    }
  }
}
