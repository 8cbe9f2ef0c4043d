/**
 * The local fallback analyser of the main page (src/pages/Index.tsx): it
 * tokenises the resume and the job description, compares the distinct
 * tokens, and derives a match score, missing keywords, suggestions,
 * strengths and two layout scores without calling the language model.
 */
module Analyzer {
  import opened Wrappers
  import opened Text
  import opened Sequences
  import opened Results

  // ---------------------------------------------------------------------------
  // Tokenisation
  // ---------------------------------------------------------------------------

  predicate NotSpace(c: char) {
    !IsSpace(c)
  }

  /** A token: a non-empty run of `[a-z0-9]`. */
  ghost predicate IsToken(w: string) {
    w != [] && forall i :: 0 <= i < |w| ==> IsWordChar(w[i])
  }

  /** One character of `replace(/[^a-z0-9\s]/g, ' ')`. */
  function Scrub(c: char): (d: char)
    ensures IsWordChar(d) || IsSpace(d)
    ensures IsWordChar(c) ==> d == c
    ensures !IsWordChar(c) ==> IsSpace(d)
  {
    if IsWordChar(c) || IsSpace(c) then c else ' '
  }

  /** `replace(/[^a-z0-9\s]/g, ' ')`: every character other than a lower-case
      letter, a digit or white space becomes a space. */
  function ScrubAll(s: string): (r: string)
    ensures |r| == |s| && forall i :: 0 <= i < |s| ==> r[i] == Scrub(s[i])
  {
    seq(|s|, i requires 0 <= i < |s| => Scrub(s[i]))
  }

  /** The length of the run of non-space characters that starts `s`. */
  function RunLength(s: string): (n: nat)
    requires s != [] && !IsSpace(s[0])
    ensures 1 <= n <= |s|
    ensures forall i :: 0 <= i < n ==> !IsSpace(s[i])
    ensures n == |s| || IsSpace(s[n])
  {
    if |s| == 1 || IsSpace(s[1]) then 1 else 1 + RunLength(s[1..])
  }

  /** `split(/\s+/).filter(Boolean)`: the maximal runs of non-space characters,
      in order, with the empty pieces that `split` leaves at either end dropped. */
  function Words(s: string): (ws: seq<string>)
    ensures forall k :: 0 <= k < |ws| ==> ws[k] != []
    ensures forall k, c :: 0 <= k < |ws| && c in ws[k] ==> c in s && !IsSpace(c)
    decreases |s|
  {
    if s == [] then []
    else if IsSpace(s[0]) then
      assert forall c :: c in s[1..] ==> c in s;
      Words(s[1..])
    else
      var n := RunLength(s);
      assert forall c :: c in s[..n] ==> c in s && !IsSpace(c);
      assert forall c :: c in s[n..] ==> c in s;
      [s[..n]] + Words(s[n..])
  }

  /** `tokenize`: lower-case, blank out everything but letters, digits and
      white space, then split on white space. */
  function Tokenize(text: string): (tokens: seq<string>)
    ensures forall k :: 0 <= k < |tokens| ==> IsToken(tokens[k])
  {
    var scrubbed := ScrubAll(Lower(text));
    var tokens := Words(scrubbed);
    assert forall c :: c in scrubbed ==> IsWordChar(c) || IsSpace(c);
    assert forall k, c :: 0 <= k < |tokens| && c in tokens[k] ==> IsWordChar(c);
    tokens
  }

  /** Concatenating the words gives back every non-space character, in order. */
  lemma {:induction false} WordsKeepText(s: string)
    ensures Flatten(Words(s)) == Filter(s, NotSpace)
    decreases |s|
  {
    if s != [] {
      if IsSpace(s[0]) {
        WordsKeepText(s[1..]);
      } else {
        var n := RunLength(s);
        WordsKeepText(s[n..]);
        var ws := [s[..n]] + Words(s[n..]);
        assert ws[0] == s[..n] && ws[1..] == Words(s[n..]);
        assert s[..n] + s[n..] == s;
        FilterAppend(s[..n], s[n..], NotSpace);
        FilterKeepsAll(s[..n], NotSpace);
      }
    }
  }

  lemma {:induction false} ScrubKeepsWordChars(s: string)
    ensures Filter(ScrubAll(s), NotSpace) == Filter(s, IsWordChar)
    decreases |s|
  {
    if s != [] {
      assert ScrubAll(s)[1..] == ScrubAll(s[1..]);
      ScrubKeepsWordChars(s[1..]);
    }
  }

  /** No letter or digit is lost or invented: the tokens, concatenated, are
      exactly the letters and digits of the lower-cased text, in order. */
  lemma TokenizeKeepsText(text: string)
    ensures Flatten(Tokenize(text)) == Filter(Lower(text), IsWordChar)
  {
    WordsKeepText(ScrubAll(Lower(text)));
    ScrubKeepsWordChars(Lower(text));
  }

  /** The run at the front of a word followed by white space, or by nothing,
      is that word. */
  lemma RunLengthOfWord(w: string, t: string)
    requires w != [] && forall i :: 0 <= i < |w| ==> !IsSpace(w[i])
    requires t == [] || IsSpace(t[0])
    ensures RunLength(w + t) == |w|
  {
    var s := w + t;
    assert forall i :: 0 <= i < |w| ==> s[i] == w[i];
    assert t != [] ==> s[|w|] == t[0];
    assert |w| == |s| || IsSpace(s[|w|]);
  }

  /** Words break exactly at white space: splitting words joined by single
      spaces gives the words back. */
  lemma {:induction false} WordsJoin(ws: seq<string>)
    requires forall k :: 0 <= k < |ws| ==> ws[k] != [] && forall i :: 0 <= i < |ws[k]| ==> !IsSpace(ws[k][i])
    ensures Words(Join(ws, " ")) == ws
    decreases |ws|
  {
    if |ws| == 1 {
      RunLengthOfWord(ws[0], []);
      assert ws[0] + [] == ws[0];
    } else if |ws| > 1 {
      var rest := Join(ws[1..], " ");
      var s := ws[0] + (" " + rest);
      assert s == Join(ws, " ");
      RunLengthOfWord(ws[0], " " + rest);
      assert s[..|ws[0]|] == ws[0] && s[|ws[0]|..] == " " + rest;
      assert (" " + rest)[1..] == rest;
      WordsJoin(ws[1..]);
    }
  }

  /** Tokens joined by spaces hold only letters, digits and spaces. */
  lemma {:induction false} JoinedTokensChars(ws: seq<string>)
    requires forall k :: 0 <= k < |ws| ==> IsToken(ws[k])
    ensures forall c :: c in Join(ws, " ") ==> IsWordChar(c) || c == ' '
    decreases |ws|
  {
    if |ws| > 1 {
      JoinedTokensChars(ws[1..]);
      assert forall c :: c in ws[0] ==> IsWordChar(c);
    } else if |ws| == 1 {
      assert forall c :: c in ws[0] ==> IsWordChar(c);
    }
  }

  /** Lower-casing and blanking leave a text of letters, digits and spaces alone. */
  lemma ScrubLowerKeeps(j: string)
    requires forall i :: 0 <= i < |j| ==> IsWordChar(j[i]) || j[i] == ' '
    ensures ScrubAll(Lower(j)) == j
  {
    var l := Lower(j);
    assert l == j by {
      forall i | 0 <= i < |j| ensures l[i] == j[i] {
        assert l[i] == LowerChar(j[i]);
      }
    }
  }

  /** `tokenize` splits exactly at white space: tokens joined by spaces are
      tokenised back into the same tokens, so "react native" gives two. */
  lemma TokenizeJoin(ws: seq<string>)
    requires forall k :: 0 <= k < |ws| ==> IsToken(ws[k])
    ensures Tokenize(Join(ws, " ")) == ws
  {
    var j := Join(ws, " ");
    JoinedTokensChars(ws);
    forall i | 0 <= i < |j| ensures IsWordChar(j[i]) || j[i] == ' ' {
      assert j[i] in j;
    }
    ScrubLowerKeeps(j);
    WordsJoin(ws);
  }

  // ---------------------------------------------------------------------------
  // Scores
  // ---------------------------------------------------------------------------

  function Min(a: int, b: int): int { if a <= b then a else b }

  function Max(a: int, b: int): int { if a >= b then a else b }

  /** `Math.round(part / whole * 100)` on exact rationals: the percentage
      rounded to the nearest integer, halves rounded up. */
  function RoundedPercent(part: nat, whole: nat): (p: nat)
    requires whole > 0
    ensures 2 * whole * p <= 200 * part + whole < 2 * whole * (p + 1)
  {
    (200 * part + whole) / (2 * whole)
  }

  /** A part at least as large as the whole rounds to at least 100 percent. */
  lemma RoundedPercentFull(part: nat, whole: nat)
    requires 0 < whole <= part
    ensures RoundedPercent(part, whole) >= 100
  {
    var p := RoundedPercent(part, whole);
    assert 200 * whole + whole <= 200 * part + whole < 2 * whole * (p + 1);
    CancelFactor(2 * whole, 100, p + 1);
  }

  /** A share rounds below 100 exactly when it is below 99.5 percent. */
  lemma RoundedPercentAgainstCap(part: nat, whole: nat)
    requires whole > 0
    ensures 200 * part + whole < 200 * whole <==> RoundedPercent(part, whole) < 100
  {
    var p := RoundedPercent(part, whole);
    if 200 * part + whole < 200 * whole {
      CancelFactor(2 * whole, p, 100);
    } else {
      CancelFactor(2 * whole, 100, p + 1);
    }
  }

  lemma CancelFactor(x: nat, a: int, b: int)
    requires x * a < x * b
    ensures a < b
  {
  }

  /** The coverage of the important job tokens by the common tokens, kept in
      0..100: 0 without important tokens, 100 once the share rounds to 100 or
      more, and the share rounded half up below that. */
  function MatchScore(common: nat, important: nat): (score: int)
    ensures 0 <= score <= 100
    ensures important == 0 ==> score == 0
    ensures important > 0 && 200 * common + important < 200 * important ==>
      2 * important * score <= 200 * common + important < 2 * important * (score + 1)
    ensures important > 0 && 200 * common + important >= 200 * important ==> score == 100
  {
    if important == 0 then 0
    else
      RoundedPercentAgainstCap(common, important);
      Max(0, Min(100, RoundedPercent(common, important)))
  }

  /** The tone heuristic: 60, plus 5 for every full 2000 characters, at most 100. */
  function ToneScore(length: nat): (score: int)
    ensures 60 <= score <= 100
    ensures score == Min(100, 60 + 5 * (length / 2000))
  {
    Min(100, Max(40, 60 + (length / 2000) * 5))
  }

  /** The ATS heuristic: 70, minus 5 for every tab or pipe, at least 40. */
  function AtsScore(marks: nat): (score: int)
    ensures 40 <= score <= 70
    ensures score == Max(40, 70 - 5 * marks)
  {
    Min(100, Max(40, 70 - marks * 5))
  }

  /** A longer resume never gets a lower tone score. */
  lemma ToneMonotone(shorter: nat, longer: nat)
    requires shorter <= longer
    ensures ToneScore(shorter) <= ToneScore(longer)
  {
  }

  /** More tabs and pipes never raise the ATS score. */
  lemma AtsAntitone(fewer: nat, more: nat)
    requires fewer <= more
    ensures AtsScore(more) <= AtsScore(fewer)
  {
  }

  /** JavaScript's `length`: UTF-16 code units, two for a code point above U+FFFF. */
  function Utf16Length(s: string): (n: nat)
    ensures |s| <= n <= 2 * |s|
  {
    if s == [] then 0 else (if s[0] as int > 0xFFFF then 2 else 1) + Utf16Length(s[1..])
  }

  predicate IsLayoutMark(c: char) {
    c == '\t' || c == '|'
  }

  /** The number of matches of `/\t|\|/g`. */
  function LayoutMarks(s: string): (n: nat)
    ensures n == Count(s, '\t') + Count(s, '|')
    ensures n <= |s|
  {
    LayoutMarksCounted(s);
    |Filter(s, IsLayoutMark)|
  }

  /** Every tab and every pipe is one match, and nothing else is. */
  lemma {:induction false} LayoutMarksCounted(s: string)
    ensures |Filter(s, IsLayoutMark)| == Count(s, '\t') + Count(s, '|')
    decreases |s|
  {
    if s != [] {
      LayoutMarksCounted(s[1..]);
    }
  }

  // ---------------------------------------------------------------------------
  // The heuristic analysis
  // ---------------------------------------------------------------------------

  const MaxMissing: nat := 25
  const MaxListedMissing: nat := 10
  const MaxStrengths: nat := 8

  const KeywordSentencePrefix: string := "Incorporate missing relevant keywords: "

  const FixedSuggestions: seq<string> := [
    "Quantify achievements using metrics (%, $, time saved, impact).",
    "Align section headings and ordering with the job priorities.",
    "Use consistent tense and action verbs at the start of bullet points."
  ]

  const SkillHints: seq<string> := [
    "react", "typescript", "javascript", "node", "python", "java", "aws", "gcp",
    "azure", "sql", "docker", "kubernetes", "linux", "git", "tailwind"
  ]

  const SkillPrefix: string := "Relevant skill highlighted: "

  const DefaultStrengths: seq<string> := [
    "Clear alignment on some job requirements.",
    "Found overlap between your experience and the role needs."
  ]

  const ToneFeedback: string := "Ensure concise bullets, avoid first-person, and maintain consistent formatting."

  const AtsSuggestions: seq<string> := [
    "Use standard section headings (Experience, Education, Skills).",
    "Avoid tables, text boxes, or complex layouts.",
    "Ensure consistent bullet styles and simple fonts."
  ]

  /** Tokens longer than three characters count as important. */
  predicate IsImportant(t: string) {
    |t| > 3
  }

  predicate IsSkill(t: string) {
    t in SkillHints
  }

  function InTokens(tokens: seq<string>): string -> bool {
    t => t in tokens
  }

  function NotInTokens(tokens: seq<string>): string -> bool {
    t => t !in tokens
  }

  /** The job tokens that also occur in the resume. */
  function Common(jdTokens: seq<string>, resumeTokens: seq<string>): seq<string> {
    Filter(jdTokens, InTokens(resumeTokens))
  }

  function Important(jdTokens: seq<string>): seq<string> {
    Filter(jdTokens, IsImportant)
  }

  /** The important job tokens that the resume lacks. */
  function Lacking(jdTokens: seq<string>, resumeTokens: seq<string>): seq<string> {
    Filter(Important(jdTokens), NotInTokens(resumeTokens))
  }

  /** The first 25 of them. */
  function Missing(jdTokens: seq<string>, resumeTokens: seq<string>): seq<string> {
    Take(Lacking(jdTokens, resumeTokens), MaxMissing)
  }

  /** The sentence that lists the first ten missing keywords. */
  function KeywordSentence(missing: seq<string>): string {
    KeywordSentencePrefix + Join(Take(missing, MaxListedMissing), ", ")
  }

  /** The suggestion list that the pushes of the source build. */
  function Suggestions(missing: seq<string>): seq<string> {
    (if |missing| > 0 then [KeywordSentence(missing)] else []) + FixedSuggestions
  }

  /** The suggestion list, built as the source builds it: one push per entry. */
  method BuildSuggestions(missing: seq<string>) returns (suggestions: seq<string>)
    ensures suggestions == Suggestions(missing)
  {
    suggestions := [];
    if |missing| > 0 {
      suggestions := suggestions + [KeywordSentence(missing)];
    }
    suggestions := suggestions + [FixedSuggestions[0]];
    suggestions := suggestions + [FixedSuggestions[1]];
    suggestions := suggestions + [FixedSuggestions[2]];
  }

  function SkillSentences(skills: seq<string>): (r: seq<string>)
    ensures |r| == |skills| && forall k :: 0 <= k < |r| ==> r[k] == SkillPrefix + skills[k]
  {
    seq(|skills|, k requires 0 <= k < |skills| => SkillPrefix + skills[k])
  }

  /** One sentence per shared skill (at most eight), or two default sentences. */
  function Strengths(sharedSkills: seq<string>): seq<string> {
    if |sharedSkills| > 0 then SkillSentences(Take(sharedSkills, MaxStrengths))
    else DefaultStrengths
  }

  /** `heuristicAnalyze`. */
  function HeuristicAnalyze(resumeText: string, jdText: string): (a: AnalysisData)
    ensures 0 <= a.matchScore <= 100
    ensures |a.missingKeywords| <= MaxMissing
    ensures 1 <= |a.strengths| <= MaxStrengths
    ensures 60 <= a.toneAnalysis.score <= 100
    ensures 40 <= a.atsOptimization.score <= 70
  {
    var resumeTokens := Unique(Tokenize(resumeText));
    var jdTokens := Unique(Tokenize(jdText));
    var common := Common(jdTokens, resumeTokens);
    var important := Important(jdTokens);
    var missing := Missing(jdTokens, resumeTokens);
    var strengths := Strengths(Filter(common, IsSkill));
    AnalysisData(
      MatchScore(|common|, |important|),
      missing,
      Suggestions(missing),
      strengths,
      ToneAnalysis(ToneScore(Utf16Length(resumeText)), ToneFeedback),
      AtsOptimization(AtsScore(LayoutMarks(resumeText)), AtsSuggestions))
  }

  /** The whitelisted skills that occur in both texts, in the order of their
      first occurrence in the job description. */
  function SharedSkills(resumeText: string, jdText: string): (skills: seq<string>)
    ensures forall x :: x in skills <==> IsSkill(x) && x in Tokenize(jdText) && x in Tokenize(resumeText)
    ensures NoDuplicates(skills)
    ensures OrderedBy(skills, Tokenize(jdText))
  {
    var resumeTokens := Unique(Tokenize(resumeText));
    var jdTokens := Unique(Tokenize(jdText));
    var common := Common(jdTokens, resumeTokens);
    UniqueOrdered(Tokenize(jdText));
    FilterOrdered(jdTokens, InTokens(resumeTokens));
    FilterNoDuplicates(jdTokens, InTokens(resumeTokens));
    FilterOrdered(common, IsSkill);
    FilterNoDuplicates(common, IsSkill);
    OrderedByTransitive(Filter(common, IsSkill), common, jdTokens);
    OrderedByTransitive(Filter(common, IsSkill), jdTokens, Tokenize(jdText));
    Filter(common, IsSkill)
  }

  // ---------------------------------------------------------------------------
  // Properties of the heuristic analysis
  // ---------------------------------------------------------------------------

  /** The missing keywords: at most 25 distinct long job tokens absent from
      the resume, in job-description order, and all of them when fewer than 25. */
  lemma MissingKeywordsSpec(resumeText: string, jdText: string)
    ensures var m := HeuristicAnalyze(resumeText, jdText).missingKeywords;
      && |m| <= MaxMissing
      && (forall k :: 0 <= k < |m| ==>
            IsImportant(m[k]) && m[k] in Tokenize(jdText) && m[k] !in Tokenize(resumeText))
      && NoDuplicates(m)
      && OrderedBy(m, Tokenize(jdText))
      && (|m| < MaxMissing ==>
            forall t :: t in Tokenize(jdText) && IsImportant(t) && t !in Tokenize(resumeText) ==> t in m)
  {
    var resumeTokens := Unique(Tokenize(resumeText));
    var jdTokens := Unique(Tokenize(jdText));
    var important := Important(jdTokens);
    var lacking := Lacking(jdTokens, resumeTokens);
    var m := Missing(jdTokens, resumeTokens);
    UniqueOrdered(Tokenize(jdText));
    FilterOrdered(jdTokens, IsImportant);
    FilterNoDuplicates(jdTokens, IsImportant);
    FilterOrdered(important, NotInTokens(resumeTokens));
    FilterNoDuplicates(important, NotInTokens(resumeTokens));
    OrderedByTransitive(lacking, important, jdTokens);
    TakeOrdered(lacking, MaxMissing, jdTokens);
    OrderedByTransitive(m, jdTokens, Tokenize(jdText));
    forall k | 0 <= k < |m|
      ensures IsImportant(m[k]) && m[k] in Tokenize(jdText) && m[k] !in Tokenize(resumeText)
    {
      assert m[k] == lacking[k];
    }
    assert NoDuplicates(m) by {
      forall i, j | 0 <= i < j < |m| ensures m[i] != m[j] {
        assert m[i] == lacking[i] && m[j] == lacking[j];
      }
    }
    if |m| < MaxMissing {
      assert m == lacking;
    }
  }

  /** `slice(0, 25)` keeps the first lacking keywords: when the list is full,
      every lacking job token left out of it comes later in the job text
      than the last one listed. */
  lemma MissingKeywordsFirst(resumeText: string, jdText: string)
    ensures var m := HeuristicAnalyze(resumeText, jdText).missingKeywords;
      |m| == MaxMissing ==>
        forall t :: t in Tokenize(jdText) && IsImportant(t) && t !in Tokenize(resumeText) && t !in m ==>
          IndexOf(Tokenize(jdText), m[MaxMissing - 1]) < IndexOf(Tokenize(jdText), t)
  {
    var resumeTokens := Unique(Tokenize(resumeText));
    var jdTokens := Unique(Tokenize(jdText));
    var lacking := Lacking(jdTokens, resumeTokens);
    var m := Missing(jdTokens, resumeTokens);
    if |m| == MaxMissing {
      LackingOrdered(resumeText, jdText);
      forall t | t in Tokenize(jdText) && IsImportant(t) && t !in Tokenize(resumeText) && t !in m
        ensures IndexOf(Tokenize(jdText), m[MaxMissing - 1]) < IndexOf(Tokenize(jdText), t)
      {
        assert t in Important(jdTokens);
        TakeFirst(lacking, MaxMissing, Tokenize(jdText), t);
      }
    }
  }

  /** The lacking keywords are distinct and in job-description order. */
  lemma LackingOrdered(resumeText: string, jdText: string)
    ensures var lacking := Lacking(Unique(Tokenize(jdText)), Unique(Tokenize(resumeText)));
      NoDuplicates(lacking) && OrderedBy(lacking, Tokenize(jdText))
  {
    var resumeTokens := Unique(Tokenize(resumeText));
    var jdTokens := Unique(Tokenize(jdText));
    var important := Important(jdTokens);
    var lacking := Lacking(jdTokens, resumeTokens);
    UniqueOrdered(Tokenize(jdText));
    FilterOrdered(jdTokens, IsImportant);
    FilterNoDuplicates(jdTokens, IsImportant);
    FilterOrdered(important, NotInTokens(resumeTokens));
    FilterNoDuplicates(important, NotInTokens(resumeTokens));
    OrderedByTransitive(lacking, important, jdTokens);
    OrderedByTransitive(lacking, jdTokens, Tokenize(jdText));
  }

  /** Without a job token longer than three characters the match score is 0,
      however much the texts overlap. */
  lemma MatchScoreWithoutImportantTokens(resumeText: string, jdText: string)
    requires forall t :: t in Tokenize(jdText) ==> !IsImportant(t)
    ensures HeuristicAnalyze(resumeText, jdText).matchScore == 0
  {
    var jdTokens := Unique(Tokenize(jdText));
    FilterNone(jdTokens, IsImportant);
  }

  /** When every long job token occurs in the resume, the score is 100 and
      nothing is missing, even though short shared tokens can push the raw
      coverage above 100. */
  lemma MatchScoreFullCoverage(resumeText: string, jdText: string)
    requires exists t :: t in Tokenize(jdText) && IsImportant(t)
    requires forall t :: t in Tokenize(jdText) && IsImportant(t) ==> t in Tokenize(resumeText)
    ensures HeuristicAnalyze(resumeText, jdText).matchScore == 100
    ensures HeuristicAnalyze(resumeText, jdText).missingKeywords == []
  {
    var resumeTokens := Unique(Tokenize(resumeText));
    var jdTokens := Unique(Tokenize(jdText));
    var common := Common(jdTokens, resumeTokens);
    var important := Important(jdTokens);
    var t :| t in Tokenize(jdText) && IsImportant(t);
    assert t in important;
    FilterWeakerKeepsMore(jdTokens, InTokens(resumeTokens), IsImportant);
    RoundedPercentFull(|common|, |important|);
    FilterNone(important, NotInTokens(resumeTokens));
  }

  /** The match score of two texts in terms of their distinct tokens: 0
      without long job tokens, 100 once the shared tokens make up at least
      99.5 percent of the long job tokens, and otherwise that share rounded
      half up. */
  lemma MatchScoreRounding(resumeText: string, jdText: string)
    ensures var resumeTokens := Unique(Tokenize(resumeText));
      var jdTokens := Unique(Tokenize(jdText));
      var c := |Common(jdTokens, resumeTokens)|;
      var i := |Important(jdTokens)|;
      var score := HeuristicAnalyze(resumeText, jdText).matchScore;
      && (i == 0 ==> score == 0)
      && (i > 0 && 200 * c + i < 200 * i ==> 2 * i * score <= 200 * c + i < 2 * i * (score + 1))
      && (i > 0 && 200 * c + i >= 200 * i ==> score == 100)
  {
    var resumeTokens := Unique(Tokenize(resumeText));
    var jdTokens := Unique(Tokenize(jdText));
    var c := |Common(jdTokens, resumeTokens)|;
    var i := |Important(jdTokens)|;
    var score := MatchScore(c, i);
    assert i > 0 && 200 * c + i < 200 * i ==> 2 * i * score <= 200 * c + i < 2 * i * (score + 1);
    assert HeuristicAnalyze(resumeText, jdText).matchScore == score;
  }

  /** Three fixed suggestions, preceded by the list of the first ten missing
      keywords exactly when some keyword is missing. */
  lemma SuggestionsSpec(resumeText: string, jdText: string)
    ensures var a := HeuristicAnalyze(resumeText, jdText);
      var s := a.suggestedImprovements;
      && |s| == (if a.missingKeywords == [] then 3 else 4)
      && s[|s| - 3..] == FixedSuggestions
      && (a.missingKeywords != [] ==>
            s[0] == KeywordSentencePrefix + Join(Take(a.missingKeywords, MaxListedMissing), ", "))
  {
  }

  /** One sentence per shared whitelisted skill, at most eight, in job order;
      the two default sentences exactly when no skill is shared. */
  lemma StrengthsSpec(resumeText: string, jdText: string)
    ensures var st := HeuristicAnalyze(resumeText, jdText).strengths;
      var shared := SharedSkills(resumeText, jdText);
      && 1 <= |st| <= MaxStrengths
      && (shared == [] <==> st == DefaultStrengths)
      && (shared != [] ==>
            |st| == Min(MaxStrengths, |shared|) &&
            forall k :: 0 <= k < |st| ==> st[k] == SkillPrefix + shared[k])
  {
    var st := HeuristicAnalyze(resumeText, jdText).strengths;
    var shared := SharedSkills(resumeText, jdText);
    if shared != [] {
      assert st[0] == SkillPrefix + shared[0];
      assert st[0][0] == 'R' != DefaultStrengths[0][0];
    }
  }

  /** The heuristic tone score is never in the destructive band. */
  lemma ToneNeverDestructive(resumeText: string, jdText: string)
    ensures BandOf(HeuristicAnalyze(resumeText, jdText).toneAnalysis.score) != Destructive
    ensures ScoreColor(HeuristicAnalyze(resumeText, jdText).toneAnalysis.score) != "text-destructive"
  {
  }

  /** The heuristic ATS score never reaches the success band, and three tabs
      or pipes are enough to push it into the destructive band. */
  lemma AtsBands(resumeText: string, jdText: string)
    ensures var ats := HeuristicAnalyze(resumeText, jdText).atsOptimization.score;
      && BandOf(ats) != Success
      && (BandOf(ats) == Destructive <==> LayoutMarks(resumeText) >= 3)
  {
  }

  // ---------------------------------------------------------------------------
  // Submitting an analysis request
  // ---------------------------------------------------------------------------

  /** The outcome of pressing "analyse": the missing-information notice, or an
      analysis and whether it was computed locally. */
  datatype Submission = MissingInformation | Analyzed(analysis: AnalysisData, local: bool)

  /** `analyzeResume`: both texts must have non-blank content; the language
      model's analysis is used when it produced one (`aiResult`, absent when
      the service is not initialised or its call failed), the heuristic
      otherwise. */
  function Submit(resumeText: string, jdText: string, aiResult: Option<AnalysisData>): (s: Submission)
    ensures s.MissingInformation? <==> AllSpace(resumeText) || AllSpace(jdText)
    ensures s.Analyzed? && aiResult.Some? ==> s.analysis == aiResult.value && !s.local
    ensures s.Analyzed? && aiResult.None? ==> s.analysis == HeuristicAnalyze(resumeText, jdText) && s.local
  {
    if Trim(resumeText) == [] || Trim(jdText) == [] then MissingInformation
    else
      match aiResult
      case Some(result) => Analyzed(result, false)
      case None => Analyzed(HeuristicAnalyze(resumeText, jdText), true)
  }
}
