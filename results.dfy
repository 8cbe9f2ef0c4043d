/**
 * The analysis record shown to the user and the display rules of the
 * results panel (src/components/AnalysisResults.tsx): the colour band of a
 * score, its background, the match label, the loading skeleton and the
 * missing-keyword panel.
 */
module Results {

  datatype ToneAnalysis = ToneAnalysis(score: int, feedback: string)

  datatype AtsOptimization = AtsOptimization(score: int, suggestions: seq<string>)

  /** The shape of an analysis, whether it came from the language model or from
      the local heuristic. */
  datatype AnalysisData = AnalysisData(
    matchScore: int,
    missingKeywords: seq<string>,
    suggestedImprovements: seq<string>,
    strengths: seq<string>,
    toneAnalysis: ToneAnalysis,
    atsOptimization: AtsOptimization)

  /** The three bands a score can fall in, from best to worst. */
  datatype Band = Success | Warning | Destructive

  /** The shared thresholds: 80 and above is good news, 60 to 79 a warning,
      anything lower calls for action. */
  function BandOf(score: int): Band {
    if score >= 80 then Success else if score >= 60 then Warning else Destructive
  }

  /** Higher is better. */
  function Rank(b: Band): nat {
    match b
    case Destructive => 0
    case Warning => 1
    case Success => 2
  }

  function BandName(b: Band): string {
    match b
    case Success => "success"
    case Warning => "warning"
    case Destructive => "destructive"
  }

  function BandLabel(b: Band): string {
    match b
    case Success => "Excellent"
    case Warning => "Good"
    case Destructive => "Needs Improvement"
  }

  /** `getScoreColor`: the text colour class of a score. */
  function ScoreColor(score: int): (cls: string)
    ensures cls == "text-" + BandName(BandOf(score))
  {
    if score >= 80 then "text-success"
    else if score >= 60 then "text-warning"
    else "text-destructive"
  }

  /** `getScoreBg`: the background class of a score. */
  function ScoreBg(score: int): (cls: string)
    ensures cls == "bg-" + BandName(BandOf(score))
  {
    if score >= 80 then "bg-success"
    else if score >= 60 then "bg-warning"
    else "bg-destructive"
  }

  /** The word shown beside the match score. */
  function MatchLabel(score: int): (text: string)
    ensures text == BandLabel(BandOf(score))
  {
    if score >= 80 then "Excellent"
    else if score >= 60 then "Good"
    else "Needs Improvement"
  }

  /** The colour class and the background class always name the same band. */
  lemma ColorAndBackgroundAgree(score: int)
    ensures ScoreColor(score)[5..] == ScoreBg(score)[3..]
  {
  }

  /** Raising a score never moves it to a worse band. */
  lemma BandMonotone(lo: int, hi: int)
    requires lo <= hi
    ensures Rank(BandOf(lo)) <= Rank(BandOf(hi))
  {
  }

  /** What the missing-keyword card shows. */
  datatype KeywordPanel = AllKeywordsPresent | Badges(keywords: seq<string>)

  /** What the results panel shows. */
  datatype Screen =
    | Skeleton
    | Report(
        matchScore: int,
        matchColor: string,
        matchLabel: string,
        keywords: KeywordPanel,
        strengths: seq<string>,
        improvements: seq<string>,
        toneScore: int,
        toneColor: string,
        toneFeedback: string,
        atsScore: int,
        atsColor: string,
        atsSuggestions: seq<string>)

  /** The results panel: a skeleton while loading, otherwise the analysis with
      its scores coloured by band. */
  function Render(analysis: AnalysisData, isLoading: bool): (screen: Screen)
    ensures screen.Skeleton? <==> isLoading
    ensures screen.Report? ==>
      && screen.matchScore == analysis.matchScore
      && screen.matchColor == "text-" + BandName(BandOf(analysis.matchScore))
      && screen.matchLabel == BandLabel(BandOf(analysis.matchScore))
      && screen.toneColor == "text-" + BandName(BandOf(analysis.toneAnalysis.score))
      && screen.atsColor == "text-" + BandName(BandOf(analysis.atsOptimization.score))
    ensures screen.Report? ==>
      && (screen.keywords.AllKeywordsPresent? <==> analysis.missingKeywords == [])
      && (screen.keywords.Badges? ==> screen.keywords.keywords == analysis.missingKeywords)
    ensures screen.Report? ==>
      && screen.strengths == analysis.strengths
      && screen.improvements == analysis.suggestedImprovements
      && screen.atsSuggestions == analysis.atsOptimization.suggestions
    ensures screen.Report? ==>
      && screen.toneScore == analysis.toneAnalysis.score
      && screen.toneFeedback == analysis.toneAnalysis.feedback
      && screen.atsScore == analysis.atsOptimization.score
  {
    if isLoading then Skeleton
    else
      Report(
        analysis.matchScore,
        ScoreColor(analysis.matchScore),
        MatchLabel(analysis.matchScore),
        if |analysis.missingKeywords| > 0 then Badges(analysis.missingKeywords) else AllKeywordsPresent,
        analysis.strengths,
        analysis.suggestedImprovements,
        analysis.toneAnalysis.score,
        ScoreColor(analysis.toneAnalysis.score),
        analysis.toneAnalysis.feedback,
        analysis.atsOptimization.score,
        ScoreColor(analysis.atsOptimization.score),
        analysis.atsOptimization.suggestions)
  }
}
