/**
 * The resume preview (src/components/ResumePreview.tsx): the resume text is
 * cut into lines at '\n' and each line is shown as a heading, a bullet, a
 * paragraph or an empty spacer, decided by rules tried in a fixed order.
 * An empty resume shows a placeholder instead.
 *
 * The bullet test compares the trimmed line with three markers. As written
 * the first marker is the three characters U+00E2 U+20AC U+00A2, the UTF-8
 * bytes of the bullet "•" (U+2022) read back as Windows-1252; a line that
 * starts with a real "•" is therefore not a bullet. `ClassifyAs` takes that
 * first marker as a parameter so that the line rules are stated once, for
 * the marker as written and for the bullet glyph that was evidently meant.
 */
module Preview {
  import opened Text

  /** How one line is shown, with the text it displays. */
  datatype Line =
    | Heading(text: string)
    | Bullet(text: string)
    | Paragraph(text: string)
    | Spacer

  /** The first bullet marker as the source spells it. */
  const MisencodedBullet: string := ['\U{E2}', '\U{20AC}', '\U{A2}']

  /** The bullet glyph that marker stands for. */
  const BulletGlyph: string := ['\U{2022}']

  /** A line is a heading when it is not blank and either equals its own
      upper-casing or names one of the four usual resume sections. */
  predicate IsHeading(line: string) {
    Trim(line) != [] &&
    (line == Upper(line) ||
     Contains(line, "EXPERIENCE") || Contains(line, "EDUCATION") ||
     Contains(line, "SKILLS") || Contains(line, "CONTACT"))
  }

  /** The trimmed line starts with the given first marker, "-" or "*". */
  predicate HasMarker(line: string, marker: string) {
    var t := Trim(line);
    StartsWith(t, marker) || StartsWith(t, "-") || StartsWith(t, "*")
  }

  /** The ordered if-chain of `formatResumeText` for one line, with `marker`
      as the first bullet marker: a heading first, then a bullet, then a
      paragraph, and a spacer for a blank line. */
  function ClassifyAs(line: string, marker: string): (shown: Line)
    requires marker != []
    ensures shown.Heading? <==> IsHeading(line)
    ensures shown.Bullet? <==> !IsHeading(line) && HasMarker(line, marker)
    ensures shown.Paragraph? <==> !AllSpace(line) && !IsHeading(line) && !HasMarker(line, marker)
    ensures shown == Spacer <==> AllSpace(line)
    ensures shown != Spacer ==> shown.text == Trim(line) && Trimmed(shown.text)
  {
    if IsHeading(line) then Heading(Trim(line))
    else if HasMarker(line, marker) then Bullet(Trim(line))
    else if Trim(line) != [] then Paragraph(Trim(line))
    else Spacer
  }

  /** `formatResumeText` with `marker` as the first bullet marker: one shown
      element per '\n'-separated line, in order. The source's own behaviour
      is `FormatResumeText(text, MisencodedBullet)`. */
  function FormatResumeText(text: string, marker: string): (lines: seq<Line>)
    requires marker != []
    ensures |lines| == Count(text, '\n') + 1
  {
    var pieces := Split(text, '\n');
    SplitCount(text, '\n');
    seq(|pieces|, k requires 0 <= k < |pieces| => ClassifyAs(pieces[k], marker))
  }

  /** What the preview pane holds. */
  datatype Pane = Placeholder | Lines(lines: seq<Line>)

  /** The pane shows the placeholder only for the empty string; any other
      resume, white space alone included, is formatted line by line. */
  function PreviewPane(resume: string, marker: string): (pane: Pane)
    requires marker != []
    ensures pane == Placeholder <==> resume == []
    ensures pane.Lines? ==> |pane.lines| == Count(resume, '\n') + 1
  {
    if resume == [] then Placeholder else Lines(FormatResumeText(resume, marker))
  }

  /** The download button is enabled when the trimmed resume is not empty. */
  function DownloadEnabled(resume: string): (enabled: bool)
    ensures enabled <==> !AllSpace(resume)
  {
    Trim(resume) != []
  }

  // ---------------------------------------------------------------------------
  // Properties
  // ---------------------------------------------------------------------------

  /** Lines joined by '\n' are shown one element each, in their order. */
  lemma OneElementPerLine(lines: seq<string>, marker: string)
    requires marker != []
    requires |lines| >= 1
    requires forall k :: 0 <= k < |lines| ==> '\n' !in lines[k]
    ensures var shown := FormatResumeText(Join(lines, "\n"), marker);
      |shown| == |lines| && forall k :: 0 <= k < |lines| ==> shown[k] == ClassifyAs(lines[k], marker)
  {
    SplitJoin(lines, '\n');
  }

  /** Without lower-case letters a non-blank line equals its upper-casing and
      so is a heading, even "2020" or "- ITEM". */
  lemma NoLowerCaseIsHeading(line: string, marker: string)
    requires marker != []
    requires !AllSpace(line)
    requires forall i :: 0 <= i < |line| ==> !('a' <= line[i] <= 'z')
    ensures ClassifyAs(line, marker) == Heading(Trim(line))
  {
    assert Upper(line) == line;
  }

  /** A non-blank line that names a section is a heading, before the bullet
      test is reached: "- Skills: SKILLS" is a heading, not a bullet. */
  lemma SectionNameBeatsBullet(line: string, marker: string)
    requires marker != [] && !AllSpace(line)
    requires Contains(line, "EXPERIENCE") || Contains(line, "EDUCATION") ||
             Contains(line, "SKILLS") || Contains(line, "CONTACT")
    ensures ClassifyAs(line, marker) == Heading(Trim(line))
  {
  }

  /** A line that is no heading and whose trimmed form starts with "-" or "*"
      is a bullet showing the trimmed line, whatever the first marker. */
  lemma DashOrStarLineIsBullet(line: string, marker: string)
    requires marker != [] && !IsHeading(line)
    requires StartsWith(Trim(line), "-") || StartsWith(Trim(line), "*")
    ensures ClassifyAs(line, marker) == Bullet(Trim(line))
  {
  }

  /** Every other non-blank line is a paragraph showing the trimmed line. */
  lemma OtherLineIsParagraph(line: string, marker: string)
    requires marker != [] && !AllSpace(line)
    requires !IsHeading(line) && !HasMarker(line, marker)
    ensures ClassifyAs(line, marker) == Paragraph(Trim(line))
  {
  }

  /** A resume of white space alone, not empty, shows only spacers. */
  lemma BlankResumeShowsSpacers(resume: string, marker: string)
    requires marker != []
    requires resume != [] && AllSpace(resume)
    ensures PreviewPane(resume, marker).Lines?
    ensures forall k :: 0 <= k < |PreviewPane(resume, marker).lines| ==> PreviewPane(resume, marker).lines[k] == Spacer
    ensures !DownloadEnabled(resume)
  {
    var pieces := Split(resume, '\n');
    forall k | 0 <= k < |pieces| ensures AllSpace(pieces[k]) {
      SplitPieceWithin(resume, '\n', k);
      forall i | 0 <= i < |pieces[k]| ensures IsSpace(pieces[k][i]) {
        var c := pieces[k][i];
        assert c in pieces[k];
        var j :| 0 <= j < |resume| && resume[j] == c;
      }
    }
  }

  /** Every piece that `split` gives is made of characters of the text. */
  lemma {:induction false} SplitPieceWithin(s: string, sep: char, k: nat)
    requires k < |Split(s, sep)|
    ensures forall c :: c in Split(s, sep)[k] ==> c in s
    decreases |s|
  {
    if s != [] {
      var rest := Split(s[1..], sep);
      forall c | c in s[1..] ensures c in s {
        var i :| 0 <= i < |s[1..]| && s[1..][i] == c;
        assert s[i + 1] == c;
      }
      if s[0] == sep {
        if k > 0 {
          SplitPieceWithin(s[1..], sep, k - 1);
        }
      } else if k == 0 {
        SplitPieceWithin(s[1..], sep, 0);
      } else {
        SplitPieceWithin(s[1..], sep, k);
      }
    }
  }

  // ---------------------------------------------------------------------------
  // The misencoded bullet marker
  // ---------------------------------------------------------------------------

  /** A text that starts with "•" starts with none of the markers as written. */
  lemma GlyphIsNoMarkerAsWritten(t: string)
    requires StartsWith(t, BulletGlyph)
    ensures !StartsWith(t, MisencodedBullet) && !StartsWith(t, "-") && !StartsWith(t, "*")
  {
    assert t[0] == '\U{2022}';
  }

  /** As written, a line whose trimmed form starts with "•" is never a bullet. */
  lemma GlyphLineNotBulletAsWritten(line: string)
    requires StartsWith(Trim(line), BulletGlyph)
    ensures !ClassifyAs(line, MisencodedBullet).Bullet?
  {
    GlyphIsNoMarkerAsWritten(Trim(line));
  }

  /** With the glyph as marker, such a line is a bullet unless it is a heading. */
  lemma GlyphLineIsBullet(line: string)
    requires StartsWith(Trim(line), BulletGlyph) && !IsHeading(line)
    ensures ClassifyAs(line, BulletGlyph) == Bullet(Trim(line))
  {
  }

  /** A line shorter than six characters names no section. */
  lemma ShortLineNamesNoSection(line: string)
    requires |line| < 6
    ensures !Contains(line, "EXPERIENCE") && !Contains(line, "EDUCATION")
    ensures !Contains(line, "SKILLS") && !Contains(line, "CONTACT")
  {
  }

  /** A sample bullet line, as a writer would type it. */
  const GlyphSample: string := "\U{2022} Led"

  lemma GlyphSampleTrimmed()
    ensures Trim(GlyphSample) == GlyphSample
    ensures StartsWith(Trim(GlyphSample), BulletGlyph)
  {
    var line := GlyphSample;
    assert line[..1] == BulletGlyph;
    assert !IsSpace(line[0]) && !IsSpace(line[|line| - 1]);
    TrimKeepsTrimmed(line);
  }

  /** The sample has a lower-case letter and names no section. */
  lemma GlyphSampleNotHeading()
    ensures !IsHeading(GlyphSample)
  {
    var line := GlyphSample;
    assert Upper(line)[3] == 'E' != line[3];
    ShortLineNamesNoSection(line);
  }

  /** "• Led" is shown as a paragraph as written. */
  lemma GlyphSampleParagraphAsWritten()
    ensures ClassifyAs(GlyphSample, MisencodedBullet) == Paragraph(GlyphSample)
  {
    GlyphSampleTrimmed();
    GlyphSampleNotHeading();
    GlyphIsNoMarkerAsWritten(Trim(GlyphSample));
  }

  /** "• Led" is a bullet once the glyph is the marker. */
  lemma GlyphSampleBullet()
    ensures ClassifyAs(GlyphSample, BulletGlyph) == Bullet(GlyphSample)
  {
    GlyphSampleTrimmed();
    GlyphSampleNotHeading();
    GlyphLineIsBullet(GlyphSample);
  }

  /** A resume of one line, with no newline, is shown as that line alone. */
  lemma OneLineResume(line: string, marker: string)
    requires marker != [] && line != [] && '\n' !in line
    ensures PreviewPane(line, marker) == Lines([ClassifyAs(line, marker)])
  {
    SplitNoSeparator(line, '\n');
  }

  /** The sample holds no newline. */
  lemma GlyphSampleOneLine()
    ensures GlyphSample != [] && '\n' !in GlyphSample
  {
    var line := GlyphSample;
    assert line == [line[0], line[1], line[2], line[3], line[4]];
  }

  /** As written, the pane for the resume "• Led" shows one paragraph. */
  lemma GlyphResumePaneAsWritten()
    ensures PreviewPane(GlyphSample, MisencodedBullet) == Lines([Paragraph(GlyphSample)])
  {
    GlyphSampleOneLine();
    OneLineResume(GlyphSample, MisencodedBullet);
    GlyphSampleParagraphAsWritten();
  }

  /** With the glyph as marker, the pane for "• Led" shows one bullet. */
  lemma GlyphResumePaneCorrected()
    ensures PreviewPane(GlyphSample, BulletGlyph) == Lines([Bullet(GlyphSample)])
  {
    GlyphSampleOneLine();
    OneLineResume(GlyphSample, BulletGlyph);
    GlyphSampleBullet();
  }
}
