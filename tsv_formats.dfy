/**
 * The tab-separated input formats: label/utterance TSV files (with an optional
 * header), QnA TSV exports (recognised by their header) and `.blu` snapshot
 * files (a header line followed by label/utterance lines). A file's text is
 * split on '\n' and each line on '\t'; every recognised line is folded into
 * the dataset with `AddLabelUtterance`.
 */
module TsvFormats {
  import opened Wrappers
  import opened Seqs
  import opened Text
  import opened Dataset

  /** `sub` occurs somewhere in `s`. */
  ghost predicate Contains(s: string, sub: string) {
    exists k :: 0 <= k <= |s| && OccursAt(s, sub, k)
  }

  /** `hasLabelUtteranceHeader`: "Label" anywhere, and "Text" or "Utterance" first found after position 0. */
  predicate HasLabelUtteranceHeader(header: string) {
    IndexOf(header, "Label") >= 0 && (IndexOf(header, "Text") > 0 || IndexOf(header, "Utterance") > 0)
  }

  /** `isQnATsvHeader`: "Question" anywhere, and "Answer" first found after position 0. */
  predicate IsQnATsvHeader(header: string) {
    IndexOf(header, "Question") >= 0 && IndexOf(header, "Answer") > 0
  }

  /** `indexOf(sub) >= 0` tests for an occurrence; `indexOf(sub) > 0` also rules out one at the start. */
  lemma IndexOfTests(s: string, sub: string)
    ensures IndexOf(s, sub) >= 0 <==> Contains(s, sub)
    ensures IndexOf(s, sub) > 0 <==> Contains(s, sub) && !OccursAt(s, sub, 0)
  {
    var r := IndexOf(s, sub);
    if r >= 0 {
      assert OccursAt(s, sub, r);
    }
  }

  /** The label/utterance header test in terms of occurrences. */
  lemma LabelUtteranceHeaderRule(h: string)
    ensures HasLabelUtteranceHeader(h) <==>
              && Contains(h, "Label")
              && ((Contains(h, "Text") && !OccursAt(h, "Text", 0))
                  || (Contains(h, "Utterance") && !OccursAt(h, "Utterance", 0)))
  {
    IndexOfTests(h, "Label");
    IndexOfTests(h, "Text");
    IndexOfTests(h, "Utterance");
  }

  /** The QnA header test in terms of occurrences. */
  lemma QnAHeaderRule(h: string)
    ensures IsQnATsvHeader(h) <==> Contains(h, "Question") && Contains(h, "Answer") && !OccursAt(h, "Answer", 0)
  {
    IndexOfTests(h, "Question");
    IndexOfTests(h, "Answer");
  }

  /** A label/utterance header with the text column second is recognised. */
  lemma LabelFirstHeader()
    ensures HasLabelUtteranceHeader("Label\tText")
  {
    var h := "Label\tText";
    assert h[0..5] == "Label";
    assert h[6..10] == "Text";
    assert h[0..4][0] != "Text"[0];
    LabelUtteranceHeaderRule(h);
  }

  /** A header whose text column comes first is not recognised, so it is read as a data line. */
  lemma TextFirstHeader()
    ensures !HasLabelUtteranceHeader("Text\tLabel")
  {
    var h := "Text\tLabel";
    assert h[0..4] == "Text";
    assert h[0..9][0] != "Utterance"[0];
    assert h[1..10][0] != "Utterance"[0];
    IndexOfTests(h, "Text");
    LabelUtteranceHeaderRule(h);
  }

  /** A QnA header with "Question" first is recognised. */
  lemma QuestionFirstHeader()
    ensures IsQnATsvHeader("Question\tAnswer")
  {
    var h := "Question\tAnswer";
    assert h[0..8] == "Question";
    assert h[9..15] == "Answer";
    assert h[0..6][0] != "Answer"[0];
    QnAHeaderRule(h);
  }

  /** A QnA header starting with "Answer" is not recognised. */
  lemma AnswerFirstHeader()
    ensures !IsQnATsvHeader("Answer\tQuestion")
  {
    var h := "Answer\tQuestion";
    assert h[0..6] == "Answer";
    IndexOfTests(h, "Answer");
  }

  // ----- Label/utterance lines -----

  /** `trim` applied to every element. */
  function TrimEach(ls: seq<string>): (r: seq<string>)
    ensures |r| == |ls| && forall i :: 0 <= i < |ls| ==> r[i] == Trim(ls[i])
  {
    if ls == [] then [] else TrimEach(ls[..|ls| - 1]) + [Trim(ls[|ls| - 1])]
  }

  /** The column holding the utterance: the third of exactly three outside `.blu` files, else the second. */
  function UtteranceColumn(fieldCount: nat, bluFormat: bool): nat {
    if fieldCount == 3 && !bluFormat then 2 else 1
  }

  /**
   * What one label/utterance line contributes: the trimmed utterance and its
   * comma-separated, trimmed labels, or None for a line with fewer than two fields.
   */
  function LineRecord(line: string, bluFormat: bool): Option<(string, seq<string>)> {
    var items := Split(line, '\t');
    if |items| < 2 then None
    else Some((Trim(items[UtteranceColumn(|items|, bluFormat)]), TrimEach(Split(Trim(items[0]), ','))))
  }

  /** A line contributes nothing exactly when it has no tab. */
  lemma LineRecordSkips(line: string, bluFormat: bool)
    ensures LineRecord(line, bluFormat).None? <==> '\t' !in line
  {
    SplitPieces(line, '\t');
  }

  /** A line made by joining tab-free fields with tabs yields the designated columns. */
  lemma LineRecordOfFields(fields: seq<string>, bluFormat: bool)
    requires |fields| >= 2
    requires forall i :: 0 <= i < |fields| ==> '\t' !in fields[i]
    ensures LineRecord(Join(fields, "\t"), bluFormat)
            == Some((Trim(fields[UtteranceColumn(|fields|, bluFormat)]), TrimEach(Split(Trim(fields[0]), ','))))
  {
    SplitJoin(fields, '\t');
  }

  /** Every line folded in turn, in file order. */
  function FoldLabelLines(d: UtteranceLabels, lines: seq<string>, bluFormat: bool): (r: UtteranceLabels)
    ensures Valid(d) ==> Valid(r)
  {
    if lines == [] then d
    else
      var prev := FoldLabelLines(d, lines[..|lines| - 1], bluFormat);
      match LineRecord(lines[|lines| - 1], bluFormat)
      case None => prev
      case Some(rec) => AddLabels(prev, rec.0, rec.1)
  }

  /** Folding one more line applies that line's record, if it has one, to the fold so far. */
  lemma FoldLabelLinesSnoc(d: UtteranceLabels, lines: seq<string>, i: nat, bluFormat: bool)
    requires i < |lines|
    ensures var prev := FoldLabelLines(d, lines[..i], bluFormat);
            FoldLabelLines(d, lines[..i + 1], bluFormat) ==
              match LineRecord(lines[i], bluFormat)
              case None => prev
              case Some(rec) => AddLabels(prev, rec.0, rec.1)
  {
    assert lines[..i + 1][..i] == lines[..i];
  }

  /** `tryParseLabelUtteranceTsv`: outside `.blu` files a recognised header line is dropped first. */
  function TryParseLabelUtteranceTsv(d: UtteranceLabels, lines: seq<string>, bluFormat: bool): (r: UtteranceLabels)
    requires bluFormat || |lines| > 0
    ensures Valid(d) ==> Valid(r)
  {
    if !bluFormat && HasLabelUtteranceHeader(lines[0]) then FoldLabelLines(d, lines[1..], bluFormat)
    else FoldLabelLines(d, lines, bluFormat)
  }

  /** `r` labels the utterance of `line` with each of the line's labels. */
  ghost predicate RecordsLine(r: UtteranceLabels, line: string, bluFormat: bool) {
    match LineRecord(line, bluFormat)
    case None => true
    case Some(rec) => forall l :: l in rec.1 ==> Records(r, rec.0, l)
  }

  lemma RecordsLineKept(r: UtteranceLabels, r': UtteranceLabels, line: string, bluFormat: bool)
    requires RecordsLine(r, line, bluFormat) && Includes(r', r)
    ensures RecordsLine(r', line, bluFormat)
  {
  }

  /** One step of the fold keeps every pair and records the new line. */
  lemma FoldLabelLinesStep(d: UtteranceLabels, lines: seq<string>, bluFormat: bool)
    requires lines != []
    ensures var r := FoldLabelLines(d, lines, bluFormat);
            Includes(r, FoldLabelLines(d, lines[..|lines| - 1], bluFormat)) && RecordsLine(r, lines[|lines| - 1], bluFormat)
  {
    var mid := FoldLabelLines(d, lines[..|lines| - 1], bluFormat);
    match LineRecord(lines[|lines| - 1], bluFormat)
    case None =>
    case Some(rec) => AddLabelsKeepsLabels(mid, rec.0, rec.1);
  }

  /** The fold keeps every earlier pair and records every label of every line. */
  lemma {:induction false} FoldLabelLinesRecords(d: UtteranceLabels, lines: seq<string>, bluFormat: bool)
    ensures var r := FoldLabelLines(d, lines, bluFormat);
            Includes(r, d) && forall i :: 0 <= i < |lines| ==> RecordsLine(r, lines[i], bluFormat)
  {
    if lines != [] {
      var init := lines[..|lines| - 1];
      FoldLabelLinesRecords(d, init, bluFormat);
      var mid := FoldLabelLines(d, init, bluFormat);
      var r := FoldLabelLines(d, lines, bluFormat);
      FoldLabelLinesStep(d, lines, bluFormat);
      IncludesTransitive(d, mid, r);
      forall i | 0 <= i < |lines| - 1
        ensures RecordsLine(r, lines[i], bluFormat)
      {
        assert lines[i] == init[i];
        RecordsLineKept(mid, r, init[i], bluFormat);
      }
    }
  }

  /** Lines without a tab leave the dataset as it is. */
  lemma {:induction false} FoldLabelLinesSkips(d: UtteranceLabels, lines: seq<string>, bluFormat: bool)
    requires forall i :: 0 <= i < |lines| ==> '\t' !in lines[i]
    ensures FoldLabelLines(d, lines, bluFormat) == d
  {
    if lines != [] {
      FoldLabelLinesSkips(d, lines[..|lines| - 1], bluFormat);
      LineRecordSkips(lines[|lines| - 1], bluFormat);
    }
  }

  // ----- QnA lines -----

  /** The trimmed question of a QnA line, or None for a line with fewer than two fields. */
  function QnaLineQuestion(line: string): Option<string> {
    var items := Split(line, '\t');
    if |items| < 2 then None else Some(Trim(items[0]))
  }

  function FoldQnaLines(d: UtteranceLabels, lines: seq<string>, labelName: string): (r: UtteranceLabels)
    ensures Valid(d) ==> Valid(r)
  {
    if lines == [] then d
    else
      var prev := FoldQnaLines(d, lines[..|lines| - 1], labelName);
      match QnaLineQuestion(lines[|lines| - 1])
      case None => prev
      case Some(q) => AddLabelUtterance(prev, q, labelName, "")
  }

  /** `tryParseQnATsvFile`: None when the first line is not a QnA header, else the fold of the remaining lines. */
  function TryParseQnATsv(d: UtteranceLabels, lines: seq<string>, labelName: string): (r: Option<UtteranceLabels>)
    requires |lines| > 0
    ensures Valid(d) && r.Some? ==> Valid(r.value)
  {
    if !IsQnATsvHeader(lines[0]) then None else Some(FoldQnaLines(d, lines[1..], labelName))
  }

  /** `r` labels the question of a QnA line with `labelName`, when the line has a tab. */
  ghost predicate RecordsQnaLine(r: UtteranceLabels, line: string, labelName: string) {
    '\t' in line ==> Records(r, Trim(Split(line, '\t')[0]), labelName)
  }

  lemma FoldQnaLinesStep(d: UtteranceLabels, lines: seq<string>, labelName: string)
    requires lines != []
    ensures var r := FoldQnaLines(d, lines, labelName);
            Includes(r, FoldQnaLines(d, lines[..|lines| - 1], labelName)) && RecordsQnaLine(r, lines[|lines| - 1], labelName)
  {
    var mid := FoldQnaLines(d, lines[..|lines| - 1], labelName);
    SplitPieces(lines[|lines| - 1], '\t');
    match QnaLineQuestion(lines[|lines| - 1])
    case None =>
    case Some(q) => AddLabelUtteranceKeepsLabels(mid, q, labelName, "");
  }

  /** The first column of every QnA line with a tab is recorded under `labelName`, and nothing is lost. */
  lemma {:induction false} FoldQnaLinesRecords(d: UtteranceLabels, lines: seq<string>, labelName: string)
    ensures var r := FoldQnaLines(d, lines, labelName);
            Includes(r, d) && forall i :: 0 <= i < |lines| ==> RecordsQnaLine(r, lines[i], labelName)
  {
    if lines != [] {
      var init := lines[..|lines| - 1];
      FoldQnaLinesRecords(d, init, labelName);
      var mid := FoldQnaLines(d, init, labelName);
      var r := FoldQnaLines(d, lines, labelName);
      FoldQnaLinesStep(d, lines, labelName);
      IncludesTransitive(d, mid, r);
      forall i | 0 <= i < |lines| - 1
        ensures RecordsQnaLine(r, lines[i], labelName)
      {
        assert lines[i] == init[i];
      }
    }
  }

  /**
   * The QnA fold adds no label and no duplicate entry other than `labelName`; so a
   * dataset holding only that label keeps holding only it.
   */
  lemma {:induction false} FoldQnaLinesOnlyLabel(d: UtteranceLabels, lines: seq<string>, labelName: string)
    ensures AddsOnly(FoldQnaLines(d, lines, labelName), d, labelName)
    ensures OnlyLabel(d, labelName) ==> OnlyLabel(FoldQnaLines(d, lines, labelName), labelName)
  {
    if lines != [] {
      FoldQnaLinesOnlyLabel(d, lines[..|lines| - 1], labelName);
      var mid := FoldQnaLines(d, lines[..|lines| - 1], labelName);
      var r := FoldQnaLines(d, lines, labelName);
      match QnaLineQuestion(lines[|lines| - 1])
      case None =>
      case Some(q) =>
        assert r == AddLabelUtterance(mid, q, labelName, "");
        AddLabelUtteranceAddsOnly(mid, q, labelName, "");
        AddsOnlyTransitive(d, mid, r, labelName);
    }
  }

  // ----- Whole files -----

  /** `parseBluFile`: a file of one line adds nothing; otherwise its first line is dropped and the rest folded. */
  function ParseBlu(d: UtteranceLabels, content: string): (r: UtteranceLabels)
    ensures Valid(d) ==> Valid(r)
  {
    var lines := Split(content, '\n');
    if |lines| <= 1 then d else TryParseLabelUtteranceTsv(d, lines[1..], true)
  }

  /** `parseTsvFile`: a QnA export when the first line is a QnA header, label/utterance lines otherwise. */
  function ParseTsv(d: UtteranceLabels, content: string, hierarchicalLabel: string): (r: UtteranceLabels)
    ensures Valid(d) ==> Valid(r)
  {
    var lines := Split(content, '\n');
    match TryParseQnATsv(d, lines, hierarchicalLabel)
    case Some(parsed) => parsed
    case None => TryParseLabelUtteranceTsv(d, lines, false)
  }

  /** A `.blu` file without a line break adds nothing. */
  lemma ParseBluSingleLine(d: UtteranceLabels, content: string)
    requires '\n' !in content
    ensures ParseBlu(d, content) == d
  {
    SplitNoSeparator(content, '\n');
  }

  /** A `.blu` file's first line is always dropped, whatever it holds, and every later line is read as data. */
  lemma ParseBluDropsHeader(d: UtteranceLabels, header: string, rest: string)
    requires '\n' !in header
    ensures ParseBlu(d, header + "\n" + rest) == FoldLabelLines(d, Split(rest, '\n'), true)
  {
    SplitAfterPrefix(header, '\n', rest);
    assert ([header] + Split(rest, '\n'))[1..] == Split(rest, '\n');
  }

  /** A TSV file opening with a QnA header is read as QnA pairs under the file's label. */
  lemma ParseTsvQnA(d: UtteranceLabels, header: string, rest: string, hierarchicalLabel: string)
    requires '\n' !in header && IsQnATsvHeader(header)
    ensures ParseTsv(d, header + "\n" + rest, hierarchicalLabel) == FoldQnaLines(d, Split(rest, '\n'), hierarchicalLabel)
  {
    SplitAfterPrefix(header, '\n', rest);
    assert ([header] + Split(rest, '\n'))[1..] == Split(rest, '\n');
  }

  /** A TSV file opening with a label/utterance header (and no QnA header) has that line dropped. */
  lemma ParseTsvLabelled(d: UtteranceLabels, header: string, rest: string, hierarchicalLabel: string)
    requires '\n' !in header && !IsQnATsvHeader(header) && HasLabelUtteranceHeader(header)
    ensures ParseTsv(d, header + "\n" + rest, hierarchicalLabel) == FoldLabelLines(d, Split(rest, '\n'), false)
  {
    SplitAfterPrefix(header, '\n', rest);
    assert ([header] + Split(rest, '\n'))[1..] == Split(rest, '\n');
  }

  /** A TSV file with neither header is read from its first line on. */
  lemma ParseTsvHeaderless(d: UtteranceLabels, content: string, hierarchicalLabel: string)
    requires !IsQnATsvHeader(Split(content, '\n')[0]) && !HasLabelUtteranceHeader(Split(content, '\n')[0])
    ensures ParseTsv(d, content, hierarchicalLabel) == FoldLabelLines(d, Split(content, '\n'), false)
  {
  }
}
