/**
 * The interactive prediction session (`OrchestratorPredict`): the "current"
 * utterance and intent labels, the new intent labels, the four evaluation
 * thresholds, the scanned utterance maps and the label index, changed by the
 * commandlets. Each commandlet returns a status code: 0 on success, a negative
 * code for each kind of rejected entry, and a rejected entry changes nothing.
 */
module PredictSession {
  import opened Text
  import opened Numbers
  import opened Wrappers
  import opened Seqs
  import LabelIndex

  /** A row of a validation report: the utterance and its labels joined with ','. */
  datatype ReportEntry = ReportEntry(utterance: string, labels: string)

  /** The parts of the last validation report that the commandlets read. */
  datatype EvaluationOutput = EvaluationOutput(
    labelUtterancesTotal: int,
    multiLabel: seq<ReportEntry>,
    ambiguous: seq<ReportEntry>,
    misclassified: seq<ReportEntry>,
    lowConfidence: seq<ReportEntry>)

  /** A report entry picked by index, or the status code that rejected the entry. */
  datatype Selection = Selected(utterance: string, intentLabels: seq<string>) | Rejected(code: int)

  /** The index a typed entry denotes: `Number(s)` when that is an integer. */
  function EntryIndex(indexInput: string): Option<int> {
    match ParseNumber(indexInput)
    case Some(v) => if IsInteger(v) then Some(v.Floor) else None
    case None => None
  }

  /**
   * The shared rule of `commandLetVD/VA/VM/VLwithEntry`: -2 when the report has no
   * examples, -3 for a blank entry, -5 for an entry that is not an integer, -4 for
   * an index outside the report; otherwise the indexed row, its labels split on ','.
   */
  function SelectEntry(total: int, rows: seq<ReportEntry>, entry: string): (s: Selection)
    ensures s.Rejected? ==> s.code in {-2, -3, -4, -5}
    ensures s.Rejected? <==> total <= 0 || EntryIndex(Trim(entry)).None? || Trim(entry) == []
                              || !(0 <= EntryIndex(Trim(entry)).value < |rows|)
    ensures total <= 0 ==> s == Rejected(-2)
    ensures total > 0 && Trim(entry) == [] ==> s == Rejected(-3)
    ensures total > 0 && Trim(entry) != [] && EntryIndex(Trim(entry)).None? ==> s == Rejected(-5)
    ensures (&& total > 0 && Trim(entry) != [] && EntryIndex(Trim(entry)).Some?
             && !(0 <= EntryIndex(Trim(entry)).value < |rows|)) ==> s == Rejected(-4)
    ensures s.Selected? ==> && EntryIndex(Trim(entry)).Some?
                            && 0 <= EntryIndex(Trim(entry)).value < |rows|
                            && s == Selected(rows[EntryIndex(Trim(entry)).value].utterance,
                                             Split(rows[EntryIndex(Trim(entry)).value].labels, ','))
  {
    var indexInput := Trim(entry);
    if total <= 0 then Rejected(-2)
    else if indexInput == [] then Rejected(-3)
    else match EntryIndex(indexInput)
      case None => Rejected(-5)
      case Some(index) =>
        if index < 0 || index >= |rows| then Rejected(-4)
        else Selected(rows[index].utterance, Split(rows[index].labels, ','))
  }

  /** Typing the decimal index of a row selects that row. */
  lemma SelectByIndex(total: int, rows: seq<ReportEntry>, i: nat)
    requires total > 0 && i < |rows|
    ensures SelectEntry(total, rows, NatToString(i)) == Selected(rows[i].utterance, Split(rows[i].labels, ','))
  {
    var s := NatToString(i);
    DigitsTrimmed(s);
    ParseNatToString(i);
    assert (i as real).Floor == i;
  }

  /** Surrounding whitespace is ignored: " 3 " selects the same row as "3". */
  lemma SelectIgnoresWhitespace(total: int, rows: seq<ReportEntry>, entry: string)
    ensures SelectEntry(total, rows, Trim(entry)) == SelectEntry(total, rows, entry)
  {
    TrimIdempotent(entry);
  }

  lemma TrimIdempotent(s: string)
    ensures Trim(Trim(s)) == Trim(s)
  {
    TrimIdentity(Trim(s));
  }

  /** An index at or past the end of the report is out of range. */
  lemma SelectPastEnd(total: int, rows: seq<ReportEntry>, i: nat)
    requires total > 0 && i >= |rows|
    ensures SelectEntry(total, rows, NatToString(i)) == Rejected(-4)
  {
    DigitsTrimmed(NatToString(i));
    ParseNatToString(i);
    assert (i as real).Floor == i;
  }

  /** A negative index is out of range too. */
  lemma SelectNegative(total: int, rows: seq<ReportEntry>, n: nat)
    requires total > 0 && n > 0
    ensures SelectEntry(total, rows, "-" + NatToString(n)) == Rejected(-4)
  {
    NegatedEntry(n);
    SelectNegativeEntry(total, rows, "-" + NatToString(n), n);
  }

  lemma SelectNegativeEntry(total: int, rows: seq<ReportEntry>, entry: string, n: nat)
    requires total > 0 && n > 0
    requires entry != [] && Trim(entry) == entry && ParseNumber(entry) == Some((-(n as int)) as real)
    ensures SelectEntry(total, rows, entry) == Rejected(-4)
  {
    IntegerEntryIndex(entry, -(n as int));
    SelectOutOfRange(total, rows, entry, -(n as int));
  }

  /** An entry denoting an integer outside the report's rows is rejected with -4. */
  lemma SelectOutOfRange(total: int, rows: seq<ReportEntry>, entry: string, k: int)
    requires total > 0 && Trim(entry) != [] && EntryIndex(Trim(entry)) == Some(k)
    requires k < 0 || k >= |rows|
    ensures SelectEntry(total, rows, entry) == Rejected(-4)
  {
  }

  /** An entry that parses to an integer denotes that integer. */
  lemma IntegerEntryIndex(s: string, k: int)
    requires ParseNumber(s) == Some(k as real)
    ensures EntryIndex(s) == Some(k)
  {
    assert (k as real).Floor == k;
  }

  /** Any entry whose trimmed text parses to the integer `k` selects row `k`, so "+1", "01" and "1.0" pick row 1. */
  lemma SelectByValue(total: int, rows: seq<ReportEntry>, entry: string, k: nat)
    requires total > 0 && k < |rows| && Trim(entry) != []
    requires ParseNumber(Trim(entry)) == Some(k as real)
    ensures SelectEntry(total, rows, entry) == Selected(rows[k].utterance, Split(rows[k].labels, ','))
  {
    IntegerEntryIndex(Trim(entry), k);
  }

  /** A blank entry is rejected with -3 once there are examples, whatever the report holds. */
  lemma SelectBlank(total: int, rows: seq<ReportEntry>, entry: string)
    requires total > 0
    requires forall i :: 0 <= i < |entry| ==> IsWhitespace(entry[i])
    ensures SelectEntry(total, rows, entry) == Rejected(-3)
  {
    TrimHead(entry);
  }

  /** A word is not an index. */
  lemma SelectWord(total: int, rows: seq<ReportEntry>)
    requires total > 0
    ensures SelectEntry(total, rows, "x") == Rejected(-5)
  {
    var s := "x";
    assert IsTrimmed(s);
    TrimIdentity(s);
    ParseWord();
  }

  /** Where `commandLetRL` stops: the first label the resolver refuses to remove, or the end. */
  function FirstRefused(labels: seq<string>, removeLabel: string -> bool): (k: nat)
    ensures k <= |labels|
    ensures forall j :: 0 <= j < k ==> removeLabel(labels[j])
    ensures k < |labels| ==> !removeLabel(labels[k])
  {
    if labels == [] then 0
    else
      var k := FirstRefused(labels[..|labels| - 1], removeLabel);
      if k < |labels| - 1 then k
      else if removeLabel(labels[|labels| - 1]) then |labels| else |labels| - 1
  }

  /** The whole state of an `OrchestratorPredict` session, as one value. */
  datatype Session = Session(
    currentUtterance: string,
    currentIntentLabels: seq<string>,
    newIntentLabels: seq<string>,
    ambiguousCloseness: real,
    lowConfidenceScoreThreshold: real,
    multiLabelPredictionThreshold: real,
    unknownLabelPredictionThreshold: real,
    currentUtteranceLabelsMap: map<string, seq<string>>,
    currentUtteranceLabelDuplicateMap: map<string, set<string>>,
    currentLabelArrayAndMap: LabelIndex.StringIndex,
    currentEvaluationOutput: EvaluationOutput)

  /** The session state of `OrchestratorPredict` that the commandlets read and write. */
  class OrchestratorPredict {
    var currentUtterance: string
    var currentIntentLabels: seq<string>
    var newIntentLabels: seq<string>
    var ambiguousCloseness: real
    var lowConfidenceScoreThreshold: real
    var multiLabelPredictionThreshold: real
    var unknownLabelPredictionThreshold: real
    var currentUtteranceLabelsMap: map<string, seq<string>>
    var currentUtteranceLabelDuplicateMap: map<string, set<string>>
    var currentLabelArrayAndMap: LabelIndex.StringIndex
    var currentEvaluationOutput: EvaluationOutput

    /** All eleven fields at once, so that a contract can say which of them a commandlet changes. */
    function State(): Session
      reads this
    {
      Session(currentUtterance, currentIntentLabels, newIntentLabels,
              ambiguousCloseness, lowConfidenceScoreThreshold,
              multiLabelPredictionThreshold, unknownLabelPredictionThreshold,
              currentUtteranceLabelsMap, currentUtteranceLabelDuplicateMap, currentLabelArrayAndMap,
              currentEvaluationOutput)
    }

    /** A session starts with the given thresholds, nothing current, an empty label index and an empty report. */
    constructor (ambiguousClosenessParameter: real, lowConfidenceScoreThresholdParameter: real,
                 multiLabelPredictionThresholdParameter: real, unknownLabelPredictionThresholdParameter: real)
      ensures State() == Session("", [], [], ambiguousClosenessParameter, lowConfidenceScoreThresholdParameter,
                                 multiLabelPredictionThresholdParameter, unknownLabelPredictionThresholdParameter,
                                 map[], map[], LabelIndex.Empty, EvaluationOutput(0, [], [], [], []))
    {
      currentUtterance := "";
      currentIntentLabels := [];
      newIntentLabels := [];
      ambiguousCloseness := ambiguousClosenessParameter;
      lowConfidenceScoreThreshold := lowConfidenceScoreThresholdParameter;
      multiLabelPredictionThreshold := multiLabelPredictionThresholdParameter;
      unknownLabelPredictionThreshold := unknownLabelPredictionThresholdParameter;
      currentUtteranceLabelsMap := map[];
      currentUtteranceLabelDuplicateMap := map[];
      currentLabelArrayAndMap := LabelIndex.Empty;
      currentEvaluationOutput := EvaluationOutput(0, [], [], [], []);
    }

    // ----- the current and new labels -----

    /** `commandLetUwithEntry`: the entry, untrimmed, becomes the current utterance; nothing else changes. */
    method CommandLetUWithEntry(entry: string) returns (code: int)
      modifies this
      ensures code == 0 && State() == old(State()).(currentUtterance := entry)
    {
      currentUtterance := entry;
      return 0;
    }

    /** `commandLetCU`: clear the current utterance; nothing else changes. */
    method CommandLetCU() returns (code: int)
      modifies this
      ensures code == 0 && State() == old(State()).(currentUtterance := "")
    {
      currentUtterance := "";
      return 0;
    }

    /** `commandLetCI`: clear the current intent labels; nothing else changes. */
    method CommandLetCI() returns (code: int)
      modifies this
      ensures code == 0 && State() == old(State()).(currentIntentLabels := [])
    {
      currentIntentLabels := [];
      return 0;
    }

    /** `commandLetCNI`: clear the new intent labels; nothing else changes. */
    method CommandLetCNI() returns (code: int)
      modifies this
      ensures code == 0 && State() == old(State()).(newIntentLabels := [])
    {
      newIntentLabels := [];
      return 0;
    }

    // ----- picking a report entry -----

    /**
     * The body shared by the four report commandlets, over the rows of one report:
     * a selected row becomes the current utterance and labels, a rejection changes nothing.
     */
    method SelectFromReport(rows: seq<ReportEntry>, entry: string) returns (code: int)
      modifies this
      ensures var s := SelectEntry(old(currentEvaluationOutput).labelUtterancesTotal, rows, entry);
              && (s.Selected? ==> code == 0 && State() == old(State()).(currentUtterance := s.utterance, currentIntentLabels := s.intentLabels))
              && (s.Rejected? ==> code == s.code && State() == old(State()))
    {
      var labelUtterancesTotal := currentEvaluationOutput.labelUtterancesTotal;
      if labelUtterancesTotal <= 0 {
        return -2;
      }
      var indexInput := Trim(entry);
      if indexInput == [] {
        return -3;
      }
      var parsed := EntryIndex(indexInput);
      if parsed.Some? {
        var index := parsed.value;
        if index < 0 || index >= |rows| {
          return -4;
        }
        currentUtterance := rows[index].utterance;
        currentIntentLabels := Split(rows[index].labels, ',');
      } else {
        return -5;
      }
      return 0;
    }

    /** `commandLetVDwithEntry`: pick from the multi-label (duplicates) rows. */
    method CommandLetVDWithEntry(entry: string) returns (code: int)
      modifies this
      ensures var s := SelectEntry(old(currentEvaluationOutput).labelUtterancesTotal, old(currentEvaluationOutput).multiLabel, entry);
              && (s.Selected? ==> code == 0 && State() == old(State()).(currentUtterance := s.utterance, currentIntentLabels := s.intentLabels))
              && (s.Rejected? ==> code == s.code && State() == old(State()))
    {
      code := SelectFromReport(currentEvaluationOutput.multiLabel, entry);
    }

    /** `commandLetVAwithEntry`: pick from the ambiguous rows. */
    method CommandLetVAWithEntry(entry: string) returns (code: int)
      modifies this
      ensures var s := SelectEntry(old(currentEvaluationOutput).labelUtterancesTotal, old(currentEvaluationOutput).ambiguous, entry);
              && (s.Selected? ==> code == 0 && State() == old(State()).(currentUtterance := s.utterance, currentIntentLabels := s.intentLabels))
              && (s.Rejected? ==> code == s.code && State() == old(State()))
    {
      code := SelectFromReport(currentEvaluationOutput.ambiguous, entry);
    }

    /** `commandLetVMwithEntry`: pick from the misclassified rows. */
    method CommandLetVMWithEntry(entry: string) returns (code: int)
      modifies this
      ensures var s := SelectEntry(old(currentEvaluationOutput).labelUtterancesTotal, old(currentEvaluationOutput).misclassified, entry);
              && (s.Selected? ==> code == 0 && State() == old(State()).(currentUtterance := s.utterance, currentIntentLabels := s.intentLabels))
              && (s.Rejected? ==> code == s.code && State() == old(State()))
    {
      code := SelectFromReport(currentEvaluationOutput.misclassified, entry);
    }

    /** `commandLetVLwithEntry`: pick from the low-confidence rows. */
    method CommandLetVLWithEntry(entry: string) returns (code: int)
      modifies this
      ensures var s := SelectEntry(old(currentEvaluationOutput).labelUtterancesTotal, old(currentEvaluationOutput).lowConfidence, entry);
              && (s.Selected? ==> code == 0 && State() == old(State()).(currentUtterance := s.utterance, currentIntentLabels := s.intentLabels))
              && (s.Rejected? ==> code == s.code && State() == old(State()))
    {
      code := SelectFromReport(currentEvaluationOutput.lowConfidence, entry);
    }

    // ----- the thresholds -----

    /** `commandLetVATwithEntry`: -1 and no change for an entry that is not a number. */
    method CommandLetVATWithEntry(entry: string) returns (code: int)
      modifies this
      ensures ParseNumber(entry).None? ==> code == -1 && State() == old(State())
      ensures ParseNumber(entry).Some? ==> code == 0 && State() == old(State()).(ambiguousCloseness := ParseNumber(entry).value)
    {
      var value := ParseNumber(entry);
      if value.None? {
        return -1;
      }
      ambiguousCloseness := value.value;
      return 0;
    }

    /** `commandLetVLTwithEntry`: -1 and no change for an entry that is not a number. */
    method CommandLetVLTWithEntry(entry: string) returns (code: int)
      modifies this
      ensures ParseNumber(entry).None? ==> code == -1 && State() == old(State())
      ensures ParseNumber(entry).Some? ==> code == 0 && State() == old(State()).(lowConfidenceScoreThreshold := ParseNumber(entry).value)
    {
      var value := ParseNumber(entry);
      if value.None? {
        return -1;
      }
      lowConfidenceScoreThreshold := value.value;
      return 0;
    }

    /** `commandLetVMTwithEntry`: -1 and no change for an entry that is not a number. */
    method CommandLetVMTWithEntry(entry: string) returns (code: int)
      modifies this
      ensures ParseNumber(entry).None? ==> code == -1 && State() == old(State())
      ensures ParseNumber(entry).Some? ==> code == 0 && State() == old(State()).(multiLabelPredictionThreshold := ParseNumber(entry).value)
    {
      var value := ParseNumber(entry);
      if value.None? {
        return -1;
      }
      multiLabelPredictionThreshold := value.value;
      return 0;
    }

    /** `commandLetVUTwithEntry`: -1 and no change for an entry that is not a number. */
    method CommandLetVUTWithEntry(entry: string) returns (code: int)
      modifies this
      ensures ParseNumber(entry).None? ==> code == -1 && State() == old(State())
      ensures ParseNumber(entry).Some? ==> code == 0 && State() == old(State()).(unknownLabelPredictionThreshold := ParseNumber(entry).value)
    {
      var value := ParseNumber(entry);
      if value.None? {
        return -1;
      }
      unknownLabelPredictionThreshold := value.value;
      return 0;
    }

    // ----- queries and guards -----

    /**
     * `commandLetF`: -1 before a scan (the utterance map is empty), -2 with no
     * current utterance, 0 otherwise; it only reports.
     */
    method CommandLetF() returns (code: int)
      ensures code == -1 <==> |currentUtteranceLabelsMap| == 0
      ensures code == -2 <==> |currentUtteranceLabelsMap| > 0 && currentUtterance == ""
      ensures code == 0 <==> |currentUtteranceLabelsMap| > 0 && currentUtterance != ""
    {
      if |currentUtteranceLabelsMap| <= 0 {
        return -1;
      }
      if currentUtterance == "" {
        return -2;
      }
      return 0;
    }

    /**
     * `commandLetRL`: -1 with no current labels; otherwise ask the resolver to remove
     * each label in turn, stopping with -1 at the first refusal. `removeLabel` is the
     * resolver's answer; `attempted` lists the labels it was asked about.
     */
    method CommandLetRL(removeLabel: string -> bool) returns (code: int, attempted: seq<string>)
      ensures currentIntentLabels == [] ==> code == -1 && attempted == []
      ensures currentIntentLabels != [] ==>
                var k := FirstRefused(currentIntentLabels, removeLabel);
                && (code == 0 <==> k == |currentIntentLabels|)
                && (code != 0 ==> code == -1)
                && attempted == currentIntentLabels[..if k < |currentIntentLabels| then k + 1 else k]
    {
      attempted := [];
      if |currentIntentLabels| == 0 {
        return -1, [];
      }
      for i := 0 to |currentIntentLabels|
        invariant attempted == currentIntentLabels[..i]
        invariant forall j :: 0 <= j < i ==> removeLabel(currentIntentLabels[j])
      {
        attempted := attempted + [currentIntentLabels[i]];
        if !removeLabel(currentIntentLabels[i]) {
          RefusedAt(currentIntentLabels, removeLabel, i);
          return -1, attempted;
        }
      }
      AllRemoved(currentIntentLabels, removeLabel);
      return 0, attempted;
    }

    /**
     * `commandLetD`: the label index is rebuilt from the resolver's intent labels
     * (`labels`), and the thresholds and the index are displayed. The index lists each
     * label once, in first-seen order, mapped to its position.
     */
    method CommandLetD(labels: seq<string>) returns (code: int)
      modifies this
      ensures code == 0 && State() == old(State()).(currentLabelArrayAndMap := LabelIndex.FromStringArray(labels))
      ensures LabelIndex.Valid(currentLabelArrayAndMap) && currentLabelArrayAndMap.stringMap.Keys == Elements(labels)
    {
      currentLabelArrayAndMap := LabelIndex.FromStringArray(labels);
      LabelIndex.FromStringArrayValid(labels);
      return 0;
    }

    /**
     * `commandLetS`: clear both utterance maps, then -1 when the model has no examples;
     * otherwise the label index is rebuilt from the resolver's intent labels (`labels`)
     * and the maps become the scanned examples' labels. Nothing else changes.
     */
    method CommandLetS(exampleCount: int, labels: seq<string>, scanned: map<string, seq<string>>,
                       scannedDuplicates: map<string, set<string>>)
      returns (code: int)
      modifies this
      ensures exampleCount <= 0 ==> code == -1 && State() == old(State()).(currentUtteranceLabelsMap := map[], currentUtteranceLabelDuplicateMap := map[])
      ensures exampleCount > 0 ==> code == 0 && State() == old(State()).(currentUtteranceLabelsMap := scanned,
                                                                          currentUtteranceLabelDuplicateMap := scannedDuplicates,
                                                                          currentLabelArrayAndMap := LabelIndex.FromStringArray(labels))
      ensures exampleCount > 0 ==> LabelIndex.Valid(currentLabelArrayAndMap) && currentLabelArrayAndMap.stringMap.Keys == Elements(labels)
    {
      currentUtteranceLabelsMap := map[];
      currentUtteranceLabelDuplicateMap := map[];
      if exampleCount <= 0 {
        return -1;
      }
      currentLabelArrayAndMap := LabelIndex.FromStringArray(labels);
      LabelIndex.FromStringArrayValid(labels);
      currentUtteranceLabelsMap := scanned;
      currentUtteranceLabelDuplicateMap := scannedDuplicates;
      return 0;
    }
  }

  lemma RefusedAt(labels: seq<string>, removeLabel: string -> bool, i: nat)
    requires i < |labels| && !removeLabel(labels[i])
    requires forall j :: 0 <= j < i ==> removeLabel(labels[j])
    ensures FirstRefused(labels, removeLabel) == i
  {
  }

  lemma AllRemoved(labels: seq<string>, removeLabel: string -> bool)
    requires forall j :: 0 <= j < |labels| ==> removeLabel(labels[j])
    ensures FirstRefused(labels, removeLabel) == |labels|
  {
  }

  /** A session whose scan found no examples cannot look an utterance up. */
  method EmptyScanThenFind(entry: string) returns (code: int)
    ensures code == -1
  {
    var session := new OrchestratorPredict(0.2, 0.5, 1.0, 0.3);
    var _ := session.CommandLetUWithEntry(entry);
    var _ := session.CommandLetS(0, ["greeting"], map[entry := ["greeting"]], map[]);
    code := session.CommandLetF();
  }

  /** A scan whose resolver lists `a, b, a, c` indexes the three labels once each, in first-seen order. */
  method ScanBuildsIndex(utterance: string) returns (code: int, labels: seq<string>, position: int)
    ensures code == 0 && labels == ["a", "b", "c"] && position == 2
  {
    var session := new OrchestratorPredict(0.2, 0.5, 1.0, 0.3);
    code := session.CommandLetS(1, ["a", "b", "a", "c"], map[utterance := ["a"]], map[]);
    LabelIndex.RepeatingScenario();
    labels := session.currentLabelArrayAndMap.stringArray;
    position := session.currentLabelArrayAndMap.stringMap["c"];
  }

  /** Picking the first duplicates row makes it current; a blank entry after that keeps it. */
  method PickThenBlank(utterance: string, labels: string, blank: string) returns (code: int, current: string)
    requires forall i :: 0 <= i < |blank| ==> IsWhitespace(blank[i])
    ensures code == -3 && current == utterance
  {
    var session := new OrchestratorPredict(0.2, 0.5, 1.0, 0.3);
    var rows := [ReportEntry(utterance, labels)];
    session.currentEvaluationOutput := EvaluationOutput(1, rows, [], [], []);
    SelectByIndex(1, rows, 0);
    var picked := session.CommandLetVDWithEntry(NatToString(0));
    SelectBlank(1, rows, blank);
    code := session.CommandLetVDWithEntry(blank);
    current := session.currentUtterance;
  }

  /** A word leaves the ambiguity threshold as it was; an empty entry sets it to 0, as `Number("")` is 0. */
  method ThresholdEntries() returns (rejected: int, kept: real, accepted: int, cleared: real)
    ensures rejected == -1 && kept == 0.2
    ensures accepted == 0 && cleared == 0.0
  {
    var session := new OrchestratorPredict(0.2, 0.5, 1.0, 0.3);
    ParseWord();
    rejected := session.CommandLetVATWithEntry("x");
    kept := session.ambiguousCloseness;
    ParseBlank("");
    accepted := session.CommandLetVATWithEntry("");
    cleared := session.ambiguousCloseness;
  }
}
