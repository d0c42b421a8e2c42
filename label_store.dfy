/**
 * The mutable pair of maps the ingestion helpers fill in place: the
 * `utteranceLabelsMap` object (its key order kept in `order`) and the
 * `utteranceLabelDuplicateMap`. Each method changes them as the corresponding
 * `OrchestratorHelper` function does, and is proved to leave exactly the
 * dataset the specification functions compute from the old one.
 */
module LabelStore {
  import opened Wrappers
  import opened Seqs
  import opened Text
  import opened Dataset
  import opened TsvFormats
  import opened InputFiles
  import opened LabelNormalizer
  import opened Ingestion

  class UtteranceLabelStore {
    var order: seq<string>
    var labels: map<string, seq<string>>
    var duplicates: map<string, set<string>>

    /** The dataset the two maps hold. */
    function Model(): UtteranceLabels
      reads this
    {
      UtteranceLabels(order, labels, duplicates)
    }

    /** Both maps start empty. */
    constructor ()
      ensures Model() == Empty
    {
      order := [];
      labels := map[];
      duplicates := map[];
    }

    /** `insertStringPairToStringIdStringSetNativeMap`: add `labelName` to the utterance's duplicate set, creating it if missing. */
    method InsertDuplicate(utterance: string, labelName: string)
      modifies this
      ensures order == old(order) && labels == old(labels)
      ensures duplicates == old(duplicates)[utterance := DuplicatesOf(old(Model()), utterance) + {labelName}]
    {
      var existing := if utterance in duplicates then duplicates[utterance] else {};
      duplicates := duplicates[utterance := existing + {labelName}];
    }

    /** `addNewLabelUtterance`: fold one (utterance, label) pair, a non-empty hierarchical label winning. */
    method AddNewLabelUtterance(utterance: string, labelName: string, hierarchicalLabel: string)
      modifies this
      ensures Model() == AddLabelUtterance(old(Model()), utterance, labelName, hierarchicalLabel)
    {
      if utterance in labels {
        var existingLabels := labels[utterance];
        if |hierarchicalLabel| > 0 {
          var added, result := AddUniqueLabel(hierarchicalLabel, existingLabels);
          if added {
            labels := labels[utterance := result];
          } else {
            InsertDuplicate(utterance, hierarchicalLabel);
          }
        } else {
          var added, result := AddUniqueLabel(labelName, existingLabels);
          if added {
            labels := labels[utterance := result];
          } else {
            InsertDuplicate(utterance, labelName);
          }
        }
      } else if |hierarchicalLabel| > 0 {
        order := order + [utterance];
        labels := labels[utterance := [hierarchicalLabel]];
      } else {
        order := order + [utterance];
        labels := labels[utterance := [labelName]];
      }
    }

    /** The label loop of one line: each comma-separated label, trimmed, folded with `utterance`. */
    method AddLineLabels(utterance: string, labelArray: seq<string>)
      modifies this
      ensures Model() == AddLabels(old(Model()), utterance, TrimEach(labelArray))
    {
      ghost var trimmed := TrimEach(labelArray);
      for k := 0 to |labelArray|
        invariant Model() == AddLabels(old(Model()), utterance, trimmed[..k])
      {
        TakeSnoc(trimmed, k);
        AddNewLabelUtterance(utterance, Trim(labelArray[k]), "");
      }
      TakeAll(trimmed);
    }

    /**
     * `tryParseLabelUtteranceTsv`: outside `.blu` mode a recognised header line is
     * dropped; every line with two or more tab-separated fields folds its utterance
     * with each of its comma-separated, trimmed labels. Always reports true.
     */
    method TryParseLabelUtteranceTsv(lines: seq<string>, bluFormat: bool) returns (parsed: bool)
      requires bluFormat || |lines| > 0
      modifies this
      ensures parsed
      ensures Model() == TsvFormats.TryParseLabelUtteranceTsv(old(Model()), lines, bluFormat)
    {
      var rest := lines;
      if !bluFormat && HasLabelUtteranceHeader(lines[0]) {
        rest := lines[1..];
      }
      for i := 0 to |rest|
        invariant Model() == FoldLabelLines(old(Model()), rest[..i], bluFormat)
      {
        FoldLabelLinesSnoc(old(Model()), rest, i, bluFormat);
        AddLabelLine(rest[i], bluFormat);
      }
      TakeAll(rest);
      return true;
    }

    /** The body of the line loop of `tryParseLabelUtteranceTsv`: fold one line's labels, if it has a tab. */
    method AddLabelLine(line: string, bluFormat: bool)
      modifies this
      ensures LineRecord(line, bluFormat).None? ==> Model() == old(Model())
      ensures LineRecord(line, bluFormat).Some? ==>
                Model() == AddLabels(old(Model()), LineRecord(line, bluFormat).value.0, LineRecord(line, bluFormat).value.1)
    {
      var items := Split(line, '\t');
      if |items| >= 2 {
        var utteranceIdx := if |items| == 3 && !bluFormat then 2 else 1;
        AddLineLabels(Trim(items[utteranceIdx]), Split(Trim(items[0]), ','));
      }
    }

    /**
     * `tryParseQnATsvFile`: false and no change unless the first line is a QnA header;
     * otherwise the trimmed first field of every later line with a tab is folded under
     * `labelName`.
     */
    method TryParseQnATsvFile(lines: seq<string>, labelName: string) returns (parsed: bool)
      requires |lines| > 0
      modifies this
      ensures parsed == TryParseQnATsv(old(Model()), lines, labelName).Some?
      ensures parsed ==> Model() == TryParseQnATsv(old(Model()), lines, labelName).value
      ensures !parsed ==> Model() == old(Model())
    {
      if !IsQnATsvHeader(lines[0]) {
        return false;
      }
      var rest := lines[1..];
      for i := 0 to |rest|
        invariant Model() == FoldQnaLines(old(Model()), rest[..i], labelName)
      {
        TakeSnoc(rest, i);
        var items := Split(rest[i], '\t');
        if |items| >= 2 {
          AddNewLabelUtterance(Trim(items[0]), labelName, "");
        }
      }
      TakeAll(rest);
      return true;
    }

    /** `parseBluFile`: a file of one line adds nothing; otherwise its first line is dropped. */
    method ParseBluFile(content: string)
      modifies this
      ensures Model() == ParseBlu(old(Model()), content)
    {
      var lines := Split(content, '\n');
      if |lines| == 0 || |lines| == 1 {
        return;
      }
      var _ := TryParseLabelUtteranceTsv(lines[1..], true);
    }

    /** `parseTsvFile`: a QnA export if the first line says so, label/utterance lines otherwise. */
    method ParseTsvFile(content: string, hierarchicalLabel: string)
      modifies this
      ensures Model() == ParseTsv(old(Model()), content, hierarchicalLabel)
    {
      var lines := Split(content, '\n');
      var parsed := TryParseQnATsvFile(lines, hierarchicalLabel);
      if !parsed {
        parsed := TryParseLabelUtteranceTsv(lines, false);
      }
    }

    /** `getLuisIntentsUtterances`: fold each (trimmed text, trimmed intent) pair, if the app has utterances. */
    method GetLuisIntentsUtterances(app: LuisApp, hierarchicalLabel: string)
      modifies this
      ensures Model() == Dataset.GetLuisIntentsUtterances(old(Model()), app, hierarchicalLabel)
    {
      if app.utterances.Some? {
        var us := app.utterances.value;
        for i := 0 to |us|
          invariant Model() == AddLuisUtterances(old(Model()), us[..i], hierarchicalLabel)
        {
          assert us[..i + 1][..i] == us[..i];
          AddNewLabelUtterance(Trim(us[i].text), Trim(us[i].intent), hierarchicalLabel);
        }
        assert us[..|us|] == us;
      }
    }

    /** `getQnaQuestionsAsUtterances`: fold every trimmed question of every pair under `labelName`. */
    method GetQnaQuestionsAsUtterances(kb: QnaKb, labelName: string)
      modifies this
      ensures Model() == Dataset.GetQnaQuestionsAsUtterances(old(Model()), kb, labelName)
    {
      var pairs := kb.qnaList;
      for i := 0 to |pairs|
        invariant Model() == AddQnaPairs(old(Model()), pairs[..i], labelName)
      {
        assert pairs[..i + 1][..i] == pairs[..i];
        AddPairQuestions(pairs[i].questions, labelName);
      }
      assert pairs[..|pairs|] == pairs;
    }

    /** The inner loop of `getQnaQuestionsAsUtterances`: fold one pair's trimmed questions. */
    method AddPairQuestions(questions: seq<string>, labelName: string)
      modifies this
      ensures Model() == AddQuestions(old(Model()), questions, labelName)
    {
      for k := 0 to |questions|
        invariant Model() == AddQuestions(old(Model()), questions[..k], labelName)
      {
        assert questions[..k + 1][..k] == questions[..k];
        AddNewLabelUtterance(Trim(questions[k]), labelName, "");
      }
      assert questions[..|questions|] == questions;
    }

    /** `parseQnaFile` after the QnA Maker parse: fold its questions, or fail when it returned nothing. */
    method ParseQnaFile(qnaFile: string, labelName: string, qnaKb: Option<QnaKb>) returns (error: Option<string>)
      modifies this
      ensures qnaKb.None? ==> error == Some(QnaFailureMessage(qnaFile)) && Model() == old(Model())
      ensures qnaKb.Some? ==> error.None? && Model() == Dataset.GetQnaQuestionsAsUtterances(old(Model()), qnaKb.value, labelName)
    {
      if qnaKb.Some? {
        GetQnaQuestionsAsUtterances(qnaKb.value, labelName);
        return None;
      } else {
        return Some(QnaFailureMessage(qnaFile));
      }
    }

    /**
     * `processFile`: the extension picks the reader; a `.qna` file the QnA Maker parser
     * rejects and any other extension are errors, and leave the maps as they were.
     */
    method ProcessFile(filePath: string, fileName: string, hierarchical: bool, input: FileInput) returns (error: Option<string>)
      modifies this
      ensures var ext := Extname(filePath);
              var fileLabel := GetLabelFromFileName(fileName, ext, hierarchical);
              && (ext == ".lu" || ext == ".json" ==>
                    error.None? && Model() == Dataset.GetLuisIntentsUtterances(old(Model()), input.luisApp, fileLabel))
              && (ext == ".qna" && input.qnaKb.None? ==> error == Some(QnaFailureMessage(filePath)) && Model() == old(Model()))
              && (ext == ".qna" && input.qnaKb.Some? ==>
                    error.None? && Model() == Dataset.GetQnaQuestionsAsUtterances(old(Model()), input.qnaKb.value, fileLabel))
              && (ext == ".tsv" || ext == ".txt" ==> error.None? && Model() == ParseTsv(old(Model()), input.text, fileLabel))
              && (ext == ".blu" ==> error.None? && Model() == ParseBlu(old(Model()), input.text))
              && (ext != ".lu" && ext != ".qna" && ext != ".json" && ext != ".tsv" && ext != ".txt" && ext != ".blu"
                  ==> error == Some(InvalidExtensionMessage(filePath)) && Model() == old(Model()))
    {
      var ext := Extname(filePath);
      error := None;
      if ext == ".lu" {
        GetLuisIntentsUtterances(input.luisApp, GetLabelFromFileName(fileName, ext, hierarchical));
      } else if ext == ".qna" {
        error := ParseQnaFile(filePath, GetLabelFromFileName(fileName, ext, hierarchical), input.qnaKb);
      } else if ext == ".json" {
        GetLuisIntentsUtterances(input.luisApp, GetLabelFromFileName(fileName, ext, hierarchical));
      } else if ext == ".tsv" || ext == ".txt" {
        ParseTsvFile(input.text, GetLabelFromFileName(fileName, ext, hierarchical));
      } else if ext == ".blu" {
        ParseBluFile(input.text);
      } else {
        error := Some(InvalidExtensionMessage(filePath));
      }
    }

    /** `processFile` as a step of a run: the maps and the error are what `ProcessFile` of the specification gives. */
    method ProcessFileStep(filePath: string, fileName: string, hierarchical: bool, input: FileInput) returns (error: Option<string>)
      modifies this
      ensures var r := Ingestion.ProcessFile(old(Model()), filePath, fileName, hierarchical, input);
              && (r.Success? ==> error.None? && Model() == r.value)
              && (r.Failure? ==> error == Some(r.error) && Model() == old(Model()))
    {
      ProcessFileCases(Model(), filePath, fileName, hierarchical, input);
      error := ProcessFile(filePath, fileName, hierarchical, input);
    }

    /**
     * `iterateInputFolder`: walk the entries in order, descending into directories;
     * a file already processed or without a supported extension is skipped, any
     * other is processed, and the first error ends the walk.
     */
    method IterateInputFolder(folder: string, entries: seq<FsEntry>, processed: set<string>, hierarchical: bool, inputs: string -> FileInput)
      returns (error: Option<string>)
      modifies this
      ensures Outcome(Model(), error) == ProcessJobs(old(Model()), Walk(folder, entries, processed), hierarchical, inputs)
      decreases entries
    {
      ghost var start := Model();
      for i := 0 to |entries|
        invariant Outcome(Model(), None) == ProcessJobs(start, Walk(folder, entries[..i], processed), hierarchical, inputs)
      {
        WalkSnoc(folder, entries, i, processed);
        ghost var done := Walk(folder, entries[..i], processed);
        ghost var visited := Visit(folder, entries[i], processed);
        error := VisitEntry(folder, entries[i], processed, hierarchical, inputs);
        ProcessJobsAppend(start, done, visited, hierarchical, inputs);
        if error.Some? {
          WalkRest(folder, entries, i + 1, processed);
          ProcessJobsAppend(start, done + visited, Walk(folder, entries[i + 1..], processed), hierarchical, inputs);
          return;
        }
      }
      TakeAll(entries);
      error := None;
    }

    /** One entry of a directory: a sub-directory is walked, a file processed unless skipped. */
    method VisitEntry(folder: string, entry: FsEntry, processed: set<string>, hierarchical: bool, inputs: string -> FileInput)
      returns (error: Option<string>)
      modifies this
      ensures Outcome(Model(), error) == ProcessJobs(old(Model()), Visit(folder, entry, processed), hierarchical, inputs)
      decreases entry
    {
      var currentItemPath := folder + "/" + entry.name;
      if entry.Directory? {
        error := IterateInputFolder(currentItemPath, entry.entries, processed, hierarchical, inputs);
      } else if currentItemPath in processed || ExtOfName(entry.name) !in SupportedFileFormats {
        error := None;
      } else {
        ProcessOneJob(Model(), Job(currentItemPath, entry.name), hierarchical, inputs);
        error := ProcessFileStep(currentItemPath, entry.name, hierarchical, inputs(currentItemPath));
      }
    }

    /**
     * The unknown-label normaliser on the two maps in place: each utterance, in key
     * order, gets its normalised label list, and its duplicate set, when it has one,
     * is reset to those labels.
     */
    method NormalizeInPlace(p: Policy)
      modifies this
      ensures Model() == Normalize(old(Model()), p)
    {
      ghost var start := Model();
      var keys := order;
      for i := 0 to |keys|
        invariant Model() == NormalizeUtterances(start, p, keys[..i])
      {
        TakeSnoc(keys, i);
        NormalizeOne(keys[i], p);
      }
      TakeAll(keys);
    }

    /** The loop body of the normaliser: rewrite one utterance's labels and reset its duplicate set. */
    method NormalizeOne(u: string, p: Policy)
      modifies this
      ensures Model() == NormalizeUtterance(old(Model()), u, p)
    {
      if u in labels {
        var ls := NormalizeLabels(labels[u], p);
        labels := labels[u := ls];
        if u in duplicates {
          duplicates := duplicates[u := Elements(ls)];
        }
      }
    }

    /** `processUnknowLabelsInUtteranceLabelsMap`: drop "", "unknown" and "none". */
    method ProcessUnknownLabels()
      modifies this
      ensures Model() == Normalize(old(Model()), Blocklist)
    {
      NormalizeInPlace(Blocklist);
    }

    /** `processUnknowLabelsInUtteranceLabelsMapUsingLabelSet`: drop every label outside `labelSet`. */
    method ProcessUnknownLabelsUsingLabelSet(labelSet: set<string>)
      modifies this
      ensures Model() == Normalize(old(Model()), AllowSet(labelSet))
    {
      NormalizeInPlace(AllowSet(labelSet));
    }
  }

  /**
   * `getUtteranceLabelsMap`: fill two fresh maps from a folder or a single file, then
   * normalise the placeholder labels; an error ends the call with no dataset.
   */
  method GetUtteranceLabelsMap(input: InputPath, hierarchical: bool, processed: set<string>, inputs: string -> FileInput)
    returns (r: Result<UtteranceLabels, string>)
    ensures r == Ingestion.GetUtteranceLabelsMap(input, hierarchical, processed, inputs)
  {
    var store := new UtteranceLabelStore();
    var error;
    if input.Folder? {
      error := store.IterateInputFolder(input.path, input.entries, processed, hierarchical, inputs);
    } else {
      var fileName := Basename(input.path);
      error := store.ProcessFileStep(input.path, fileName, hierarchical, inputs(input.path));
    }
    if error.Some? {
      return Failure(error.value);
    }
    store.ProcessUnknownLabels();
    return Success(store.Model());
  }
}
