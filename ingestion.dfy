/**
 * How `getUtteranceLabelsMap` turns its input path into a dataset: the
 * extension dispatch of `processFile`, the directory walk of
 * `iterateInputFolder` handing each file on in turn (the first error ends the
 * run), and the unknown-label pass over the result. What reading a file yields,
 * and what the external LU, JSON and QnA Maker parsers make of it, are inputs.
 */
module Ingestion {
  import opened Wrappers
  import opened Seqs
  import opened Text
  import opened Dataset
  import opened TsvFormats
  import opened InputFiles
  import opened LabelNormalizer

  /**
   * Everything `processFile` reads from one file: its text (`.tsv`, `.txt`, `.blu`),
   * the LUIS application parsed from it (`.lu` through the LU parser, `.json` as JSON)
   * and the QnA Maker parse of a `.qna` file, None when that parser returns nothing.
   */
  datatype FileInput = FileInput(text: string, luisApp: LuisApp, qnaKb: Option<QnaKb>)

  /** The reader for one format, given the label from the file name; only a rejected `.qna` parse fails. */
  function ReadFormat(d: UtteranceLabels, format: Format, filePath: string, fileLabel: string, input: FileInput)
    : (r: Result<UtteranceLabels, string>)
    ensures r.Success? && Valid(d) ==> Valid(r.value)
  {
    match format
    case Lu => Success(GetLuisIntentsUtterances(d, input.luisApp, fileLabel))
    case Json => Success(GetLuisIntentsUtterances(d, input.luisApp, fileLabel))
    case Qna =>
      (match input.qnaKb
       case None => Failure(QnaFailureMessage(filePath))
       case Some(kb) => Success(GetQnaQuestionsAsUtterances(d, kb, fileLabel)))
    case Tsv => Success(ParseTsv(d, input.text, fileLabel))
    case Blu => Success(ParseBlu(d, input.text))
  }

  /** `processFile`: pick the reader by extension and fold the file into `d`, or fail. */
  function ProcessFile(d: UtteranceLabels, filePath: string, fileName: string, hierarchical: bool, input: FileInput)
    : (r: Result<UtteranceLabels, string>)
    ensures r.Success? && Valid(d) ==> Valid(r.value)
  {
    var ext := Extname(filePath);
    match FormatOf(ext)
    case None => Failure(InvalidExtensionMessage(filePath))
    case Some(format) => ReadFormat(d, format, filePath, GetLabelFromFileName(fileName, ext, hierarchical), input)
  }

  /**
   * A file fails exactly when its extension is none of the six `FormatOf` accepts, or it
   * is a `.qna` file the parser rejects; the message names the file.
   */
  lemma ProcessFileFailure(d: UtteranceLabels, filePath: string, fileName: string, hierarchical: bool, input: FileInput)
    ensures var r := ProcessFile(d, filePath, fileName, hierarchical, input);
            var format := FormatOf(Extname(filePath));
            && (r.Failure? <==> format.None? || (format == Some(Qna) && input.qnaKb.None?))
            && (r.Failure? ==> r.error == if format.None? then InvalidExtensionMessage(filePath) else QnaFailureMessage(filePath))
  {
    var format := FormatOf(Extname(filePath));
    if format.Some? {
      var fileLabel := GetLabelFromFileName(fileName, Extname(filePath), hierarchical);
      ReadFormatFailure(d, format.value, filePath, fileLabel, input);
    }
  }

  lemma ReadFormatFailure(d: UtteranceLabels, format: Format, filePath: string, fileLabel: string, input: FileInput)
    ensures var r := ReadFormat(d, format, filePath, fileLabel, input);
            (r.Failure? <==> format == Qna && input.qnaKb.None?) && (r.Failure? ==> r.error == QnaFailureMessage(filePath))
  {
  }

  /** `processFile` extension by extension, in the order its branches test them. */
  lemma ProcessFileCases(d: UtteranceLabels, filePath: string, fileName: string, hierarchical: bool, input: FileInput)
    ensures var ext := Extname(filePath);
            var fileLabel := GetLabelFromFileName(fileName, ext, hierarchical);
            var r := ProcessFile(d, filePath, fileName, hierarchical, input);
            && (ext == ".lu" || ext == ".json" ==> r == Success(GetLuisIntentsUtterances(d, input.luisApp, fileLabel)))
            && (ext == ".qna" && input.qnaKb.None? ==> r == Failure(QnaFailureMessage(filePath)))
            && (ext == ".qna" && input.qnaKb.Some? ==> r == Success(GetQnaQuestionsAsUtterances(d, input.qnaKb.value, fileLabel)))
            && (ext == ".tsv" || ext == ".txt" ==> r == Success(ParseTsv(d, input.text, fileLabel)))
            && (ext == ".blu" ==> r == Success(ParseBlu(d, input.text)))
            && (ext != ".lu" && ext != ".qna" && ext != ".json" && ext != ".tsv" && ext != ".txt" && ext != ".blu"
                ==> r == Failure(InvalidExtensionMessage(filePath)))
  {
    var ext := Extname(filePath);
    if ext == ".lu" || ext == ".json" {
      ProcessLuisFile(d, filePath, fileName, hierarchical, input);
    } else if ext == ".qna" {
      ProcessQnaFile(d, filePath, fileName, hierarchical, input);
    } else if ext == ".tsv" || ext == ".txt" {
      ProcessTsvFile(d, filePath, fileName, hierarchical, input);
    } else if ext == ".blu" {
      ProcessBluFile(d, filePath, fileName, hierarchical, input);
    } else {
      FormatOfExtension(ext);
    }
  }

  lemma ProcessLuisFile(d: UtteranceLabels, filePath: string, fileName: string, hierarchical: bool, input: FileInput)
    requires Extname(filePath) == ".lu" || Extname(filePath) == ".json"
    ensures ProcessFile(d, filePath, fileName, hierarchical, input)
            == Success(GetLuisIntentsUtterances(d, input.luisApp, GetLabelFromFileName(fileName, Extname(filePath), hierarchical)))
  {
    var format := if Extname(filePath) == ".lu" then Lu else Json;
    assert FormatOf(Extname(filePath)) == Some(format) by { FormatOfExtension(Extname(filePath)); }
    ProcessFileAs(d, filePath, fileName, hierarchical, input, format);
  }

  lemma ProcessQnaFile(d: UtteranceLabels, filePath: string, fileName: string, hierarchical: bool, input: FileInput)
    requires Extname(filePath) == ".qna"
    ensures ProcessFile(d, filePath, fileName, hierarchical, input)
            == ReadFormat(d, Qna, filePath, GetLabelFromFileName(fileName, Extname(filePath), hierarchical), input)
  {
    assert FormatOf(Extname(filePath)) == Some(Qna) by { FormatOfExtension(Extname(filePath)); }
    ProcessFileAs(d, filePath, fileName, hierarchical, input, Qna);
  }

  lemma ProcessTsvFile(d: UtteranceLabels, filePath: string, fileName: string, hierarchical: bool, input: FileInput)
    requires Extname(filePath) == ".tsv" || Extname(filePath) == ".txt"
    ensures ProcessFile(d, filePath, fileName, hierarchical, input)
            == Success(ParseTsv(d, input.text, GetLabelFromFileName(fileName, Extname(filePath), hierarchical)))
  {
    var fileLabel := GetLabelFromFileName(fileName, Extname(filePath), hierarchical);
    assert FormatOf(Extname(filePath)) == Some(Tsv) by { FormatOfExtension(Extname(filePath)); }
    ProcessFileAs(d, filePath, fileName, hierarchical, input, Tsv);
    ReadFormatTsv(d, filePath, fileLabel, input);
  }

  lemma ProcessBluFile(d: UtteranceLabels, filePath: string, fileName: string, hierarchical: bool, input: FileInput)
    requires Extname(filePath) == ".blu"
    ensures ProcessFile(d, filePath, fileName, hierarchical, input) == Success(ParseBlu(d, input.text))
  {
    var fileLabel := GetLabelFromFileName(fileName, Extname(filePath), hierarchical);
    assert FormatOf(Extname(filePath)) == Some(Blu) by { FormatOfExtension(Extname(filePath)); }
    ProcessFileAs(d, filePath, fileName, hierarchical, input, Blu);
    ReadFormatBlu(d, filePath, fileLabel, input);
  }

  lemma ReadFormatBlu(d: UtteranceLabels, filePath: string, fileLabel: string, input: FileInput)
    ensures ReadFormat(d, Blu, filePath, fileLabel, input) == Success(ParseBlu(d, input.text))
  {
  }

  lemma ReadFormatTsv(d: UtteranceLabels, filePath: string, fileLabel: string, input: FileInput)
    ensures ReadFormat(d, Tsv, filePath, fileLabel, input) == Success(ParseTsv(d, input.text, fileLabel))
  {
  }

  lemma {:induction false} QnaPairsIncluded(d: UtteranceLabels, pairs: seq<QnaPair>, labelName: string)
    ensures Includes(AddQnaPairs(d, pairs, labelName), d)
  {
    if pairs != [] {
      var mid := AddQnaPairs(d, pairs[..|pairs| - 1], labelName);
      QnaPairsIncluded(d, pairs[..|pairs| - 1], labelName);
      QnaQuestionsAllRecorded(mid, pairs[|pairs| - 1].questions, labelName);
      IncludesTransitive(d, mid, AddQnaPairs(d, pairs, labelName));
    }
  }

  lemma TsvIncluded(d: UtteranceLabels, content: string, hierarchicalLabel: string)
    ensures Includes(ParseTsv(d, content, hierarchicalLabel), d)
  {
    var lines := Split(content, '\n');
    FoldQnaLinesRecords(d, lines[1..], hierarchicalLabel);
    FoldLabelLinesRecords(d, lines, false);
    FoldLabelLinesRecords(d, lines[1..], false);
  }

  lemma BluIncluded(d: UtteranceLabels, content: string)
    ensures Includes(ParseBlu(d, content), d)
  {
    var lines := Split(content, '\n');
    if |lines| > 1 {
      FoldLabelLinesRecords(d, lines[1..], true);
    }
  }

  lemma ReadFormatIncludes(d: UtteranceLabels, format: Format, filePath: string, fileLabel: string, input: FileInput)
    ensures var r := ReadFormat(d, format, filePath, fileLabel, input);
            r.Success? ==> Includes(r.value, d)
  {
    match format
    case Lu =>
      if input.luisApp.utterances.Some? {
        LuisUtterancesAllRecorded(d, input.luisApp.utterances.value, fileLabel);
      }
    case Json =>
      if input.luisApp.utterances.Some? {
        LuisUtterancesAllRecorded(d, input.luisApp.utterances.value, fileLabel);
      }
    case Qna =>
      if input.qnaKb.Some? {
        QnaPairsIncluded(d, input.qnaKb.value.qnaList, fileLabel);
      }
    case Tsv => TsvIncluded(d, input.text, fileLabel);
    case Blu => BluIncluded(d, input.text);
  }

  /** Reading a file only adds: every (utterance, label) pair already present stays. */
  lemma ProcessFileIncludes(d: UtteranceLabels, filePath: string, fileName: string, hierarchical: bool, input: FileInput)
    ensures var r := ProcessFile(d, filePath, fileName, hierarchical, input);
            r.Success? ==> Includes(r.value, d)
  {
    var format := FormatOf(Extname(filePath));
    if format.Some? {
      ReadFormatIncludes(d, format.value, filePath, GetLabelFromFileName(fileName, Extname(filePath), hierarchical), input);
    }
  }

  /** The path of a file `<base>.<ext>` in a folder has the extension `.<ext>`. */
  lemma ExtnameOfDottedJoin(folder: string, base: string, ext: string)
    requires base != [] && '/' !in base && '.' !in base && '/' !in ext && '.' !in ext
    ensures Extname(folder + "/" + (base + "." + ext)) == "." + ext
  {
    var name := base + "." + ext;
    assert name[0] == base[0];
    assert '/' !in name;
    ExtnameOfJoin(folder, name);
    ExtOfDottedName(base, ext);
  }

  /**
   * In hierarchical mode an `.lu` file named `<base>.lu` adds no label and no duplicate
   * entry other than `base`, whatever intents the file gives its utterances.
   */
  lemma HierarchicalLuFile(d: UtteranceLabels, folder: string, base: string, us: seq<LuisUtterance>, input: FileInput)
    requires base != [] && '/' !in base && '.' !in base
    requires input.luisApp == LuisApp(Some(us))
    ensures ProcessFile(d, folder + "/" + (base + ".lu"), base + ".lu", true, input) == Success(AddLuisUtterances(d, us, base))
    ensures AddsOnly(AddLuisUtterances(d, us, base), d, base)
    ensures OnlyLabel(d, base) ==> OnlyLabel(AddLuisUtterances(d, us, base), base)
  {
    LuFilePath(folder, base);
    LuFileRead(d, folder + "/" + (base + ".lu"), base + ".lu", us, base, input);
    HierarchicalLabelWins(d, us, base);
  }

  /** The file `<base>.lu` in a folder has the extension ".lu" and, hierarchically, the label `base`. */
  lemma LuFilePath(folder: string, base: string)
    requires base != [] && '/' !in base && '.' !in base
    ensures Extname(folder + "/" + (base + ".lu")) == ".lu"
    ensures GetLabelFromFileName(base + ".lu", ".lu", true) == base
  {
    assert base + ".lu" == base + "." + "lu";
    ExtnameOfDottedJoin(folder, base, "lu");
    LabelFromFileName(base, ".lu");
  }

  /** A hierarchical `.lu` file is the LUIS fold of its utterances under the label from its name. */
  lemma LuFileRead(d: UtteranceLabels, path: string, name: string, us: seq<LuisUtterance>, fileLabel: string, input: FileInput)
    requires Extname(path) == ".lu" && GetLabelFromFileName(name, Extname(path), true) == fileLabel
    requires input.luisApp == LuisApp(Some(us))
    ensures ProcessFile(d, path, name, true, input) == Success(AddLuisUtterances(d, us, fileLabel))
  {
    ProcessLuisFile(d, path, name, true, input);
  }

  /** A file whose extension selects `format` is read by that format's reader. */
  lemma ProcessFileAs(d: UtteranceLabels, filePath: string, fileName: string, hierarchical: bool, input: FileInput, format: Format)
    requires FormatOf(Extname(filePath)) == Some(format)
    ensures ProcessFile(d, filePath, fileName, hierarchical, input)
            == ReadFormat(d, format, filePath, GetLabelFromFileName(fileName, Extname(filePath), hierarchical), input)
  {
  }

  // ----- iterateInputFolder -----

  /** The dataset reached and the error that ended the run, if any. */
  datatype Outcome = Outcome(data: UtteranceLabels, error: Option<string>)

  /** The walked files processed in order; after the first failure nothing more is read. */
  function ProcessJobs(d: UtteranceLabels, jobs: seq<Job>, hierarchical: bool, inputs: string -> FileInput): (r: Outcome)
    ensures Valid(d) ==> Valid(r.data)
  {
    if jobs == [] then Outcome(d, None)
    else
      var prev := ProcessJobs(d, jobs[..|jobs| - 1], hierarchical, inputs);
      if prev.error.Some? then prev
      else
        var j := jobs[|jobs| - 1];
        match ProcessFile(prev.data, j.path, j.name, hierarchical, inputs(j.path))
        case Success(m) => Outcome(m, None)
        case Failure(e) => Outcome(prev.data, Some(e))
  }

  /** A run of one file is that file's `processFile`, its error ending the run. */
  lemma ProcessOneJob(d: UtteranceLabels, j: Job, hierarchical: bool, inputs: string -> FileInput)
    ensures var r := ProcessFile(d, j.path, j.name, hierarchical, inputs(j.path));
            ProcessJobs(d, [j], hierarchical, inputs) == if r.Success? then Outcome(r.value, None) else Outcome(d, Some(r.error))
  {
    assert [j][..0] == [];
  }

  /** Running two lists of files is running the first, then, unless it failed, the second. */
  lemma {:induction false} ProcessJobsAppend(d: UtteranceLabels, a: seq<Job>, b: seq<Job>, hierarchical: bool, inputs: string -> FileInput)
    ensures var ra := ProcessJobs(d, a, hierarchical, inputs);
            ProcessJobs(d, a + b, hierarchical, inputs)
            == if ra.error.Some? then ra else ProcessJobs(ra.data, b, hierarchical, inputs)
  {
    if b == [] {
      assert a + b == a;
    } else {
      var init := b[..|b| - 1];
      assert (a + b)[..|a + b| - 1] == a + init;
      assert (a + b)[|a + b| - 1] == b[|b| - 1];
      ProcessJobsAppend(d, a, init, hierarchical, inputs);
    }
  }

  /** One more file keeps what the run before it reached; after an error the run stands still. */
  lemma ProcessJobsStep(d: UtteranceLabels, jobs: seq<Job>, hierarchical: bool, inputs: string -> FileInput)
    requires jobs != []
    ensures var prev := ProcessJobs(d, jobs[..|jobs| - 1], hierarchical, inputs);
            var r := ProcessJobs(d, jobs, hierarchical, inputs);
            && Includes(r.data, prev.data)
            && (prev.error.Some? ==> r == prev)
  {
    var prev := ProcessJobs(d, jobs[..|jobs| - 1], hierarchical, inputs);
    var j := jobs[|jobs| - 1];
    ProcessFileIncludes(prev.data, j.path, j.name, hierarchical, inputs(j.path));
  }

  /** A run only adds pairs, whether or not it ends in an error. */
  lemma {:induction false} ProcessJobsIncludes(d: UtteranceLabels, jobs: seq<Job>, hierarchical: bool, inputs: string -> FileInput)
    ensures Includes(ProcessJobs(d, jobs, hierarchical, inputs).data, d)
  {
    if jobs != [] {
      var prev := ProcessJobs(d, jobs[..|jobs| - 1], hierarchical, inputs);
      ProcessJobsIncludes(d, jobs[..|jobs| - 1], hierarchical, inputs);
      ProcessJobsStep(d, jobs, hierarchical, inputs);
      IncludesTransitive(d, prev.data, ProcessJobs(d, jobs, hierarchical, inputs).data);
    }
  }

  /** A walked file as `readdirSync` names it: a non-empty name without '/'. */
  ghost predicate WalkedJob(j: Job, processed: set<string>) {
    Walkable(j, processed) && j.name != [] && '/' !in j.name
  }

  /** The last file of a run that had not failed before it can only fail as a rejected `.qna` file. */
  lemma WalkedStepFailure(d: UtteranceLabels, jobs: seq<Job>, processed: set<string>, hierarchical: bool, inputs: string -> FileInput)
    requires jobs != [] && WalkedJob(jobs[|jobs| - 1], processed)
    ensures var prev := ProcessJobs(d, jobs[..|jobs| - 1], hierarchical, inputs);
            var r := ProcessJobs(d, jobs, hierarchical, inputs);
            var j := jobs[|jobs| - 1];
            prev.error.None? && r.error.Some? ==> inputs(j.path).qnaKb.None? && r.error == Some(QnaFailureMessage(j.path))
  {
    var prev := ProcessJobs(d, jobs[..|jobs| - 1], hierarchical, inputs);
    var j := jobs[|jobs| - 1];
    WalkedFileAccepted(j, processed);
    ProcessFileFailure(prev.data, j.path, j.name, hierarchical, inputs(j.path));
  }

  /**
   * A run over walked files never fails on an extension: the only error it can end in
   * is a `.qna` file the QnA Maker parser rejects.
   */
  lemma {:induction false} WalkedJobsFailOnlyOnQna(d: UtteranceLabels, jobs: seq<Job>, processed: set<string>, hierarchical: bool, inputs: string -> FileInput)
    requires forall j :: j in jobs ==> WalkedJob(j, processed)
    ensures var r := ProcessJobs(d, jobs, hierarchical, inputs);
            r.error.Some? ==> exists j :: j in jobs && inputs(j.path).qnaKb.None? && r.error == Some(QnaFailureMessage(j.path))
  {
    if jobs != [] {
      var init, last := jobs[..|jobs| - 1], jobs[|jobs| - 1];
      assert forall x :: x in init ==> x in jobs;
      WalkedJobsFailOnlyOnQna(d, init, processed, hierarchical, inputs);
      ProcessJobsStep(d, jobs, hierarchical, inputs);
      WalkedStepFailure(d, jobs, processed, hierarchical, inputs);
      var prev := ProcessJobs(d, init, hierarchical, inputs);
      var r := ProcessJobs(d, jobs, hierarchical, inputs);
      if prev.error.None? && r.error.Some? {
        assert last in jobs;
      }
    }
  }

  // ----- getUtteranceLabelsMap -----

  /** The input path: a directory tree to walk, or a single file. */
  datatype InputPath = Folder(path: string, entries: seq<FsEntry>) | SingleFile(path: string)

  /** `path.basename` (POSIX): the last component, trailing slashes ignored. */
  function Basename(p: string): string {
    LastComponent(StripTrailingSlashes(p))
  }

  /** Every file of the input processed into an empty dataset. */
  function Collect(input: InputPath, hierarchical: bool, processed: set<string>, inputs: string -> FileInput): Outcome {
    match input
    case Folder(path, entries) => ProcessJobs(Empty, Walk(path, entries, processed), hierarchical, inputs)
    case SingleFile(path) =>
      match ProcessFile(Empty, path, Basename(path), hierarchical, inputs(path))
      case Success(m) => Outcome(m, None)
      case Failure(e) => Outcome(Empty, Some(e))
  }

  /** What is collected is a well-formed dataset, whether or not the run failed. */
  lemma CollectValid(input: InputPath, hierarchical: bool, processed: set<string>, inputs: string -> FileInput)
    ensures Valid(Collect(input, hierarchical, processed, inputs).data)
  {
    var e := Empty;
    assert Valid(e);
    match input
    case Folder(path, entries) =>
      var o := ProcessJobs(e, Walk(path, entries, processed), hierarchical, inputs);
    case SingleFile(path) =>
      var r := ProcessFile(e, path, Basename(path), hierarchical, inputs(path));
  }

  /** `getUtteranceLabelsMap`: collect, then apply the blocklist normaliser; an error is passed on. */
  function GetUtteranceLabelsMap(input: InputPath, hierarchical: bool, processed: set<string>, inputs: string -> FileInput)
    : Result<UtteranceLabels, string>
  {
    var collected := Collect(input, hierarchical, processed, inputs);
    if collected.error.Some? then Failure(collected.error.value) else Success(Normalize(collected.data, Blocklist))
  }

  /**
   * The finished dataset is well formed, every utterance has at least one label, none
   * of them a placeholder ("", "unknown", "none") unless it is the lone `UnknownLabel`,
   * and each duplicate set is the set of its utterance's labels.
   */
  lemma UtteranceLabelsMapClean(input: InputPath, hierarchical: bool, processed: set<string>, inputs: string -> FileInput)
    ensures var r := GetUtteranceLabelsMap(input, hierarchical, processed, inputs);
            r.Success? ==>
              && Valid(r.value)
              && (forall u :: u in r.value.labels ==>
                    && |r.value.labels[u]| >= 1
                    && (r.value.labels[u] == [UnknownLabel] || forall x :: x in r.value.labels[u] ==> Keeps(Blocklist, x)))
              && (forall u :: u in r.value.duplicates ==> r.value.duplicates[u] == Elements(r.value.labels[u]))
  {
    var collected := Collect(input, hierarchical, processed, inputs);
    CollectValid(input, hierarchical, processed, inputs);
    if collected.error.None? {
      var d := collected.data;
      assert GetUtteranceLabelsMap(input, hierarchical, processed, inputs) == Success(Normalize(d, Blocklist));
      NormalizeSpec(d, Blocklist);
      forall u | u in d.labels
        ensures NormalizeLabels(d.labels[u], Blocklist) == [UnknownLabel]
                || forall x :: x in NormalizeLabels(d.labels[u], Blocklist) ==> Keeps(Blocklist, x)
      {
        NormalizeLabelsMembers(d.labels[u], Blocklist);
      }
    }
  }

  /** A walk over well-named files fails only on a `.qna` file the parser rejects. */
  lemma FolderFailsOnlyOnQna(path: string, entries: seq<FsEntry>, hierarchical: bool, processed: set<string>, inputs: string -> FileInput)
    requires forall j :: j in Walk(path, entries, processed) ==> j.name != [] && '/' !in j.name
    ensures var r := GetUtteranceLabelsMap(Folder(path, entries), hierarchical, processed, inputs);
            r.Failure? ==> exists j :: j in Walk(path, entries, processed) && inputs(j.path).qnaKb.None? && r.error == QnaFailureMessage(j.path)
  {
    var jobs := Walk(path, entries, processed);
    WalkJobs(path, entries, processed);
    WalkedJobsFailOnlyOnQna(Empty, jobs, processed, hierarchical, inputs);
  }
}
