# Orchestrator corpus ingestion, snapshot formats and predict session

This project is a Dafny model of three parts of the botframework-cli
orchestrator library.

- **Corpus ingestion** (`OrchestratorHelper`):
  - Input files are folded into an insertion-ordered map from utterance to label list.
  - A second map records, per utterance, the labels that were seen again.
  - A non-empty hierarchical label (the file name) replaces the label a record carries.
  - Line-level TSV parsers sniff headers and decide what each line means. `.blu` snapshots always drop their first line.
  - An extension dispatch either picks a reader or raises "has invalid extension".
  - A directory walk silently skips files it has seen and extensions it does not read.
  - Two serialisers write the dataset back out: the `label,label<TAB>utterance` listing and the DTE `key<TAB>label<TAB>u1|u2` table.
- **Label normaliser and label index** (`Utility` / `DictionaryMapUtility`):
  - The normaliser drops placeholder labels, or labels outside an allow-set.
  - Utterances left without labels get `UNKNOWN`.
  - Each duplicate set is made equal to the surviving labels.
  - The label index is an order-preserving, de-duplicating array paired with a map from each label to its position.
  - These implementations are not part of this model's sources. Both are modelled from the assertions of their unit tests.
- **Interactive predict session** (`OrchestratorPredict`):
  - The session holds the current utterance, its labels, the new labels, four thresholds, the scanned utterance maps and a label index.
  - The commandlets validate what they are given and either update the fields they name or return a negative status code, leaving the state alone.

Modules, one per file:

| module | file | contents |
|---|---|---|
| `Wrappers`, `Seqs`, `Text`, `Numbers` | `wrappers.dfy`, `seqs.dfy`, `text.dfy`, `numbers.dfy` | `Option`/`Result`, sequence facts, `trim`/`split`/`join`, the `Number()` string parse |
| `Dataset` | `dataset.dfy` | the fold (`addUniqueLabel`, `addNewLabelUtterance`) and the LUIS/QnA record adapters |
| `EntityLabels` | `entity_labels.dfy` | the entity-label fold |
| `TsvFormats` | `tsv_formats.dfy` | header predicates and line parsers |
| `InputFiles` | `input_files.dfy` | `path.extname`, the extension dispatch, `getLabelFromFileName`, the directory walk |
| `Ingestion` | `ingestion.dfy` | `processFile`, a run over walked files that stops at the first error, `getUtteranceLabelsMap` |
| `LabelStore` | `label_store.dfy` | class `UtteranceLabelStore`, whose methods update the maps in place and are proved to leave the dataset the functions above compute |
| `Snapshot` | `snapshot.dfy` | `getTsvContent` |
| `DteFormat` | `dte.dfy` | `createDteContent` |
| `LabelNormalizer` | `normalizer.dfy` | the normaliser |
| `LabelIndex` | `label_index.dfy` | the label index |
| `PredictSession` | `predict_session.dfy` | class `OrchestratorPredict` |

## Model

All source paths are under `packages/`. The session's integer results are the source's status codes.

| member | source | states |
|---|---|---|
| Dataset.AddUniqueLabel | packages/orchestratorlib/src/orchestratorhelper.ts:520-528 | reports `true` exactly when the label was absent, then appends it at the end; otherwise the list is unchanged; a duplicate-free list stays duplicate-free |
| Dataset.AddLabelUtterance | packages/orchestratorlib/src/orchestratorhelper.ts:476-497 | an unseen utterance gets exactly `[effective label]` and is appended to the key order; a known utterance gets the effective label appended when absent, otherwise it is added to that utterance's duplicate set; every other utterance's labels and duplicates are untouched; well-formedness and duplicate-freedom are kept |
| Dataset.AddLabelUtteranceKeepsLabels | packages/orchestratorlib/src/orchestratorhelper.ts:476-497 | folding a pair never removes a label from any utterance and records the effective label (hierarchical label when non-empty) |
| Dataset.AddLabelUtteranceAddsOnly | packages/orchestratorlib/src/orchestratorhelper.ts:476-497 | the only label, and the only duplicate entry, a fold can add to any utterance is the effective one |
| Dataset.IncludesTransitive | packages/orchestratorlib/src/orchestratorhelper.ts:476-497 | "only adds labels" composes across successive folds |
| Dataset.AddLabelsToFreshUtterance | packages/orchestratorlib/src/orchestratorhelper.ts:298-307 | folding a duplicate-free, non-empty label list into an unseen utterance gives it exactly that list |
| Dataset.AddLabelsKeepsLabels | packages/orchestratorlib/src/orchestratorhelper.ts:298-307 | folding a line's labels keeps every earlier pair and records each of its labels |
| Dataset.AppendAbsentLabel | packages/orchestratorlib/src/orchestratorhelper.ts:298-307 | one more absent label is appended to the utterance's list and nothing else changes |
| Dataset.GetLuisIntentsUtterances | packages/orchestratorlib/src/orchestratorhelper.ts:400-419 | the LUIS record fold keeps the dataset well-formed |
| Dataset.LuisUtterancesAllRecorded | packages/orchestratorlib/src/orchestratorhelper.ts:400-419 | after the fold every trimmed utterance text carries its effective label (the hierarchical label, else the trimmed intent), and no earlier pair is lost |
| Dataset.HierarchicalLabelWins | packages/orchestratorlib/src/orchestratorhelper.ts:400-419 | with a non-empty hierarchical label and any dataset, the LUIS fold adds no label and no duplicate entry other than that label, whatever the intents; a dataset holding only that label keeps holding only it |
| Dataset.GetQnaQuestionsAsUtterances | packages/orchestratorlib/src/orchestratorhelper.ts:421-438 | the QnA record fold keeps the dataset well-formed; what it records is stated by `Dataset.QnaKbAllRecorded` |
| Dataset.QnaQuestionsAllRecorded | packages/orchestratorlib/src/orchestratorhelper.ts:427-436 | after one pair's questions are folded, every trimmed question is an utterance labelled with the file's label, and no earlier pair is lost |
| Dataset.QnaKbAllRecorded | packages/orchestratorlib/src/orchestratorhelper.ts:421-438 | after the whole knowledge base is folded, every trimmed question of every pair is an utterance labelled with the file's label, and no earlier pair is lost |
| EntityLabels.EntityLabelOf | packages/orchestratorlib/src/orchestratorhelper.ts:505-509 | the label carries the entity name, starts at `startPos` and ends at `endPos` inclusive |
| EntityLabels.AddEntityLabelUtterance | packages/orchestratorlib/src/orchestratorhelper.ts:499-518 | the utterance becomes a key; every other utterance's entity labels and repeats are untouched |
| EntityLabels.AddEntityLabelAccounts | packages/orchestratorlib/src/orchestratorhelper.ts:499-518 | the label is recorded for the utterance, and the multiset of its labels plus its repeats grows by exactly that label |
| EntityLabels.AddEntityLabelNoDuplicates | packages/orchestratorlib/src/orchestratorhelper.ts:530-538 | entity label lists stay duplicate-free |
| EntityLabels.AddEntityLabelCases | packages/orchestratorlib/src/orchestratorhelper.ts:499-518 | a first annotation starts the list `[l]` and leaves the repeats alone; an absent label is appended to the utterance's list and leaves the repeats alone; a present one leaves the label map alone and is appended to the utterance's repeats |
| EntityLabels.EntityLabelStore.constructor | packages/orchestratorlib/src/orchestratorhelper.ts:499-518 | both entity maps start empty |
| EntityLabels.EntityLabelStore.InsertDuplicate | packages/orchestratorlib/src/orchestratorhelper.ts:510-513 | the label is added to the utterance's repeats; the label map is unchanged |
| EntityLabels.EntityLabelStore.AddNewEntityLabelUtterance | packages/orchestratorlib/src/orchestratorhelper.ts:499-518 | the in-place update leaves exactly `AddEntityLabelUtterance` of the old maps |
| TsvFormats.IndexOfTests | packages/orchestratorlib/src/orchestratorhelper.ts:338-345 | `indexOf >= 0` means "occurs", and `indexOf > 0` means "occurs, but not at position 0" |
| TsvFormats.LabelUtteranceHeaderRule | packages/orchestratorlib/src/orchestratorhelper.ts:342-345 | a label/utterance header holds "Label", and "Text" or "Utterance" whose first occurrence is after position 0 |
| TsvFormats.QnAHeaderRule | packages/orchestratorlib/src/orchestratorhelper.ts:338-340 | a QnA header holds "Question", and "Answer" whose first occurrence is after position 0 |
| TsvFormats.LabelFirstHeader | packages/orchestratorlib/src/orchestratorhelper.ts:342-345 | `Label<TAB>Text` is recognised |
| TsvFormats.TextFirstHeader | packages/orchestratorlib/src/orchestratorhelper.ts:342-345 | `Text<TAB>Label` is not recognised, so it is read as data |
| TsvFormats.QuestionFirstHeader | packages/orchestratorlib/src/orchestratorhelper.ts:338-340 | `Question<TAB>Answer` is recognised |
| TsvFormats.AnswerFirstHeader | packages/orchestratorlib/src/orchestratorhelper.ts:338-340 | `Answer<TAB>Question` is not recognised |
| TsvFormats.LineRecordSkips | packages/orchestratorlib/src/orchestratorhelper.ts:289-292 | a line contributes nothing exactly when it has no tab (fewer than two fields) |
| TsvFormats.LineRecordOfFields | packages/orchestratorlib/src/orchestratorhelper.ts:289-298 | from tab-joined fields, the utterance is field 2 for exactly three fields outside `.blu` and field 1 otherwise; the labels are field 0 split on ',' and trimmed |
| TsvFormats.TryParseLabelUtteranceTsv | packages/orchestratorlib/src/orchestratorhelper.ts:280-310 | the line fold keeps the dataset well-formed |
| TsvFormats.FoldLabelLinesRecords | packages/orchestratorlib/src/orchestratorhelper.ts:288-308 | the fold keeps every earlier pair and records every label of every line with a tab |
| TsvFormats.FoldLabelLinesSkips | packages/orchestratorlib/src/orchestratorhelper.ts:289-292 | lines without a tab leave the dataset unchanged |
| TsvFormats.TryParseQnATsv | packages/orchestratorlib/src/orchestratorhelper.ts:312-336 | when it succeeds, the QnA fold keeps the dataset well-formed |
| TsvFormats.FoldQnaLinesRecords | packages/orchestratorlib/src/orchestratorhelper.ts:320-333 | the trimmed first column of every QnA line with a tab is recorded under the file's label, and nothing is lost |
| TsvFormats.FoldQnaLinesOnlyLabel | packages/orchestratorlib/src/orchestratorhelper.ts:320-333 | on any dataset, the QnA line fold adds no label and no duplicate entry other than the file's label; a dataset holding only that label keeps holding only it |
| TsvFormats.ParseBluSingleLine | packages/orchestratorlib/src/orchestratorhelper.ts:239-249 | a `.blu` file without a line break adds nothing |
| TsvFormats.ParseBluDropsHeader | packages/orchestratorlib/src/orchestratorhelper.ts:239-249 | the first `.blu` line is dropped whatever it holds; the rest is read in `.blu` mode |
| TsvFormats.ParseTsvQnA | packages/orchestratorlib/src/orchestratorhelper.ts:265-278 | a file opening with a QnA header is read as QnA lines under the file's label |
| TsvFormats.ParseTsvLabelled | packages/orchestratorlib/src/orchestratorhelper.ts:265-310 | a file opening with a label/utterance header has that header dropped and is read from the next line |
| TsvFormats.ParseTsvHeaderless | packages/orchestratorlib/src/orchestratorhelper.ts:265-310 | a file with neither header is read from its first line |
| TsvFormats.ParseTsv | packages/orchestratorlib/src/orchestratorhelper.ts:265-278 | reading a TSV file keeps the dataset well-formed |
| TsvFormats.ParseBlu | packages/orchestratorlib/src/orchestratorhelper.ts:239-249 | reading a `.blu` file keeps the dataset well-formed |
| InputFiles.LastDot | packages/orchestratorlib/src/orchestratorhelper.ts:199 | the position of the last '.', or -1 when there is none |
| InputFiles.ExtOfNameShape | packages/orchestratorlib/src/orchestratorhelper.ts:199 | an extension is empty or a '.' followed by dot-free text, and it ends the name |
| InputFiles.ExtnameOfJoin | packages/orchestratorlib/src/orchestratorhelper.ts:381-388 | joining a folder and a plain name gives the name's own extension |
| InputFiles.ExtOfDottedName | packages/orchestratorlib/src/orchestratorhelper.ts:199 | `base.ext` has extension `.ext` |
| InputFiles.ExtOfUndottedName | packages/orchestratorlib/src/orchestratorhelper.ts:199 | a dot-free name and a name whose only dot starts it have no extension |
| InputFiles.FormatOfAccepts | packages/orchestratorlib/src/orchestratorhelper.ts:193-237 | exactly `.lu`, `.qna`, `.json`, `.tsv`, `.txt` and `.blu` are accepted |
| InputFiles.FormatOfExtension | packages/orchestratorlib/src/orchestratorhelper.ts:193-237 | which reader each accepted extension selects; none for any other extension |
| InputFiles.LabelFromFileName | packages/orchestratorlib/src/orchestratorhelper.ts:471-474 | with hierarchical labels, `base + ext` gives `base`; without them it gives "" |
| InputFiles.LabelOfWalkedName | packages/orchestratorlib/src/orchestratorhelper.ts:471-474 | the label put back in front of the extension is the file name |
| InputFiles.WalkAppend | packages/orchestratorlib/src/orchestratorhelper.ts:373-398 | the walk of two runs of entries is the first run's files, then the second's |
| InputFiles.WalkRest | packages/orchestratorlib/src/orchestratorhelper.ts:373-398 | the walk splits at any entry position |
| InputFiles.WalkJobs | packages/orchestratorlib/src/orchestratorhelper.ts:380-396 | every walked file has a directory extension, its path is not in `processedFiles`, and its path ends in '/' and its name; when every entry name is non-empty and free of '/' (as `readdirSync` returns names), so is every walked file's name |
| InputFiles.WalkAccepted | packages/orchestratorlib/src/orchestratorhelper.ts:378-394 | over a tree with such names, every walked file is accepted by the dispatch, and never as a `.blu` snapshot |
| InputFiles.SupportedFormats | packages/orchestratorlib/src/orchestratorhelper.ts:378 | the directory extensions are accepted by the dispatch, and `.blu` is not among them |
| InputFiles.WalkedFileAccepted | packages/orchestratorlib/src/orchestratorhelper.ts:378-394 | a walked file is always accepted by the dispatch, and never as a `.blu` snapshot |
| Ingestion.ProcessFile | packages/orchestratorlib/src/orchestratorhelper.ts:193-237 | a successful read keeps the dataset well-formed |
| Ingestion.ProcessFileFailure | packages/orchestratorlib/src/orchestratorhelper.ts:193-237 | with the external parsers and file reads taken to return records, a file fails exactly when its extension is rejected (the "has invalid extension" error) or when it is `.qna` and the QnA parser returns nothing |
| Ingestion.ProcessFileCases | packages/orchestratorlib/src/orchestratorhelper.ts:193-237 | the result for each extension in branch order: LUIS fold for `.lu`/`.json`, QnA fold or failure for `.qna`, TSV reader for `.tsv`/`.txt`, snapshot reader for `.blu`, error otherwise |
| Ingestion.ProcessFileIncludes | packages/orchestratorlib/src/orchestratorhelper.ts:193-237 | reading a file only adds labels |
| Ingestion.HierarchicalLuFile | packages/orchestratorlib/src/orchestratorhelper.ts:193-263 | with hierarchical labels, reading `folder/name.lu` is the LUIS fold under label `name`, which adds no label and no duplicate entry other than `name` to any dataset |
| Ingestion.ExtnameOfDottedJoin | packages/orchestratorlib/src/orchestratorhelper.ts:381-394 | a file `<base>.<ext>` in a folder has extension `.<ext>` |
| Ingestion.ProcessJobs | packages/orchestratorlib/src/orchestratorhelper.ts:373-398 | processing walked files in order, stopping at the first error, keeps the dataset well-formed |
| Ingestion.ProcessOneJob | packages/orchestratorlib/src/orchestratorhelper.ts:392-394 | a run of one file is that file's `processFile`, its error ending the run with the dataset as before |
| Ingestion.ProcessJobsAppend | packages/orchestratorlib/src/orchestratorhelper.ts:373-398 | running two lists of files is running the first, then the second unless the first failed |
| Ingestion.ProcessJobsStep | packages/orchestratorlib/src/orchestratorhelper.ts:373-398 | once a run has failed, further files change nothing |
| Ingestion.ProcessJobsIncludes | packages/orchestratorlib/src/orchestratorhelper.ts:373-398 | a run only adds labels, whether or not it ends in an error |
| Ingestion.WalkedJobsFailOnlyOnQna | packages/orchestratorlib/src/orchestratorhelper.ts:373-398 | with the external parsers and file reads taken to return records, a run over walked files can only fail on a `.qna` file the parser rejects, never on an extension |
| Ingestion.CollectValid | packages/orchestratorlib/src/orchestratorhelper.ts:107-114 | the maps collected from a folder or a single file form a well-formed dataset, whether or not the run failed |
| Ingestion.UtteranceLabelsMapClean | packages/orchestratorlib/src/orchestratorhelper.ts:102-117 | on success the result is well-formed, normalised, and holds no blocklisted label other than a lone `UNKNOWN` |
| Ingestion.FolderFailsOnlyOnQna | packages/orchestratorlib/src/orchestratorhelper.ts:102-117 | with the external parsers and file reads taken to return records, and walked file names non-empty and free of '/' (which `InputFiles.WalkJobs` gives for names as `readdirSync` returns them), for a folder input the error, if any, is the QnA parser's for one of the walked files |
| LabelStore.UtteranceLabelStore.constructor | packages/orchestratorlib/src/orchestratorhelper.ts:107-108 | the store starts with both maps empty |
| LabelStore.UtteranceLabelStore.InsertDuplicate | packages/orchestratorlib/src/orchestratorhelper.ts:485-490 | the label is added to the utterance's duplicate set, which is created when missing; the label map is unchanged |
| LabelStore.UtteranceLabelStore.AddNewLabelUtterance | packages/orchestratorlib/src/orchestratorhelper.ts:476-497 | the in-place update leaves exactly `Dataset.AddLabelUtterance` of the old dataset |
| LabelStore.UtteranceLabelStore.AddLineLabels | packages/orchestratorlib/src/orchestratorhelper.ts:298-307 | each trimmed label of a line is folded in turn |
| LabelStore.UtteranceLabelStore.AddLabelLine | packages/orchestratorlib/src/orchestratorhelper.ts:288-307 | a line without a tab leaves the maps alone; any other line folds its trimmed labels into its trimmed utterance column |
| LabelStore.UtteranceLabelStore.TryParseLabelUtteranceTsv | packages/orchestratorlib/src/orchestratorhelper.ts:280-310 | always returns true; leaves the line fold of the old dataset, header dropped outside `.blu` |
| LabelStore.UtteranceLabelStore.TryParseQnATsvFile | packages/orchestratorlib/src/orchestratorhelper.ts:312-336 | returns false and changes nothing without a QnA header; otherwise leaves the QnA fold |
| LabelStore.UtteranceLabelStore.ParseBluFile | packages/orchestratorlib/src/orchestratorhelper.ts:239-249 | leaves `ParseBlu` of the old dataset |
| LabelStore.UtteranceLabelStore.ParseTsvFile | packages/orchestratorlib/src/orchestratorhelper.ts:265-278 | leaves `ParseTsv` of the old dataset |
| LabelStore.UtteranceLabelStore.GetLuisIntentsUtterances | packages/orchestratorlib/src/orchestratorhelper.ts:400-419 | leaves the LUIS record fold of the old dataset |
| LabelStore.UtteranceLabelStore.AddPairQuestions | packages/orchestratorlib/src/orchestratorhelper.ts:427-436 | folding one pair's questions in place leaves `Dataset.AddQuestions` of the old dataset |
| LabelStore.UtteranceLabelStore.GetQnaQuestionsAsUtterances | packages/orchestratorlib/src/orchestratorhelper.ts:421-438 | leaves the QnA record fold of the old dataset |
| LabelStore.UtteranceLabelStore.ParseQnaFile | packages/orchestratorlib/src/orchestratorhelper.ts:347-371 | no parsed knowledge base is an error and changes nothing; otherwise leaves the QnA record fold |
| LabelStore.UtteranceLabelStore.ProcessFile | packages/orchestratorlib/src/orchestratorhelper.ts:193-237 | per extension, in branch order, the new dataset and the error, as in `Ingestion.ProcessFileCases` |
| LabelStore.UtteranceLabelStore.ProcessFileStep | packages/orchestratorlib/src/orchestratorhelper.ts:193-237 | success leaves `Ingestion.ProcessFile`'s dataset; failure returns its error and leaves the dataset unchanged |
| LabelStore.UtteranceLabelStore.IterateInputFolder | packages/orchestratorlib/src/orchestratorhelper.ts:373-398 | the dataset and error reached are those of processing the walk's files in order, stopping at the first error |
| LabelStore.UtteranceLabelStore.VisitEntry | packages/orchestratorlib/src/orchestratorhelper.ts:380-396 | a directory is walked recursively; a seen path or an unread extension is skipped; any other file is processed |
| LabelStore.UtteranceLabelStore.NormalizeInPlace | packages/dispatcher/test/data_structure/DictionaryMapUtility.test.ts:100-153 | rewriting the maps in place, utterance by utterance, leaves exactly `Normalize` of the old dataset |
| LabelStore.UtteranceLabelStore.NormalizeOne | packages/dispatcher/test/data_structure/DictionaryMapUtility.test.ts:134-153 | rewriting one utterance in place leaves `NormalizeUtterance` of the old dataset |
| LabelStore.UtteranceLabelStore.ProcessUnknownLabels | packages/dispatcher/test/data_structure/DictionaryMapUtility.test.ts:100-153 | in-place blocklist normalisation |
| LabelStore.UtteranceLabelStore.ProcessUnknownLabelsUsingLabelSet | packages/dispatcher/test/data_structure/DictionaryMapUtility.test.ts:155-212 | in-place allow-set normalisation |
| LabelStore.GetUtteranceLabelsMap | packages/orchestratorlib/src/orchestratorhelper.ts:102-117 | the store-based run returns exactly `Ingestion.GetUtteranceLabelsMap` |
| Snapshot.ListingLines | packages/orchestratorlib/src/orchestratorhelper.ts:88-92 | one line per utterance, in key order, each `labels.join(',') + TAB + utterance` |
| Snapshot.GetTsvContent | packages/orchestratorlib/src/orchestratorhelper.ts:77-96 | the loop accumulates exactly the listing text |
| Snapshot.ListingLinesOfText | packages/orchestratorlib/src/orchestratorhelper.ts:88-92 | split on line breaks, the text is the listing lines followed by one empty tail |
| Snapshot.LineRoundTrip | packages/orchestratorlib/src/orchestratorhelper.ts:280-310 | one listing line is read back, in `.blu` mode, as its utterance with its labels |
| Snapshot.ReadListingLines | packages/orchestratorlib/src/orchestratorhelper.ts:280-310 | reading back the listing of distinct utterances rebuilds their label lists |
| Snapshot.ListingRoundTrip | packages/orchestratorlib/src/orchestratorhelper.ts:239-249 | a header line plus the listing, read by `parseBluFile` into an empty dataset, gives back the same keys, order and label lists, when labels are non-empty, duplicate-free, trimmed and free of ',', TAB and line breaks, and utterances are trimmed and free of TAB and line breaks |
| DteFormat.Groups | packages/orchestratorlib/src/orchestratorhelper.ts:51-75 | the inverted table lists each of its labels exactly once |
| DteFormat.DteLines | packages/orchestratorlib/src/orchestratorhelper.ts:64-72 | line `i` is `i TAB label TAB utterances`, keys running 0, 1, 2, … |
| DteFormat.CreateDteContent | packages/orchestratorlib/src/orchestratorhelper.ts:51-75 | the loops accumulate exactly the DTE text |
| DteFormat.GroupUtterancesOrder | packages/orchestratorlib/src/orchestratorhelper.ts:51-75 | the table's label order lists exactly the labels met, each once |
| DteFormat.DteLineCount | packages/orchestratorlib/src/orchestratorhelper.ts:51-75 | exactly one line per distinct label of the dataset |
| DteFormat.DteMembers | packages/orchestratorlib/src/orchestratorhelper.ts:51-75 | each label's entry is its utterances joined with '\|', in first-seen order |
| DteFormat.DteLineFields | packages/orchestratorlib/src/orchestratorhelper.ts:69 | a DTE line splits on TAB into its key, label and joined utterances |
| DteFormat.DteTextLines | packages/orchestratorlib/src/orchestratorhelper.ts:51-75 | split on line breaks, the DTE text is its lines in key order, then the empty tail |
| LabelNormalizer.Survivors | packages/dispatcher/test/data_structure/DictionaryMapUtility.test.ts:140-142 | the kept labels are exactly the members the policy keeps |
| LabelNormalizer.SurvivorsAppend | packages/dispatcher/test/data_structure/DictionaryMapUtility.test.ts:140-142 | filtering keeps the survivors' relative order |
| LabelNormalizer.NormalizeLabelsMembers | packages/dispatcher/test/data_structure/DictionaryMapUtility.test.ts:140-146 | a list with no kept label becomes `[UNKNOWN]`; otherwise it becomes its survivors |
| LabelNormalizer.NormalizeLabelsIdempotent | packages/dispatcher/test/data_structure/DictionaryMapUtility.test.ts:140-146 | normalising a normalised list changes nothing |
| LabelNormalizer.NormalizeLabelsNoDuplicates | packages/dispatcher/test/data_structure/DictionaryMapUtility.test.ts:140-146 | a duplicate-free list stays duplicate-free |
| LabelNormalizer.NormalizeUtterance | packages/dispatcher/test/data_structure/DictionaryMapUtility.test.ts:134-153 | rewriting one utterance keeps the keys and order and leaves every other utterance alone |
| LabelNormalizer.NormalizeUtterancesEffect | packages/dispatcher/test/data_structure/DictionaryMapUtility.test.ts:134-153 | rewriting a duplicate-free list of utterances rewrites each exactly once |
| LabelNormalizer.NormalizeSpec | packages/dispatcher/test/data_structure/DictionaryMapUtility.test.ts:134-153 | every utterance gets its normalised list, each existing duplicate set becomes that list's elements, and the dataset stays well-formed |
| LabelNormalizer.NormalizeIdempotent | packages/dispatcher/test/data_structure/DictionaryMapUtility.test.ts:134-153 | normalising twice is normalising once |
| LabelNormalizer.NormalizeNoDuplicateLabels | packages/dispatcher/test/data_structure/DictionaryMapUtility.test.ts:134-153 | duplicate-free label lists stay duplicate-free |
| LabelNormalizer.BlocklistScenario | packages/dispatcher/test/data_structure/DictionaryMapUtility.test.ts:140-153 | `["greeting","chitchat"]` is kept; `["greeting","","unknown","none"]` becomes `["greeting"]`; all-placeholder and empty lists become `[UNKNOWN]`; the matching duplicate sets |
| LabelNormalizer.AllowSetScenario | packages/dispatcher/test/data_structure/DictionaryMapUtility.test.ts:197-212 | with `{"greeting"}`, the first two lists become `["greeting"]` and the others `[UNKNOWN]` |
| LabelNormalizer.FourUtterances | packages/orchestratorlib/test/utility.test.ts:47-80 | the test's four-utterance dataset is well-formed |
| LabelNormalizer.FourUtterancesBlocklist | packages/orchestratorlib/test/utility.test.ts:81-100 | `hi` keeps its two labels, `A` becomes `["greeting"]`, `B` and `C` become `[UNKNOWN]`, each duplicate set equals the new list's elements, and the key order is kept |
| LabelNormalizer.FourUtterancesAllowSet | packages/orchestratorlib/test/utility.test.ts:137-159 | with `{"greeting"}`, `hi` and `A` become `["greeting"]`, `B` and `C` become `[UNKNOWN]`, and the duplicate sets shrink to match |
| LabelNormalizer.NormalizedUtterance | packages/orchestratorlib/test/utility.test.ts:94-100 | an utterance with a duplicate set ends with that set equal to the elements of its normalised list |
| LabelIndex.Add | packages/orchestratorlib/test/utility.test.ts:38-41 | registering a label adds exactly that key |
| LabelIndex.AddValid | packages/orchestratorlib/test/utility.test.ts:38-41 | a known label changes nothing; a new one is pushed at the end and mapped to `length - 1`; `map[array[i]] == i` is kept |
| LabelIndex.FromUniqueStringArray | packages/dispatcher/test/data_structure/DictionaryMapUtility.test.ts:16-36 | the map's keys are the array's elements |
| LabelIndex.ExtendValid | packages/dispatcher/test/data_structure/DictionaryMapUtility.test.ts:37-67 | extending keeps the index valid |
| LabelIndex.ExtendKeys | packages/dispatcher/test/data_structure/DictionaryMapUtility.test.ts:37-67 | the keys after extending are the old keys plus the labels seen |
| LabelIndex.ExtendKnown | packages/dispatcher/test/data_structure/DictionaryMapUtility.test.ts:37-67 | extending by labels already known changes nothing |
| LabelIndex.ExtendAppend | packages/dispatcher/test/data_structure/DictionaryMapUtility.test.ts:68-98 | extending by `a` then `b` is extending by `a + b` |
| LabelIndex.FromStringArraysFlatten | packages/dispatcher/test/data_structure/DictionaryMapUtility.test.ts:68-98 | building from several arrays is building from their concatenation |
| LabelIndex.FromStringArrayValid | packages/dispatcher/test/data_structure/DictionaryMapUtility.test.ts:62-66 | any input gives a valid index holding exactly its distinct labels: no repeats, `map[array[i]] == i` |
| LabelIndex.IndexSizes | packages/dispatcher/test/data_structure/DictionaryMapUtility.test.ts:62-66 | a valid index has as many map entries as array elements |
| LabelIndex.FirstIndexUnique | packages/dispatcher/test/data_structure/DictionaryMapUtility.test.ts:37-67 | the first occurrence is the only position holding `x` with no `x` before it |
| LabelIndex.FromStringArrayFirstSeenOrder | packages/dispatcher/test/data_structure/DictionaryMapUtility.test.ts:37-67 | the index lists labels in the order of their first occurrence |
| LabelIndex.FromUniqueStringArrayAgrees | packages/dispatcher/test/data_structure/DictionaryMapUtility.test.ts:16-36 | a duplicate-free input is kept as it is, with the position-by-position map |
| LabelIndex.FromUniqueStringArrayPositions | packages/dispatcher/test/data_structure/DictionaryMapUtility.test.ts:16-36 | each label of a duplicate-free input maps to its own position |
| LabelIndex.UniqueOfThree | packages/dispatcher/test/data_structure/DictionaryMapUtility.test.ts:16-36 | any three distinct labels map to 0, 1 and 2, three entries |
| LabelIndex.UniqueScenario | packages/dispatcher/test/data_structure/DictionaryMapUtility.test.ts:16-36 | `["a","b","c"]` maps a, b and c to 0, 1 and 2, three entries |
| LabelIndex.RepeatingCollapses | packages/dispatcher/test/data_structure/DictionaryMapUtility.test.ts:37-67 | `["a","b","a","c"]` gives the index of `["a","b","c"]` |
| LabelIndex.RepeatingScenario | packages/dispatcher/test/data_structure/DictionaryMapUtility.test.ts:37-67 | three labels in first-seen order, mapped to 0, 1 and 2 |
| LabelIndex.ArraysScenario | packages/dispatcher/test/data_structure/DictionaryMapUtility.test.ts:68-98 | `[["a","b","a","c"],["b","c"]]` gives the index of `["a","b","c"]` |
| LabelIndex.ThreeLabelsScenario | packages/orchestratorlib/test/utility.test.ts:27-46 | `["A","B","C"]` gives three labels; pushing an absent label keeps the index valid and maps it to 3 |
| PredictSession.SelectEntry | packages/orchestratorlib/src/predict.ts:589-624 | rejected exactly when there are no examples, the trimmed entry is blank or not an integer, or the index is outside the report; checked in that order, no examples gives -2, a blank entry -3, a non-integer -5 and an index outside the report -4; otherwise the row at the entry's index, its labels split on ',' |
| PredictSession.SelectByIndex | packages/orchestratorlib/src/predict.ts:608-618 | typing the decimal index of a row selects that row |
| PredictSession.SelectIgnoresWhitespace | packages/orchestratorlib/src/predict.ts:602-603 | surrounding whitespace does not change the selection |
| PredictSession.SelectPastEnd | packages/orchestratorlib/src/predict.ts:611-616 | an index at or past the end is rejected with -4 |
| PredictSession.SelectByValue | packages/orchestratorlib/src/predict.ts:602-618 | any entry whose trimmed text is a number equal to a row index ("+1", "01", "1.0") selects that row |
| PredictSession.SelectOutOfRange | packages/orchestratorlib/src/predict.ts:608-616 | an entry denoting an integer outside the report is rejected with -4 |
| PredictSession.SelectNegative | packages/orchestratorlib/src/predict.ts:611-616 | a negative index is rejected with -4 |
| PredictSession.IntegerEntryIndex | packages/orchestratorlib/src/predict.ts:608-609 | an entry that parses to an integer denotes it |
| PredictSession.SelectBlank | packages/orchestratorlib/src/predict.ts:602-607 | a blank entry is rejected with -3 once there are examples |
| PredictSession.SelectWord | packages/orchestratorlib/src/predict.ts:608-622 | a word is rejected with -5 |
| PredictSession.FirstRefused | packages/orchestratorlib/src/predict.ts:868-882 | every label before the stopping point was removed, and the label at it was refused |
| PredictSession.RefusedAt | packages/orchestratorlib/src/predict.ts:868-882 | the first refused label is where removal stops |
| PredictSession.AllRemoved | packages/orchestratorlib/src/predict.ts:868-882 | removal runs to the end when every label is removed |
| PredictSession.OrchestratorPredict.constructor | packages/orchestratorlib/src/predict.ts:151-206 | the whole session state: the four thresholds are the parameters; utterance, labels, new labels, both scanned maps and the label index start empty; the evaluation output is empty |
| PredictSession.OrchestratorPredict.CommandLetUWithEntry | packages/orchestratorlib/src/predict.ts:456-459 | returns 0 and stores the entry verbatim as the current utterance; every other session field is unchanged |
| PredictSession.OrchestratorPredict.CommandLetCU | packages/orchestratorlib/src/predict.ts:461-464 | returns 0 and clears the current utterance; every other session field is unchanged |
| PredictSession.OrchestratorPredict.CommandLetCI | packages/orchestratorlib/src/predict.ts:484-487 | returns 0 and clears the current labels; every other session field is unchanged |
| PredictSession.OrchestratorPredict.CommandLetCNI | packages/orchestratorlib/src/predict.ts:507-510 | returns 0 and clears the new labels; every other session field is unchanged |
| PredictSession.OrchestratorPredict.SelectFromReport | packages/orchestratorlib/src/predict.ts:589-624 | a rejection returns its code and leaves the whole session unchanged, thresholds and maps included; a selection returns 0, copies the row into the current utterance and labels, and changes no other field |
| PredictSession.OrchestratorPredict.CommandLetVDWithEntry | packages/orchestratorlib/src/predict.ts:589-624 | `SelectFromReport` on the multi-label report: a rejection's code with the whole session unchanged, or 0 with only the current utterance and labels set from the row |
| PredictSession.OrchestratorPredict.CommandLetVAWithEntry | packages/orchestratorlib/src/predict.ts:630-665 | `SelectFromReport` on the ambiguous report: a rejection's code with the whole session unchanged, or 0 with only the current utterance and labels set from the row |
| PredictSession.OrchestratorPredict.CommandLetVMWithEntry | packages/orchestratorlib/src/predict.ts:671-706 | `SelectFromReport` on the misclassified report: a rejection's code with the whole session unchanged, or 0 with only the current utterance and labels set from the row |
| PredictSession.OrchestratorPredict.CommandLetVLWithEntry | packages/orchestratorlib/src/predict.ts:712-747 | `SelectFromReport` on the low-confidence report: a rejection's code with the whole session unchanged, or 0 with only the current utterance and labels set from the row |
| PredictSession.OrchestratorPredict.CommandLetVATWithEntry | packages/orchestratorlib/src/predict.ts:753-762 | a non-number returns -1 with the whole session unchanged; otherwise returns 0 and sets the ambiguous closeness to `Number(entry)`, every other field unchanged |
| PredictSession.OrchestratorPredict.CommandLetVLTWithEntry | packages/orchestratorlib/src/predict.ts:768-777 | a non-number returns -1 with the whole session unchanged; otherwise returns 0 and sets the low-confidence threshold to `Number(entry)`, every other field unchanged |
| PredictSession.OrchestratorPredict.CommandLetVMTWithEntry | packages/orchestratorlib/src/predict.ts:783-792 | a non-number returns -1 with the whole session unchanged; otherwise returns 0 and sets the multi-label threshold to `Number(entry)`, every other field unchanged |
| PredictSession.OrchestratorPredict.CommandLetVUTWithEntry | packages/orchestratorlib/src/predict.ts:798-807 | a non-number returns -1 with the whole session unchanged; otherwise returns 0 and sets the unknown-label threshold to `Number(entry)`, every other field unchanged |
| PredictSession.OrchestratorPredict.CommandLetF | packages/orchestratorlib/src/predict.ts:512-527 | changes nothing; -1 exactly when the scanned map is empty, -2 exactly when it is not and the utterance is empty, 0 otherwise |
| PredictSession.OrchestratorPredict.CommandLetRL | packages/orchestratorlib/src/predict.ts:868-882 | -1 with no labels; otherwise asks the resolver to remove each label in order, stopping after the first refusal with -1, and returns 0 when all were removed |
| PredictSession.OrchestratorPredict.CommandLetS | packages/orchestratorlib/src/predict.ts:420-447 | clears both scanned maps and returns -1 when there are no examples, every other field unchanged; otherwise returns 0, installs the scanned maps and rebuilds the label index from the resolver's labels (a valid index whose keys are exactly those labels), every other field unchanged |
| PredictSession.OrchestratorPredict.CommandLetD | packages/orchestratorlib/src/predict.ts:406-418 | returns 0 and rebuilds the label index from the resolver's labels, a valid index whose keys are exactly those labels; every other field unchanged |
| PredictSession.ScanBuildsIndex | packages/orchestratorlib/src/predict.ts:428-429 | a scan whose resolver lists `a, b, a, c` leaves the index `[a, b, c]`, with `c` at 2 |
| PredictSession.EmptyScanThenFind | packages/orchestratorlib/src/predict.ts:512-527 | a session with no scanned examples answers `f` with -1 |
| PredictSession.PickThenBlank | packages/orchestratorlib/src/predict.ts:589-624 | after a row is picked, a blank entry returns -3 and keeps the picked utterance |
| PredictSession.ThresholdEntries | packages/orchestratorlib/src/predict.ts:753-762 | a non-number is rejected; the earlier value 0.2 stays; the empty entry "" is accepted and sets 0 |
| Text.SplitJoin | packages/orchestratorlib/src/orchestratorhelper.ts:289-298 | splitting a join on a separator absent from the parts gives the parts back |
| Text.Trim | packages/orchestratorlib/src/orchestratorhelper.ts:296-302 | the result is a slice of the input, has no whitespace at either end, and everything cut off before or after it is whitespace |
| Text.TrimIdentity | packages/orchestratorlib/src/orchestratorhelper.ts:296-302 | a trimmed string is its own trim |
| Numbers.ParseNatToString | packages/orchestratorlib/src/predict.ts:608-609 | `Number` of a decimal numeral is its value |
| Numbers.ParseBlank | packages/orchestratorlib/src/predict.ts:755-756 | `Number` of a blank string is 0 |
| Numbers.ParseWord | packages/orchestratorlib/src/predict.ts:755-758 | `Number` of a word is not a number |

## Left out

- **File system.** Reading files, existence and directory tests are left out, and so are the fs side of `iterateInputFolder`, `findLuFiles`, `writeToFile`, `writeDialogFiles` and `writeSettingsFile`. A file's content is a parameter (`FileInput`, a function from path to input). A directory tree is a datatype of entries.
- **External parsers.** The LU, QnA Maker and JSON parsers are left out. Their output is taken as structured records: `LuisApp`, `QnaKb`, and `None` for a rejected QnA parse. `parseQnaFile` drops every line containing `> !# @qna.pair.source =` before it calls the QnA Maker parser (orchestratorhelper.ts:358-363); that filter is part of how the `qnaKb` record came about and is not modelled separately.
- **`parseLuFile`, `getJsonIntentsEntitiesUtterances` and `transformEntities`.** These depend on the external LU parser and an unseen recogniser map. `.lu` and `.json` both go through the LUIS record fold. The entity fold that `getJsonIntentsEntitiesUtterances` drives is modelled on its own (`EntityLabels`).
- **Errors.** Thrown errors are `Result`/`Option` values carrying the error message.
- **Mutable `processedFiles` list.** It is a set parameter.
- **Paths.** `path.join` is written as `folder + "/" + name` without normalisation. `path.extname` and `path.basename` are modelled for POSIX paths only.
- **Normaliser and label index.** Their implementations are not part of this model. They are modelled from their test assertions:
  - the blocklist is exactly `""`, `"unknown"` and `"none"`, case-sensitive;
  - a duplicate set is resynchronised only where one already exists;
  - the index keeps first-seen order.
- **`Utility.insertStringPairToStringIdStringSetNativeMap`, `insertStringLabelPairToStringIdLabelSetNativeMap` and `Label.equals`.** These are not part of this model. The first is assumed to add to a set, creating it when missing. The second is assumed to append to a list. `Label.equals` is assumed to be structural equality.
- **Key order.** Object keys are taken to enumerate in insertion order. JavaScript lists integer-like keys first.
- **Prototype keys.** Property names such as "constructor" and "toString" are treated as ordinary keys: as utterances in the dataset maps, and as labels in the `label in labelUtteranceMap` test of `createDteContent` (orchestratorhelper.ts:57).
- **Strings.** `String.trim` strips the ECMAScript WhiteSpace and LineTerminator characters, Unicode space separators and U+FEFF included. The model has no Unicode normalisation or case folding.
- **`Utility.isEmptyString` and `Utility.isEmptyStringArray`.** These are not part of this model. They are taken to mean the empty string and the empty array.
- **Numbers.** `Number(...)` is a decimal parse: trimming, optional sign, digits and an optional fraction, with blank meaning 0. It has no exponent, hex, `Infinity` or `NaN` spelling. Numbers are exact reals, not IEEE doubles.
- **Predict session: foreign calls, I/O and evaluation.**
  - All `labelResolver` calls are left out. `commandLetRL`'s per-label removal is a `string -> bool` parameter.
  - `commandLetS`'s example count, the resolver's intent labels and the scanned maps are parameters, and so are `commandLetD`'s labels. `commandLetS`'s label statistics and both commands' console output are left out.
  - `commandLetI/NIwithEntry` are left out because the label-entry parser they call is unseen.
  - The console loop, help and the display-only commands are left out, as are file writes (`commandLetN`, `commandLetV`), evaluation (`commandLetV`, `commandLetP`, `commandLetA/R/C`) and the constructor's path checks.
  - Report rows are `(utterance, labels)` pairs.
  - The `-1` branch for a missing evaluation output is left out: the field is always set.
  - The initial evaluation output, `Utility.generateEmptyEvaluationReport()` (predict.ts:147), is not part of this model. It is taken to be an empty report: no examples and four empty row lists.
- **Evaluation engine, confusion matrix, `labelresolver.ts`, `predictionscorestructure.ts`, `evaluate.ts`, `test.ts`.** These are foreign calls, floating-point scoring or plain wiring.
- **EntityLabels.EntityLabelStore.InsertDuplicate.** The store that repeated entity labels go to is unseen. It is modelled as a list to which each repeat is appended.
- Ingestion.ProcessFileFailure: its failures are only the ones the model keeps. Three throws of the source come from unmodelled file reads and the external LU parser, and are not modelled: `fs.readJsonSync` on a malformed `.json` file (orchestratorhelper.ts:217); a rejection of the LU parser, raised in `parseLuFile` (orchestratorhelper.ts:259) and awaited by `processFile` (orchestratorhelper.ts:202); and `findLuFiles`' "Content not found" error for an imported file (orchestratorhelper.ts:556-558).
- Ingestion.WalkedJobsFailOnlyOnQna: the same three throws can also end a walked run, and are not modelled. `findLuFiles` also adds each imported path to `processedFiles` (orchestratorhelper.ts:546-548); in the model the processed set does not grow during a run.
- Ingestion.FolderFailsOnlyOnQna: for the same reasons, a folder input can also fail with those three throws, which the model does not raise.
