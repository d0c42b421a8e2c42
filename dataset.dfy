/**
 * The canonical dataset the ingestion code builds: an insertion-ordered map from
 * utterance to its label list, plus the duplicate map that records labels assigned
 * to an utterance more than once; and the fold that adds one (utterance, label)
 * pair to it (`addNewLabelUtterance`, `addUniqueLabel`), with the adapters that feed
 * the fold from already-parsed LUIS and QnA Maker records.
 */
module Dataset {
  import opened Wrappers
  import opened Seqs
  import opened Text

  /**
   * `order` lists the utterances in the order they were first added (the key order
   * of the JavaScript object `utteranceLabelsMap`); `labels` is that object;
   * `duplicates` is the `Map<string, Set<string>>` of repeated assignments.
   */
  datatype UtteranceLabels = UtteranceLabels(
    order: seq<string>,
    labels: map<string, seq<string>>,
    duplicates: map<string, set<string>>)

  /** `order` enumerates exactly the keys of `labels`, once each; duplicates only for known utterances. */
  ghost predicate Valid(d: UtteranceLabels) {
    && NoDuplicates(d.order)
    && (forall u :: u in d.labels <==> u in d.order)
    && d.duplicates.Keys <= d.labels.Keys
  }

  const Empty: UtteranceLabels := UtteranceLabels([], map[], map[])

  /** The label actually recorded: a non-empty hierarchical (file-name) label wins. */
  function EffectiveLabel(labelName: string, hierarchicalLabel: string): string {
    if |hierarchicalLabel| > 0 then hierarchicalLabel else labelName
  }

  /** The duplicate set of `u`, empty when the duplicate map has no entry for it. */
  function DuplicatesOf(d: UtteranceLabels, u: string): set<string> {
    if u in d.duplicates then d.duplicates[u] else {}
  }

  /**
   * `addUniqueLabel`: scan `labels` for `newLabel`; report false if it is there,
   * otherwise push it at the end and report true.
   */
  method AddUniqueLabel<T(==)>(newLabel: T, labels: seq<T>) returns (added: bool, result: seq<T>)
    ensures added <==> newLabel !in labels
    ensures added ==> result == labels + [newLabel]
    ensures !added ==> result == labels
    ensures NoDuplicates(labels) ==> NoDuplicates(result)
  {
    for i := 0 to |labels|
      invariant forall j :: 0 <= j < i ==> labels[j] != newLabel
    {
      if labels[i] == newLabel {
        return false, labels;
      }
    }
    return true, labels + [newLabel];
  }

  /**
   * `addNewLabelUtterance`: fold one (utterance, label) pair into the dataset. The
   * duplicate-map insertion (`Utility.insertStringPairToStringIdStringSetNativeMap`)
   * adds the label to the utterance's set, creating the set when it is missing.
   */
  function AddLabelUtterance(d: UtteranceLabels, utterance: string, labelName: string, hierarchicalLabel: string): (r: UtteranceLabels)
    ensures Valid(d) ==> Valid(r)
    ensures r.labels.Keys == d.labels.Keys + {utterance}
    ensures r.order == if utterance in d.labels then d.order else d.order + [utterance]
    // every other utterance is untouched
    ensures forall v :: v != utterance && v in d.labels ==> r.labels[v] == d.labels[v]
    ensures forall v :: v != utterance ==> (v in r.duplicates <==> v in d.duplicates)
    ensures forall v :: v != utterance && v in d.duplicates ==> r.duplicates[v] == d.duplicates[v]
    // an unseen utterance gets exactly the effective label and no duplicate entry
    ensures utterance !in d.labels ==>
              r.labels[utterance] == [EffectiveLabel(labelName, hierarchicalLabel)] && r.duplicates == d.duplicates
    // a known utterance: the effective label is appended only when absent, else recorded as a duplicate
    ensures utterance in d.labels && EffectiveLabel(labelName, hierarchicalLabel) !in d.labels[utterance] ==>
              r.labels[utterance] == d.labels[utterance] + [EffectiveLabel(labelName, hierarchicalLabel)]
              && r.duplicates == d.duplicates
    ensures utterance in d.labels && EffectiveLabel(labelName, hierarchicalLabel) in d.labels[utterance] ==>
              r.labels[utterance] == d.labels[utterance]
              && DuplicatesOf(r, utterance) == DuplicatesOf(d, utterance) + {EffectiveLabel(labelName, hierarchicalLabel)}
    // the utterance's label list stays duplicate-free
    ensures (utterance in d.labels ==> NoDuplicates(d.labels[utterance])) ==> NoDuplicates(r.labels[utterance])
  {
    var effective := EffectiveLabel(labelName, hierarchicalLabel);
    if utterance !in d.labels then
      UtteranceLabels(d.order + [utterance], d.labels[utterance := [effective]], d.duplicates)
    else if effective in d.labels[utterance] then
      d.(duplicates := d.duplicates[utterance := DuplicatesOf(d, utterance) + {effective}])
    else
      d.(labels := d.labels[utterance := d.labels[utterance] + [effective]])
  }

  /** Every (utterance, label) pair of `d` is also in `r`. */
  ghost predicate Includes(r: UtteranceLabels, d: UtteranceLabels) {
    forall v, x :: v in d.labels && x in d.labels[v] ==> v in r.labels && x in r.labels[v]
  }

  /** `r` labels utterance `u` with `labelName`. */
  predicate Records(r: UtteranceLabels, u: string, labelName: string) {
    u in r.labels && labelName in r.labels[u]
  }

  lemma IncludesTransitive(a: UtteranceLabels, b: UtteranceLabels, c: UtteranceLabels)
    requires Includes(b, a) && Includes(c, b)
    ensures Includes(c, a)
  {
  }

  /** Folding a pair never removes a label from any utterance, and records the effective label. */
  lemma AddLabelUtteranceKeepsLabels(d: UtteranceLabels, utterance: string, labelName: string, hierarchicalLabel: string)
    ensures var r := AddLabelUtterance(d, utterance, labelName, hierarchicalLabel);
            Includes(r, d) && Records(r, utterance, EffectiveLabel(labelName, hierarchicalLabel))
  {
  }

  /** Folding `u` with each of `ls` in turn, hierarchical label empty (one TSV line's labels). */
  function AddLabels(d: UtteranceLabels, u: string, ls: seq<string>): (r: UtteranceLabels)
    ensures Valid(d) ==> Valid(r)
  {
    if ls == [] then d else AddLabelUtterance(AddLabels(d, u, ls[..|ls| - 1]), u, ls[|ls| - 1], "")
  }

  /** A fresh utterance folded with a duplicate-free, non-empty label list gets exactly that list. */
  lemma {:induction false} AddLabelsToFreshUtterance(d: UtteranceLabels, u: string, ls: seq<string>)
    requires u !in d.labels && |ls| >= 1 && NoDuplicates(ls)
    ensures AddLabels(d, u, ls) == UtteranceLabels(d.order + [u], d.labels[u := ls], d.duplicates)
  {
    var init, last := ls[..|ls| - 1], ls[|ls| - 1];
    assert ls == init + [last];
    if init == [] {
      assert AddLabels(d, u, init) == d;
    } else {
      assert NoDuplicates(init) && last !in init;
      AddLabelsToFreshUtterance(d, u, init);
      var x := UtteranceLabels(d.order + [u], d.labels[u := init], d.duplicates);
      AppendAbsentLabel(d, u, ls, x);
      UpdateTwice(d.labels, u, init, ls);
    }
  }

  /** One more label, absent so far, is appended to the utterance's list. */
  lemma AppendAbsentLabel(d: UtteranceLabels, u: string, ls: seq<string>, x: UtteranceLabels)
    requires |ls| >= 1 && AddLabels(d, u, ls[..|ls| - 1]) == x
    requires u in x.labels && ls[|ls| - 1] !in x.labels[u]
    ensures AddLabels(d, u, ls) == x.(labels := x.labels[u := x.labels[u] + [ls[|ls| - 1]]])
  {
  }

  lemma UpdateTwice<K, V>(m: map<K, V>, k: K, v: V, w: V)
    ensures m[k := v][k := w] == m[k := w]
  {
  }

  /** Folding a label list keeps every earlier pair and records each of the labels. */
  lemma {:induction false} AddLabelsKeepsLabels(d: UtteranceLabels, u: string, ls: seq<string>)
    ensures var r := AddLabels(d, u, ls);
            Includes(r, d) && forall l :: l in ls ==> Records(r, u, l)
  {
    if ls != [] {
      var init := ls[..|ls| - 1];
      AddLabelsKeepsLabels(d, u, init);
      var mid := AddLabels(d, u, init);
      AddLabelUtteranceKeepsLabels(mid, u, ls[|ls| - 1], "");
      IncludesTransitive(d, mid, AddLabels(d, u, ls));
      assert ls == init + [ls[|ls| - 1]];
    }
  }

  // ----- Records produced by the external LUIS and QnA Maker parsers -----

  /** One labelled utterance of a LUIS application (`{text, intent}`). */
  datatype LuisUtterance = LuisUtterance(text: string, intent: string)

  /** A parsed LUIS application; `utterances` is None when the object has no such property. */
  datatype LuisApp = LuisApp(utterances: Option<seq<LuisUtterance>>)

  /** One QnA pair: its alternative questions. */
  datatype QnaPair = QnaPair(questions: seq<string>)

  /** A parsed QnA Maker knowledge base (`kb.qnaList`). */
  datatype QnaKb = QnaKb(qnaList: seq<QnaPair>)

  function AddLuisUtterances(d: UtteranceLabels, us: seq<LuisUtterance>, hierarchicalLabel: string): (r: UtteranceLabels)
    ensures Valid(d) ==> Valid(r)
  {
    if us == [] then d
    else
      var e := us[|us| - 1];
      AddLabelUtterance(AddLuisUtterances(d, us[..|us| - 1], hierarchicalLabel), Trim(e.text), Trim(e.intent), hierarchicalLabel)
  }

  /** `getLuisIntentsUtterances`: fold every (trimmed text, trimmed intent) pair, if the app has utterances. */
  function GetLuisIntentsUtterances(d: UtteranceLabels, app: LuisApp, hierarchicalLabel: string): (r: UtteranceLabels)
    ensures Valid(d) ==> Valid(r)
  {
    match app.utterances
    case None => d
    case Some(us) => AddLuisUtterances(d, us, hierarchicalLabel)
  }

  /** Fold each trimmed question of one QnA pair under `labelName`, hierarchical label empty. */
  function AddQuestions(d: UtteranceLabels, questions: seq<string>, labelName: string): (r: UtteranceLabels)
    ensures Valid(d) ==> Valid(r)
  {
    if questions == [] then d
    else AddLabelUtterance(AddQuestions(d, questions[..|questions| - 1], labelName), Trim(questions[|questions| - 1]), labelName, "")
  }

  /** `getQnaQuestionsAsUtterances`: every trimmed question of every pair is folded under `labelName`. */
  function GetQnaQuestionsAsUtterances(d: UtteranceLabels, kb: QnaKb, labelName: string): (r: UtteranceLabels)
    ensures Valid(d) ==> Valid(r)
  {
    AddQnaPairs(d, kb.qnaList, labelName)
  }

  function AddQnaPairs(d: UtteranceLabels, pairs: seq<QnaPair>, labelName: string): (r: UtteranceLabels)
    ensures Valid(d) ==> Valid(r)
  {
    if pairs == [] then d
    else AddQuestions(AddQnaPairs(d, pairs[..|pairs| - 1], labelName), pairs[|pairs| - 1].questions, labelName)
  }

  /** After the LUIS fold, every trimmed utterance text carries its effective label. */
  lemma {:induction false} LuisUtterancesAllRecorded(d: UtteranceLabels, us: seq<LuisUtterance>, hierarchicalLabel: string)
    ensures var r := AddLuisUtterances(d, us, hierarchicalLabel);
            && Includes(r, d)
            && forall i :: 0 <= i < |us| ==> Records(r, Trim(us[i].text), EffectiveLabel(Trim(us[i].intent), hierarchicalLabel))
  {
    if us != [] {
      var init := us[..|us| - 1];
      var e := us[|us| - 1];
      LuisUtterancesAllRecorded(d, init, hierarchicalLabel);
      var mid := AddLuisUtterances(d, init, hierarchicalLabel);
      var r := AddLabelUtterance(mid, Trim(e.text), Trim(e.intent), hierarchicalLabel);
      AddLabelUtteranceKeepsLabels(mid, Trim(e.text), Trim(e.intent), hierarchicalLabel);
      IncludesTransitive(d, mid, r);
      forall i | 0 <= i < |us| - 1
        ensures Records(r, Trim(us[i].text), EffectiveLabel(Trim(us[i].intent), hierarchicalLabel))
      {
        assert us[i] == init[i];
      }
    }
  }

  /** Every label of every utterance is `l`. */
  ghost predicate OnlyLabel(d: UtteranceLabels, l: string) {
    forall v, x :: v in d.labels && x in d.labels[v] ==> x == l
  }

  /** Every label and every duplicate entry that `r` has and `d` had not is `l`. */
  ghost predicate AddsOnly(r: UtteranceLabels, d: UtteranceLabels, l: string) {
    && (forall v, x :: v in r.labels && x in r.labels[v] && !(v in d.labels && x in d.labels[v]) ==> x == l)
    && (forall v, x :: v in r.duplicates && x in r.duplicates[v] && !(v in d.duplicates && x in d.duplicates[v]) ==> x == l)
  }

  lemma AddsOnlyTransitive(a: UtteranceLabels, b: UtteranceLabels, c: UtteranceLabels, l: string)
    requires AddsOnly(b, a, l) && AddsOnly(c, b, l)
    ensures AddsOnly(c, a, l)
  {
  }

  /** Folding a pair adds nothing but the effective label, to the labels and to the duplicates alike. */
  lemma AddLabelUtteranceAddsOnly(d: UtteranceLabels, utterance: string, labelName: string, hierarchicalLabel: string)
    ensures AddsOnly(AddLabelUtterance(d, utterance, labelName, hierarchicalLabel), d, EffectiveLabel(labelName, hierarchicalLabel))
  {
  }

  /**
   * With a non-empty hierarchical label, the LUIS fold adds no label and no duplicate
   * entry other than that label, whatever the intents; so a dataset holding only that
   * label keeps holding only it.
   */
  lemma {:induction false} HierarchicalLabelWins(d: UtteranceLabels, us: seq<LuisUtterance>, hierarchicalLabel: string)
    requires |hierarchicalLabel| > 0
    ensures AddsOnly(AddLuisUtterances(d, us, hierarchicalLabel), d, hierarchicalLabel)
    ensures OnlyLabel(d, hierarchicalLabel) ==> OnlyLabel(AddLuisUtterances(d, us, hierarchicalLabel), hierarchicalLabel)
  {
    if us != [] {
      var e := us[|us| - 1];
      HierarchicalLabelWins(d, us[..|us| - 1], hierarchicalLabel);
      var mid := AddLuisUtterances(d, us[..|us| - 1], hierarchicalLabel);
      var r := AddLabelUtterance(mid, Trim(e.text), Trim(e.intent), hierarchicalLabel);
      assert AddLuisUtterances(d, us, hierarchicalLabel) == r;
      assert EffectiveLabel(Trim(e.intent), hierarchicalLabel) == hierarchicalLabel;
      AddLabelUtteranceAddsOnly(mid, Trim(e.text), Trim(e.intent), hierarchicalLabel);
      AddsOnlyTransitive(d, mid, r, hierarchicalLabel);
    }
  }

  /** After the QnA fold, every trimmed question is an utterance labelled `labelName`. */
  lemma {:induction false} QnaQuestionsAllRecorded(d: UtteranceLabels, questions: seq<string>, labelName: string)
    ensures var r := AddQuestions(d, questions, labelName);
            && Includes(r, d)
            && forall i :: 0 <= i < |questions| ==> Records(r, Trim(questions[i]), labelName)
  {
    if questions != [] {
      var init := questions[..|questions| - 1];
      QnaQuestionsAllRecorded(d, init, labelName);
      var mid := AddQuestions(d, init, labelName);
      var r := AddLabelUtterance(mid, Trim(questions[|questions| - 1]), labelName, "");
      AddLabelUtteranceKeepsLabels(mid, Trim(questions[|questions| - 1]), labelName, "");
      IncludesTransitive(d, mid, r);
      forall i | 0 <= i < |questions| - 1
        ensures Records(r, Trim(questions[i]), labelName)
      {
        assert questions[i] == init[i];
      }
    }
  }

  /**
   * After the QnA fold of a whole knowledge base, every trimmed question of every
   * pair is an utterance labelled `labelName`, and nothing the dataset held is lost.
   */
  lemma {:induction false} QnaKbAllRecorded(d: UtteranceLabels, kb: QnaKb, labelName: string)
    ensures var r := GetQnaQuestionsAsUtterances(d, kb, labelName);
            && Includes(r, d)
            && forall p, q :: p in kb.qnaList && q in p.questions ==> Records(r, Trim(q), labelName)
    decreases |kb.qnaList|
  {
    var pairs := kb.qnaList;
    if pairs != [] {
      var init, last := pairs[..|pairs| - 1], pairs[|pairs| - 1];
      assert pairs == init + [last];
      QnaKbAllRecorded(d, QnaKb(init), labelName);
      var mid := AddQnaPairs(d, init, labelName);
      var r := AddQuestions(mid, last.questions, labelName);
      assert GetQnaQuestionsAsUtterances(d, kb, labelName) == r;
      QnaQuestionsAllRecorded(mid, last.questions, labelName);
      IncludesTransitive(d, mid, r);
      forall p, q | p in pairs && q in p.questions
        ensures Records(r, Trim(q), labelName)
      {
        if p in init {
          assert Records(mid, Trim(q), labelName);
        } else {
          assert p == last;
          var i :| 0 <= i < |last.questions| && last.questions[i] == q;
        }
      }
    }
  }
}
