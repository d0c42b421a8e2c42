/**
 * The DTE listing written by `createDteContent`: the dataset is inverted into
 * a label-to-utterances table (labels in first-seen order, each label's
 * utterances joined with '|' in key order) and written as one line
 * `key<TAB>label<TAB>u1|u2|...` per label, keys counting from 0.
 */
module DteFormat {
  import opened Wrappers
  import opened Seqs
  import opened Text
  import opened Numbers
  import opened Dataset

  /** The inverted table: labels in the order first met, and each label's '|'-joined utterances. */
  datatype LabelGroups = LabelGroups(labelOrder: seq<string>, members: map<string, string>)

  /** The label order lists each key of the table exactly once. */
  ghost predicate GroupsValid(g: LabelGroups) {
    NoDuplicates(g.labelOrder) && forall l :: l in g.members <==> l in g.labelOrder
  }

  const NoGroups: LabelGroups := LabelGroups([], map[])

  /** One (utterance, label) pair entered into the table. */
  function GroupPair(g: LabelGroups, u: string, labelName: string): (r: LabelGroups)
    ensures GroupsValid(g) ==> GroupsValid(r)
  {
    if labelName in g.members then LabelGroups(g.labelOrder, g.members[labelName := g.members[labelName] + "|" + u])
    else
      assert GroupsValid(g) ==> labelName !in g.labelOrder;
      LabelGroups(g.labelOrder + [labelName], g.members[labelName := u])
  }

  /** Every label of one utterance entered in turn. */
  function GroupLabels(g: LabelGroups, u: string, ls: seq<string>): (r: LabelGroups)
    ensures GroupsValid(g) ==> GroupsValid(r)
  {
    if ls == [] then g else GroupPair(GroupLabels(g, u, ls[..|ls| - 1]), u, ls[|ls| - 1])
  }

  /** Every utterance of `us` entered in turn, with all its labels. */
  function GroupUtterances(g: LabelGroups, d: UtteranceLabels, us: seq<string>): (r: LabelGroups)
    requires forall u :: u in us ==> u in d.labels
    ensures GroupsValid(g) ==> GroupsValid(r)
  {
    if us == [] then g
    else GroupLabels(GroupUtterances(g, d, us[..|us| - 1]), us[|us| - 1], d.labels[us[|us| - 1]])
  }

  /** The table `createDteContent` builds from a dataset. */
  function Groups(d: UtteranceLabels): (g: LabelGroups)
    requires Valid(d)
    ensures GroupsValid(g)
  {
    GroupUtterances(NoGroups, d, d.order)
  }

  /** One DTE line without its line break. */
  function DteLine(key: nat, labelName: string, utterances: string): string {
    NatToString(key) + "\t" + labelName + "\t" + utterances
  }

  /** The DTE lines of the labels `ls`, keyed by position. */
  function DteLines(ls: seq<string>, members: map<string, string>): (lines: seq<string>)
    requires forall l :: l in ls ==> l in members
    ensures |lines| == |ls|
    ensures forall i :: 0 <= i < |ls| ==> lines[i] == DteLine(i, ls[i], members[ls[i]])
  {
    if ls == [] then []
    else DteLines(ls[..|ls| - 1], members) + [DteLine(|ls| - 1, ls[|ls| - 1], members[ls[|ls| - 1]])]
  }

  /** The text `createDteContent` returns. */
  function DteText(d: UtteranceLabels): string
    requires Valid(d)
  {
    var g := Groups(d);
    Unlines(DteLines(g.labelOrder, g.members))
  }

  lemma GroupUtterancesSnoc(d: UtteranceLabels, us: seq<string>, i: nat)
    requires i < |us| && forall u :: u in us ==> u in d.labels
    ensures GroupUtterances(NoGroups, d, us[..i + 1]) == GroupLabels(GroupUtterances(NoGroups, d, us[..i]), us[i], d.labels[us[i]])
  {
    assert us[..i + 1][..i] == us[..i];
  }

  lemma GroupLabelsSnoc(g: LabelGroups, u: string, ls: seq<string>, j: nat)
    requires j < |ls|
    ensures GroupLabels(g, u, ls[..j + 1]) == GroupPair(GroupLabels(g, u, ls[..j]), u, ls[j])
  {
    assert ls[..j + 1][..j] == ls[..j];
  }

  lemma DteLinesSnoc(ls: seq<string>, members: map<string, string>, k: nat)
    requires k < |ls| && forall l :: l in ls ==> l in members
    ensures DteLines(ls[..k + 1], members) == DteLines(ls[..k], members) + [DteLine(k, ls[k], members[ls[k]])]
  {
    assert ls[..k + 1][..k] == ls[..k];
  }

  /** `createDteContent`: invert the dataset label by label, then write one keyed line per label. */
  method CreateDteContent(d: UtteranceLabels) returns (tsvContent: string)
    requires Valid(d)
    ensures tsvContent == DteText(d)
  {
    var labelOrder: seq<string> := [];
    var labelUtteranceMap: map<string, string> := map[];
    for i := 0 to |d.order|
      invariant LabelGroups(labelOrder, labelUtteranceMap) == GroupUtterances(NoGroups, d, d.order[..i])
    {
      var utterance := d.order[i];
      var labels := d.labels[utterance];
      ghost var before := GroupUtterances(NoGroups, d, d.order[..i]);
      for j := 0 to |labels|
        invariant LabelGroups(labelOrder, labelUtteranceMap) == GroupLabels(before, utterance, labels[..j])
      {
        var labelName := labels[j];
        GroupLabelsSnoc(before, utterance, labels, j);
        if labelName in labelUtteranceMap {
          labelUtteranceMap := labelUtteranceMap[labelName := labelUtteranceMap[labelName] + "|" + utterance];
        } else {
          labelUtteranceMap := labelUtteranceMap[labelName := utterance];
          labelOrder := labelOrder + [labelName];
        }
      }
      assert labels[..|labels|] == labels;
      GroupUtterancesSnoc(d, d.order, i);
    }
    assert d.order[..|d.order|] == d.order;
    assert LabelGroups(labelOrder, labelUtteranceMap) == Groups(d);
    tsvContent := "";
    var key := 0;
    while key < |labelOrder|
      invariant 0 <= key <= |labelOrder|
      invariant tsvContent == Unlines(DteLines(labelOrder[..key], labelUtteranceMap))
    {
      var labelName := labelOrder[key];
      var line := NatToString(key) + "\t" + labelName + "\t" + labelUtteranceMap[labelName];
      DteLinesSnoc(labelOrder, labelUtteranceMap, key);
      UnlinesSnoc(DteLines(labelOrder[..key], labelUtteranceMap), line);
      tsvContent := tsvContent + line + "\n";
      key := key + 1;
    }
    assert labelOrder[..key] == labelOrder;
  }

  // ----- What the table holds -----

  /** The labels carried by the utterances `us`. */
  function LabelsOf(d: UtteranceLabels, us: seq<string>): set<string>
    requires forall u :: u in us ==> u in d.labels
  {
    if us == [] then {} else LabelsOf(d, us[..|us| - 1]) + Elements(d.labels[us[|us| - 1]])
  }

  /** The utterances of `us` that carry label `l`, in order. */
  function UtterancesWith(d: UtteranceLabels, us: seq<string>, l: string): seq<string>
    requires forall u :: u in us ==> u in d.labels
  {
    if us == [] then []
    else UtterancesWith(d, us[..|us| - 1], l) + (if l in d.labels[us[|us| - 1]] then [us[|us| - 1]] else [])
  }

  lemma {:induction false} GroupLabelsOrder(g: LabelGroups, u: string, ls: seq<string>)
    requires GroupsValid(g)
    ensures Elements(GroupLabels(g, u, ls).labelOrder) == Elements(g.labelOrder) + Elements(ls)
  {
    if ls != [] {
      var init := ls[..|ls| - 1];
      GroupLabelsOrder(g, u, init);
      ElementsSnoc(init, ls[|ls| - 1]);
      assert ls == init + [ls[|ls| - 1]];
      ElementsSnoc(GroupLabels(g, u, init).labelOrder, ls[|ls| - 1]);
    }
  }

  /** The table's label order lists exactly the labels met, each once. */
  lemma {:induction false} GroupUtterancesOrder(d: UtteranceLabels, us: seq<string>)
    requires forall u :: u in us ==> u in d.labels
    ensures var g := GroupUtterances(NoGroups, d, us);
            NoDuplicates(g.labelOrder) && Elements(g.labelOrder) == LabelsOf(d, us)
  {
    if us != [] {
      var init := us[..|us| - 1];
      GroupUtterancesOrder(d, init);
      GroupLabelsOrder(GroupUtterances(NoGroups, d, init), us[|us| - 1], d.labels[us[|us| - 1]]);
    }
  }

  /** `createDteContent` writes exactly one line per distinct label of the dataset. */
  lemma DteLineCount(d: UtteranceLabels)
    requires Valid(d)
    ensures var g := Groups(d);
            |DteLines(g.labelOrder, g.members)| == |LabelsOf(d, d.order)|
  {
    var g := Groups(d);
    GroupUtterancesOrder(d, d.order);
    CardinalityOfElements(g.labelOrder);
  }

  /** Joining one more utterance onto a label's list. */
  lemma JoinBar(w: seq<string>, u: string)
    ensures Join(w + [u], "|") == if w == [] then u else Join(w, "|") + "|" + u
  {
    if w != [] {
      JoinSnoc(w, u, "|");
    } else {
      assert w + [u] == [u];
    }
  }

  /** The effect of entering one utterance's duplicate-free labels. */
  lemma {:induction false} GroupLabelsEffect(g: LabelGroups, u: string, ls: seq<string>)
    requires NoDuplicates(ls)
    ensures var r := GroupLabels(g, u, ls);
            forall l :: (l in r.members <==> l in g.members || l in ls)
                        && (l in r.members ==>
                              r.members[l] == if l !in ls then g.members[l]
                                              else if l in g.members then g.members[l] + "|" + u
                                              else u)
  {
    if ls != [] {
      var init, last := ls[..|ls| - 1], ls[|ls| - 1];
      assert ls == init + [last];
      assert NoDuplicates(init) && last !in init;
      GroupLabelsEffect(g, u, init);
    }
  }

  /** The table entry for `l` holds, joined with '|', the utterances carrying `l`, in key order. */
  ghost predicate MemberMatches(g: LabelGroups, d: UtteranceLabels, us: seq<string>, l: string)
    requires forall u :: u in us ==> u in d.labels
  {
    && (l in g.members <==> UtterancesWith(d, us, l) != [])
    && (l in g.members ==> g.members[l] == Join(UtterancesWith(d, us, l), "|"))
  }

  /** Entering one more utterance keeps the entry for `l` matching. */
  lemma MemberStep(g: LabelGroups, d: UtteranceLabels, us: seq<string>, l: string)
    requires us != [] && forall u :: u in us ==> u in d.labels
    requires NoDuplicates(d.labels[us[|us| - 1]])
    requires MemberMatches(g, d, us[..|us| - 1], l)
    ensures MemberMatches(GroupLabels(g, us[|us| - 1], d.labels[us[|us| - 1]]), d, us, l)
  {
    var init, u := us[..|us| - 1], us[|us| - 1];
    var w := UtterancesWith(d, init, l);
    GroupLabelsEffect(g, u, d.labels[u]);
    if l in d.labels[u] {
      assert UtterancesWith(d, us, l) == w + [u];
      JoinBar(w, u);
    } else {
      assert UtterancesWith(d, us, l) == w;
    }
  }

  /** With duplicate-free label lists, the table groups each label's utterances in first-seen order. */
  lemma {:induction false} DteMembers(d: UtteranceLabels, us: seq<string>)
    requires forall u :: u in us ==> u in d.labels && NoDuplicates(d.labels[u])
    ensures forall l :: MemberMatches(GroupUtterances(NoGroups, d, us), d, us, l)
  {
    if us != [] {
      var init := us[..|us| - 1];
      DteMembers(d, init);
      forall l
        ensures MemberMatches(GroupUtterances(NoGroups, d, us), d, us, l)
      {
        MemberStep(GroupUtterances(NoGroups, d, init), d, us, l);
      }
    }
  }

  /** A DTE line splits on tabs into its key, its label and its joined utterances. */
  lemma DteLineFields(key: nat, labelName: string, utterances: string)
    requires '\t' !in labelName && '\t' !in utterances
    ensures Split(DteLine(key, labelName, utterances), '\t') == [NatToString(key), labelName, utterances]
    ensures ParseNumber(Split(DteLine(key, labelName, utterances), '\t')[0]) == Some(key as real)
  {
    var k := NatToString(key);
    assert '\t' !in k;
    var parts := [k, labelName, utterances];
    assert parts[1..] == [labelName, utterances] && parts[1..][1..] == [utterances];
    assert Join([labelName, utterances], "\t") == labelName + "\t" + utterances;
    assert Join(parts, "\t") == k + "\t" + (labelName + "\t" + utterances);
    assert Join(parts, "\t") == DteLine(key, labelName, utterances);
    SplitJoin(parts, '\t');
    ParseNatToString(key);
  }

  /** No label and no joined utterance list of the table holds a line break. */
  ghost predicate BreakFree(g: LabelGroups) {
    forall l :: l in g.members ==> '\n' !in l && '\n' !in g.members[l]
  }

  lemma {:induction false} GroupLabelsBreakFree(g: LabelGroups, u: string, ls: seq<string>)
    requires BreakFree(g) && '\n' !in u
    requires forall i :: 0 <= i < |ls| ==> '\n' !in ls[i]
    ensures BreakFree(GroupLabels(g, u, ls))
  {
    if ls != [] {
      GroupLabelsBreakFree(g, u, ls[..|ls| - 1]);
    }
  }

  lemma {:induction false} GroupUtterancesBreakFree(d: UtteranceLabels, us: seq<string>)
    requires forall u :: u in us ==> u in d.labels && '\n' !in u && forall i :: 0 <= i < |d.labels[u]| ==> '\n' !in d.labels[u][i]
    ensures BreakFree(GroupUtterances(NoGroups, d, us))
  {
    if us != [] {
      GroupUtterancesBreakFree(d, us[..|us| - 1]);
      GroupLabelsBreakFree(GroupUtterances(NoGroups, d, us[..|us| - 1]), us[|us| - 1], d.labels[us[|us| - 1]]);
    }
  }

  /** Split on line breaks, the DTE text is its lines, key 0 first, then the empty tail. */
  lemma DteTextLines(d: UtteranceLabels)
    requires Valid(d)
    requires forall u :: u in d.labels ==> '\n' !in u && forall i :: 0 <= i < |d.labels[u]| ==> '\n' !in d.labels[u][i]
    ensures var g := Groups(d);
            Split(DteText(d), '\n') == DteLines(g.labelOrder, g.members) + [""]
  {
    var g := Groups(d);
    var lines := DteLines(g.labelOrder, g.members);
    GroupUtterancesBreakFree(d, d.order);
    forall i | 0 <= i < |lines|
      ensures '\n' !in lines[i]
    {
      var k := NatToString(i);
      assert '\n' !in k;
    }
    SplitUnlines(lines);
  }
}
