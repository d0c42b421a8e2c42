/**
 * The unknown-label normaliser run over a finished dataset
 * (`processUnknowLabelsInUtteranceLabelsMap` and its `...UsingLabelSet`
 * variant). Each utterance's label list is filtered: in blocklist mode the
 * placeholder labels `""`, `"unknown"` and `"none"` are dropped, in allow-set
 * mode every label outside the set is dropped. Survivors keep their order; a
 * list with no survivor becomes `[UnknownLabel]`; the utterance's duplicate
 * set is then reset to the set of its final labels.
 */
module LabelNormalizer {
  import opened Seqs
  import opened Dataset

  /** The label given to an utterance none of whose labels survive. */
  const UnknownLabel: string := "UNKNOWN"

  /** Which labels the normaliser keeps. */
  datatype Policy = Blocklist | AllowSet(valid: set<string>)

  predicate Keeps(p: Policy, labelName: string) {
    match p
    case Blocklist => labelName != "" && labelName != "unknown" && labelName != "none"
    case AllowSet(valid) => labelName in valid
  }

  /** The labels of `ls` that `p` keeps, in their original order. */
  function Survivors(ls: seq<string>, p: Policy): (r: seq<string>)
    ensures |r| <= |ls|
    ensures forall x :: x in r <==> x in ls && Keeps(p, x)
  {
    if ls == [] then []
    else
      var init := Survivors(ls[..|ls| - 1], p);
      assert ls == ls[..|ls| - 1] + [ls[|ls| - 1]];
      if Keeps(p, ls[|ls| - 1]) then init + [ls[|ls| - 1]] else init
  }

  /** Filtering distributes over concatenation: the survivors keep their relative order. */
  lemma {:induction false} SurvivorsAppend(a: seq<string>, b: seq<string>, p: Policy)
    ensures Survivors(a + b, p) == Survivors(a, p) + Survivors(b, p)
  {
    if b != [] {
      var b', x := b[..|b| - 1], b[|b| - 1];
      assert a + b == (a + b') + [x];
      assert (a + b)[..|a + b| - 1] == a + b';
      SurvivorsAppend(a, b', p);
    } else {
      assert a + b == a;
    }
  }

  /** A list all of whose labels are kept is left as it is. */
  lemma {:induction false} SurvivorsAllKept(ls: seq<string>, p: Policy)
    requires forall x :: x in ls ==> Keeps(p, x)
    ensures Survivors(ls, p) == ls
  {
    if ls != [] {
      var init, last := ls[..|ls| - 1], ls[|ls| - 1];
      assert ls == init + [last];
      forall x | x in init
        ensures Keeps(p, x)
      {
        assert x in ls;
      }
      SurvivorsAllKept(init, p);
      assert Keeps(p, last) by { assert last in ls; }
    }
  }

  /** Filtering a duplicate-free list gives a duplicate-free list. */
  lemma {:induction false} SurvivorsNoDuplicates(ls: seq<string>, p: Policy)
    requires NoDuplicates(ls)
    ensures NoDuplicates(Survivors(ls, p))
  {
    if ls != [] {
      var init, last := ls[..|ls| - 1], ls[|ls| - 1];
      assert ls == init + [last];
      assert NoDuplicates(init);
      SurvivorsNoDuplicates(init, p);
      assert last !in init;
      if Keeps(p, last) {
        NoDuplicatesSnoc(Survivors(init, p), last);
      }
    }
  }

  /** The normalised label list of one utterance. */
  function NormalizeLabels(ls: seq<string>, p: Policy): (r: seq<string>)
    ensures |r| >= 1
  {
    var s := Survivors(ls, p);
    if s == [] then [UnknownLabel] else s
  }

  /**
   * A list with no kept label becomes `[UnknownLabel]`; otherwise the result holds
   * exactly the kept labels.
   */
  lemma NormalizeLabelsMembers(ls: seq<string>, p: Policy)
    ensures (forall x :: x in ls ==> !Keeps(p, x)) ==> NormalizeLabels(ls, p) == [UnknownLabel]
    ensures (exists x :: x in ls && Keeps(p, x)) ==>
              forall x :: x in NormalizeLabels(ls, p) <==> x in ls && Keeps(p, x)
  {
    var s := Survivors(ls, p);
    if s != [] {
      assert s[0] in s;
    }
  }

  /** Normalising a normalised list changes nothing. */
  lemma NormalizeLabelsIdempotent(ls: seq<string>, p: Policy)
    ensures NormalizeLabels(NormalizeLabels(ls, p), p) == NormalizeLabels(ls, p)
  {
    var s := Survivors(ls, p);
    if s != [] {
      SurvivorsAllKept(s, p);
    }
  }

  /** A duplicate-free list stays duplicate-free. */
  lemma NormalizeLabelsNoDuplicates(ls: seq<string>, p: Policy)
    requires NoDuplicates(ls)
    ensures NoDuplicates(NormalizeLabels(ls, p))
  {
    SurvivorsNoDuplicates(ls, p);
  }

  /** The rewrite applied to one utterance: its new label list and, when it has one, its duplicate set. */
  function NormalizeUtterance(d: UtteranceLabels, u: string, p: Policy): (r: UtteranceLabels)
    ensures r.order == d.order && r.labels.Keys == d.labels.Keys && r.duplicates.Keys == d.duplicates.Keys
    ensures forall v :: v in d.labels && v != u ==> r.labels[v] == d.labels[v]
    ensures forall v :: v in d.duplicates && v != u ==> r.duplicates[v] == d.duplicates[v]
  {
    if u !in d.labels then d
    else
      var ls := NormalizeLabels(d.labels[u], p);
      UtteranceLabels(
        d.order,
        d.labels[u := ls],
        if u in d.duplicates then d.duplicates[u := Elements(ls)] else d.duplicates)
  }

  /** The rewrite applied to each of `us` in turn. */
  function NormalizeUtterances(d: UtteranceLabels, p: Policy, us: seq<string>): UtteranceLabels {
    if us == [] then d
    else NormalizeUtterance(NormalizeUtterances(d, p, us[..|us| - 1]), us[|us| - 1], p)
  }

  /** The normaliser: every utterance rewritten, in key order. */
  function Normalize(d: UtteranceLabels, p: Policy): UtteranceLabels {
    NormalizeUtterances(d, p, d.order)
  }

  /** Rewriting a duplicate-free list of utterances rewrites each of them exactly once. */
  lemma {:induction false} NormalizeUtterancesEffect(d: UtteranceLabels, p: Policy, us: seq<string>)
    requires NoDuplicates(us)
    ensures var r := NormalizeUtterances(d, p, us);
            && r.order == d.order && r.labels.Keys == d.labels.Keys && r.duplicates.Keys == d.duplicates.Keys
            && (forall u :: u in d.labels ==>
                  r.labels[u] == if u in us then NormalizeLabels(d.labels[u], p) else d.labels[u])
            && (forall u :: u in d.duplicates ==>
                  r.duplicates[u] == if u in us && u in d.labels then Elements(NormalizeLabels(d.labels[u], p)) else d.duplicates[u])
  {
    if us != [] {
      var init, last := us[..|us| - 1], us[|us| - 1];
      assert us == init + [last];
      assert NoDuplicates(init);
      assert last !in init;
      NormalizeUtterancesEffect(d, p, init);
    }
  }

  /**
   * `r` is `d` with every label list normalised and every duplicate set equal to the
   * set of its utterance's final labels; keys and their order are kept.
   */
  ghost predicate NormalizedFrom(r: UtteranceLabels, d: UtteranceLabels, p: Policy) {
    && r.order == d.order && r.labels.Keys == d.labels.Keys && r.duplicates.Keys == d.duplicates.Keys
    && (forall u :: u in d.labels ==> r.labels[u] == NormalizeLabels(d.labels[u], p))
    && (forall u :: u in r.duplicates ==> u in r.labels && r.duplicates[u] == Elements(r.labels[u]))
  }

  /** On a well-formed dataset the normaliser does exactly that, and keeps the dataset well-formed. */
  lemma NormalizeSpec(d: UtteranceLabels, p: Policy)
    requires Valid(d)
    ensures Valid(Normalize(d, p)) && NormalizedFrom(Normalize(d, p), d, p)
  {
    NormalizeUtterancesEffect(d, p, d.order);
  }

  /** Running the normaliser twice is the same as running it once. */
  lemma NormalizeIdempotent(d: UtteranceLabels, p: Policy)
    requires Valid(d)
    ensures Normalize(Normalize(d, p), p) == Normalize(d, p)
  {
    var r := Normalize(d, p);
    NormalizeSpec(d, p);
    NormalizeSpec(r, p);
    IdempotentStep(d, r, Normalize(r, p), p);
  }

  lemma IdempotentStep(d: UtteranceLabels, r: UtteranceLabels, r2: UtteranceLabels, p: Policy)
    requires NormalizedFrom(r, d, p) && NormalizedFrom(r2, r, p)
    ensures r2 == r
  {
    forall u | u in r.labels
      ensures r2.labels[u] == r.labels[u]
    {
      NormalizeLabelsIdempotent(d.labels[u], p);
    }
    MapsEqual(r2.labels, r.labels);
    MapsEqual(r2.duplicates, r.duplicates);
  }

  /** A well-formed dataset whose label lists are duplicate-free keeps them duplicate-free. */
  lemma NormalizeNoDuplicateLabels(d: UtteranceLabels, p: Policy)
    requires Valid(d)
    requires forall u :: u in d.labels ==> NoDuplicates(d.labels[u])
    ensures var r := Normalize(d, p);
            forall u :: u in r.labels ==> NoDuplicates(r.labels[u])
  {
    NormalizeSpec(d, p);
    forall u | u in d.labels
      ensures NoDuplicates(NormalizeLabels(d.labels[u], p))
    {
      NormalizeLabelsNoDuplicates(d.labels[u], p);
    }
  }

  // ----- The documented scenarios -----

  /** A list none of whose labels is kept has no survivors. */
  lemma NoneKept(ls: seq<string>, p: Policy)
    requires forall x :: x in ls ==> !Keeps(p, x)
    ensures Survivors(ls, p) == []
  {
  }

  /** A pair of labels that are both kept is left as it is. */
  lemma KeptPair(ls: seq<string>, p: Policy)
    requires |ls| == 2 && Keeps(p, ls[0]) && Keeps(p, ls[1])
    ensures NormalizeLabels(ls, p) == ls
  {
    SurvivorsAllKept(ls, p);
  }

  /** A kept label followed only by dropped ones survives alone. */
  lemma KeptThenDropped(ls: seq<string>, p: Policy)
    requires |ls| >= 1 && Keeps(p, ls[0])
    requires forall i :: 1 <= i < |ls| ==> !Keeps(p, ls[i])
    ensures NormalizeLabels(ls, p) == [ls[0]]
  {
    assert ls == [ls[0]] + ls[1..];
    SurvivorsAppend([ls[0]], ls[1..], p);
    SurvivorsAllKept([ls[0]], p);
    NoneKept(ls[1..], p);
  }

  /** A list with no kept label falls back to `UnknownLabel`. */
  lemma AllDropped(ls: seq<string>, p: Policy)
    requires forall i :: 0 <= i < |ls| ==> !Keeps(p, ls[i])
    ensures NormalizeLabels(ls, p) == [UnknownLabel]
  {
    NoneKept(ls, p);
  }

  /** Blocklist mode: a real label survives alone; placeholders and the empty list fall back. */
  lemma BlocklistScenario()
    ensures NormalizeLabels(["greeting", "chitchat"], Blocklist) == ["greeting", "chitchat"]
    ensures NormalizeLabels(["greeting", "", "unknown", "none"], Blocklist) == ["greeting"]
    ensures NormalizeLabels(["", "unknown", "none"], Blocklist) == [UnknownLabel]
    ensures NormalizeLabels([], Blocklist) == [UnknownLabel]
    ensures Elements(NormalizeLabels(["greeting", "chitchat"], Blocklist)) == {"greeting", "chitchat"}
    ensures Elements([UnknownLabel]) == {UnknownLabel} && Elements(["greeting"]) == {"greeting"}
  {
    ElementsOfOne(UnknownLabel);
    ElementsOfOne("greeting");
    ElementsOfTwo("greeting", "chitchat");
    KeptPair(["greeting", "chitchat"], Blocklist);
    KeptThenDropped(["greeting", "", "unknown", "none"], Blocklist);
    AllDropped(["", "unknown", "none"], Blocklist);
    AllDropped([], Blocklist);
  }

  /** Allow-set mode with `{"greeting"}`: everything else is dropped. */
  lemma AllowSetScenario()
    ensures NormalizeLabels(["greeting", "chitchat"], AllowSet({"greeting"})) == ["greeting"]
    ensures NormalizeLabels(["greeting", "", "unknown", "none"], AllowSet({"greeting"})) == ["greeting"]
    ensures NormalizeLabels(["", "unknown", "none"], AllowSet({"greeting"})) == [UnknownLabel]
    ensures NormalizeLabels([], AllowSet({"greeting"})) == [UnknownLabel]
  {
    var p := AllowSet({"greeting"});
    KeptThenDropped(["greeting", "chitchat"], p);
    KeptThenDropped(["greeting", "", "unknown", "none"], p);
    AllDropped(["", "unknown", "none"], p);
    AllDropped([], p);
  }

  /**
   * The dataset both normaliser tests start from: four utterances, each with a
   * duplicate set holding its own labels.
   */
  function FourUtterances(): (d: UtteranceLabels)
    ensures Valid(d)
  {
    UtteranceLabels(
      ["hi", "A", "B", "C"],
      map["hi" := ["greeting", "chitchat"], "A" := ["greeting", "", "unknown", "none"], "B" := ["", "unknown", "none"], "C" := []],
      map["hi" := {"greeting", "chitchat"}, "A" := {"greeting", "", "unknown", "none"}, "B" := {"", "unknown", "none"}, "C" := {}])
  }

  /**
   * Blocklist mode on the four utterances: `hi` keeps both labels, `A` keeps "greeting",
   * `B` and `C` fall back to `UnknownLabel`; each duplicate set becomes its final labels.
   */
  lemma FourUtterancesBlocklist(d: UtteranceLabels)
    requires d == FourUtterances()
    ensures var r := Normalize(d, Blocklist);
            && r.order == d.order && r.labels.Keys == d.labels.Keys && r.duplicates.Keys == d.duplicates.Keys
            && r.labels["hi"] == ["greeting", "chitchat"] && r.duplicates["hi"] == {"greeting", "chitchat"}
            && r.labels["A"] == ["greeting"] && r.duplicates["A"] == {"greeting"}
            && r.labels["B"] == [UnknownLabel] && r.duplicates["B"] == {UnknownLabel}
            && r.labels["C"] == [UnknownLabel] && r.duplicates["C"] == {UnknownLabel}
  {
    BlocklistScenario();
    FourUtterancesNormalized(d, Blocklist);
  }

  /**
   * Allow-set mode with `{"greeting"}` on the four utterances: `hi` and `A` keep
   * "greeting", `B` and `C` fall back; each duplicate set becomes its final labels.
   */
  lemma FourUtterancesAllowSet(d: UtteranceLabels)
    requires d == FourUtterances()
    ensures var r := Normalize(d, AllowSet({"greeting"}));
            && r.order == d.order && r.labels.Keys == d.labels.Keys && r.duplicates.Keys == d.duplicates.Keys
            && r.labels["hi"] == ["greeting"] && r.duplicates["hi"] == {"greeting"}
            && r.labels["A"] == ["greeting"] && r.duplicates["A"] == {"greeting"}
            && r.labels["B"] == [UnknownLabel] && r.duplicates["B"] == {UnknownLabel}
            && r.labels["C"] == [UnknownLabel] && r.duplicates["C"] == {UnknownLabel}
  {
    AllowSetScenario();
    BlocklistScenario();
    FourUtterancesNormalized(d, AllowSet({"greeting"}));
  }

  /** Each of the four utterances gets its normalised list, and its duplicate set becomes that list's elements. */
  lemma FourUtterancesNormalized(d: UtteranceLabels, p: Policy)
    requires d == FourUtterances()
    ensures var r := Normalize(d, p);
            && r.order == d.order && r.labels.Keys == d.labels.Keys && r.duplicates.Keys == d.duplicates.Keys
            && r.labels["hi"] == NormalizeLabels(["greeting", "chitchat"], p) && r.duplicates["hi"] == Elements(r.labels["hi"])
            && r.labels["A"] == NormalizeLabels(["greeting", "", "unknown", "none"], p) && r.duplicates["A"] == Elements(r.labels["A"])
            && r.labels["B"] == NormalizeLabels(["", "unknown", "none"], p) && r.duplicates["B"] == Elements(r.labels["B"])
            && r.labels["C"] == NormalizeLabels([], p) && r.duplicates["C"] == Elements(r.labels["C"])
  {
    NormalizedUtterance(d, p, "hi");
    NormalizedUtterance(d, p, "A");
    NormalizedUtterance(d, p, "B");
    NormalizedUtterance(d, p, "C");
  }

  /** What the normaliser leaves for one utterance that has a duplicate set. */
  lemma NormalizedUtterance(d: UtteranceLabels, p: Policy, u: string)
    requires Valid(d) && u in d.duplicates
    ensures var r := Normalize(d, p);
            && r.order == d.order && r.labels.Keys == d.labels.Keys && r.duplicates.Keys == d.duplicates.Keys
            && r.labels[u] == NormalizeLabels(d.labels[u], p) && r.duplicates[u] == Elements(r.labels[u])
  {
    NormalizeSpec(d, p);
  }

  lemma ElementsOfOne(x: string)
    ensures Elements([x]) == {x}
  {
    assert x in Elements([x]);
  }

  lemma ElementsOfTwo(x: string, y: string)
    ensures Elements([x, y]) == {x, y}
  {
    assert x in Elements([x, y]) && y in Elements([x, y]);
  }
}
