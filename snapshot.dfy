/**
 * The label/utterance listing written by `getTsvContent` (outside DTE mode):
 * one line `label,label<TAB>utterance` per utterance, in key order, each
 * followed by a line break. Read back as a `.blu` file behind one header
 * line, it gives the same utterance-to-labels entries.
 */
module Snapshot {
  import opened Wrappers
  import opened Seqs
  import opened Text
  import opened Dataset
  import opened TsvFormats

  /** The listing line of utterance `u` with labels `ls`, without its line break (`labels.join()` uses ','). */
  function SnapshotLine(ls: seq<string>, u: string): string {
    Join(ls, ",") + "\t" + u
  }

  /** The listing lines of the utterances `us`, in that order. */
  function ListingLines(d: UtteranceLabels, us: seq<string>): (lines: seq<string>)
    requires forall u :: u in us ==> u in d.labels
    ensures |lines| == |us|
    ensures forall i :: 0 <= i < |us| ==> lines[i] == SnapshotLine(d.labels[us[i]], us[i])
  {
    if us == [] then []
    else ListingLines(d, us[..|us| - 1]) + [SnapshotLine(d.labels[us[|us| - 1]], us[|us| - 1])]
  }

  lemma ListingLinesSnoc(d: UtteranceLabels, us: seq<string>, i: nat)
    requires i < |us| && forall u :: u in us ==> u in d.labels
    ensures ListingLines(d, us[..i + 1]) == ListingLines(d, us[..i]) + [SnapshotLine(d.labels[us[i]], us[i])]
  {
    assert us[..i + 1][..i] == us[..i];
  }

  /** The text `getTsvContent` produces for a dataset. */
  function TsvText(d: UtteranceLabels): string
    requires Valid(d)
  {
    Unlines(ListingLines(d, d.order))
  }

  /** `getTsvContent`, non-DTE branch: the listing accumulated one utterance at a time. */
  method GetTsvContent(d: UtteranceLabels) returns (tsvContent: string)
    requires Valid(d)
    ensures tsvContent == TsvText(d)
  {
    tsvContent := "";
    var i := 0;
    while i < |d.order|
      invariant 0 <= i <= |d.order|
      invariant tsvContent == Unlines(ListingLines(d, d.order[..i]))
    {
      var utterance := d.order[i];
      var line := Join(d.labels[utterance], ",") + "\t" + utterance;
      ListingLinesSnoc(d, d.order, i);
      UnlinesSnoc(ListingLines(d, d.order[..i]), line);
      tsvContent := tsvContent + line + "\n";
      i := i + 1;
    }
    assert d.order[..i] == d.order;
  }

  /** Text that a trimmed-field TSV line can carry without changing how it splits. */
  predicate PlainField(s: string) {
    IsTrimmed(s) && '\t' !in s && '\n' !in s
  }

  /**
   * The entries survive a listing round trip: non-empty, duplicate-free label lists,
   * labels free of ',' and plain, utterances plain.
   */
  ghost predicate ListingSafe(d: UtteranceLabels) {
    forall u :: u in d.labels ==>
      && PlainField(u)
      && |d.labels[u]| >= 1 && NoDuplicates(d.labels[u])
      && forall i :: 0 <= i < |d.labels[u]| ==> PlainField(d.labels[u][i]) && ',' !in d.labels[u][i]
  }

  /** `getTsvContent` writes one line per utterance, in key order. */
  lemma ListingLinesOfText(d: UtteranceLabels)
    requires Valid(d) && ListingSafe(d)
    ensures Split(TsvText(d), '\n') == ListingLines(d, d.order) + [""]
  {
    var lines := ListingLines(d, d.order);
    forall i | 0 <= i < |lines|
      ensures '\n' !in lines[i]
    {
      LineHasNoBreak(d, d.order[i]);
    }
    SplitUnlines(lines);
  }

  lemma LineHasNoBreak(d: UtteranceLabels, u: string)
    requires ListingSafe(d) && u in d.labels
    ensures '\n' !in SnapshotLine(d.labels[u], u)
  {
    JoinFree(d.labels[u], '\n');
  }

  /** Joining with ',' introduces no character other than ','. */
  lemma {:induction false} JoinFree(ls: seq<string>, c: char)
    requires c != ','
    requires forall i :: 0 <= i < |ls| ==> c !in ls[i]
    ensures c !in Join(ls, ",")
  {
    if |ls| > 1 {
      JoinFree(ls[1..], c);
    }
  }

  /** The joined labels of a listing line split back into the labels. */
  lemma JoinedLabelsRead(ls: seq<string>)
    requires |ls| >= 1
    requires forall i :: 0 <= i < |ls| ==> PlainField(ls[i]) && ',' !in ls[i]
    ensures TrimEach(Split(Trim(Join(ls, ",")), ',')) == ls
  {
    JoinedLabelsTrimmed(ls);
    JoinedLabelsSplit(ls);
    TrimEachTrimmed(ls);
  }

  lemma {:induction false} JoinedLabelsTrimmed(ls: seq<string>)
    requires forall i :: 0 <= i < |ls| ==> IsTrimmed(ls[i])
    ensures Trim(Join(ls, ",")) == Join(ls, ",")
  {
    assert !IsWhitespace(',');
    JoinTrimmed(ls, ',');
    assert [','] == ",";
    TrimIdentity(Join(ls, ","));
  }

  lemma JoinedLabelsSplit(ls: seq<string>)
    requires |ls| >= 1
    requires forall i :: 0 <= i < |ls| ==> ',' !in ls[i]
    ensures Split(Join(ls, ","), ',') == ls
  {
    SplitJoin(ls, ',');
  }

  lemma TrimEachTrimmed(ls: seq<string>)
    requires forall i :: 0 <= i < |ls| ==> IsTrimmed(ls[i])
    ensures TrimEach(ls) == ls
  {
    forall i | 0 <= i < |ls|
      ensures Trim(ls[i]) == ls[i]
    {
      TrimIdentity(ls[i]);
    }
  }

  /** One listing line reads back as its utterance with its labels. */
  lemma LineRoundTrip(ls: seq<string>, u: string)
    requires PlainField(u) && |ls| >= 1
    requires forall i :: 0 <= i < |ls| ==> PlainField(ls[i]) && ',' !in ls[i]
    ensures LineRecord(SnapshotLine(ls, u), true) == Some((u, ls))
  {
    var joined := Join(ls, ",");
    JoinFree(ls, '\t');
    LineRecordOfFields([joined, u], true);
    assert Join([joined, u], "\t") == SnapshotLine(ls, u);
    TrimIdentity(u);
    JoinedLabelsRead(ls);
  }

  /** The entries of `d` for the utterances `us`, in that order, with no duplicate sets. */
  function Restrict(d: UtteranceLabels, us: seq<string>): UtteranceLabels
    requires forall u :: u in us ==> u in d.labels
  {
    UtteranceLabels(us, map u | u in us :: d.labels[u], map[])
  }

  /** Reading back one more listing line adds that utterance's labels. */
  lemma ReadListingStep(d: UtteranceLabels, us: seq<string>)
    requires ListingSafe(d) && us != []
    requires forall u :: u in us ==> u in d.labels
    ensures var u := us[|us| - 1];
            FoldLabelLines(Empty, ListingLines(d, us), true)
            == AddLabels(FoldLabelLines(Empty, ListingLines(d, us[..|us| - 1]), true), u, d.labels[u])
  {
    var u := us[|us| - 1];
    var lines := ListingLines(d, us);
    assert lines[..|lines| - 1] == ListingLines(d, us[..|us| - 1]);
    LineRoundTrip(d.labels[u], u);
  }

  lemma RestrictSnoc(d: UtteranceLabels, us: seq<string>)
    requires us != []
    requires forall u :: u in us ==> u in d.labels
    ensures var u := us[|us| - 1];
            var prev := Restrict(d, us[..|us| - 1]);
            Restrict(d, us) == UtteranceLabels(prev.order + [u], prev.labels[u := d.labels[u]], prev.duplicates)
  {
    var u := us[|us| - 1];
    var prev := Restrict(d, us[..|us| - 1]);
    assert us == us[..|us| - 1] + [u];
    MapsEqual(prev.labels[u := d.labels[u]], Restrict(d, us).labels);
  }

  /** Reading back the listing lines of distinct utterances rebuilds their entries. */
  lemma {:induction false} ReadListingLines(d: UtteranceLabels, us: seq<string>)
    requires ListingSafe(d) && NoDuplicates(us)
    requires forall u :: u in us ==> u in d.labels
    ensures FoldLabelLines(Empty, ListingLines(d, us), true) == Restrict(d, us)
  {
    if us != [] {
      var init, u := us[..|us| - 1], us[|us| - 1];
      assert us == init + [u];
      assert NoDuplicates(init) && u !in init;
      ReadListingLines(d, init);
      ReadListingStep(d, us);
      var prev := Restrict(d, init);
      AddLabelsToFreshUtterance(prev, u, d.labels[u]);
      RestrictSnoc(d, us);
    }
  }

  /** The empty text after the last line break adds nothing. */
  lemma FoldBlankLine(lines: seq<string>)
    ensures FoldLabelLines(Empty, lines + [""], true) == FoldLabelLines(Empty, lines, true)
  {
    LineRecordSkips("", true);
    assert (lines + [""])[..|lines|] == lines;
  }

  /**
   * Round trip: a header line followed by the `getTsvContent` listing, read as a
   * `.blu` file into an empty dataset, gives back every utterance with its labels,
   * in the same order.
   */
  lemma ListingRoundTrip(d: UtteranceLabels, header: string)
    requires Valid(d) && ListingSafe(d) && '\n' !in header
    ensures ParseBlu(Empty, header + "\n" + TsvText(d)) == UtteranceLabels(d.order, d.labels, map[])
  {
    var lines := ListingLines(d, d.order);
    ParseBluDropsHeader(Empty, header, TsvText(d));
    ListingLinesOfText(d);
    FoldBlankLine(lines);
    ReadListingLines(d, d.order);
    MapsEqual(Restrict(d, d.order).labels, d.labels);
  }
}
