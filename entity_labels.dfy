/**
 * The entity-label fold of the JSON ingestion path: each entity annotation of an
 * utterance becomes a `Label` of type Entity, kept once per utterance in the
 * entity-label map (`addNewEntityLabelUtterance`, `addUniqueEntityLabel`); a label
 * already there is recorded again in the entity duplicate map instead.
 */
module EntityLabels {
  import opened Seqs
  import opened Dataset

  /** A `Label` of type Entity: its name and its span (offset, length). */
  datatype EntityLabel = EntityLabel(name: string, offset: int, length: int)

  /** A JSON entity annotation: the entity name and its inclusive character positions. */
  datatype EntityEntry = EntityEntry(entity: string, startPos: int, endPos: int)

  /** The label of an annotation: its span starts at `startPos` and ends at `endPos` inclusive. */
  function EntityLabelOf(e: EntityEntry): (l: EntityLabel)
    ensures l.name == e.entity && l.offset == e.startPos
    ensures l.offset + l.length - 1 == e.endPos
  {
    EntityLabel(e.entity, e.startPos, e.endPos - e.startPos + 1)
  }

  /**
   * `utteranceEntityLabelsMap` and `utteranceEntityLabelDuplicateMap`; the duplicate
   * map holds, per utterance, the labels seen again, in the order they were seen.
   */
  datatype EntityMaps = EntityMaps(labels: map<string, seq<EntityLabel>>, duplicates: map<string, seq<EntityLabel>>)

  /** The repeated labels of `u`, none when the duplicate map has no entry for it. */
  function RepeatsOf(m: EntityMaps, u: string): seq<EntityLabel> {
    if u in m.duplicates then m.duplicates[u] else []
  }

  /** `addNewEntityLabelUtterance`: fold one annotation of `utterance` into the two maps. */
  function AddEntityLabelUtterance(m: EntityMaps, utterance: string, entry: EntityEntry): (r: EntityMaps)
    ensures r.labels.Keys == m.labels.Keys + {utterance}
    ensures forall v :: v != utterance && v in m.labels ==> r.labels[v] == m.labels[v]
    ensures forall v :: v != utterance ==> RepeatsOf(r, v) == RepeatsOf(m, v)
  {
    var l := EntityLabelOf(entry);
    if utterance !in m.labels then
      m.(labels := m.labels[utterance := [l]])
    else if l in m.labels[utterance] then
      m.(duplicates := m.duplicates[utterance := RepeatsOf(m, utterance) + [l]])
    else
      m.(labels := m.labels[utterance := m.labels[utterance] + [l]])
  }

  /**
   * Nothing is lost: afterwards the utterance carries the annotation's label, and
   * its kept and repeated labels together are the old ones plus that one label.
   */
  lemma AddEntityLabelAccounts(m: EntityMaps, utterance: string, entry: EntityEntry)
    ensures var r := AddEntityLabelUtterance(m, utterance, entry);
            var l := EntityLabelOf(entry);
            var before := if utterance in m.labels then multiset(m.labels[utterance]) else multiset{};
            && l in r.labels[utterance]
            && multiset(r.labels[utterance]) + multiset(RepeatsOf(r, utterance))
               == before + multiset(RepeatsOf(m, utterance)) + multiset{l}
  {
  }

  /** An utterance's entity labels stay duplicate-free: a label is only appended when absent. */
  lemma AddEntityLabelNoDuplicates(m: EntityMaps, utterance: string, entry: EntityEntry)
    requires forall v :: v in m.labels ==> NoDuplicates(m.labels[v])
    ensures var r := AddEntityLabelUtterance(m, utterance, entry);
            forall v :: v in r.labels ==> NoDuplicates(r.labels[v])
  {
    var l := EntityLabelOf(entry);
    if utterance in m.labels && l !in m.labels[utterance] {
      NoDuplicatesSnoc(m.labels[utterance], l);
    }
  }

  /**
   * A first annotation starts the utterance's list, a new label is appended to it,
   * and a repeated one changes only the duplicate map, where it is appended.
   */
  lemma AddEntityLabelCases(m: EntityMaps, utterance: string, entry: EntityEntry)
    ensures var r := AddEntityLabelUtterance(m, utterance, entry);
            var l := EntityLabelOf(entry);
            && (utterance !in m.labels ==> r.labels[utterance] == [l] && r.duplicates == m.duplicates)
            && (utterance in m.labels && l !in m.labels[utterance] ==>
                  r.labels[utterance] == m.labels[utterance] + [l] && r.duplicates == m.duplicates)
            && (utterance in m.labels && l in m.labels[utterance] ==>
                  r.labels == m.labels && RepeatsOf(r, utterance) == RepeatsOf(m, utterance) + [l])
  {
  }

  /** The two entity maps, updated in place. */
  class EntityLabelStore {
    var labels: map<string, seq<EntityLabel>>
    var duplicates: map<string, seq<EntityLabel>>

    function Model(): EntityMaps
      reads this
    {
      EntityMaps(labels, duplicates)
    }

    constructor ()
      ensures Model() == EntityMaps(map[], map[])
    {
      labels := map[];
      duplicates := map[];
    }

    /** `insertStringLabelPairToStringIdLabelSetNativeMap`: record `l` again for `utterance`. */
    method InsertDuplicate(utterance: string, l: EntityLabel)
      modifies this
      ensures labels == old(labels)
      ensures duplicates == old(duplicates)[utterance := RepeatsOf(old(Model()), utterance) + [l]]
    {
      var existing := if utterance in duplicates then duplicates[utterance] else [];
      duplicates := duplicates[utterance := existing + [l]];
    }

    /** `addNewEntityLabelUtterance`, with `addUniqueEntityLabel` scanning by structural equality. */
    method AddNewEntityLabelUtterance(utterance: string, entry: EntityEntry)
      modifies this
      ensures Model() == AddEntityLabelUtterance(old(Model()), utterance, entry)
    {
      var entityLabel := EntityLabelOf(entry);
      if utterance in labels {
        var added, result := AddUniqueLabel(entityLabel, labels[utterance]);
        if added {
          labels := labels[utterance := result];
        } else {
          InsertDuplicate(utterance, entityLabel);
        }
      } else {
        labels := labels[utterance := [entityLabel]];
      }
    }
  }
}
