/**
 * The label index (`buildStringIdNumberValueDictionaryFromStringArray` and its
 * siblings): a deduplicated `stringArray` of labels in first-seen order, with
 * `stringMap` sending each label to its position in that array.
 */
module LabelIndex {
  import opened Seqs

  datatype StringIndex = StringIndex(stringArray: seq<string>, stringMap: map<string, int>)

  /** The array has no repeats, the map's keys are its elements, and `map[array[i]] == i`. */
  ghost predicate Valid(idx: StringIndex) {
    && NoDuplicates(idx.stringArray)
    && idx.stringMap.Keys == Elements(idx.stringArray)
    && forall i :: 0 <= i < |idx.stringArray| ==> idx.stringMap[idx.stringArray[i]] == i
  }

  const Empty: StringIndex := StringIndex([], map[])

  /**
   * Register a label if it is not there yet: push it on the array and map it to
   * the new last position (`stringArray.push(l); stringMap[l] = stringArray.length - 1`).
   */
  function Add(idx: StringIndex, labelName: string): (r: StringIndex)
    ensures r.stringMap.Keys == idx.stringMap.Keys + {labelName}
  {
    if labelName in idx.stringMap then idx
    else StringIndex(idx.stringArray + [labelName], idx.stringMap[labelName := |idx.stringArray|])
  }

  /**
   * Registering keeps the index valid: a known label changes nothing, a new one
   * becomes the last element and is mapped to its position.
   */
  lemma AddValid(idx: StringIndex, labelName: string)
    requires Valid(idx)
    ensures Valid(Add(idx, labelName))
    ensures labelName in idx.stringMap ==> Add(idx, labelName) == idx
    ensures labelName !in idx.stringMap ==>
              Add(idx, labelName).stringArray == idx.stringArray + [labelName]
              && Add(idx, labelName).stringMap[labelName] == |idx.stringArray|
  {
    var r := Add(idx, labelName);
    if labelName !in idx.stringMap {
      assert Elements(r.stringArray) == Elements(idx.stringArray) + {labelName};
    }
  }

  /** Register each of `labels` in turn. */
  function Extend(idx: StringIndex, labels: seq<string>): StringIndex {
    if labels == [] then idx else Add(Extend(idx, labels[..|labels| - 1]), labels[|labels| - 1])
  }

  /** `buildStringIdNumberValueDictionaryFromStringArray`. */
  function FromStringArray(labels: seq<string>): StringIndex {
    Extend(Empty, labels)
  }

  /** `buildStringIdNumberValueDictionaryFromStringArrays`: one index over all the arrays, in order. */
  function FromStringArrays(arrays: seq<seq<string>>): StringIndex {
    if arrays == [] then Empty else Extend(FromStringArrays(arrays[..|arrays| - 1]), arrays[|arrays| - 1])
  }

  /** The arrays one after the other. */
  function Flatten(arrays: seq<seq<string>>): seq<string> {
    if arrays == [] then [] else Flatten(arrays[..|arrays| - 1]) + arrays[|arrays| - 1]
  }

  /**
   * `buildStringIdNumberValueDictionaryFromUniqueStringArray`: the map alone, built by
   * assigning each position to its element.
   */
  function FromUniqueStringArray(labels: seq<string>): (m: map<string, int>)
    ensures m.Keys == Elements(labels)
  {
    if labels == [] then map[]
    else FromUniqueStringArray(labels[..|labels| - 1])[labels[|labels| - 1] := |labels| - 1]
  }

  /** Extending keeps the index valid. */
  lemma {:induction false} ExtendValid(idx: StringIndex, labels: seq<string>)
    requires Valid(idx)
    ensures Valid(Extend(idx, labels))
  {
    if labels != [] {
      var init := labels[..|labels| - 1];
      ExtendValid(idx, init);
      AddValid(Extend(idx, init), labels[|labels| - 1]);
    }
  }

  /** After extending, the keys are exactly the old keys and the labels seen. */
  lemma {:induction false} ExtendKeys(idx: StringIndex, labels: seq<string>)
    ensures Extend(idx, labels).stringMap.Keys == idx.stringMap.Keys + Elements(labels)
  {
    if labels != [] {
      var init := labels[..|labels| - 1];
      ExtendKeys(idx, init);
      assert labels == init + [labels[|labels| - 1]];
      ElementsSnoc(init, labels[|labels| - 1]);
    }
  }

  /** Registering labels that are all known already changes nothing. */
  lemma {:induction false} ExtendKnown(idx: StringIndex, labels: seq<string>)
    requires forall l :: l in labels ==> l in idx.stringMap
    ensures Extend(idx, labels) == idx
  {
    if labels != [] {
      assert labels[|labels| - 1] in labels;
      ExtendKnown(idx, labels[..|labels| - 1]);
    }
  }

  /** Extending by `a` then `b` is extending by `a + b`. */
  lemma {:induction false} ExtendAppend(idx: StringIndex, a: seq<string>, b: seq<string>)
    ensures Extend(Extend(idx, a), b) == Extend(idx, a + b)
  {
    if b == [] {
      assert a + b == a;
    } else {
      var b' := b[..|b| - 1];
      ExtendAppend(idx, a, b');
      assert (a + b)[..|a + b| - 1] == a + b';
      assert (a + b)[|a + b| - 1] == b[|b| - 1];
    }
  }

  /** Building from several arrays is building from their concatenation. */
  lemma {:induction false} FromStringArraysFlatten(arrays: seq<seq<string>>)
    ensures FromStringArrays(arrays) == FromStringArray(Flatten(arrays))
  {
    if arrays != [] {
      var init := arrays[..|arrays| - 1];
      FromStringArraysFlatten(init);
      ExtendAppend(Empty, Flatten(init), arrays[|arrays| - 1]);
    }
  }

  /** The index built from any array is valid and holds exactly the array's distinct labels. */
  lemma FromStringArrayValid(labels: seq<string>)
    ensures Valid(FromStringArray(labels))
    ensures FromStringArray(labels).stringMap.Keys == Elements(labels)
    ensures Elements(FromStringArray(labels).stringArray) == Elements(labels)
  {
    ExtendValid(Empty, labels);
    ExtendKeys(Empty, labels);
  }

  /** A valid index has as many map entries as array elements. */
  lemma IndexSizes(idx: StringIndex)
    requires Valid(idx)
    ensures |idx.stringMap| == |idx.stringArray|
  {
    CardinalityOfElements(idx.stringArray);
    assert |idx.stringMap.Keys| == |idx.stringMap|;
  }

  /** The position of the first occurrence of `x` in `s`. */
  function FirstIndex(s: seq<string>, x: string): (k: nat)
    requires x in s
    ensures k < |s| && s[k] == x && x !in s[..k]
  {
    if s[0] == x then 0
    else
      assert x in s[1..];
      var k := FirstIndex(s[1..], x);
      assert s[..k + 1] == [s[0]] + s[1..][..k];
      k + 1
  }

  /** The first occurrence is the only position holding `x` with no `x` before it. */
  lemma FirstIndexUnique(s: seq<string>, x: string, k: nat)
    requires k < |s| && s[k] == x && x !in s[..k]
    ensures FirstIndex(s, x) == k
  {
    var f := FirstIndex(s, x);
    InPrefix(s, f, k);
    InPrefix(s, k, f);
  }

  lemma FirstIndexSnoc(s: seq<string>, x: string, y: string)
    requires y in s
    ensures FirstIndex(s + [x], y) == FirstIndex(s, y)
  {
    var k := FirstIndex(s, y);
    assert (s + [x])[..k] == s[..k];
    FirstIndexUnique(s + [x], y, k);
  }

  /** `arr` lists elements of `labels` in the order of their first occurrence there. */
  ghost predicate FirstSeenOrdered(arr: seq<string>, labels: seq<string>) {
    && (forall i :: 0 <= i < |arr| ==> arr[i] in labels)
    && (forall i, j :: 0 <= i < j < |arr| ==> FirstIndex(labels, arr[i]) < FirstIndex(labels, arr[j]))
  }

  lemma FirstSeenOrderedSnoc(a0: seq<string>, init: seq<string>, x: string)
    requires FirstSeenOrdered(a0, init)
    ensures FirstSeenOrdered(a0, init + [x])
    ensures x !in init ==> FirstSeenOrdered(a0 + [x], init + [x])
  {
    FirstIndicesKept(a0, init, x);
    if x !in init {
      FirstSeenOrderedNew(a0, init, x);
    }
  }

  /** Appending to the input moves no first occurrence of a label already listed. */
  lemma FirstIndicesKept(a0: seq<string>, init: seq<string>, x: string)
    requires forall i :: 0 <= i < |a0| ==> a0[i] in init
    ensures forall i :: 0 <= i < |a0| ==>
              a0[i] in init + [x] && FirstIndex(init + [x], a0[i]) == FirstIndex(init, a0[i]) < |init|
  {
    forall i | 0 <= i < |a0|
      ensures a0[i] in init + [x] && FirstIndex(init + [x], a0[i]) == FirstIndex(init, a0[i]) < |init|
    {
      FirstIndexSnoc(init, x, a0[i]);
    }
  }

  /** A new label goes after every listed one, as its first occurrence is the last position. */
  lemma FirstSeenOrderedNew(a0: seq<string>, init: seq<string>, x: string)
    requires FirstSeenOrdered(a0, init) && x !in init
    requires forall i :: 0 <= i < |a0| ==>
               a0[i] in init + [x] && FirstIndex(init + [x], a0[i]) == FirstIndex(init, a0[i]) < |init|
    ensures FirstSeenOrdered(a0 + [x], init + [x])
  {
    var labels, arr := init + [x], a0 + [x];
    assert x in labels && FirstIndex(labels, x) == |init| by {
      assert labels[|init|] == x;
      assert labels[..|init|] == init;
      FirstIndexUnique(labels, x, |init|);
    }
    forall i | 0 <= i < |arr|
      ensures arr[i] in labels
    {
      if i < |a0| {
        assert arr[i] == a0[i];
      }
    }
    forall i, j | 0 <= i < j < |arr|
      ensures FirstIndex(labels, arr[i]) < FirstIndex(labels, arr[j])
    {
      assert arr[i] == a0[i];
      assert FirstIndex(labels, a0[i]) == FirstIndex(init, a0[i]) < |init|;
      if j < |a0| {
        assert arr[j] == a0[j];
        assert FirstIndex(labels, a0[j]) == FirstIndex(init, a0[j]);
      } else {
        assert arr[j] == x;
      }
    }
  }

  /** The index lists labels in the order of their first occurrence in the input. */
  lemma {:induction false} FromStringArrayFirstSeenOrder(labels: seq<string>)
    ensures FirstSeenOrdered(FromStringArray(labels).stringArray, labels)
  {
    if labels != [] {
      var init, x := labels[..|labels| - 1], labels[|labels| - 1];
      assert labels == init + [x];
      FromStringArrayFirstSeenOrder(init);
      FromStringArrayValid(init);
      AddValid(FromStringArray(init), x);
      var a0 := FromStringArray(init).stringArray;
      FirstSeenOrderedSnoc(a0, init, x);
    }
  }

  /** A duplicate-free input is kept as it is, and its map is the one built position by position. */
  lemma {:induction false} FromUniqueStringArrayAgrees(labels: seq<string>)
    requires NoDuplicates(labels)
    ensures FromStringArray(labels).stringArray == labels
    ensures FromStringArray(labels).stringMap == FromUniqueStringArray(labels)
  {
    if labels != [] {
      var init, x := labels[..|labels| - 1], labels[|labels| - 1];
      assert labels == init + [x];
      assert NoDuplicates(init);
      FromUniqueStringArrayAgrees(init);
      var idx := FromStringArray(init);
      assert FromStringArray(labels) == Add(idx, x) by {
        assert labels[..|labels| - 1] == init;
      }
      assert x !in idx.stringMap by {
        FromStringArrayValid(init);
        assert x !in Elements(init);
      }
      assert FromUniqueStringArray(labels) == FromUniqueStringArray(init)[x := |init|] by {
        assert labels[..|labels| - 1] == init;
      }
    }
  }

  /** On a duplicate-free input every label is mapped to its own position. */
  lemma FromUniqueStringArrayPositions(labels: seq<string>)
    requires NoDuplicates(labels)
    ensures forall i :: 0 <= i < |labels| ==> FromUniqueStringArray(labels)[labels[i]] == i
  {
    FromUniqueStringArrayAgrees(labels);
    FromStringArrayValid(labels);
  }

  // ----- The documented scenarios -----

  /** Three distinct labels map to 0, 1, 2; there are three entries. */
  lemma UniqueOfThree(s: seq<string>)
    requires |s| == 3 && NoDuplicates(s)
    ensures var m := FromUniqueStringArray(s);
            |m| == 3 && s[0] in m && s[1] in m && s[2] in m && m[s[0]] == 0 && m[s[1]] == 1 && m[s[2]] == 2
  {
    var m := FromUniqueStringArray(s);
    FromUniqueStringArrayPositions(s);
    CardinalityOfElements(s);
    assert |m.Keys| == |m|;
    assert s[0] in Elements(s) && s[1] in Elements(s) && s[2] in Elements(s);
  }

  /** `["a","b","c"]` maps a, b, c to 0, 1, 2; there are three entries. */
  lemma UniqueScenario()
    ensures var m := FromUniqueStringArray(["a", "b", "c"]);
            |m| == 3 && "a" in m && "b" in m && "c" in m && m["a"] == 0 && m["b"] == 1 && m["c"] == 2
  {
    var s: seq<string> := ["a", "b", "c"];
    assert NoDuplicates(s);
    UniqueOfThree(s);
    assert s[0] == "a" && s[1] == "b" && s[2] == "c";
  }

  /** `["a","b","a","c"]` gives the index of `["a","b","c"]`: the repeated `a` is dropped. */
  lemma RepeatingCollapses()
    ensures FromStringArray(["a", "b", "a", "c"]) == FromStringArray(["a", "b", "c"])
  {
    var s: seq<string> := ["a", "b", "a", "c"];
    var t: seq<string> := ["a", "b", "c"];
    var ab: seq<string> := ["a", "b"];
    assert s[..3] == ab + ["a"] && s[..3][..2] == ab && t[..2] == ab;
    FromStringArrayValid(ab);
    assert "a" in Elements(ab);
    AddValid(FromStringArray(ab), "a");
  }

  /** `["a","b","a","c"]`: three labels in first-seen order, mapped to 0, 1, 2. */
  lemma RepeatingScenario()
    ensures var idx := FromStringArray(["a", "b", "a", "c"]);
            && idx.stringArray == ["a", "b", "c"] && |idx.stringMap| == 3
            && "a" in idx.stringMap && "b" in idx.stringMap && "c" in idx.stringMap
            && idx.stringMap["a"] == 0 && idx.stringMap["b"] == 1 && idx.stringMap["c"] == 2
  {
    var t: seq<string> := ["a", "b", "c"];
    assert FromStringArray(["a", "b", "a", "c"]) == FromStringArray(t) by { RepeatingCollapses(); }
    assert FromStringArray(t).stringArray == t && FromStringArray(t).stringMap == FromUniqueStringArray(t) by {
      assert NoDuplicates(t);
      FromUniqueStringArrayAgrees(t);
    }
    UniqueScenario();
  }

  lemma FlattenTwo(a: seq<string>, b: seq<string>)
    ensures Flatten([a, b]) == a + b
  {
    assert [a, b][..1] == [a] && [a][..0] == [];
    assert Flatten([a]) == Flatten([]) + a;
    assert Flatten([a, b]) == Flatten([a]) + b;
  }

  /** `[["a","b","a","c"],["b","c"]]` gives the same index as the single array `["a","b","c"]`. */
  lemma ArraysScenario()
    ensures FromStringArrays([["a", "b", "a", "c"], ["b", "c"]]) == FromStringArray(["a", "b", "c"])
  {
    var s: seq<string> := ["a", "b", "a", "c"];
    var t: seq<string> := ["a", "b", "c"];
    var bc: seq<string> := ["b", "c"];
    FlattenTwo(s, bc);
    FromStringArraysFlatten([s, bc]);
    ExtendAppend(Empty, s, bc);
    RepeatingCollapses();
    FromStringArrayValid(t);
    ExtendKnown(FromStringArray(t), bc);
  }

  /** `["A","B","C"]` gives three labels; registering another label extends the index validly. */
  lemma ThreeLabelsScenario(extra: string)
    ensures |FromStringArray(["A", "B", "C"]).stringArray| == 3
    ensures extra !in ["A", "B", "C"] ==>
              var idx := Add(FromStringArray(["A", "B", "C"]), extra);
              Valid(idx) && |idx.stringArray| == 4 && idx.stringMap[extra] == 3
  {
    var s: seq<string> := ["A", "B", "C"];
    assert NoDuplicates(s);
    FromUniqueStringArrayAgrees(s);
    FromStringArrayValid(s);
    assert extra !in s ==> extra !in Elements(s);
    AddValid(FromStringArray(s), extra);
  }
}
