/** Facts about sequences used as ordered, duplicate-free collections. */
module Seqs {

  /** No element occurs twice. */
  ghost predicate NoDuplicates<T>(s: seq<T>) {
    forall i, j :: 0 <= i < j < |s| ==> s[i] != s[j]
  }

  /** The elements of `s`, as a set (JavaScript's `new Set(array)`). */
  function Elements<T>(s: seq<T>): set<T> {
    set x | x in s
  }

  /** Appending an element that is absent keeps a sequence duplicate-free. */
  lemma NoDuplicatesSnoc<T>(s: seq<T>, x: T)
    requires NoDuplicates(s) && x !in s
    ensures NoDuplicates(s + [x])
  {
  }

  lemma ElementsSnoc<T>(s: seq<T>, x: T)
    ensures Elements(s + [x]) == Elements(s) + {x}
  {
  }

  /** An element after position `i` is in the suffix that starts at `i + 1`. */
  lemma InSuffix<T>(s: seq<T>, i: int, j: int)
    ensures 0 <= i < j < |s| ==> s[j] in s[i + 1..]
  {
    if 0 <= i < j < |s| {
      assert s[i + 1..][j - i - 1] == s[j];
    }
  }

  /** An element before position `j` is in the prefix of length `j`. */
  lemma InPrefix<T>(s: seq<T>, i: nat, j: nat)
    ensures i < j <= |s| ==> s[i] in s[..j]
  {
    if i < j <= |s| {
      assert s[..j][i] == s[i];
    }
  }

  /** A duplicate-free sequence has as many elements as its set. */
  lemma {:induction false} CardinalityOfElements<T>(s: seq<T>)
    requires NoDuplicates(s)
    ensures |Elements(s)| == |s|
  {
    if s != [] {
      var init := s[..|s| - 1];
      var last := s[|s| - 1];
      assert NoDuplicates(init);
      CardinalityOfElements(init);
      assert last !in init;
      assert Elements(s) == Elements(init) + {last} by {
        assert s == init + [last];
      }
    }
  }

  /** Two maps with the same keys and the same value at every key are equal. */
  lemma MapsEqual<K, V>(a: map<K, V>, b: map<K, V>)
    requires a.Keys == b.Keys
    requires forall k :: k in a ==> a[k] == b[k]
    ensures a == b
  {
  }

  /** Extending a prefix by one element. */
  lemma TakeSnoc<T>(s: seq<T>, i: nat)
    requires i < |s|
    ensures s[..i + 1][..i] == s[..i] && s[..i + 1][i] == s[i]
  {
  }

  lemma TakeAll<T>(s: seq<T>)
    ensures s[..|s|] == s
  {
  }
}
