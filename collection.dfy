/** A dictionary keyed by the integers 0..n-1, used as an ordered sequence:
    the shape of the riddle collection. */
module Collection {

  /** The keys are exactly 0..|m|-1. */
  ghost predicate Contiguous<T>(m: map<int, T>) {
    forall k :: k in m <==> 0 <= k < |m|
  }

  /** No value is stored under two keys. */
  ghost predicate Injective<T>(m: map<int, T>) {
    forall i, j :: i in m && j in m && i != j ==> m[i] != m[j]
  }

  /** `[m[i] for i in range(len(m))]`: the values in key order. A view:
      its contract is its definition, and the lemmas below use it. */
  function Ordered<T>(m: map<int, T>): (s: seq<T>)
    requires Contiguous(m)
    ensures |s| == |m|
    ensures forall i :: 0 <= i < |m| ==> s[i] == m[i]
  {
    seq(|m|, i requires 0 <= i < |m| => m[i])
  }

  /** `{i: r for i, r in enumerate(s)}`: the dictionary that lists `s`. */
  function FromSeq<T>(s: seq<T>): (m: map<int, T>)
    ensures Contiguous(m)
    ensures Ordered(m) == s
  {
    if s == [] then map[]
    else
      var m := FromSeq(s[..|s| - 1])[|s| - 1 := s[|s| - 1]];
      assert Ordered(m) == s by {
        assert forall i :: 0 <= i < |s| - 1 ==> s[..|s| - 1][i] == s[i];
      }
      m
  }

  /** Storing under key n = len(m) appends to the sequence. */
  lemma Appended<T>(m: map<int, T>, x: T)
    requires Contiguous(m)
    ensures |m| !in m
    ensures Contiguous(m[|m| := x])
    ensures Ordered(m[|m| := x]) == Ordered(m) + [x]
  {
    assert |m| !in m;
  }

  /** A contiguous dictionary is determined by its value sequence. */
  lemma OrderedInjective<T>(m1: map<int, T>, m2: map<int, T>)
    requires Contiguous(m1) && Contiguous(m2)
    requires Ordered(m1) == Ordered(m2)
    ensures m1 == m2
  {
    assert |m1| == |Ordered(m1)| == |m2|;
    forall k ensures k in m1.Keys <==> k in m2.Keys {
      assert k in m1 <==> 0 <= k < |m1|;
      assert k in m2 <==> 0 <= k < |m2|;
    }
    forall k | k in m1 ensures m1[k] == m2[k] {
      assert m1[k] == Ordered(m1)[k];
    }
  }

  /** The set of stored values, `set(m.values())`. */
  ghost function Elements<T>(m: map<int, T>): set<T> {
    set k | k in m :: m[k]
  }

  /** The stored values of a contiguous dictionary are those of its sequence. */
  lemma ElementsOfOrdered<T>(m: map<int, T>)
    requires Contiguous(m)
    ensures forall v :: v in Elements(m) <==> v in Ordered(m)
  {
    forall v | v in Elements(m) ensures v in Ordered(m) {
      var k :| k in m && m[k] == v;
      assert Ordered(m)[k] == v;
    }
    forall v | v in Ordered(m) ensures v in Elements(m) {
      var k :| 0 <= k < |m| && Ordered(m)[k] == v;
      assert m[k] == v;
    }
  }

  /** Sequence `s` with the elements at `i` and `j` exchanged. */
  function Swapped<T>(s: seq<T>, i: nat, j: nat): (r: seq<T>)
    requires i < |s| && j < |s|
    ensures |r| == |s| && r[i] == s[j] && r[j] == s[i]
    ensures forall k :: 0 <= k < |s| && k != i && k != j ==> r[k] == s[k]
    ensures multiset(r) == multiset(s)
  {
    s[i := s[j]][j := s[i]]
  }

  /** Exchanging twice restores the sequence: moving an entry down undoes
      moving the entry below it up. */
  lemma SwappedTwice<T>(s: seq<T>, i: nat, j: nat)
    requires i < |s| && j < |s|
    ensures Swapped(Swapped(s, i, j), i, j) == s
  {
  }

  /** No value occurs twice. */
  predicate Distinct<T(==)>(s: seq<T>) {
    forall i, j :: 0 <= i < |s| && 0 <= j < |s| && i != j ==> s[i] != s[j]
  }

  lemma InjectiveOrdered<T>(m: map<int, T>)
    requires Contiguous(m)
    ensures Injective(m) <==> Distinct(Ordered(m))
  {
  }

  /** `del m[index]` followed by re-numbering the remaining entries 0, 1,
      ... in key order: later entries move down by one. */
  method RemoveAndRepack<T>(m: map<int, T>, index: int) returns (r: map<int, T>)
    requires Contiguous(m) && index in m
    ensures Contiguous(r) && |r| == |m| - 1
    ensures forall k :: k in r ==> r[k] == m[if k < index then k else k + 1]
  {
    var rest := m - {index};
    r := map[];
    for k := 0 to |m|
      invariant Contiguous(r)
      invariant |r| == if k <= index then k else k - 1
      invariant forall j :: 0 <= j < |r| ==> r[j] == m[if j < index then j else j + 1]
    {
      if k in rest {
        Appended(r, rest[k]);
        r := r[|r| := rest[k]];
      }
    }
  }

  /** The re-packed dictionary lists the old values with one left out. */
  lemma RepackedOrder<T>(m: map<int, T>, index: int, r: map<int, T>)
    requires Contiguous(m) && index in m
    requires Contiguous(r) && |r| == |m| - 1
    requires forall k :: k in r ==> r[k] == m[if k < index then k else k + 1]
    ensures Ordered(r) == Ordered(m)[..index] + Ordered(m)[index + 1..]
    ensures Injective(m) ==> Injective(r)
    ensures Elements(r) <= Elements(m)
  {
    assert Ordered(r) == Ordered(m)[..index] + Ordered(m)[index + 1..];
    forall v | v in Elements(r) ensures v in Elements(m) {
      var k :| k in r && r[k] == v;
      var k' := if k < index then k else k + 1;
      assert k' in m && m[k'] == v;
    }
  }
}
