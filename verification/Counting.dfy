/** Counting the members of sequences without repetition. */
module Counting {
  import opened Text

  /** Each member of the set occurs exactly once in the sequence, and nothing else. */
  ghost predicate ExactlyOnce<T(!new)>(s: seq<T>, required: set<T>) {
    NoDuplicates(s) && forall x :: x in s <==> x in required
  }

  function Elements<T(==)>(s: seq<T>): set<T> {
    set x | x in s
  }

  lemma {:induction false} CountElements<T>(s: seq<T>)
    ensures |Elements(s)| <= |s|
    ensures NoDuplicates(s) <==> |Elements(s)| == |s|
  {
    if s != [] {
      var front, last := s[..|s| - 1], s[|s| - 1];
      CountElements(front);
      assert s == front + [last];
      assert Elements(s) == Elements(front) + {last};
      if NoDuplicates(s) {
        assert forall i | 0 <= i < |front| :: s[i] != s[|s| - 1];
      } else if NoDuplicates(front) {
        assert last in front;
      }
    }
  }

  lemma SubsetOfEqualSize<T>(a: set<T>, b: set<T>)
    requires a <= b
    ensures |a| <= |b| && (|a| == |b| <==> a == b)
  {
    assert b == a + (b - a);
  }

  /** With as many entries as required members and no repetition, naming only required
      ones names all of them. */
  lemma Pigeonhole<T(!new)>(s: seq<T>, required: set<T>)
    ensures ExactlyOnce(s, required) <==>
            |s| == |required| && NoDuplicates(s) && forall i | 0 <= i < |s| :: s[i] in required
  {
    CountElements(s);
    if NoDuplicates(s) && forall i | 0 <= i < |s| :: s[i] in required {
      SubsetOfEqualSize(Elements(s), required);
    }
    if ExactlyOnce(s, required) {
      assert Elements(s) == required;
    }
  }

  /** The members of a finite set as a list. */
  lemma {:induction false} Listing<T>(items: set<T>) returns (list: seq<T>)
    ensures NoDuplicates(list) && forall x :: x in list <==> x in items
    decreases |items|
  {
    if items == {} {
      list := [];
    } else {
      var x :| x in items;
      var rest := Listing(items - {x});
      list := rest + [x];
    }
  }
}
