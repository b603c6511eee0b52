/** Facts about sequences used as ordered sets. */
module Seqs {

  /** No element occurs twice: the contents of a JavaScript `Set`, or a list
      kept free of duplicates, in insertion order. */
  predicate NoDups<T(==)>(s: seq<T>)
  {
    forall i, j :: 0 <= i < j < |s| ==> s[i] != s[j]
  }

  /** Each element of a duplicate-free sequence occurs exactly once. */
  lemma {:induction false} OccursOnce<T>(s: seq<T>, x: T)
    requires NoDups(s) && x in s
    ensures multiset(s)[x] == 1
  {
    if s[0] == x {
      assert x !in s[1..];
      assert s == [s[0]] + s[1..];
    } else {
      OccursOnce(s[1..], x);
      assert s == [s[0]] + s[1..];
    }
  }

  /** Putting a new element in front keeps a sequence duplicate-free. */
  lemma NoDupsCons<T>(x: T, t: seq<T>)
    requires x !in t && NoDups(t)
    ensures NoDups([x] + t)
  {
    var s := [x] + t;
    forall i, j | 0 <= i < j < |s|
      ensures s[i] != s[j]
    {
      if i == 0 {
        assert s[j] == t[j - 1];
      } else {
        assert s[i] == t[i - 1] && s[j] == t[j - 1];
      }
    }
  }
}
