/** Facts about lists that several parts of the model share. */
module Seqs {

  /** No element occurs twice. */
  predicate NoDup<T(==)>(s: seq<T>)
  {
    forall i, j :: 0 <= i < j < |s| ==> s[i] != s[j]
  }

  /** Two duplicate-free lists with nothing in common concatenate to a
      duplicate-free list. */
  lemma NoDupConcat<T>(a: seq<T>, b: seq<T>)
    requires NoDup(a) && NoDup(b)
    requires forall x :: x in b ==> x !in a
    ensures NoDup(a + b)
  {
    var c := a + b;
    forall i, j | 0 <= i < j < |c|
      ensures c[i] != c[j]
    {
      if j >= |a| && i < |a| {
        assert c[j] == b[j - |a|];
        assert c[j] in b;
      }
    }
  }

  /** The lists of `ls` one after another. */
  function Flatten<T>(ls: seq<seq<T>>): (r: seq<T>)
    ensures ls == [] ==> r == []
  {
    if ls == [] then [] else ls[0] + Flatten(ls[1..])
  }

  /** An element of the flattened list is an element of one of the lists,
      and every element of every list is in the flattened one. */
  lemma {:induction false} FlattenMembers<T>(ls: seq<seq<T>>, x: T)
    ensures x in Flatten(ls) <==> exists k :: 0 <= k < |ls| && x in ls[k]
  {
    if ls != [] {
      FlattenMembers(ls[1..], x);
      if x in Flatten(ls[1..]) {
        var k :| 0 <= k < |ls[1..]| && x in ls[1..][k];
        assert x in ls[k + 1];
      }
      if exists k :: 0 <= k < |ls| && x in ls[k] {
        var k :| 0 <= k < |ls| && x in ls[k];
        if k > 0 {
          assert x in ls[1..][k - 1];
        }
      }
    }
  }
}
