/** The stable sort the source calls, with what a sort promises proved once. */
module Sorting {

  /** Puts an element after everything it does not precede. */
  function Insert<T>(x: T, sorted: seq<T>, leq: (T, T) -> bool): seq<T> {
    if sorted == [] || leq(sorted[|sorted| - 1], x) then sorted + [x]
    else Insert(x, sorted[..|sorted| - 1], leq) + [sorted[|sorted| - 1]]
  }

  function Sort<T>(s: seq<T>, leq: (T, T) -> bool): seq<T> {
    if s == [] then [] else Insert(s[|s| - 1], Sort(s[..|s| - 1], leq), leq)
  }

  method InsertionSort<T>(s: seq<T>, leq: (T, T) -> bool) returns (sorted: seq<T>)
    ensures sorted == Sort(s, leq)
  {
    sorted := [];
    for i := 0 to |s|
      invariant sorted == Sort(s[..i], leq)
    {
      assert s[..i + 1][..i] == s[..i];
      sorted := Insert(s[i], sorted, leq);
    }
    assert s[..|s|] == s;
  }

  ghost predicate TotalOrder<T(!new)>(leq: (T, T) -> bool) {
    && (forall a, b :: leq(a, b) || leq(b, a))
    && (forall a, b, c :: leq(a, b) && leq(b, c) ==> leq(a, c))
  }

  ghost predicate IsSorted<T>(s: seq<T>, leq: (T, T) -> bool) {
    forall i, j | 0 <= i < j < |s| :: leq(s[i], s[j])
  }

  lemma {:induction false} InsertKeepsOrder<T(!new)>(x: T, sorted: seq<T>, leq: (T, T) -> bool)
    requires IsSorted(sorted, leq) && TotalOrder(leq)
    ensures IsSorted(Insert(x, sorted, leq), leq)
    ensures multiset(Insert(x, sorted, leq)) == multiset(sorted) + multiset{x}
  {
    if sorted != [] {
      var init, last := sorted[..|sorted| - 1], sorted[|sorted| - 1];
      assert sorted == init + [last];
      if leq(last, x) {
        forall i | 0 <= i < |sorted|
          ensures leq(sorted[i], x)
        {
          assert i < |init| ==> leq(sorted[i], last);
        }
      } else {
        InsertKeepsOrder(x, init, leq);
        var inserted := Insert(x, init, leq);
        forall i | 0 <= i < |inserted|
          ensures leq(inserted[i], last)
        {
          assert inserted[i] in multiset(inserted);
          assert inserted[i] == x || inserted[i] in init;
        }
      }
    }
  }

  /** A sort loses nothing, invents nothing, and leaves the order it was asked for. */
  lemma {:induction false} SortIsOrderedPermutation<T(!new)>(s: seq<T>, leq: (T, T) -> bool)
    requires TotalOrder(leq)
    ensures IsSorted(Sort(s, leq), leq)
    ensures multiset(Sort(s, leq)) == multiset(s)
    ensures forall x :: x in Sort(s, leq) <==> x in s
  {
    if s != [] {
      var init, last := s[..|s| - 1], s[|s| - 1];
      assert s == init + [last];
      SortIsOrderedPermutation(init, leq);
      InsertKeepsOrder(last, Sort(init, leq), leq);
    }
    forall x
      ensures x in Sort(s, leq) <==> x in s
    {
      assert x in multiset(Sort(s, leq)) <==> x in multiset(s);
    }
  }
}
