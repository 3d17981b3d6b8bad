/** Vocabulary shared by every component: optional values, machine-width casts, weighted sums. */
module Common {

  datatype Option<+T> = None | Some(value: T)

  datatype Result<+T, +E> = Ok(value: T) | Err(error: E)

  const U32_RANGE: nat := 0x1_0000_0000

  /** Rust's `as u32` on an unsigned value: the high bits are dropped. */
  function AsU32(n: nat): (r: nat)
    ensures r < U32_RANGE && r <= n
    ensures n < U32_RANGE ==> r == n
  {
    if n < U32_RANGE then n else AsU32(n - U32_RANGE)
  }

  function Min(a: int, b: int): int {
    if a <= b then a else b
  }

  function Max(a: int, b: int): int {
    if a <= b then b else a
  }

  function ElementsOf<T(==)>(s: seq<T>): set<T> {
    set x <- s
  }

  lemma AppendRegroups<T>(a: seq<T>, b: seq<T>, c: seq<T>)
    ensures a + (b + c) == a + b + c
  {
  }

  /** The total of a weight over a sequence. */
  function SumBy<T>(s: seq<T>, w: T -> nat): nat {
    if s == [] then 0 else w(s[0]) + SumBy(s[1..], w)
  }

  /** The same total as a saturating fold from the left, as the source sums u32 values. */
  function SaturatingSum<T>(s: seq<T>, w: T -> nat): nat {
    if s == [] then 0 else Min(SaturatingSum(s[..|s| - 1], w) + w(s[|s| - 1]), U32_RANGE - 1)
  }

  /** Saturating at every step is capping the true sum once. */
  lemma {:induction false} SaturatingSumIsCapped<T>(s: seq<T>, w: T -> nat)
    ensures SaturatingSum(s, w) == Min(SumBy(s, w), U32_RANGE - 1)
  {
    if s != [] {
      var init, last := s[..|s| - 1], s[|s| - 1];
      SaturatingSumIsCapped(init, w);
      assert s == init + [last];
      SumByAppend(init, [last], w);
      assert SumBy([last], w) == w(last);
    }
  }

  lemma {:induction false} SumByAppend<T>(a: seq<T>, b: seq<T>, w: T -> nat)
    ensures SumBy(a + b, w) == SumBy(a, w) + SumBy(b, w)
  {
    if a == [] {
      assert a + b == b;
    } else {
      assert (a + b)[1..] == a[1..] + b;
      SumByAppend(a[1..], b, w);
    }
  }

  lemma {:induction false} SumBySame<T>(s: seq<T>, u: T -> nat, v: T -> nat)
    requires forall t <- s :: u(t) == v(t)
    ensures SumBy(s, u) == SumBy(s, v)
  {
    if s != [] {
      SumBySame(s[1..], u, v);
    }
  }

  lemma SumByPush<T>(s: seq<T>, t: T, w: T -> nat)
    ensures SumBy(s + [t], w) == SumBy(s, w) + w(t)
  {
    SumByAppend(s, [t], w);
    assert SumBy([t], w) == w(t);
  }

  lemma {:induction false} SumBySplits<T>(s: seq<T>, u: T -> nat, v: T -> nat, both: T -> nat)
    requires forall t <- s :: both(t) == u(t) + v(t)
    ensures SumBy(s, both) == SumBy(s, u) + SumBy(s, v)
  {
    if s != [] {
      SumBySplits(s[1..], u, v, both);
    }
  }

  lemma {:induction false} NothingWeighs<T>(s: seq<T>, w: T -> nat)
    requires forall t <- s :: w(t) == 0
    ensures SumBy(s, w) == 0
  {
    if s != [] {
      NothingWeighs(s[1..], w);
    }
  }

  lemma RemoveAt<T>(b: seq<T>, i: nat)
    requires i < |b|
    ensures multiset(b) == multiset(b[..i] + b[i + 1..]) + multiset{b[i]}
  {
    assert b == b[..i] + [b[i]] + b[i + 1..];
  }

  lemma Cancel<T>(a: multiset<T>, b: multiset<T>, x: T)
    requires a + multiset{x} <= b + multiset{x}
    ensures a <= b
  {
    forall y
      ensures a[y] <= b[y]
    {
      assert (a + multiset{x})[y] <= (b + multiset{x})[y];
    }
  }

  lemma SumByWithout<T>(b: seq<T>, i: nat, w: T -> nat)
    requires i < |b|
    ensures SumBy(b, w) == SumBy(b[..i] + b[i + 1..], w) + w(b[i])
  {
    assert b == b[..i] + b[i..] && b[i..][1..] == b[i + 1..];
    SumByAppend(b[..i], b[i..], w);
    SumByAppend(b[..i], b[i + 1..], w);
  }

  lemma HeadStandsIn<T>(a: seq<T>, b: seq<T>) returns (i: nat)
    requires a != [] && multiset(a) <= multiset(b)
    ensures i < |b| && b[i] == a[0] && multiset(a[1..]) <= multiset(b[..i] + b[i + 1..])
  {
    assert a == [a[0]] + a[1..];
    assert a[0] in multiset(b);
    i :| 0 <= i < |b| && b[i] == a[0];
    RemoveAt(b, i);
    Cancel(multiset(a[1..]), multiset(b[..i] + b[i + 1..]), b[i]);
  }

  /** A weighted total only shrinks when elements are taken away, wherever they stood. */
  lemma {:induction false} SumBySubMultiset<T>(a: seq<T>, b: seq<T>, w: T -> nat)
    requires multiset(a) <= multiset(b)
    ensures SumBy(a, w) <= SumBy(b, w)
  {
    if a != [] {
      var i := HeadStandsIn(a, b);
      SumBySubMultiset(a[1..], b[..i] + b[i + 1..], w);
      SumByWithout(b, i, w);
    }
  }

  // ---- Lists made of one list for each element ----

  function Flatten<T>(parts: seq<seq<T>>): seq<T> {
    if parts == [] then [] else Flatten(parts[..|parts| - 1]) + parts[|parts| - 1]
  }

  lemma FlattenPush<T>(parts: seq<seq<T>>, last: seq<T>)
    ensures Flatten(parts + [last]) == Flatten(parts) + last
  {
    assert (parts + [last])[..|parts|] == parts;
  }

  /** Where one of the lists stands in all of them together. */
  lemma {:induction false} FlattenHas<T>(parts: seq<seq<T>>, i: nat) returns (at: nat)
    requires i < |parts|
    ensures at + |parts[i]| <= |Flatten(parts)| && forall j | 0 <= j < |parts[i]| :: Flatten(parts)[at + j] == parts[i][j]
    decreases |parts|
  {
    var init, last := parts[..|parts| - 1], parts[|parts| - 1];
    if i < |init| {
      at := FlattenHas(init, i);
    } else {
      at := |Flatten(init)|;
    }
  }

  function FlatMap<T, U>(s: seq<T>, f: T -> seq<U>): seq<U> {
    if s == [] then [] else FlatMap(s[..|s| - 1], f) + f(s[|s| - 1])
  }

  /** How often a value comes out of one element. */
  function TimesIn<T, U(==)>(f: T -> seq<U>, u: U): T -> nat {
    (t: T) => multiset(f(t))[u]
  }

  lemma {:induction false} FlatMapCounts<T, U>(s: seq<T>, f: T -> seq<U>, u: U)
    ensures multiset(FlatMap(s, f))[u] == SumBy(s, TimesIn(f, u))
  {
    if s != [] {
      var init, last := s[..|s| - 1], s[|s| - 1];
      assert s == init + [last];
      FlatMapCounts(init, f, u);
      SumByAppend(init, [last], TimesIn(f, u));
      assert SumBy([last], TimesIn(f, u)) == multiset(f(last))[u];
    }
  }

  lemma SubMultisetByCounts<T>(a: multiset<T>, b: multiset<T>)
    requires forall x: T :: a[x] <= b[x]
    ensures a <= b
  {
  }

  /** Fewer elements give no value they did not give among the rest. */
  lemma FlatMapSubMultiset<T, U>(a: seq<T>, b: seq<T>, f: T -> seq<U>)
    requires multiset(a) <= multiset(b)
    ensures multiset(FlatMap(a, f)) <= multiset(FlatMap(b, f))
  {
    var ofA, ofB := multiset(FlatMap(a, f)), multiset(FlatMap(b, f));
    forall u
      ensures ofA[u] <= ofB[u]
    {
      FlatMapCounts(a, f, u);
      FlatMapCounts(b, f, u);
      SumBySubMultiset(a, b, TimesIn(f, u));
    }
    SubMultisetByCounts(ofA, ofB);
  }
}
