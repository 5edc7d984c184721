/** Sequences and sets: sequences without repeats and their elements, pages of a scan joined in
    order, sums, and elements taken out of a multiset. */
module Sequences {

  ghost predicate Distinct<T>(s: seq<T>) {
    forall i, j | 0 <= i < j < |s| :: s[i] != s[j]
  }

  function Elements<T>(s: seq<T>): set<T> {
    set x | x in s
  }

  lemma {:induction false} ElementsCount<T>(s: seq<T>)
    requires Distinct(s)
    ensures |Elements(s)| == |s|
  {
    if s != [] {
      var n := |s| - 1;
      ElementsCount(s[..n]);
      assert Elements(s) == Elements(s[..n]) + {s[n]};
    }
  }

  lemma {:induction false} SubsetCount<T>(a: set<T>, b: set<T>)
    requires a <= b
    ensures |a| <= |b|
  {
    if a != {} {
      var x :| x in a;
      SubsetCount(a - {x}, b - {x});
    }
  }

  function Flatten<T>(pages: seq<seq<T>>): seq<T> {
    if pages == [] then [] else Flatten(pages[..|pages| - 1]) + pages[|pages| - 1]
  }

  lemma {:induction false} FlattenHas<T>(pages: seq<seq<T>>, x: T)
    ensures x in Flatten(pages) <==> exists p | 0 <= p < |pages| :: x in pages[p]
  {
    if pages != [] {
      FlattenHas(pages[..|pages| - 1], x);
    }
  }

  lemma FlattenOneMore<T>(pages: seq<seq<T>>, p: nat)
    requires p < |pages|
    ensures Flatten(pages[..p + 1]) == Flatten(pages[..p]) + pages[p][..|pages[p]|]
  {
    assert pages[..p + 1][..p] == pages[..p];
  }

  lemma PageOneMore<T>(pages: seq<seq<T>>, p: nat, j: nat)
    requires p < |pages| && j < |pages[p]|
    ensures Flatten(pages[..p]) + pages[p][..j] + [pages[p][j]] == Flatten(pages[..p]) + pages[p][..j + 1]
  {
    assert pages[p][..j + 1] == pages[p][..j] + [pages[p][j]];
  }

  function SumOf(xs: seq<int>): int {
    if xs == [] then 0 else SumOf(xs[..|xs| - 1]) + xs[|xs| - 1]
  }

  lemma SumOneMore(xs: seq<int>, x: int, ys: seq<int>)
    requires ys == xs + [x]
    ensures SumOf(ys) == SumOf(xs) + x
  {
    assert ys[..|xs|] == xs;
  }

  lemma MultisetSplit<T>(xs: seq<T>, ys: seq<T>, i: nat)
    requires xs != [] && i < |ys| && ys[i] == xs[0] && multiset(xs) == multiset(ys)
    ensures multiset(xs[1..]) == multiset(ys[..i] + ys[i + 1..])
  {
    assert xs == [xs[0]] + xs[1..];
    assert multiset(xs) == multiset{xs[0]} + multiset(xs[1..]);
    assert ys == ys[..i] + ([ys[i]] + ys[i + 1..]);
    assert multiset(ys) == multiset(ys[..i]) + (multiset{xs[0]} + multiset(ys[i + 1..]));
    assert multiset(ys[..i] + ys[i + 1..]) == multiset(ys) - multiset{xs[0]};
    assert multiset(xs[1..]) == multiset(xs) - multiset{xs[0]};
  }

  function IndexOf<T(==)>(ys: seq<T>, x: T): (i: nat)
    requires x in ys
    ensures i < |ys| && ys[i] == x
  {
    if ys[0] == x then 0 else 1 + IndexOf(ys[1..], x)
  }
}
