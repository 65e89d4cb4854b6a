/**
 The order theory behind the list sorts: what "sorted and stable" means, the merge of two
 runs, one pass of merges, and the number of passes.  A comparator is the C convention: only
 the test cmp(a, b) <= 0 is ever made.
 */
module StableSort {
  import opened Basics

  ghost predicate Leq<E>(cmp: (E, E) -> int, a: E, b: E) {
    cmp(a, b) <= 0
  }

  ghost predicate Same<E>(cmp: (E, E) -> int, a: E, b: E) {
    Leq(cmp, a, b) && Leq(cmp, b, a)
  }

  /** cmp is total and transitive on the elements of s. */
  ghost predicate TotalPreorder<E>(cmp: (E, E) -> int, s: seq<E>) {
    && (forall a, b | a in s && b in s :: Leq(cmp, a, b) || Leq(cmp, b, a))
    && (forall a, b, c | a in s && b in s && c in s && Leq(cmp, a, b) && Leq(cmp, b, c) :: Leq(cmp, a, c))
  }

  ghost predicate Sorted<E>(cmp: (E, E) -> int, s: seq<E>) {
    forall i, j | 0 <= i < j < |s| :: Leq(cmp, s[i], s[j])
  }

  /** The elements of s that cmp does not tell apart from x, in their order in s. */
  ghost function Class<E>(cmp: (E, E) -> int, s: seq<E>, x: E): seq<E> {
    if s == [] then [] else (if Same(cmp, s[0], x) then [s[0]] else []) + Class(cmp, s[1..], x)
  }

  /** t holds the elements of s, and elements that compare equal keep their order. */
  ghost predicate StableRearrangement<E>(cmp: (E, E) -> int, s: seq<E>, t: seq<E>) {
    && multiset(t) == multiset(s)
    && forall x | x in s :: Class(cmp, t, x) == Class(cmp, s, x)
  }

  ghost predicate StableSortOf<E>(cmp: (E, E) -> int, s: seq<E>, t: seq<E>) {
    Sorted(cmp, t) && StableRearrangement(cmp, s, t)
  }

  ghost function Merge<E>(cmp: (E, E) -> int, p: seq<E>, q: seq<E>): (m: seq<E>)
    ensures |m| == |p| + |q|
  {
    if p == [] then q
    else if q == [] then p
    else if Leq(cmp, p[0], q[0]) then [p[0]] + Merge(cmp, p[1..], q)
    else [q[0]] + Merge(cmp, p, q[1..])
  }

  /** How often Merge compares: once for every element it takes while both runs have some left. */
  ghost function MergeCost<E>(cmp: (E, E) -> int, p: seq<E>, q: seq<E>): (c: nat)
    ensures c <= |p| + |q| && (|p| + |q| > 0 ==> c < |p| + |q|)
  {
    if p == [] || q == [] then 0
    else if Leq(cmp, p[0], q[0]) then 1 + MergeCost(cmp, p[1..], q)
    else 1 + MergeCost(cmp, p, q[1..])
  }

  function Min(a: nat, b: nat): nat {
    if a < b then a else b
  }

  /** One pass: neighbouring runs of length k merged pairwise. */
  ghost function MergePass<E>(cmp: (E, E) -> int, s: seq<E>, k: nat): (t: seq<E>)
    requires k > 0
    ensures |t| == |s|
  {
    if s == [] then []
    else
      var mid, end := Min(k, |s|), Min(2 * k, |s|);
      Merge(cmp, s[..mid], s[mid..end]) + MergePass(cmp, s[end..], k)
  }

  /** How often a pass compares: fewer than |s| times. */
  ghost function PassCost<E>(cmp: (E, E) -> int, s: seq<E>, k: nat): (c: nat)
    requires k > 0
    ensures c <= |s| && (s != [] ==> c < |s|)
  {
    if s == [] then 0
    else
      var mid, end := Min(k, |s|), Min(2 * k, |s|);
      MergeCost(cmp, s[..mid], s[mid..end]) + PassCost(cmp, s[end..], k)
  }

  /** The list after n passes with run lengths 1, 2, 4, and so on. */
  ghost function AfterPasses<E>(cmp: (E, E) -> int, s: seq<E>, n: nat): (t: seq<E>)
    ensures |t| == |s|
  {
    if n == 0 then s else MergePass(cmp, AfterPasses(cmp, s, n - 1), Pow2(n - 1))
  }

  /** s is a concatenation of sorted runs of length k, the last one possibly shorter. */
  ghost predicate Runs<E>(cmp: (E, E) -> int, s: seq<E>, k: nat)
    requires k > 0
  {
    s == [] || (Sorted(cmp, s[..Min(k, |s|)]) && Runs(cmp, s[Min(k, |s|)..], k))
  }

  lemma {:induction false} ClassConcat<E>(cmp: (E, E) -> int, s: seq<E>, t: seq<E>, x: E)
    ensures Class(cmp, s + t, x) == Class(cmp, s, x) + Class(cmp, t, x)
  {
    if s == [] {
      assert s + t == t;
    } else {
      var c := if Same(cmp, s[0], x) then [s[0]] else [];
      assert (s + t)[0] == s[0] && (s + t)[1..] == s[1..] + t;
      ClassConcat(cmp, s[1..], t, x);
      assert c + (Class(cmp, s[1..], x) + Class(cmp, t, x)) == (c + Class(cmp, s[1..], x)) + Class(cmp, t, x);
    }
  }

  lemma {:induction false} ClassMember<E>(cmp: (E, E) -> int, s: seq<E>, x: E, y: E)
    requires y in Class(cmp, s, x)
    ensures y in s && Same(cmp, y, x)
  {
    assert s == [s[0]] + s[1..];
    if y in Class(cmp, s[1..], x) {
      ClassMember(cmp, s[1..], x, y);
    }
  }

  lemma MultisetMembers<E>(s: seq<E>, t: seq<E>)
    requires multiset(s) == multiset(t)
    ensures forall x :: x in s <==> x in t
  {
    forall x ensures x in s <==> x in t {
      assert x in s <==> x in multiset(s);
    }
  }

  lemma {:induction false} MergeMultiset<E>(cmp: (E, E) -> int, p: seq<E>, q: seq<E>)
    ensures multiset(Merge(cmp, p, q)) == multiset(p) + multiset(q)
  {
    if p != [] && q != [] {
      if Leq(cmp, p[0], q[0]) {
        assert p == [p[0]] + p[1..];
        MergeMultiset(cmp, p[1..], q);
      } else {
        assert q == [q[0]] + q[1..];
        MergeMultiset(cmp, p, q[1..]);
      }
    }
  }

  lemma {:induction false} PassMultiset<E>(cmp: (E, E) -> int, s: seq<E>, k: nat)
    requires k > 0
    ensures multiset(MergePass(cmp, s, k)) == multiset(s)
  {
    if s != [] {
      var mid, end := Min(k, |s|), Min(2 * k, |s|);
      assert s == s[..mid] + s[mid..end] + s[end..];
      MergeMultiset(cmp, s[..mid], s[mid..end]);
      PassMultiset(cmp, s[end..], k);
    }
  }

  lemma {:induction false} MergeMember<E>(cmp: (E, E) -> int, p: seq<E>, q: seq<E>, y: E)
    requires y in Merge(cmp, p, q)
    ensures y in p || y in q
  {
    MergeMultiset(cmp, p, q);
    assert y in multiset(Merge(cmp, p, q));
  }

  lemma Transitive<E>(cmp: (E, E) -> int, d: seq<E>, a: E, b: E, c: E)
    requires TotalPreorder(cmp, d) && a in d && b in d && c in d
    requires Leq(cmp, a, b) && Leq(cmp, b, c)
    ensures Leq(cmp, a, c)
  {
  }

  lemma Total<E>(cmp: (E, E) -> int, d: seq<E>, a: E, b: E)
    requires TotalPreorder(cmp, d) && a in d && b in d
    ensures Leq(cmp, a, b) || Leq(cmp, b, a)
  {
  }

  /** A first element that is at most every later one keeps a sorted tail sorted. */
  lemma SortedCons<E>(cmp: (E, E) -> int, x: E, t: seq<E>)
    requires Sorted(cmp, t)
    requires forall y | y in t :: Leq(cmp, x, y)
    ensures Sorted(cmp, [x] + t)
  {
  }

  /** Merging two sorted runs gives a sorted run. */
  lemma {:induction false} MergeSorted<E>(cmp: (E, E) -> int, d: seq<E>, p: seq<E>, q: seq<E>)
    requires TotalPreorder(cmp, d)
    requires forall x | x in p || x in q :: x in d
    requires Sorted(cmp, p) && Sorted(cmp, q)
    ensures Sorted(cmp, Merge(cmp, p, q))
  {
    if p != [] && q != [] {
      var left := Leq(cmp, p[0], q[0]);
      var x, p', q' := if left then p[0] else q[0], if left then p[1..] else p, if left then q else q[1..];
      assert Merge(cmp, p, q) == [x] + Merge(cmp, p', q');
      assert Sorted(cmp, p') && Sorted(cmp, q') && forall y | y in p' || y in q' :: y in d;
      hide TotalPreorder, Merge, Sorted;
      assert p[0] in p && q[0] in q;
      Total(cmp, d, p[0], q[0]);
      Total(cmp, d, x, x);
      MergeSorted(cmp, d, p', q');
      BelowMerge(cmp, d, x, p, q, p', q');
      SortedCons(cmp, x, Merge(cmp, p', q'));
    }
  }

  /** What is at most the heads of two sorted runs is at most everything merged from parts of them. */
  lemma {:induction false} BelowMerge<E>(cmp: (E, E) -> int, d: seq<E>, x: E, p: seq<E>, q: seq<E>,
                                           p': seq<E>, q': seq<E>)
    requires TotalPreorder(cmp, d) && x in d && forall y | y in p || y in q :: y in d
    requires p != [] && q != [] && Sorted(cmp, p) && Sorted(cmp, q) && Leq(cmp, x, p[0]) && Leq(cmp, x, q[0])
    requires (forall y | y in p' :: y in p) && forall y | y in q' :: y in q
    ensures forall y | y in Merge(cmp, p', q') :: Leq(cmp, x, y)
  {
    hide TotalPreorder, Merge, Sorted, Leq;
    forall y | y in Merge(cmp, p', q') ensures Leq(cmp, x, y) {
      MergeMember(cmp, p', q', y);
      BelowRun(cmp, d, x, if y in p' then p else q, y);
    }
  }

  lemma BelowRun<E>(cmp: (E, E) -> int, d: seq<E>, x: E, r: seq<E>, y: E)
    requires TotalPreorder(cmp, d) && x in d && forall z | z in r :: z in d
    requires r != [] && Sorted(cmp, r) && Leq(cmp, x, r[0]) && y in r
    ensures Leq(cmp, x, y)
  {
    LeastFirst(cmp, r);
    if y != r[0] {
      Transitive(cmp, d, x, r[0], y);
    }
  }

  lemma LeastFirst<E>(cmp: (E, E) -> int, s: seq<E>)
    requires s != [] && Sorted(cmp, s)
    ensures Sorted(cmp, s[1..])
    ensures forall x | x in s[1..] :: Leq(cmp, s[0], x)
    ensures forall x | x in s :: x == s[0] || Leq(cmp, s[0], x)
  {
  }

  /** A sorted run whose head is strictly above z holds nothing equivalent to z. */
  lemma {:induction false} NoneEquivalent<E>(cmp: (E, E) -> int, d: seq<E>, p: seq<E>, z: E, x: E)
    requires TotalPreorder(cmp, d) && x in d && z in d && forall y | y in p :: y in d
    requires p != [] && Sorted(cmp, p) && !Leq(cmp, p[0], z) && Same(cmp, z, x)
    ensures Class(cmp, p, x) == []
  {
    if Class(cmp, p, x) != [] {
      var y := Class(cmp, p, x)[0];
      ClassMember(cmp, p, x, y);
      LeastFirst(cmp, p);
      Transitive(cmp, d, y, x, z);
      assert false;
    }
  }

  lemma {:induction false} ClassCons<E>(cmp: (E, E) -> int, y: E, s: seq<E>, x: E)
    ensures Class(cmp, [y] + s, x) == (if Same(cmp, y, x) then [y] else []) + Class(cmp, s, x)
  {
    assert ([y] + s)[1..] == s;
  }

  /** The part of Class that y contributes. */
  ghost function One<E>(cmp: (E, E) -> int, y: E, x: E): seq<E> {
    if Same(cmp, y, x) then [y] else []
  }

  lemma {:induction false} MergeHead<E>(cmp: (E, E) -> int, p: seq<E>, q: seq<E>, x: E)
    requires p != [] && q != []
    ensures Class(cmp, p, x) == One(cmp, p[0], x) + Class(cmp, p[1..], x)
    ensures Class(cmp, q, x) == One(cmp, q[0], x) + Class(cmp, q[1..], x)
    ensures Leq(cmp, p[0], q[0]) ==>
              Class(cmp, Merge(cmp, p, q), x) == One(cmp, p[0], x) + Class(cmp, Merge(cmp, p[1..], q), x)
    ensures !Leq(cmp, p[0], q[0]) ==>
              Class(cmp, Merge(cmp, p, q), x) == One(cmp, q[0], x) + Class(cmp, Merge(cmp, p, q[1..]), x)
  {
    if Leq(cmp, p[0], q[0]) {
      ClassCons(cmp, p[0], Merge(cmp, p[1..], q), x);
    } else {
      ClassCons(cmp, q[0], Merge(cmp, p, q[1..]), x);
    }
  }

  /** Merging keeps every equivalence class in order, all of p before all of q. */
  lemma {:induction false} MergeStable<E>(cmp: (E, E) -> int, d: seq<E>, p: seq<E>, q: seq<E>, x: E)
    requires TotalPreorder(cmp, d) && x in d
    requires forall y | y in p || y in q :: y in d
    requires Sorted(cmp, p)
    ensures Class(cmp, Merge(cmp, p, q), x) == Class(cmp, p, x) + Class(cmp, q, x)
  {
    hide TotalPreorder, Class, Merge;
    if p == [] || q == [] {
      MergeTrivial(cmp, p, q, x);
    } else {
      MergeHead(cmp, p, q, x);
      if Leq(cmp, p[0], q[0]) {
        MergeStable(cmp, d, p[1..], q, x);
        Assoc(One(cmp, p[0], x), Class(cmp, p[1..], x), Class(cmp, q, x));
      } else {
        MergeStable(cmp, d, p, q[1..], x);
        if Same(cmp, q[0], x) {
          NoneEquivalent(cmp, d, p, q[0], x);
        }
        Swap(One(cmp, q[0], x), Class(cmp, p, x), Class(cmp, q[1..], x));
      }
    }
  }

  lemma {:induction false} MergeTrivial<E>(cmp: (E, E) -> int, p: seq<E>, q: seq<E>, x: E)
    requires p == [] || q == []
    ensures Class(cmp, Merge(cmp, p, q), x) == Class(cmp, p, x) + Class(cmp, q, x)
  {
  }

  lemma Swap<E>(a: seq<E>, b: seq<E>, c: seq<E>)
    requires a == [] || b == []
    ensures a + (b + c) == b + (a + c)
  {
  }

  lemma {:induction false} PassStable<E>(cmp: (E, E) -> int, d: seq<E>, s: seq<E>, k: nat, x: E)
    requires k > 0 && TotalPreorder(cmp, d) && x in d
    requires forall y | y in s :: y in d
    requires Runs(cmp, s, k)
    ensures Class(cmp, MergePass(cmp, s, k), x) == Class(cmp, s, x)
  {
    hide TotalPreorder;
    if s != [] {
      var mid, end := Min(k, |s|), Min(2 * k, |s|);
      var p, q, rest := s[..mid], s[mid..end], s[end..];
      assert s == p + q + rest;
      RunsSplit(cmp, s, k);
      PassStable(cmp, d, rest, k, x);
      MergeStable(cmp, d, p, q, x);
      ClassConcat(cmp, Merge(cmp, p, q), MergePass(cmp, rest, k), x);
      ClassConcat(cmp, p, q, x);
      ClassConcat(cmp, p + q, rest, x);
    }
  }

  /** The first two runs of s are sorted, and what follows them is again made of runs. */
  lemma {:induction false} RunsSplit<E>(cmp: (E, E) -> int, s: seq<E>, k: nat)
    requires k > 0 && s != [] && Runs(cmp, s, k)
    ensures Sorted(cmp, s[..Min(k, |s|)])
    ensures Sorted(cmp, s[Min(k, |s|)..Min(2 * k, |s|)])
    ensures Runs(cmp, s[Min(2 * k, |s|)..], k)
  {
    var mid, end := Min(k, |s|), Min(2 * k, |s|);
    var rest := s[mid..];
    if rest != [] {
      assert rest[..Min(k, |rest|)] == s[mid..end];
      assert rest[Min(k, |rest|)..] == s[end..];
    }
  }

  /** A pass over sorted runs of length k leaves sorted runs of length 2k. */
  lemma {:induction false} PassRuns<E>(cmp: (E, E) -> int, d: seq<E>, s: seq<E>, k: nat)
    requires k > 0 && TotalPreorder(cmp, d)
    requires forall y | y in s :: y in d
    requires Runs(cmp, s, k)
    ensures Runs(cmp, MergePass(cmp, s, k), 2 * k)
  {
    hide TotalPreorder;
    if s != [] {
      var mid, end := Min(k, |s|), Min(2 * k, |s|);
      RunsSplit(cmp, s, k);
      PassRuns(cmp, d, s[end..], k);
      MergeSorted(cmp, d, s[..mid], s[mid..end]);
      var m := Merge(cmp, s[..mid], s[mid..end]);
      var t := MergePass(cmp, s, k);
      assert t[..end] == m && t[end..] == MergePass(cmp, s[end..], k);
    }
  }

  lemma {:induction false} UnitRuns<E>(cmp: (E, E) -> int, s: seq<E>)
    ensures Runs(cmp, s, 1)
  {
    if s != [] {
      UnitRuns(cmp, s[1..]);
    }
  }

  /** A sorted stable rearrangement is unique, so any two stable sorts agree element by element. */
  lemma {:induction false} StableSortUnique<E>(cmp: (E, E) -> int, s: seq<E>, t: seq<E>, u: seq<E>)
    requires TotalPreorder(cmp, s)
    requires StableSortOf(cmp, s, t) && StableSortOf(cmp, s, u)
    ensures t == u
  {
    MultisetMembers(s, t);
    MultisetMembers(s, u);
    SortedClassesDetermine(cmp, s, t, u);
  }

  /** Two sorted sequences with the same classes have the same first element. */
  lemma {:induction false} FirstAgree<E>(cmp: (E, E) -> int, d: seq<E>, t: seq<E>, u: seq<E>)
    requires TotalPreorder(cmp, d) && t != [] && u != []
    requires forall x | x in t || x in u :: x in d
    requires Sorted(cmp, t) && Sorted(cmp, u) && t[0] in u && u[0] in t
    requires Class(cmp, t, t[0]) == Class(cmp, u, t[0])
    ensures t[0] == u[0]
  {
    Total(cmp, d, t[0], t[0]);
    LeastFirst(cmp, t);
    LeastFirst(cmp, u);
    assert Class(cmp, t, t[0])[0] == t[0] && Class(cmp, u, t[0])[0] == u[0];
  }

  lemma TailMultiset<E>(t: seq<E>, u: seq<E>)
    requires t != [] && u != [] && t[0] == u[0] && multiset(t) == multiset(u)
    ensures multiset(t[1..]) == multiset(u[1..])
    ensures forall x | x in t[1..] || x in u[1..] :: x in t || x in u
  {
    assert t == [t[0]] + t[1..] && u == [u[0]] + u[1..];
    assert multiset(t[1..]) == multiset(t) - multiset{t[0]} && multiset(u[1..]) == multiset(u) - multiset{u[0]};
  }

  lemma {:induction false} SortedClassesDetermine<E>(cmp: (E, E) -> int, d: seq<E>, t: seq<E>, u: seq<E>)
    requires TotalPreorder(cmp, d)
    requires forall x | x in t || x in u :: x in d
    requires Sorted(cmp, t) && Sorted(cmp, u)
    requires multiset(t) == multiset(u)
    requires forall x | x in d :: Class(cmp, t, x) == Class(cmp, u, x)
    ensures t == u
  {
    hide TotalPreorder;
    assert |t| == |multiset(t)| == |multiset(u)| == |u|;
    if t != [] {
      MultisetMembers(t, u);
      assert t[0] in t && u[0] in u;
      FirstAgree(cmp, d, t, u);
      TailMultiset(t, u);
      forall x | x in d ensures Class(cmp, t[1..], x) == Class(cmp, u[1..], x) {
        Cancel(One(cmp, t[0], x), Class(cmp, t[1..], x), Class(cmp, u[1..], x));
      }
      hide Class;
      LeastFirst(cmp, t);
      LeastFirst(cmp, u);
      SortedClassesDetermine(cmp, d, t[1..], u[1..]);
      assert t == [t[0]] + t[1..] && u == [u[0]] + u[1..];
    }
  }

  lemma Cancel<E>(c: seq<E>, a: seq<E>, b: seq<E>)
    requires c + a == c + b
    ensures a == b
  {
    assert (c + a)[|c|..] == a && (c + b)[|c|..] == b;
  }

  function Pow2(n: nat): (p: nat)
    ensures p > 0
  {
    if n == 0 then 1 else 2 * Pow2(n - 1)
  }

  /** The least m with n <= 2^m. */
  function CeilLog2(n: nat): nat {
    if n <= 1 then 0 else 1 + CeilLog2((n + 1) / 2)
  }

  function Passes(n: nat): nat {
    if CeilLog2(n) == 0 then 1 else CeilLog2(n)
  }

  lemma {:induction false} CeilLog2Unique(n: nat, m: nat)
    requires n <= Pow2(m)
    requires m > 0 ==> Pow2(m - 1) < n
    ensures CeilLog2(n) == m
  {
    if m > 0 && n > 1 {
      if m > 1 {
        assert Pow2(m - 1) == 2 * Pow2(m - 2);
      }
      CeilLog2Unique((n + 1) / 2, m - 1);
    }
  }
}
