/**
 What several modules need: optional values, parts of a sequence, and regrouping concatenations.
 */
module Basics {

  datatype Option<+T> = None | Some(value: T)

  /** s without its first k elements; nothing when it has no more than k. */
  function From<E>(s: seq<E>, k: nat): seq<E> {
    if k < |s| then s[k..] else []
  }

  ghost predicate Distinct<E>(s: seq<E>) {
    forall i, j | 0 <= i < j < |s| :: s[i] != s[j]
  }

  ghost predicate Disjoint<E>(s: seq<E>, u: seq<E>) {
    forall x | x in s :: x !in u
  }

  /** s without its element k; s itself when there is none. */
  function Without<E>(s: seq<E>, k: nat): seq<E> {
    if k < |s| then s[..k] + s[k + 1..] else s
  }

  lemma WithoutAt<E>(s: seq<E>, k: nat) returns (t: seq<E>)
    requires k < |s|
    ensures t == Without(s, k) && |t| == |s| - 1 && (Distinct(s) ==> Distinct(t))
    ensures forall i | 0 <= i < |t| :: t[i] == s[if i < k then i else i + 1]
  {
    t := Without(s, k);
  }

  lemma WithoutCons<E>(s: seq<E>, k: nat)
    requires k < |s|
    ensures Without(s, k) == if k == 0 then s[1..] else [s[0]] + Without(s[1..], k - 1)
  {
  }

  lemma WithoutNone<E>(s: seq<E>)
    ensures Without(s, |s|) == s
  {
  }

  lemma Assoc<E>(a: seq<E>, b: seq<E>, c: seq<E>)
    ensures a + (b + c) == (a + b) + c
  {
  }

  lemma Regroup<E>(out: seq<E>, e: E, rest: seq<E>)
    ensures out + ([e] + rest) == (out + [e]) + rest
  {
  }
}
