/**
 The DL_* macros of utlist.h.  A macro that assigns its head argument is a method that returns
 the new head; the ghost sequence s says which nodes the head stands for, and every operation
 changes it exactly as the corresponding sequence operation does.
 */
module DoublyLinked {
  import opened Basics
  import opened Utlist

  /** The nodes of s whose element does not satisfy p, in order. */
  ghost function Kept<T>(s: seq<Node<T>>, p: T -> bool): seq<Node<T>> {
    if s == [] then [] else (if p(s[0].elt) then [] else [s[0]]) + Kept(s[1..], p)
  }

  ghost predicate Within<E>(s: seq<E>, dom: set<E>) {
    forall x | x in s :: x in dom
  }

  lemma ConcatAt<E>(s: seq<E>, u: seq<E>) returns (t: seq<E>)
    requires Distinct(s) && Distinct(u) && Disjoint(s, u)
    ensures t == s + u && Distinct(t) && |t| == |s| + |u|
    ensures forall i | 0 <= i < |t| :: t[i] == if i < |s| then s[i] else u[i - |s|]
  {
    t := s + u;
    forall i, j | 0 <= i < |s| && 0 <= j < |u| ensures s[i] != u[j] {
      assert s[i] in s && u[j] in u;
    }
  }

  /** y is nowhere in s. */
  lemma Nowhere<E>(s: seq<E>, y: E)
    requires y !in s
    ensures forall i | 0 <= i < |s| :: s[i] != y
  {
  }

  /** Disjoint sequences do not hold each other's end elements. */
  lemma Strangers<E>(s: seq<E>, u: seq<E>)
    requires s != [] && u != [] && Disjoint(s, u)
    ensures forall i | 0 <= i < |s| :: s[i] != u[0]
    ensures forall j | 0 <= j < |u| :: u[j] != s[0] && u[j] != s[|s| - 1]
  {
    assert u[0] in u && s[0] in s && s[|s| - 1] in s;
    Nowhere(s, u[0]);
    Nowhere(u, s[0]);
    Nowhere(u, s[|s| - 1]);
  }

  /** No other position holds s[m]. */
  lemma Only<E>(s: seq<E>, m: nat)
    requires m < |s| && Distinct(s)
    ensures forall i | 0 <= i < |s| && i != m :: s[i] != s[m]
  {
  }

  /** What a node's own links and the head's prev are, by position. */
  lemma Neighbours<T>(s: seq<Node<T>>, k: nat)
    requires Distinct(s) && Linked(s, 0, null) && BackLinked(s) && k < |s|
    ensures s[k].prev == (if k > 0 then s[k - 1] else s[|s| - 1]) && s[k].next == At(s, k + 1, null)
    ensures s[k].prev == s[k] <==> |s| == 1
    ensures s[k] == s[0] <==> k == 0
    ensures s[k] in s && s[k].prev in s && (k + 1 < |s| ==> s[k + 1] in s)
  {
  }

  /** The links a concatenation must leave make a list of both sequences. */
  lemma Joined<T>(s: seq<Node<T>>, u: seq<Node<T>>, t: seq<Node<T>>)
    requires s != [] && u != [] && |t| == |s| + |u| && Distinct(t)
    requires forall i | 0 <= i < |t| :: t[i] == if i < |s| then s[i] else u[i - |s|]
    requires Linked(s, 0, u[0]) && Linked(u, 0, null)
    requires (forall i | 0 < i < |s| :: s[i].prev == s[i - 1]) && forall j | 0 < j < |u| :: u[j].prev == u[j - 1]
    requires s[0].prev == u[|u| - 1] && u[0].prev == s[|s| - 1]
    ensures IsList(Doubly, s[0], t)
  {
    hide Distinct;
    forall i | 0 <= i < |t| ensures t[i].next == At(t, i + 1, null) {
      if i < |s| {
        assert s[i].next == At(s, i + 1, u[0]);
      } else {
        var j := i - |s|;
        assert t[i] == u[j] && u[j].next == At(u, j + 1, null);
      }
    }
    forall i | 0 < i < |t| ensures t[i].prev == t[i - 1] {
      if i > |s| {
        var j := i - |s|;
        assert t[i] == u[j] && u[j].prev == u[j - 1] && t[i - 1] == u[j - 1];
      }
    }
  }

  /** The assignments of DL_CONCAT when both lists are non-empty. */
  method Splice<T>(head1: Node<T>, head2: Node<T>)
    requires head1.prev != null && head1 != head2
    modifies head2`prev, head1.prev`next, head1`prev
    ensures head2.prev == old(head1.prev) && old(head1.prev).next == head2 && head1.prev == old(head2.prev)
  {
    var tmp := head2.prev;
    head2.prev := head1.prev;
    head1.prev.next := head2;
    head1.prev := tmp;
  }

  /** The node whose prev DL_DELETE rewrites: the successor, or the head when del is the tail. */
  ghost function Follower<T>(head: Node<T>, del: Node<T>): Node<T>
    reads del
  {
    if del.next != null then del.next else head
  }

  /** The branch of DL_DELETE for a node that is not the head. */
  method Unlink<T>(head: Node<T>, del: Node<T>)
    requires del.prev != null && del.prev != del && Follower(head, del) != del
    modifies del.prev`next, Follower(head, del)`prev
    ensures del.prev.next == del.next && old(Follower(head, del)).prev == del.prev
    ensures del.next == old(del.next) && del.prev == old(del.prev)
  {
    del.prev.next := del.next;
    if del.next != null {
      del.next.prev := del.prev;
    } else {
      head.prev := del.prev;
    }
  }

  /** DL_PREPEND(head, add) */
  method Prepend<T>(head: Node?<T>, add: Node<T>, ghost s: seq<Node<T>>) returns (head': Node<T>)
    requires IsList(Doubly, head, s) && add !in s
    modifies s, add
    ensures IsList(Doubly, head', [add] + s)
  {
    hide Distinct;
    ghost var t := ConcatAt([add], s);
    Nowhere(s, add);
    add.next := head;
    if head != null {
      Only(s, 0);
      add.prev := head.prev;
      head.prev := add;
    } else {
      add.prev := add;
    }
    head' := add;
    assert forall i | 0 <= i < |s| :: s[i].next == At(s, i + 1, null);
    assert forall i | 0 < i < |s| :: s[i].prev == s[i - 1];
    Prepended(add, s, t);
  }

  lemma Prepended<T>(add: Node<T>, s: seq<Node<T>>, t: seq<Node<T>>)
    requires Distinct(t) && |t| == 1 + |s| && forall i | 0 <= i < |t| :: t[i] == if i < 1 then [add][i] else s[i - 1]
    requires add.next == At(s, 0, null) && add.prev == (if s == [] then add else s[|s| - 1])
    requires forall i | 0 <= i < |s| :: s[i].next == At(s, i + 1, null)
    requires (s != [] ==> s[0].prev == add) && forall i | 0 < i < |s| :: s[i].prev == s[i - 1]
    ensures IsList(Doubly, add, t)
  {
    hide Distinct;
    assert t[0] == [add][0] == add;
    forall i | 0 < i < |t| ensures t[i].next == At(t, i + 1, null) && t[i].prev == t[i - 1] {
      var j := i - 1;
      assert t[i] == s[j] && s[j].next == At(s, j + 1, null);
      assert j > 0 ==> t[j] == s[j - 1] && s[j].prev == s[j - 1];
    }
  }

  /** DL_APPEND(head, add) */
  method Append<T>(head: Node?<T>, add: Node<T>, ghost s: seq<Node<T>>) returns (head': Node<T>)
    requires IsList(Doubly, head, s) && add !in s
    modifies s, add
    ensures IsList(Doubly, head', s + [add])
  {
    hide Distinct;
    ghost var t := ConcatAt(s, [add]);
    if head != null {
      Neighbours(s, 0);
      Only(s, 0);
      Only(s, |s| - 1);
      Nowhere(s, add);
      add.prev := head.prev;
      head.prev.next := add;
      head.prev := add;
      add.next := null;
      head' := head;
    } else {
      head' := add;
      head'.prev := head';
      head'.next := null;
    }
  }

  /** DL_CONCAT(head1, head2): head2 itself is left where it is, inside the joined list. */
  method Concat<T>(head1: Node?<T>, head2: Node?<T>, ghost s: seq<Node<T>>, ghost u: seq<Node<T>>)
    returns (head: Node?<T>)
    requires IsList(Doubly, head1, s) && IsList(Doubly, head2, u)
    requires Disjoint(s, u)
    modifies s, u
    ensures IsList(Doubly, head, s + u)
  {
    ghost var t := ConcatAt(s, u);
    head := head1;
    if head2 != null {
      if head1 != null {
        SpliceLists(head1, head2, s, u);
        Joined(s, u, t);
      } else {
        assert s + u == u;
        head := head2;
      }
    } else {
      assert s + u == s;
    }
  }

  method SpliceLists<T>(head1: Node<T>, head2: Node<T>, ghost s: seq<Node<T>>, ghost u: seq<Node<T>>)
    requires s != [] && u != [] && IsList(Doubly, head1, s) && IsList(Doubly, head2, u)
    requires Disjoint(s, u)
    modifies s, u
    ensures Linked(s, 0, u[0]) && Linked(u, 0, null)
    ensures (forall i | 0 < i < |s| :: s[i].prev == s[i - 1]) && forall j | 0 < j < |u| :: u[j].prev == u[j - 1]
    ensures s[0].prev == u[|u| - 1] && u[0].prev == s[|s| - 1]
  {
    hide Distinct, Disjoint;
    Neighbours(s, 0);
    Neighbours(s, |s| - 1);
    Neighbours(u, 0);
    Only(s, 0);
    Only(s, |s| - 1);
    Only(u, 0);
    Strangers(s, u);
    Splice(head1, head2);
    forall i | 0 <= i < |s| - 1 ensures s[i].next == s[i + 1] {
      assert s[i] != s[|s| - 1] && s[i].next == old(s[i].next);
    }
    forall j | 0 <= j < |u| ensures u[j].next == At(u, j + 1, null) {
      assert u[j] != s[|s| - 1] && u[j].next == old(u[j].next);
    }
    forall i | 0 < i < |s| ensures s[i].prev == s[i - 1] {
      assert s[i] != s[0] && s[i] != u[0] && s[i].prev == old(s[i].prev);
    }
    forall j | 0 < j < |u| ensures u[j].prev == u[j - 1] {
      assert u[j] != u[0] && u[j] != s[0] && u[j].prev == old(u[j].prev);
    }
  }

  ghost function Nth<T>(s: seq<Node<T>>, k: nat): Node<T>
    requires k < |s|
  {
    s[k]
  }

  /** The branch of DL_DELETE for the head of a longer list. */
  method DeleteFirst<T>(head: Node<T>, ghost s: seq<Node<T>>, ghost t: seq<Node<T>>) returns (head': Node<T>)
    requires |s| > 1 && IsList(Doubly, head, s) && Distinct(t)
    requires |t| == |s| - 1 && forall i | 0 <= i < |t| :: t[i] == s[i + 1]
    modifies Nth(s, 1)`prev
    ensures IsList(Doubly, head', t)
    ensures head.next == old(head.next) && head.prev == old(head.prev)
  {
    hide Distinct;
    Neighbours(s, 0);
    Only(s, 1);
    head.next.prev := head.prev;
    head' := head.next;
    forall i | 0 <= i < |t| ensures t[i].next == At(t, i + 1, null) {
      assert t[i] == s[i + 1];
    }
    forall i | 0 < i < |t| ensures t[i].prev == t[i - 1] {
      assert t[i] == s[i + 1] && t[i - 1] == s[i] && s[i + 1].prev == old(s[i + 1].prev);
    }
  }

  /** The branch of DL_DELETE for a node that is not the head, by position. */
  method DeleteLater<T>(head: Node<T>, del: Node<T>, ghost s: seq<Node<T>>, ghost k: nat)
    requires 0 < k < |s| && s[k] == del && IsList(Doubly, head, s)
    modifies Nth(s, k - 1)`next, Nth(s, if k + 1 < |s| then k + 1 else 0)`prev
    ensures forall i | 0 <= i < |s| && i != k && i != k - 1 :: s[i].next == At(s, i + 1, null)
    ensures forall i | 0 < i < |s| && i != k && i != k + 1 :: s[i].prev == s[i - 1]
    ensures s[k - 1].next == At(s, k + 1, null) && (k + 1 < |s| ==> s[k + 1].prev == s[k - 1])
    ensures s[0].prev == s[if k + 1 < |s| then |s| - 1 else k - 1]
    ensures del.next == old(del.next) && del.prev == old(del.prev)
  {
    hide Distinct;
    Neighbours(s, k);
    Only(s, k - 1);
    Only(s, if k + 1 < |s| then k + 1 else 0);
    assert Follower(head, del) == s[if k + 1 < |s| then k + 1 else 0];
    Unlink(head, del);
  }

  /** The links DeleteLater leaves make a list of what remains. */
  lemma Deleted<T>(s: seq<Node<T>>, k: nat, t: seq<Node<T>>)
    requires 0 < k < |s| && |t| == |s| - 1 && Distinct(t)
    requires forall i | 0 <= i < |t| :: t[i] == s[if i < k then i else i + 1]
    requires forall i | 0 <= i < |s| && i != k && i != k - 1 :: s[i].next == At(s, i + 1, null)
    requires forall i | 0 < i < |s| && i != k && i != k + 1 :: s[i].prev == s[i - 1]
    requires s[k - 1].next == At(s, k + 1, null) && (k + 1 < |s| ==> s[k + 1].prev == s[k - 1])
    requires s[0].prev == s[if k + 1 < |s| then |s| - 1 else k - 1]
    ensures IsList(Doubly, s[0], t)
  {
    hide Distinct;
    forall i | 0 <= i < |t| ensures t[i].next == At(t, i + 1, null) {
      var j := if i < k then i else i + 1;
      assert t[i] == s[j];
    }
    forall i | 0 < i < |t| ensures t[i].prev == t[i - 1] {
      var j := if i < k then i else i + 1;
      assert t[i] == s[j];
    }
  }

  /** DL_DELETE(head, del): del itself keeps its links, which DL_FOREACH_SAFE relies on. */
  method Delete<T>(head: Node<T>, del: Node<T>, ghost s: seq<Node<T>>, ghost k: nat, ghost dom: set<Node<T>>)
    returns (head': Node?<T>)
    requires IsList(Doubly, head, s) && k < |s| && s[k] == del && Within(s, dom)
    modifies dom
    ensures IsList(Doubly, head', Without(s, k))
    ensures del.next == old(del.next) && del.prev == old(del.prev)
  {
    hide Distinct, Without;
    ghost var t := WithoutAt(s, k);
    Neighbours(s, k);
    head' := head;
    if del.prev == del {
      head' := null;
    } else if del == head {
      assert s[1] in s;
      head' := DeleteFirst(head, s, t);
    } else {
      assert s[k - 1] in s && s[if k + 1 < |s| then k + 1 else 0] in s;
      DeleteLater(head, del, s, k);
      Deleted(s, k, t);
    }
  }

  /** DL_DELETE(head, head): the macro re-reads head wherever it names del. */
  method DeleteHead<T>(head: Node<T>, ghost s: seq<Node<T>>) returns (head': Node?<T>)
    requires IsList(Doubly, head, s)
    modifies s
    ensures IsList(Doubly, head', s[1..])
  {
    Neighbours(s, 0);
    head' := head;
    if head'.prev == head' {
      head' := null;
    } else if head' == head {
      head'.next.prev := head'.prev;
      head' := head'.next;
    }
  }

  /** DL_FOREACH with a test and a break: the first node whose element satisfies p. */
  method Search<T>(head: Node?<T>, p: T -> bool, ghost s: seq<Node<T>>) returns (found: Node?<T>, ghost k: nat)
    requires IsList(Doubly, head, s)
    ensures found == null <==> forall x | x in s :: !p(x.elt)
    ensures found != null ==> found in s && p(found.elt)
    ensures k <= |s| && found == At(s, k, null) && forall i | 0 <= i < k :: !p(s[i].elt)
  {
    found, k := head, 0;
    while found != null && !p(found.elt)
      invariant k <= |s| && found == At(s, k, null)
      invariant forall i | 0 <= i < k :: !p(s[i].elt)
      decreases |s| - k
    {
      found, k := found.next, k + 1;
    }
  }

  /** One step of DL_FOREACH_SAFE whose body may delete the current node. */
  method SafeStep<T>(head: Node<T>, el: Node<T>, p: T -> bool, ghost kept: seq<Node<T>>, ghost rest: seq<Node<T>>,
                     ghost dom: set<Node<T>>)
    returns (head': Node?<T>, tmp: Node?<T>, ghost kept': seq<Node<T>>)
    requires rest != [] && el == rest[0] && IsList(Doubly, head, kept + rest) && Within(kept + rest, dom)
    modifies dom
    ensures IsList(Doubly, head', kept' + rest[1..]) && Within(kept' + rest[1..], dom)
    ensures kept' + Kept(rest[1..], p) == kept + Kept(rest, p)
    ensures tmp == At(rest, 1, null)
  {
    hide IsList, Without, Within, Kept;
    RestWithin(kept, rest, dom);
    tmp := NextAt(head, el, kept, rest);
    if p(el.elt) {
      kept' := kept;
      head' := Delete(head, el, kept + rest, |kept|, dom);
    } else {
      head', kept' := head, kept + [el];
      assert rest == [el] + rest[1..];
      Regroup(kept, el, rest[1..]);
      Regroup(kept, el, Kept(rest[1..], p));
    }
    KeptStep(rest, p);
  }

  lemma {:induction false} KeptStep<T>(rest: seq<Node<T>>, p: T -> bool)
    requires rest != []
    ensures Kept(rest, p) == if p(rest[0].elt) then Kept(rest[1..], p) else [rest[0]] + Kept(rest[1..], p)
  {
    assert [] + Kept(rest[1..], p) == Kept(rest[1..], p);
  }

  lemma RestWithin<E>(kept: seq<E>, rest: seq<E>, dom: set<E>)
    requires rest != [] && Within(kept + rest, dom)
    ensures Without(kept + rest, |kept|) == kept + rest[1..] && Within(kept + rest[1..], dom)
    ensures (kept + rest)[|kept|] == rest[0]
  {
    var s := kept + rest;
    assert s[..|kept|] == kept && s[|kept| + 1..] == rest[1..];
    forall x | x in kept + rest[1..] ensures x in dom {
      assert x in kept || x in rest;
      assert x in s;
    }
  }

  /** tmp = el->next, taken before the body runs. */
  method NextAt<T>(head: Node<T>, el: Node<T>, ghost kept: seq<Node<T>>, ghost rest: seq<Node<T>>)
    returns (tmp: Node?<T>)
    requires rest != [] && el == rest[0] && IsList(Doubly, head, kept + rest)
    ensures tmp == At(rest, 1, null)
  {
    assert (kept + rest)[|kept|] == el;
    tmp := el.next;
  }

  /** DL_FOREACH_SAFE with DL_DELETE of the current node: each original node is visited once. */
  method DeleteWhere<T>(head: Node?<T>, p: T -> bool, ghost s: seq<Node<T>>, ghost dom: set<Node<T>>)
    returns (head': Node?<T>, ghost visited: seq<Node<T>>)
    requires IsList(Doubly, head, s) && Within(s, dom)
    modifies dom
    ensures IsList(Doubly, head', Kept(s, p)) && visited == s
  {
    hide Kept, Within, IsList;
    head', visited := head, [];
    ghost var kept: seq<Node<T>>, rest := [], s;
    assert kept + rest == s && kept + Kept(rest, p) == Kept(s, p);
    HeadOf(head, s);
    var el := head;
    while el != null
      invariant visited + rest == s && el == At(rest, 0, null)
      invariant IsList(Doubly, head', kept + rest) && Within(kept + rest, dom)
      invariant kept + Kept(rest, p) == Kept(s, p)
      decreases |rest|
    {
      Regroup(visited, el, rest[1..]);
      assert rest == [el] + rest[1..];
      HeadOf(head', kept + rest);
      head', el, kept := SafeStep(head', el, p, kept, rest, dom);
      visited, rest := visited + [rest[0]], rest[1..];
    }
    KeptNone(kept, p);
  }

  lemma HeadOf<T>(head: Node?<T>, s: seq<Node<T>>)
    requires IsList(Doubly, head, s)
    ensures head == At(s, 0, null)
  {
  }

  lemma KeptNone<T>(kept: seq<Node<T>>, p: T -> bool)
    ensures kept + Kept([], p) == kept && kept + [] == kept
  {
  }
}
