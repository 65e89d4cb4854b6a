/**
 The intrusive lists of utlist.h.  LL_SORT, DL_SORT and CDL_SORT are one bottom-up merge sort
 that differs in how links are closed; Shape selects the macro.  Each nested loop of the macro
 is a method of its own.  The DL_* macros on a list head are the methods of DoublyLinked.
 */
module Utlist {
  import opened Basics
  import opened StableSort

  class Node<T> {
    const elt: T
    var next: Node?<T>
    var prev: Node?<T>

    constructor (elt: T)
      ensures this.elt == elt && next == null && prev == null
    {
      this.elt := elt;
      next, prev := null, null;
    }
  }

  /** The list kinds of the LL_, DL_ and CDL_ macros. */
  datatype Shape = Singly | Doubly | Circular

  ghost function At<T>(s: seq<Node<T>>, i: nat, end: Node?<T>): Node?<T> {
    if i < |s| then s[i] else end
  }

  /** From index from on, each node's next is its successor in s; the last one's is end. */
  ghost predicate Linked<T>(s: seq<Node<T>>, from: nat, end: Node?<T>)
    reads s
  {
    forall i | from <= i < |s| :: s[i].next == At(s, i + 1, end)
  }

  /** prev inverts next, and the head's prev is the tail. */
  ghost predicate BackLinked<T>(s: seq<Node<T>>)
    reads s
  {
    && (s != [] ==> s[0].prev == s[|s| - 1])
    && forall i | 0 < i < |s| :: s[i].prev == s[i - 1]
  }

  ghost function End<T>(shape: Shape, head: Node?<T>): Node?<T> {
    if shape == Circular then head else null
  }

  /** head is a well-formed list of the given shape holding exactly the nodes s, in order. */
  ghost predicate IsList<T>(shape: Shape, head: Node?<T>, s: seq<Node<T>>)
    reads s
  {
    && Distinct(s)
    && head == At(s, 0, null)
    && Linked(s, 0, End(shape, head))
    && (shape != Singly ==> BackLinked(s))
  }

  // ---------------------------------------------------------------- the sorts

  /** The output of a pass so far: out is linked from list to tail, and tail's next is not yet set. */
  ghost predicate Built<T>(shape: Shape, list: Node?<T>, tail: Node?<T>, out: seq<Node<T>>)
    reads out
  {
    && Distinct(out)
    && list == At(out, 0, null)
    && tail == (if out == [] then null else out[|out| - 1])
    && (forall i | 0 <= i < |out| - 1 :: out[i].next == out[i + 1])
    && (shape != Singly && out != [] ==> out[0].prev == null)
    && (shape != Singly ==> forall i | 0 < i < |out| :: out[i].prev == out[i - 1])
  }

  /** Appends e to the output of the pass. */
  method Emit<T>(shape: Shape, list: Node?<T>, tail: Node?<T>, e: Node<T>, ghost out: seq<Node<T>>)
    returns (list': Node?<T>)
    requires Built(shape, list, tail, out) && e !in out
    modifies (if tail == null then {} else {tail})`next, e`prev
    ensures Built(shape, list', e, out + [e])
  {
    list' := list;
    if tail != null {
      tail.next := e;
    } else {
      list' := e;
    }
    if shape != Singly {
      e.prev := tail;
    }
    assert forall i | 0 <= i < |out| :: (out + [e])[i] == out[i] != e;
  }

  /** The successor of x, where the circular sort reads the old head as the end of the list. */
  function NextOf<T>(shape: Shape, x: Node<T>, oldhead: Node<T>): Node?<T>
    reads x
  {
    if shape == Circular && x.next == oldhead then null else x.next
  }

  /** Steps q over at most insize nodes, counting them. */
  method Advance<T>(shape: Shape, p: Node<T>, oldhead: Node<T>, insize: nat, ghost s: seq<Node<T>>, ghost st: nat)
    returns (q: Node?<T>, psize: nat)
    requires insize > 0 && st < |s| && Distinct(s) && oldhead == s[0] && p == s[st]
    requires Linked(s, st, End(shape, oldhead))
    ensures psize == Min(insize, |s| - st) && q == At(s, st + psize, null)
  {
    q, psize := p, 0;
    var i := 0;
    while i < insize
      invariant i == psize <= insize
      invariant st + psize < |s| ==> q == s[st + psize]
      invariant st + psize >= |s| ==> i == insize && st + psize == |s| && q == null
    {
      psize := psize + 1;
      q := NextOf(shape, q, oldhead);
      if q == null {
        break;
      }
      i := i + 1;
    }
  }

  /** The two runs being merged: what is left of the first is s[pi..mid], of the second s[qi..end]. */
  datatype Pair<T> = Pair(s: seq<Node<T>>, pi: nat, mid: nat, qi: nat, end: nat) {
    ghost predicate Valid() {
      pi <= mid <= qi <= end <= |s| && s != [] && Distinct(s)
    }

    ghost predicate Done() {
      pi == mid && qi == end
    }

    /** s[j] has not been moved to the output. */
    ghost predicate Waiting(j: nat) {
      pi <= j < mid || qi <= j < |s|
    }

    ghost function Merged(cmp: (Node<T>, Node<T>) -> int): seq<Node<T>>
      requires Valid()
    {
      Merge(cmp, s[pi..mid], s[qi..end])
    }

    /** The comparisons still to be made. */
    ghost function Cost(cmp: (Node<T>, Node<T>) -> int): nat
      requires Valid()
    {
      MergeCost(cmp, s[pi..mid], s[qi..end])
    }

    /** r' is what is left when e has been taken off one of the runs. */
    ghost predicate Taken(e: Node<T>, r': Pair<T>)
      requires Valid()
    {
      (pi < mid && e == s[pi] && r' == this.(pi := pi + 1)) || (qi < end && e == s[qi] && r' == this.(qi := qi + 1))
    }

    /** That node is the next of the merge, and was found with that many comparisons. */
    ghost predicate Next(cmp: (Node<T>, Node<T>) -> int, e: Node<T>, r': Pair<T>, compared: nat)
      requires Valid()
    {
      && Taken(e, r')
      && Merged(cmp) == [e] + r'.Merged(cmp)
      && Cost(cmp) == compared + r'.Cost(cmp)
    }
  }

  /** The macro's variables _ls_p, _ls_psize, _ls_q and _ls_qsize. */
  datatype Cursors<T> = Cursors(p: Node?<T>, psize: nat, q: Node?<T>, qsize: nat) {
    ghost predicate PointInto(r: Pair<T>, insize: nat)
      requires r.Valid()
    {
      && psize == r.mid - r.pi && qsize == insize - (r.qi - r.mid)
      && r.end == Min(r.mid + insize, |r.s|)
      && (r.pi < r.mid ==> p == r.s[r.pi])
      && q == if r.qi < |r.s| then r.s[r.qi] else null
    }
  }

  /** The links of every node still waiting are those the pass started with. */
  ghost predicate Unread<T>(shape: Shape, r: Pair<T>)
    requires r.Valid()
    reads r.s
  {
    forall j: nat | j < |r.s| && r.Waiting(j) :: r.s[j].next == At(r.s, j + 1, End(shape, r.s[0]))
  }

  ghost predicate Apart<T>(out: seq<Node<T>>, r: Pair<T>)
    requires r.Valid()
  {
    && (forall x | x in out :: x in r.s)
    && forall i, j: nat | 0 <= i < |out| && j < |r.s| && r.Waiting(j) :: out[i] != r.s[j]
  }

  lemma TakeLeft<T>(cmp: (Node<T>, Node<T>) -> int, r: Pair<T>)
    requires r.Valid() && r.pi < r.mid
    requires r.qi == r.end || Leq(cmp, r.s[r.pi], r.s[r.qi])
    ensures r.Next(cmp, r.s[r.pi], r.(pi := r.pi + 1), if r.qi < r.end then 1 else 0)
  {
    assert r.s[r.pi..r.mid] == [r.s[r.pi]] + r.s[r.pi + 1..r.mid];
  }

  lemma TakeRight<T>(cmp: (Node<T>, Node<T>) -> int, r: Pair<T>)
    requires r.Valid() && r.qi < r.end
    requires r.pi == r.mid || !Leq(cmp, r.s[r.pi], r.s[r.qi])
    ensures r.Next(cmp, r.s[r.qi], r.(qi := r.qi + 1), if r.pi < r.mid then 1 else 0)
  {
    assert r.s[r.qi..r.end] == [r.s[r.qi]] + r.s[r.qi + 1..r.end];
  }

  /** e = p; p = p->next; psize-- */
  method TakeP<T>(shape: Shape, oldhead: Node<T>, insize: nat, c: Cursors<T>, ghost r: Pair<T>)
    returns (e: Node<T>, c': Cursors<T>, ghost r': Pair<T>)
    requires r.Valid() && oldhead == r.s[0] && r.pi < r.mid
    requires c.PointInto(r, insize) && Unread(shape, r)
    ensures e == r.s[r.pi] && r' == r.(pi := r.pi + 1) && c'.PointInto(r', insize)
  {
    assert r.Waiting(r.pi);
    e, r' := c.p, r.(pi := r.pi + 1);
    c' := c.(p := NextOf(shape, e, oldhead), psize := c.psize - 1);
  }

  /** e = q; q = q->next; qsize-- */
  method TakeQ<T>(shape: Shape, oldhead: Node<T>, insize: nat, c: Cursors<T>, ghost r: Pair<T>)
    returns (e: Node<T>, c': Cursors<T>, ghost r': Pair<T>)
    requires r.Valid() && oldhead == r.s[0] && r.qi < r.end
    requires c.PointInto(r, insize) && Unread(shape, r)
    ensures e == r.s[r.qi] && r' == r.(qi := r.qi + 1) && c'.PointInto(r', insize)
  {
    assert r.Waiting(r.qi);
    e, r' := c.q, r.(qi := r.qi + 1);
    c' := c.(q := NextOf(shape, e, oldhead), qsize := c.qsize - 1);
  }

  /** Picks the next node of the merge and steps past it. */
  method Choose<T>(shape: Shape, cmp: (Node<T>, Node<T>) -> int, oldhead: Node<T>, insize: nat, c: Cursors<T>,
                   ghost r: Pair<T>)
    returns (e: Node<T>, c': Cursors<T>, ghost r': Pair<T>, ghost compared: nat)
    requires r.Valid() && oldhead == r.s[0] && !r.Done()
    requires c.PointInto(r, insize) && Unread(shape, r)
    ensures r.Next(cmp, e, r', compared) && c'.PointInto(r', insize)
  {
    hide Pair.Merged, Pair.Cost;
    compared := 0;
    if c.psize == 0 {
      TakeRight(cmp, r);
      e, c', r' := TakeQ(shape, oldhead, insize, c, r);
    } else if c.qsize == 0 || c.q == null {
      TakeLeft(cmp, r);
      e, c', r' := TakeP(shape, oldhead, insize, c, r);
    } else {
      compared := 1;
      if cmp(c.p, c.q) <= 0 {
        TakeLeft(cmp, r);
        e, c', r' := TakeP(shape, oldhead, insize, c, r);
      } else {
        TakeRight(cmp, r);
        e, c', r' := TakeQ(shape, oldhead, insize, c, r);
      }
    }
  }

  /** One iteration of the merge loop: the chosen node is linked onto the output. */
  method MergeStep<T>(shape: Shape, cmp: (Node<T>, Node<T>) -> int, oldhead: Node<T>, insize: nat, c: Cursors<T>,
                      list: Node?<T>, tail: Node?<T>, ghost r: Pair<T>, ghost out: seq<Node<T>>,
                      ghost dom: set<Node<T>>)
    returns (c': Cursors<T>, list': Node?<T>, tail': Node<T>, ghost r': Pair<T>, ghost out': seq<Node<T>>,
             ghost compared: nat)
    requires r.Valid() && oldhead == r.s[0] && !r.Done() && (forall x | x in r.s :: x in dom)
    requires c.PointInto(r, insize) && Unread(shape, r) && Built(shape, list, tail, out) && Apart(out, r)
    modifies dom
    ensures r' == r.(pi := r.pi + 1) || r' == r.(qi := r.qi + 1)
    ensures r'.Valid() && c'.PointInto(r', insize) && Unread(shape, r')
    ensures Built(shape, list', tail', out') && Apart(out', r')
    ensures out' + r'.Merged(cmp) == out + r.Merged(cmp) && compared + r'.Cost(cmp) == r.Cost(cmp)
  {
    hide Pair.Merged, Pair.Cost, Cursors.PointInto, Built, Apart, Unread, Distinct;
    var e;
    e, c', r', compared := Choose(shape, cmp, oldhead, insize, c, r);
    Regroup(out, e, r'.Merged(cmp));
    list' := Place(shape, list, tail, e, r, r', out, dom);
    tail', out' := e, out + [e];
  }

  /** Emit during a merge: the links of the nodes still waiting stay as they are. */
  method Place<T>(shape: Shape, list: Node?<T>, tail: Node?<T>, e: Node<T>, ghost r: Pair<T>, ghost r': Pair<T>,
                  ghost out: seq<Node<T>>, ghost dom: set<Node<T>>)
    returns (list': Node?<T>)
    requires r.Valid() && r.Taken(e, r') && forall x | x in r.s :: x in dom
    requires Unread(shape, r) && Built(shape, list, tail, out) && Apart(out, r)
    modifies dom
    ensures Unread(shape, r') && Built(shape, list', e, out + [e]) && Apart(out + [e], r')
  {
    hide Built, Apart, Distinct;
    Moved(shape, list, tail, out, r, r', e);
    list' := Emit(shape, list, tail, e, out);
  }

  lemma Moved<T>(shape: Shape, list: Node?<T>, tail: Node?<T>, out: seq<Node<T>>, r: Pair<T>, r': Pair<T>, e: Node<T>)
    requires r.Valid() && Built(shape, list, tail, out) && Apart(out, r)
    requires r.Taken(e, r')
    ensures e !in out && Apart(out + [e], r')
    ensures e in r.s && (tail != null ==> tail in r.s)
    ensures forall j: nat | j < |r.s| && r'.Waiting(j) :: r.Waiting(j) && r.s[j] != tail
  {
    assert r.Waiting(if r'.pi > r.pi then r.pi else r.qi);
    if tail != null {
      assert tail == out[|out| - 1];
    }
  }

  /** Merges the run of psize nodes at p with the run of at most insize nodes at q onto the output. */
  method MergeRuns<T>(shape: Shape, cmp: (Node<T>, Node<T>) -> int, oldhead: Node<T>, insize: nat,
                      p: Node<T>, psize: nat, q0: Node?<T>, list0: Node?<T>, tail0: Node?<T>,
                      ghost r0: Pair<T>, ghost out0: seq<Node<T>>, ghost dom: set<Node<T>>)
    returns (list: Node?<T>, tail: Node?<T>, q: Node?<T>, ghost r: Pair<T>, ghost out: seq<Node<T>>,
             ghost comparisons: nat)
    requires r0.Valid() && oldhead == r0.s[0] && r0.qi == r0.mid && r0.pi < r0.mid && (forall x | x in r0.s :: x in dom)
    requires Cursors(p, psize, q0, insize).PointInto(r0, insize)
    requires Unread(shape, r0) && Built(shape, list0, tail0, out0) && Apart(out0, r0)
    modifies dom
    ensures r == r0.(pi := r0.mid, qi := r0.end)
    ensures q == At(r.s, r.end, null)
    ensures Unread(shape, r) && Built(shape, list, tail, out) && Apart(out, r)
    ensures out == out0 + r0.Merged(cmp)
    ensures comparisons == r0.Cost(cmp)
  {
    hide Pair.Merged, Pair.Cost, Unread, Built, Apart;
    var c := Cursors(p, psize, q0, insize);
    list, tail, r, out, comparisons := list0, tail0, r0, out0, 0;
    while c.psize > 0 || (c.qsize > 0 && c.q != null)
      invariant r.Valid() && r.s == r0.s && r.mid == r0.mid && r.end == r0.end && r0.pi <= r.pi
      invariant c.PointInto(r, insize) && Unread(shape, r) && Built(shape, list, tail, out) && Apart(out, r)
      invariant out + r.Merged(cmp) == out0 + r0.Merged(cmp)
      invariant comparisons + r.Cost(cmp) == r0.Cost(cmp)
      decreases (r.mid - r.pi) + (r.end - r.qi)
    {
      ghost var compared: nat;
      c, list, tail, r, out, compared := MergeStep(shape, cmp, oldhead, insize, c, list, tail, r, out, dom);
      comparisons := comparisons + compared;
    }
    q := c.q;
    MergedDone(cmp, r);
  }

  lemma MergedDone<T>(cmp: (Node<T>, Node<T>) -> int, r: Pair<T>)
    requires r.Valid() && r.Done()
    ensures r.Merged(cmp) == [] && r.Cost(cmp) == 0
  {
  }

  /** Two views of a pass that leave the same nodes waiting are interchangeable. */
  lemma Reseat<T>(shape: Shape, out: seq<Node<T>>, r: Pair<T>, r': Pair<T>)
    requires r.Valid() && r'.Valid() && r.s == r'.s
    requires forall j: nat :: r.Waiting(j) <==> r'.Waiting(j)
    requires Unread(shape, r) && Apart(out, r)
    ensures Unread(shape, r') && Apart(out, r')
  {
  }

  lemma UnreadLinked<T>(shape: Shape, s: seq<Node<T>>, st: nat)
    requires st <= |s| && s != [] && Distinct(s) && Unread(shape, Pair(s, st, st, st, st))
    ensures Linked(s, st, End(shape, s[0]))
  {
    assert forall j: nat | st <= j < |s| :: Pair(s, st, st, st, st).Waiting(j);
  }

  lemma PairOpen<T>(shape: Shape, insize: nat, p: Node<T>, psize: nat, q: Node?<T>, s: seq<Node<T>>, st: nat,
                    out0: seq<Node<T>>)
    requires insize > 0 && st < |s| && Distinct(s) && p == s[st]
    requires st + psize == Min(st + insize, |s|) && q == At(s, st + psize, null)
    requires Unread(shape, Pair(s, st, st, st, st)) && Apart(out0, Pair(s, st, st, st, st))
    ensures var r0 := Pair(s, st, st + psize, st + psize, Min(st + 2 * insize, |s|));
            r0.Valid() && Cursors(p, psize, q, insize).PointInto(r0, insize) && Unread(shape, r0) && Apart(out0, r0)
  {
    Reseat(shape, out0, Pair(s, st, st, st, st), Pair(s, st, st + psize, st + psize, Min(st + 2 * insize, |s|)));
  }

  /** Finds the two runs at p and merges them onto the output. */
  method MergePair<T>(shape: Shape, cmp: (Node<T>, Node<T>) -> int, oldhead: Node<T>, insize: nat, p: Node<T>,
                      list0: Node?<T>, tail0: Node?<T>, ghost s: seq<Node<T>>, ghost st: nat,
                      ghost out0: seq<Node<T>>, ghost dom: set<Node<T>>)
    returns (list: Node?<T>, tail: Node?<T>, q: Node?<T>, ghost st': nat, ghost out: seq<Node<T>>,
             ghost comparisons: nat)
    requires insize > 0 && st < |s| && Distinct(s) && oldhead == s[0] && p == s[st]
    requires Unread(shape, Pair(s, st, st, st, st)) && Apart(out0, Pair(s, st, st, st, st))
    requires Built(shape, list0, tail0, out0) && forall x | x in s :: x in dom
    modifies dom
    ensures st' == Min(st + 2 * insize, |s|) && q == At(s, st', null)
    ensures Unread(shape, Pair(s, st', st', st', st')) && Apart(out, Pair(s, st', st', st', st'))
    ensures Built(shape, list, tail, out)
    ensures out + MergePass(cmp, s[st'..], insize) == out0 + MergePass(cmp, s[st..], insize)
    ensures comparisons + PassCost(cmp, s[st'..], insize) == PassCost(cmp, s[st..], insize)
  {
    hide MergePass, PassCost, Pair.Merged, Pair.Cost, Cursors.PointInto, Built, Apart, Unread, Distinct;
    var psize;
    UnreadLinked(shape, s, st);
    q, psize := Advance(shape, p, oldhead, insize, s, st);
    st' := Min(st + 2 * insize, |s|);
    ghost var r0, r := Pair(s, st, st + psize, st + psize, st'), Pair(s, st + psize, st + psize, st', st');
    PairOpen(shape, insize, p, psize, q, s, st, out0);
    list, tail, q, r, out, comparisons :=
      MergeRuns(shape, cmp, oldhead, insize, p, psize, q, list0, tail0, r0, out0, dom);
    Reseat(shape, out, r, Pair(s, st', st', st', st'));
    PassStep(cmp, s, st, insize, st + psize, st', out0, out);
  }

  /** One pass of the sort: every pair of neighbouring runs of length insize merged. */
  method Pass<T>(shape: Shape, cmp: (Node<T>, Node<T>) -> int, head: Node<T>, insize: nat,
                 ghost s: seq<Node<T>>, ghost dom: set<Node<T>>)
    returns (list: Node<T>, nmerges: nat, ghost out: seq<Node<T>>, ghost comparisons: nat)
    requires insize > 0 && s != [] && IsList(shape, head, s) && forall x | x in s :: x in dom
    modifies dom
    ensures IsList(shape, list, out) && out == MergePass(cmp, s, insize)
    ensures nmerges <= 1 <==> |s| <= 2 * insize
    ensures comparisons == PassCost(cmp, s, insize)
  {
    hide MergePass, PassCost, Pair.Merged, Pair.Cost, Built, Apart, Unread;
    PassOpen(shape, head, s);
    var p: Node?<T>, oldhead := head, head;
    var tail: Node?<T>;
    var list': Node?<T>;
    list', tail, nmerges, out, comparisons := null, null, 0, [], 0;
    ghost var st: nat := 0;
    while p != null
      invariant st <= |s| && p == At(s, st, null)
      invariant Unread(shape, Pair(s, st, st, st, st)) && Apart(out, Pair(s, st, st, st, st))
      invariant Built(shape, list', tail, out)
      invariant out + MergePass(cmp, s[st..], insize) == MergePass(cmp, s, insize)
      invariant nmerges == 0 <==> st == 0
      invariant nmerges == 1 ==> st == Min(2 * insize, |s|)
      invariant nmerges > 1 ==> st > 2 * insize
      invariant comparisons + PassCost(cmp, s[st..], insize) == PassCost(cmp, s, insize)
      decreases |s| - st
    {
      nmerges := nmerges + 1;
      ghost var compared: nat;
      list', tail, p, st, out, compared := MergePair(shape, cmp, oldhead, insize, p, list', tail, s, st, out, dom);
      comparisons := comparisons + compared;
    }
    PassDone(shape, cmp, insize, s, list', tail, out);
    list := list';
    PassClose(shape, list, tail, out);
  }

  lemma PassOpen<T>(shape: Shape, head: Node<T>, s: seq<Node<T>>)
    requires s != [] && IsList(shape, head, s)
    ensures Unread(shape, Pair(s, 0, 0, 0, 0)) && Apart([], Pair(s, 0, 0, 0, 0)) && Built<T>(shape, null, null, [])
    ensures s[0..] == s
  {
  }

  lemma {:induction false} PassDone<T>(shape: Shape, cmp: (Node<T>, Node<T>) -> int, k: nat, s: seq<Node<T>>,
                    list: Node?<T>, tail: Node?<T>, out: seq<Node<T>>)
    requires k > 0 && s != [] && Distinct(s) && Built(shape, list, tail, out) && Apart(out, Pair(s, |s|, |s|, |s|, |s|))
    requires out + MergePass(cmp, s[|s|..], k) == MergePass(cmp, s, k)
    ensures out == MergePass(cmp, s, k) && out != [] && list in s && tail in s && PassCost(cmp, s[|s|..], k) == 0
  {
    hide MergePass;
    PassEmpty(cmp, k);
    assert out[0] in s && out[|out| - 1] in s;
  }

  lemma {:induction false} PassEmpty<T>(cmp: (Node<T>, Node<T>) -> int, k: nat)
    requires k > 0
    ensures MergePass(cmp, [], k) == []
  {
  }

  lemma {:induction false} PassFrom<T>(cmp: (Node<T>, Node<T>) -> int, s: seq<Node<T>>, st: nat, k: nat)
    requires k > 0 && st < |s|
    requires Distinct(s)
    ensures var mid, end := Min(st + k, |s|), Min(st + 2 * k, |s|);
            MergePass(cmp, s[st..], k) == Pair(s, st, mid, mid, end).Merged(cmp) + MergePass(cmp, s[end..], k)
  {
    hide Merge, Distinct;
    SliceOf(s, st, Min(st + k, |s|), Min(st + 2 * k, |s|));
  }

  lemma {:induction false} CostFrom<T>(cmp: (Node<T>, Node<T>) -> int, s: seq<Node<T>>, st: nat, k: nat)
    requires k > 0 && st < |s|
    requires Distinct(s)
    ensures var mid, end := Min(st + k, |s|), Min(st + 2 * k, |s|);
            PassCost(cmp, s[st..], k) == Pair(s, st, mid, mid, end).Cost(cmp) + PassCost(cmp, s[end..], k)
  {
    hide MergeCost, Distinct;
    SliceOf(s, st, Min(st + k, |s|), Min(st + 2 * k, |s|));
  }

  lemma SliceOf<E>(s: seq<E>, st: nat, mid: nat, end: nat)
    requires st <= mid <= end <= |s|
    ensures s[st..][..mid - st] == s[st..mid] && s[st..][mid - st..end - st] == s[mid..end]
    ensures s[st..][end - st..] == s[end..]
  {
  }

  lemma {:induction false} PassStep<T>(cmp: (Node<T>, Node<T>) -> int, s: seq<Node<T>>, st: nat, k: nat,
                                       mid: nat, end: nat, out0: seq<Node<T>>, out: seq<Node<T>>)
    requires k > 0 && st < |s| && Distinct(s) && mid == Min(st + k, |s|) && end == Min(st + 2 * k, |s|)
    requires out == out0 + Pair(s, st, mid, mid, end).Merged(cmp)
    ensures out + MergePass(cmp, s[end..], k) == out0 + MergePass(cmp, s[st..], k)
    ensures Pair(s, st, mid, mid, end).Cost(cmp) + PassCost(cmp, s[end..], k) == PassCost(cmp, s[st..], k)
  {
    hide MergePass, PassCost, Pair.Merged, Pair.Cost;
    PassFrom(cmp, s, st, k);
    CostFrom(cmp, s, st, k);
    Assoc(out0, Pair(s, st, mid, mid, end).Merged(cmp), MergePass(cmp, s[end..], k));
  }

  /** Closes the links of a finished pass: the head's prev and the tail's next. */
  method PassClose<T>(shape: Shape, list: Node?<T>, tail: Node?<T>, ghost out: seq<Node<T>>)
    requires Built(shape, list, tail, out) && out != []
    modifies list`prev, tail`next
    ensures IsList(shape, list, out)
  {
    if shape != Singly {
      list.prev := tail;
    }
    tail.next := if shape == Circular then list else null;
  }

  /** passes lists how often each pass compared: as often as the merges of that pass do. */
  ghost predicate Counted<E>(cmp: (E, E) -> int, s: seq<E>, t: seq<E>, passes: seq<nat>) {
    && t == AfterPasses(cmp, s, |passes|)
    && forall i | 0 <= i < |passes| :: passes[i] == PassCost(cmp, AfterPasses(cmp, s, i), Pow2(i)) < |s|
  }

  /** The macro body: passes with doubling run length until a pass makes at most one merge. */
  method Sort<T>(shape: Shape, cmp: (Node<T>, Node<T>) -> int, head: Node?<T>, ghost s: seq<Node<T>>)
    returns (list: Node?<T>, ghost t: seq<Node<T>>, ghost passes: seq<nat>)
    requires IsList(shape, head, s) && TotalPreorder(cmp, s)
    modifies s
    ensures IsList(shape, list, t) && StableSortOf(cmp, s, t)
    ensures |passes| == if s == [] then 0 else Passes(|s|)
    ensures Counted(cmp, s, t, passes)
  {
    hide Counted, AfterPasses, PassCost, TotalPreorder, StableRearrangement, StableSortOf, Runs, MergePass;
    hide Passes, IsList, SameNodes;
    list, t, passes := head, s, [];
    SortStart(shape, cmp, head, s);
    if list == null {
      SortEnd(cmp, s, t, 1);
    } else {
      ghost var dom := set x | x in s;
      var insize: nat, looping := 1, true;
      while looping
        invariant |t| == |s| && list != null && IsList(shape, list, t) && StableRearrangement(cmp, s, t)
        invariant insize == Pow2(|passes|) && Runs(cmp, t, insize)
        invariant SameNodes(s, t)
        invariant |passes| > 1 ==> Pow2(|passes| - 1) < |s|
        invariant looping ==> passes == [] || insize < |s|
        invariant !looping ==> |passes| > 0 && |s| <= insize
        invariant Counted(cmp, s, t, passes)
        decreases looping, |s| - insize
      {
        PassKeeps(cmp, s, t, insize);
        NextPass(cmp, s, t, passes);
        DomainOf(s, t);
        var nmerges: nat;
        ghost var compared: nat;
        list, nmerges, t, compared := Pass(shape, cmp, list, insize, t, dom);
        passes := passes + [compared];
        if nmerges <= 1 {
          looping := false;
        }
        insize := insize * 2;
      }
      SortEnd(cmp, s, t, insize);
      PassesCount(|s|, |passes|);
    }
  }

  lemma {:induction false} NextPass<E>(cmp: (E, E) -> int, s: seq<E>, t: seq<E>, passes: seq<nat>)
    requires s != [] && Counted(cmp, s, t, passes)
    ensures Counted(cmp, s, MergePass(cmp, t, Pow2(|passes|)), passes + [PassCost(cmp, t, Pow2(|passes|))])
  {
    hide PassCost, MergePass, Pow2;
  }

  ghost predicate SameNodes<T>(s: seq<Node<T>>, t: seq<Node<T>>) {
    forall x | x in t :: x in s
  }

  lemma DomainOf<T>(s: seq<Node<T>>, t: seq<Node<T>>)
    requires SameNodes(s, t)
    ensures forall x | x in t :: x in set y | y in s
  {
  }

  lemma {:induction false} SortStart<T>(shape: Shape, cmp: (Node<T>, Node<T>) -> int, head: Node?<T>, s: seq<Node<T>>)
    requires IsList(shape, head, s)
    ensures head == null <==> s == []
    ensures StableRearrangement(cmp, s, s) && Runs(cmp, s, 1) && SameNodes(s, s) && Counted(cmp, s, s, [])
  {
    UnitRuns(cmp, s);
  }

  lemma {:induction false} SortEnd<T>(cmp: (Node<T>, Node<T>) -> int, s: seq<Node<T>>, t: seq<Node<T>>, k: nat)
    requires k > 0 && |t| <= k && StableRearrangement(cmp, s, t) && Runs(cmp, t, k)
    ensures StableSortOf(cmp, s, t)
  {
    assert t[..|t|] == t;
  }

  lemma PassesCount(n: nat, m: nat)
    requires n > 0 && m > 0 && n <= Pow2(m) && (m > 1 ==> Pow2(m - 1) < n)
    ensures m == Passes(n)
  {
    if m > 1 || n == 2 {
      CeilLog2Unique(n, m);
    }
  }

  lemma {:induction false} PassKeeps<T>(cmp: (Node<T>, Node<T>) -> int, s: seq<Node<T>>, t: seq<Node<T>>, k: nat)
    requires k > 0 && TotalPreorder(cmp, s) && StableRearrangement(cmp, s, t) && Runs(cmp, t, k)
    requires SameNodes(s, t)
    ensures StableRearrangement(cmp, s, MergePass(cmp, t, k))
    ensures Runs(cmp, MergePass(cmp, t, k), 2 * k)
    ensures SameNodes(s, MergePass(cmp, t, k))
  {
    var u := MergePass(cmp, t, k);
    PassRuns(cmp, s, t, k);
    PassMultiset(cmp, t, k);
    forall x | x in s ensures Class(cmp, u, x) == Class(cmp, s, x) {
      PassStable(cmp, s, t, k, x);
    }
    forall x | x in u ensures x in s {
      assert x in multiset(u);
    }
  }
}
