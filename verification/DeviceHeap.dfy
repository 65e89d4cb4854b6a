/**
 Devices, services and list elements as hpd_services.c keeps them on the heap.  The heap maps the
 addresses that are allocated to what is stored there, and free takes the address out: a read or a
 write of a cell is a use of the map at its address, so it is an error unless the cell is allocated.
 */
module DeviceHeap {
  import opened Basics
  import Urls

  type Addr = nat

  datatype Ptr = Null | To(addr: Addr)

  datatype Service = Service(stype: string, sid: string, url: string, device: Ptr)

  datatype Element = Element(service: Addr, next: Ptr, prev: Ptr)

  datatype Device = Device(dtype: string, id: string, service_head: Ptr)

  type Services = map<Addr, Service>

  type Elements = map<Addr, Element>

  type Devices = map<Addr, Device>

  /** registered holds the keys of the services the server lists. */
  datatype Heap = Heap(services: Services, elements: Elements, devices: Devices, registered: set<Urls.Key>)

  function KeyOf(d: Device, s: Service): Urls.Key {
    Urls.Key(d.dtype, d.id, s.stype, s.sid)
  }

  predicate SameName(s: Service, t: Service) {
    s.stype == t.stype && s.sid == t.sid
  }

  // ---------------------------------------------------------------- lists on the heap

  ghost function PtrAt(es: seq<Addr>, i: nat): Ptr {
    if i < |es| then To(es[i]) else Null
  }

  ghost function PrevOf(es: seq<Addr>, i: nat): Ptr
    requires i < |es|
  {
    To(es[if i > 0 then i - 1 else |es| - 1])
  }

  /** The list at head: elements es, holding the services ss, linked both ways as DL_APPEND leaves them. */
  ghost predicate IsHeapList(cells: Elements, head: Ptr, es: seq<Addr>, ss: seq<Addr>) {
    && Distinct(es) && |ss| == |es| && head == PtrAt(es, 0)
    && forall i | 0 <= i < |es| :: IsItem(cells, es, ss[i], i)
  }

  ghost predicate IsItem(cells: Elements, es: seq<Addr>, s: Addr, i: nat)
    requires i < |es|
  {
    es[i] in cells && cells[es[i]] == Element(s, PtrAt(es, i + 1), PrevOf(es, i))
  }

  /** Cells other than those of es are allocated and hold what they held. */
  ghost predicate SameElsewhere(cells: Elements, cells': Elements, es: seq<Addr>) {
    forall e | e in cells && e !in es :: e in cells' && cells'[e] == cells[e]
  }

  ghost function Range<E>(s: seq<E>): set<E> {
    set x | x in s
  }

  /** One element's cell and its neighbours, by position. */
  lemma CellAt(cells: Elements, head: Ptr, es: seq<Addr>, ss: seq<Addr>, k: nat)
    requires IsHeapList(cells, head, es, ss) && k < |es|
    ensures es[k] in cells && cells[es[k]] == Element(ss[k], PtrAt(es, k + 1), PrevOf(es, k))
    ensures forall e | e in es :: e in cells
    ensures es[k] in es && PrevOf(es, k).addr in cells && (k + 1 < |es| ==> es[k + 1] in cells)
    ensures PrevOf(es, k) == To(es[k]) <==> |es| == 1
    ensures head == To(es[0]) && es[0] in cells && (head == To(es[k]) <==> k == 0)
  {
    assert IsItem(cells, es, ss[k], k) && IsItem(cells, es, ss[0], 0);
    assert k + 1 < |es| ==> IsItem(cells, es, ss[k + 1], k + 1);
    var p := if k > 0 then k - 1 else |es| - 1;
    assert IsItem(cells, es, ss[p], p) && (es[p] == es[k] ==> p == k);
    forall e | e in es ensures e in cells {
      var i :| 0 <= i < |es| && es[i] == e;
      assert IsItem(cells, es, ss[i], i);
    }
  }

  /** DL_DELETE's assignments for element k of a longer list. */
  ghost function Unlinked(cells: Elements, es: seq<Addr>, k: nat): Elements
    requires k < |es| && forall e | e in es :: e in cells
  {
    var p, f := es[if k > 0 then k - 1 else |es| - 1], es[if k + 1 < |es| then k + 1 else 0];
    var c := if k > 0 then cells[p := cells[p].(next := cells[es[k]].next)] else cells;
    c[f := c[f].(prev := cells[es[k]].prev)]
  }

  lemma UnlinkedCells(cells: Elements, head: Ptr, es: seq<Addr>, ss: seq<Addr>, k: nat)
    requires IsHeapList(cells, head, es, ss) && k < |es| && |es| > 1 && forall e | e in es :: e in cells
    ensures var cells' := Unlinked(cells, es, k);
            cells'.Keys == cells.Keys && SameElsewhere(cells, cells', es) && cells'[es[k]] == cells[es[k]]
  {
  }

  /** What becomes of another element's cell. */
  lemma UnlinkedCell(cells: Elements, head: Ptr, es: seq<Addr>, ss: seq<Addr>, k: nat, j: nat)
    requires IsHeapList(cells, head, es, ss) && k < |es| && j < |es| && j != k && forall e | e in es :: e in cells
    ensures es[j] in es && es[j] != es[k]
    ensures Unlinked(cells, es, k)[es[j]]
            == Element(ss[j], if j + 1 == k then PtrAt(es, k + 1) else PtrAt(es, j + 1),
                       if j == (if k + 1 < |es| then k + 1 else 0) then PrevOf(es, k) else PrevOf(es, j))
  {
    var p, f := if k > 0 then k - 1 else |es| - 1, if k + 1 < |es| then k + 1 else 0;
    assert es[p] in es && es[f] in es && es[j] in es && es[k] in es;
    assert (es[j] == es[p] <==> j == p) && (es[j] == es[f] <==> j == f);
    assert cells[es[k]] == Element(ss[k], PtrAt(es, k + 1), PrevOf(es, k));
    assert cells[es[j]] == Element(ss[j], PtrAt(es, j + 1), PrevOf(es, j));
  }

  /** That is what the list without element k asks of it. */
  lemma WithoutLinks(es: seq<Addr>, t: seq<Addr>, k: nat, i: nat)
    requires k < |es| && |t| == |es| - 1 && i < |t| && forall i | 0 <= i < |t| :: t[i] == es[if i < k then i else i + 1]
    ensures var j := if i < k then i else i + 1;
            && PtrAt(t, i + 1) == (if j + 1 == k then PtrAt(es, k + 1) else PtrAt(es, j + 1))
            && PrevOf(t, i) == if j == (if k + 1 < |es| then k + 1 else 0) then PrevOf(es, k) else PrevOf(es, j)
  {
  }

  lemma UnlinkedItem(cells: Elements, head: Ptr, es: seq<Addr>, ss: seq<Addr>, k: nat, t: seq<Addr>, i: nat)
    requires IsHeapList(cells, head, es, ss) && k < |es| && forall e | e in es :: e in cells
    requires |t| == |es| - 1 && i < |t| && forall i | 0 <= i < |t| :: t[i] == es[if i < k then i else i + 1]
    ensures t[i] != es[k] && |ss| == |es| && IsItem(Unlinked(cells, es, k), t, ss[if i < k then i else i + 1], i)
  {
    assert |ss| == |es|;
    hide IsHeapList, Unlinked, PtrAt, PrevOf;
    UnlinkedCell(cells, head, es, ss, k, if i < k then i else i + 1);
    WithoutLinks(es, t, k, i);
  }

  /** What DL_DELETE leaves is the list without the deleted element. */
  lemma UnlinkedIsList(cells: Elements, head: Ptr, es: seq<Addr>, ss: seq<Addr>, k: nat)
    requires IsHeapList(cells, head, es, ss) && k < |es| && |es| > 1 && forall e | e in es :: e in cells
    ensures IsHeapList(Unlinked(cells, es, k), if k > 0 then head else PtrAt(es, 1), Without(es, k), Without(ss, k))
    ensures es[k] !in Without(es, k)
  {
    var t := WithoutAt(es, k);
    var u := WithoutAt(ss, k);
    assert PtrAt(t, 0) == if k > 0 then head else PtrAt(es, 1);
    assert Distinct(t);
    hide IsHeapList, Without, Unlinked, PtrAt, Distinct, IsItem;
    forall i | 0 <= i < |t| ensures t[i] != es[k] && IsItem(Unlinked(cells, es, k), t, u[i], i) {
      UnlinkedItem(cells, head, es, ss, k, t, i);
    }
    IsListOf(Unlinked(cells, es, k), if k > 0 then head else PtrAt(es, 1), t, u);
  }

  lemma IsListOf(cells: Elements, head: Ptr, es: seq<Addr>, ss: seq<Addr>)
    requires Distinct(es) && |ss| == |es| && head == PtrAt(es, 0)
    requires forall i | 0 <= i < |es| :: IsItem(cells, es, ss[i], i)
    ensures IsHeapList(cells, head, es, ss)
  {
  }

  /** Freeing an element that is not on a list leaves the list. */
  lemma FreedElsewhere(cells: Elements, head: Ptr, es: seq<Addr>, ss: seq<Addr>, a: Addr)
    requires IsHeapList(cells, head, es, ss) && a !in es
    ensures IsHeapList(cells - {a}, head, es, ss)
  {
  }

  /** DL_APPEND's assignments to the elements of the list. */
  ghost function Appended(cells: Elements, es: seq<Addr>, a: Addr, s: Addr): Elements
    requires forall e | e in es :: e in cells
  {
    if es == [] then cells[a := Element(s, Null, To(a))]
    else
      var tail := es[|es| - 1];
      var c := cells[a := Element(s, Null, To(tail))];
      var c := c[tail := c[tail].(next := To(a))];
      c[es[0] := c[es[0]].(prev := To(a))]
  }

  lemma AppendedIsList(cells: Elements, head: Ptr, es: seq<Addr>, ss: seq<Addr>, a: Addr, s: Addr)
    requires IsHeapList(cells, head, es, ss) && a !in cells
    requires forall e | e in es :: e in cells
    ensures var cells' := Appended(cells, es, a, s);
            && cells'.Keys == cells.Keys + {a} && SameElsewhere(cells, cells', es)
            && IsHeapList(cells', if es == [] then To(a) else head, es + [a], ss + [s])
  {
    var t, u := es + [a], ss + [s];
    forall i | 0 <= i < |t| ensures IsItem(Appended(cells, es, a, s), t, u[i], i) {
      if i < |es| {
        assert IsItem(cells, es, ss[i], i) && t[i] == es[i] && u[i] == ss[i] && es[i] != a;
      }
    }
  }
}
