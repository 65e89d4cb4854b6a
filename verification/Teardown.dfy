/**
 Creating and destroying services and devices, hpd_services.c.  destroy_service_struct and
 destroy_device_struct call each other over the heap of DeviceHeap, so every step of both is proved
 to touch allocated cells only, and what a call frees is what it takes out of the maps.  The address
 that malloc returns is a parameter: any that is not allocated.
 */
module Teardown {
  import opened Basics
  import opened DeviceHeap
  import Urls

  datatype Status = Success | InUse | AlreadyInList

  /** A service on the heap has the key and the URL the registry knows it by. */
  lemma OneKey(d: Device, s: Service, secure: bool, obj: nat)
    ensures var r := Urls.Service(Urls.Device(d.dtype, d.id, secure), s.stype, s.sid, obj);
            KeyOf(d, s) == Urls.KeyOf(r) && Urls.KeyUrl(KeyOf(d, s)) == Urls.Url(r)
  {
  }

  ghost predicate Allocated(services: Services, ss: seq<Addr>) {
    forall s | s in ss :: s in services
  }

  /** d is allocated and so is everything its list reaches; the list is well formed. */
  ghost predicate Listed(h: Heap, d: Addr, es: seq<Addr>, ss: seq<Addr>) {
    && d in h.devices && IsHeapList(h.elements, h.devices[d].service_head, es, ss) && Allocated(h.services, ss)
  }

  /** No two services of the list carry the same type and ID. */
  ghost predicate DuplicateFree(services: Services, ss: seq<Addr>)
    requires Allocated(services, ss)
  {
    forall i, j | 0 <= i < j < |ss| :: !SameName(services[ss[i]], services[ss[j]])
  }

  ghost predicate Owned(services: Services, d: Addr, ss: seq<Addr>) {
    forall s | s in ss :: s in services && services[s].device == To(d)
  }

  /** The URLs of the listed services are those create_service_struct printed. */
  ghost predicate Named(services: Services, d: Device, ss: seq<Addr>) {
    forall s | s in ss :: s in services && services[s].url == Urls.KeyUrl(KeyOf(d, services[s]))
  }

  /** The position of the first service that carries n's type and ID, or the length. */
  ghost function Match(services: Services, ss: seq<Addr>, n: Service): (k: nat)
    requires Allocated(services, ss)
    ensures k <= |ss| && (k < |ss| ==> SameName(services[ss[k]], n))
    ensures forall i | 0 <= i < k :: !SameName(services[ss[i]], n)
  {
    if ss == [] then 0 else if SameName(services[ss[0]], n) then 0 else 1 + Match(services, ss[1..], n)
  }

  /** The position of the first registered service, or the length. */
  ghost function FirstRegistered(h: Heap, d: Device, ss: seq<Addr>): (k: nat)
    requires Allocated(h.services, ss)
    ensures k <= |ss| && (k < |ss| ==> KeyOf(d, h.services[ss[k]]) in h.registered)
    ensures forall i | 0 <= i < k :: KeyOf(d, h.services[ss[i]]) !in h.registered
  {
    if ss == [] then 0
    else if KeyOf(d, h.services[ss[0]]) in h.registered then 0
    else 1 + FirstRegistered(h, d, ss[1..])
  }

  /** Of the devices, only d's list head may differ. */
  ghost predicate SameButHead(devices: Devices, devices': Devices, d: Addr) {
    d in devices && d in devices' && devices' == devices[d := devices[d].(service_head := devices'[d].service_head)]
  }

  /** remove_service_from_device: element k, if there is one, has left the list and is freed. */
  ghost predicate ElementRemoved(h: Heap, h': Heap, d: Addr, es: seq<Addr>, ss: seq<Addr>, k: nat) {
    && h'.services == h.services && h'.registered == h.registered && SameButHead(h.devices, h'.devices, d)
    && h'.elements.Keys == h.elements.Keys - (if k < |es| then {es[k]} else {})
    && SameElsewhere(h.elements, h'.elements, es)
    && IsHeapList(h'.elements, h'.devices[d].service_head, Without(es, k), Without(ss, k))
  }

  /** destroy_service_struct: s is freed, element k with it, and the device when that was its last. */
  ghost predicate ServiceDestroyed(h: Heap, h': Heap, s: Addr, d: Addr, es: seq<Addr>, ss: seq<Addr>, k: nat) {
    && h'.services == h.services - {s} && h'.registered == h.registered
    && h'.elements.Keys == h.elements.Keys - (if k < |es| then {es[k]} else {})
    && SameElsewhere(h.elements, h'.elements, es)
    && if k < |es| == 1 then h'.devices == h.devices - {d}
       else SameButHead(h.devices, h'.devices, d)
            && IsHeapList(h'.elements, h'.devices[d].service_head, Without(es, k), Without(ss, k))
  }

  /** destroy_device_struct: the first n services and elements are freed, and the device when n is all. */
  ghost predicate DeviceDestroyed(h: Heap, h': Heap, d: Addr, es: seq<Addr>, ss: seq<Addr>, n: nat)
    requires n <= |es| == |ss|
  {
    && h'.services == h.services - Range(ss[..n]) && h'.registered == h.registered
    && h'.elements.Keys == h.elements.Keys - Range(es[..n])
    && SameElsewhere(h.elements, h'.elements, es)
    && if n == |es| then h'.devices == h.devices - {d}
       else SameButHead(h.devices, h'.devices, d)
            && IsHeapList(h'.elements, h'.devices[d].service_head, es[n..], ss[n..])
  }

  /** One round of destroy_device_struct: the first service and its element are freed. */
  ghost predicate HeadDestroyed(h: Heap, h': Heap, d: Addr, es: seq<Addr>, ss: seq<Addr>)
    requires es != [] && ss != []
  {
    && h'.services == h.services - {ss[0]} && h'.registered == h.registered
    && h'.elements.Keys == h.elements.Keys - {es[0]} && SameElsewhere(h.elements, h'.elements, es)
    && SameButHead(h.devices, h'.devices, d)
    && Listed(h', d, es[1..], ss[1..]) && Owned(h'.services, d, ss[1..]) && DuplicateFree(h'.services, ss[1..])
  }

  /** destroy_device_struct after n rounds from h0. */
  ghost predicate Destroying(h0: Heap, h: Heap, d: Addr, es: seq<Addr>, ss: seq<Addr>, n: nat) {
    && n <= |es| == |ss| && Allocated(h0.services, ss) && d in h0.devices
    && (forall i | 0 <= i < n :: KeyOf(h0.devices[d], h0.services[ss[i]]) !in h0.registered)
    && h.services == h0.services - Range(ss[..n]) && h.registered == h0.registered
    && h.elements.Keys == h0.elements.Keys - Range(es[..n]) && SameElsewhere(h0.elements, h.elements, es)
    && SameButHead(h0.devices, h.devices, d)
    && Listed(h, d, es[n..], ss[n..]) && Owned(h.services, d, ss[n..]) && DuplicateFree(h.services, ss[n..])
  }

  class Memory {
    var services: Services
    var elements: Elements
    var devices: Devices
    var registered: set<Urls.Key>

    ghost function Value(): Heap
      reads this
    {
      Heap(services, elements, devices, registered)
    }

    constructor (registered: set<Urls.Key>)
      ensures Value() == Heap(map[], map[], map[], registered)
    {
      services, elements, devices, this.registered := map[], map[], map[], registered;
    }

    /** create_device_struct: a new device has no services. */
    method CreateDevice(d: Addr, dtype: string, id: string)
      requires d !in devices
      modifies this`devices
      ensures devices == old(devices)[d := Device(dtype, id, Null)]
    {
      devices := devices[d := Device(dtype, id, Null)];
    }

    method FreeService(s: Addr)
      requires s in services
      modifies this`services
      ensures services == old(services) - {s}
    {
      services := services - {s};
    }

    method FreeElement(e: Addr)
      requires e in elements
      modifies this`elements
      ensures elements == old(elements) - {e}
    {
      elements := elements - {e};
    }

    method FreeDevice(d: Addr)
      requires d in devices
      modifies this`devices
      ensures devices == old(devices) - {d}
    {
      devices := devices - {d};
    }

    method SetHead(d: Addr, head: Ptr)
      requires d in devices
      modifies this`devices
      ensures devices == old(devices)[d := old(devices)[d].(service_head := head)]
    {
      devices := devices[d := devices[d].(service_head := head)];
    }

    method SetNext(e: Addr, next: Ptr)
      requires e in elements
      modifies this`elements
      ensures elements == old(elements)[e := old(elements)[e].(next := next)]
    {
      elements := elements[e := elements[e].(next := next)];
    }

    method SetPrev(e: Addr, prev: Ptr)
      requires e in elements
      modifies this`elements
      ensures elements == old(elements)[e := old(elements)[e].(prev := prev)]
    {
      elements := elements[e := elements[e].(prev := prev)];
    }

    /** is_service_registered reads the service's device. */
    predicate IsServiceRegistered(s: Addr)
      requires s in services && services[s].device.To? && services[s].device.addr in devices
      reads this
    {
      KeyOf(devices[services[s].device.addr], services[s]) in registered
    }

    /** DL_DELETE(device->service_head, del) */
    method DeleteElement(d: Addr, del: Addr, ghost es: seq<Addr>, ghost ss: seq<Addr>, ghost k: nat)
      requires d in devices && IsHeapList(elements, devices[d].service_head, es, ss) && k < |es| && es[k] == del
      modifies this`elements, this`devices
      ensures elements.Keys == old(elements.Keys) && SameElsewhere(old(elements), elements, es)
      ensures del in elements && elements[del] == old(elements[del]) && SameButHead(old(devices), devices, d)
      ensures IsHeapList(elements, devices[d].service_head, Without(es, k), Without(ss, k)) && del !in Without(es, k)
    {
      hide IsHeapList, Without;
      CellAt(elements, devices[d].service_head, es, ss, k);
      if elements[del].prev == To(del) {
        OnlyElement(elements, devices[d].service_head, es, ss);
        SetHead(d, Null);
      } else {
        UnlinkedCells(elements, devices[d].service_head, es, ss, k);
        UnlinkedIsList(elements, devices[d].service_head, es, ss, k);
        if devices[d].service_head == To(del) {
          SetPrev(elements[del].next.addr, elements[del].prev);
          SetHead(d, elements[del].next);
        } else {
          SetNext(elements[del].prev.addr, elements[del].next);
          if elements[del].next != Null {
            SetPrev(elements[del].next.addr, elements[del].prev);
          } else {
            SetPrev(devices[d].service_head.addr, elements[del].prev);
          }
        }
      }
    }

    /** DL_APPEND(device->service_head, new_se) */
    method AppendElement(d: Addr, a: Addr, ghost es: seq<Addr>, ghost ss: seq<Addr>)
      requires d in devices && a in elements && IsHeapList(elements - {a}, devices[d].service_head, es, ss)
      requires elements[a].next == Null
      modifies this`elements, this`devices
      ensures elements.Keys == old(elements.Keys) && SameElsewhere(old(elements) - {a}, elements, es)
      ensures SameButHead(old(devices), devices, d)
      ensures IsHeapList(elements, devices[d].service_head, es + [a], ss + [old(elements)[a].service])
    {
      hide IsHeapList;
      ghost var cells := elements - {a};
      InCells(cells, devices[d].service_head, es, ss);
      AppendedIsList(cells, devices[d].service_head, es, ss, a, elements[a].service);
      if devices[d].service_head != Null {
        EndsOf(cells, devices[d].service_head, es, ss);
        var head := devices[d].service_head.addr;
        SetPrev(a, elements[head].prev);
        SetNext(elements[head].prev.addr, To(a));
        SetPrev(head, To(a));
        SetNext(a, Null);
      } else {
        EmptyList(cells, es, ss);
        SetHead(d, To(a));
        SetPrev(devices[d].service_head.addr, devices[d].service_head);
        SetNext(devices[d].service_head.addr, Null);
      }
      assert elements == Appended(cells, es, a, old(elements)[a].service);
    }

    /** add_service_to_device: a service whose URL is already listed is refused, and its new element freed. */
    method AddServiceToDevice(s: Addr, d: Addr, a: Addr, ghost es: seq<Addr>, ghost ss: seq<Addr>)
      returns (status: Status)
      requires Listed(Value(), d, es, ss) && s in services && a !in elements
      modifies this`elements, this`devices
      ensures status == AlreadyInList <==> exists t | t in ss :: services[t].url == services[s].url
      ensures status == AlreadyInList ==> Value() == old(Value())
      ensures status == AlreadyInList || (status == Success && Listed(Value(), d, es + [a], ss + [s]))
      ensures elements.Keys == old(elements.Keys) + if status == Success then {a} else {}
      ensures SameElsewhere(old(elements), elements, es) && SameButHead(old(devices), devices, d)
    {
      hide IsHeapList;
      elements := elements[a := Element(s, Null, Null)];
      assert elements - {a} == old(elements);
      ghost var n := 0;
      var elt := devices[d].service_head;
      HeadIs(old(Value()), d, es, ss);
      while elt != Null
        invariant n <= |ss| == |es| && elt == PtrAt(es, n)
        invariant elements == old(elements)[a := Element(s, Null, Null)] && devices == old(devices)
        invariant forall i | 0 <= i < n :: services[ss[i]].url != services[s].url
        decreases |es| - n
      {
        CellAt(old(elements), devices[d].service_head, es, ss, n);
        assert ss[n] in ss;
        if services[elements[elt.addr].service].url == services[elements[a].service].url {
          FreeElement(a);
          return AlreadyInList;
        }
        elt, n := elements[elt.addr].next, n + 1;
      }
      AppendElement(d, a, es, ss);
      status := Success;
    }

    /** The end of create_service_struct: a service the device refuses is returned all the same. */
    method CreateService(stype: string, sid: string, d: Addr, s: Addr, a: Addr,
                         ghost es: seq<Addr>, ghost ss: seq<Addr>)
      returns (status: Status)
      requires Listed(Value(), d, es, ss) && s !in services && a !in elements
      requires Named(services, devices[d], ss) && DuplicateFree(services, ss)
      modifies this`services, this`elements, this`devices
      ensures var url := Urls.KeyUrl(Urls.Key(old(devices[d]).dtype, old(devices[d]).id, stype, sid));
              services == old(services)[s := Service(stype, sid, url, To(d))]
      ensures status == AlreadyInList <==> exists t | t in ss :: old(services)[t].url == services[s].url
      ensures status == AlreadyInList ==> elements == old(elements) && devices == old(devices)
      ensures elements.Keys == old(elements.Keys) + if status == Success then {a} else {}
      ensures SameElsewhere(old(elements), elements, es) && SameButHead(old(devices), devices, d)
      ensures status == AlreadyInList || status == Success
      ensures var es', ss' := if status == Success then es + [a] else es, if status == Success then ss + [s] else ss;
              Listed(Value(), d, es', ss') && Named(services, devices[d], ss') && DuplicateFree(services, ss')
    {
      hide IsHeapList, Urls.KeyUrl;
      ghost var before := services;
      var dev := devices[d];
      services := services[s := Service(stype, sid, Urls.KeyUrl(Urls.Key(dev.dtype, dev.id, stype, sid)), To(d))];
      NewService(before, services, dev, s, ss);
      status := AddServiceToDevice(s, d, a, es, ss);
      if status == Success {
        NewName(services, dev, s, ss);
      }
    }

    /** remove_service_from_device: the first element with s's type and ID leaves the list and is freed. */
    method RemoveServiceFromDevice(s: Addr, d: Addr, ghost es: seq<Addr>, ghost ss: seq<Addr>)
      requires Listed(Value(), d, es, ss) && s in services && services[s].device == To(d)
      modifies this`elements, this`devices
      ensures ElementRemoved(old(Value()), Value(), d, es, ss, Match(services, ss, services[s]))
    {
      hide IsHeapList, Match, Without;
      ghost var n := 0;
      var it := devices[d].service_head;
      HeadIs(Value(), d, es, ss);
      while it != Null
        invariant n <= |ss| == |es| && it == PtrAt(es, n) && Value() == old(Value())
        invariant forall i | 0 <= i < n :: !SameName(services[ss[i]], services[s])
        decreases |es| - n
      {
        CellAt(elements, devices[d].service_head, es, ss, n);
        assert ss[n] in ss;
        var tmp := elements[it.addr].next;
        var t := elements[it.addr].service;
        if services[s].stype == services[t].stype && services[s].sid == services[t].sid {
          MatchIs(services, ss, services[s], n);
          DeleteElement(services[s].device.addr, it.addr, es, ss, n);
          FreedElsewhere(elements, devices[d].service_head, Without(es, n), Without(ss, n), it.addr);
          FreeElement(it.addr);
          return;
        }
        it, n := tmp, n + 1;
      }
      WithoutNone(es);
      WithoutNone(ss);
      MatchIs(services, ss, services[s], n);
    }

    /**
     destroy_service_struct.  The first element with the service's type and ID leaves the device's list,
     and the device goes with it exactly when that empties the list; so a service that is still allocated
     loses its device exactly when such a service exists, on the list or not.
     */
    method DestroyService(s: Addr, d: Addr, ghost es: seq<Addr>, ghost ss: seq<Addr>) returns (status: Status)
      requires s in services && services[s].device == To(d) && Listed(Value(), d, es, ss)
      modifies this`services, this`elements, this`devices
      ensures KeyOf(old(devices[d]), old(services[s])) in registered ==> status == InUse && Value() == old(Value())
      ensures KeyOf(old(devices[d]), old(services[s])) !in registered ==>
                && status == Success
                && ServiceDestroyed(old(Value()), Value(), s, d, es, ss, old(Match(services, ss, services[s])))
      ensures old(Anchored(Value())) ==>
                (!Anchored(Value()) <==>
                   && KeyOf(old(devices[d]), old(services[s])) !in registered
                   && old(Match(services, ss, services[s])) < |es| == 1
                   && exists t | t in old(services) :: t != s && old(services)[t].device == To(d))
      decreases |es|, 2
    {
      hide IsHeapList, Match, Without, Anchored;
      if IsServiceRegistered(s) {
        return InUse;
      }
      ghost var h0, k := Value(), Match(services, ss, services[s]);
      HeadIs(h0, d, es, ss);
      WithoutNone(es);
      WithoutNone(ss);
      if devices[services[s].device.addr].service_head != Null {
        RemoveServiceFromDevice(s, services[s].device.addr, es, ss);
        RemovedHead(h0, Value(), d, es, ss, k);
        if devices[services[s].device.addr].service_head == Null {
          NoElements(Value(), d);
          var destroyed := DestroyDevice(services[s].device.addr, [], []);
          services := services[s := services[s].(device := Null)];
        }
      }
      FreeService(s);
      assert services == h0.services - {s};
      if Anchored(h0) {
        FreesAnothersDeviceIff(h0, Value(), s, d, es, ss, k);
      }
      status := Success;
    }

    /** The body of destroy_device_struct's loop for an unregistered service. */
    method DestroyHead(d: Addr, it: Addr, ghost es: seq<Addr>, ghost ss: seq<Addr>)
      requires Listed(Value(), d, es, ss) && Owned(services, d, ss) && DuplicateFree(services, ss)
      requires es != [] && it == es[0] && KeyOf(devices[d], services[ss[0]]) !in registered
      modifies this`services, this`elements, this`devices
      ensures HeadDestroyed(old(Value()), Value(), d, es, ss)
      decreases |es|, 0
    {
      hide IsHeapList, Match, Without, DuplicateFree;
      HeadIs(Value(), d, es, ss);
      CellAt(elements, devices[d].service_head, es, ss, 0);
      TailFacts(services, d, es, ss);
      WithoutNone(es[1..]);
      WithoutNone(ss[1..]);
      DeleteElement(d, it, es, ss, 0);
      var status := DestroyService(elements[it].service, d, es[1..], ss[1..]);
      FreedElsewhere(elements, devices[d].service_head, es[1..], ss[1..], it);
      FreeElement(it);
    }

    /**
     destroy_device_struct.  Services are destroyed in list order up to the first registered one; when
     there is none, the device is freed last.
     */
    method DestroyDevice(d: Addr, ghost es: seq<Addr>, ghost ss: seq<Addr>) returns (status: Status)
      requires Listed(Value(), d, es, ss) && Owned(services, d, ss) && DuplicateFree(services, ss)
      modifies this`services, this`elements, this`devices
      ensures var n := old(FirstRegistered(Value(), devices[d], ss));
              && |es| == |ss| && status == (if n < |ss| then InUse else Success)
              && DeviceDestroyed(old(Value()), Value(), d, es, ss, n)
              && (old(Anchored(Value())) ==> (!Anchored(Value()) <==> n == |es| && !Complete(old(Value()), d, ss)))
      decreases |es|, 1
    {
      hide IsHeapList, DuplicateFree, Owned, FirstRegistered, Anchored, Complete, Destroying, HeadDestroyed;
      ghost var h0, n := Value(), 0;
      var it := devices[d].service_head;
      DestroyingStart(h0, d, es, ss);
      while it != Null
        invariant Destroying(h0, Value(), d, es, ss, n) && it == PtrAt(es, n)
        decreases |es| - n
      {
        DestroyingHead(h0, Value(), d, es, ss, n);
        var tmp := elements[it.addr].next;
        if IsServiceRegistered(elements[it.addr].service) {
          DestroyingDone(h0, Value(), d, es, ss, n);
          return InUse;
        }
        ghost var h := Value();
        DestroyHead(d, it.addr, es[n..], ss[n..]);
        DestroyingNext(h0, h, Value(), d, es, ss, n);
        it, n := tmp, n + 1;
      }
      DestroyingDone(h0, Value(), d, es, ss, n);
      FreeDevice(d);
      DestroyedAll(h0, Value(), d, es, ss);
      status := Success;
    }
  }

  lemma OnlyElement(cells: Elements, head: Ptr, es: seq<Addr>, ss: seq<Addr>)
    requires IsHeapList(cells, head, es, ss) && |es| == 1
    ensures IsHeapList(cells, Null, Without(es, 0), Without(ss, 0)) && es[0] !in Without(es, 0)
  {
  }

  lemma DestroyingStart(h: Heap, d: Addr, es: seq<Addr>, ss: seq<Addr>)
    requires Listed(h, d, es, ss) && Owned(h.services, d, ss) && DuplicateFree(h.services, ss)
    ensures |es| == |ss| && Destroying(h, h, d, es, ss, 0) && h.devices[d].service_head == PtrAt(es, 0)
  {
    hide IsHeapList, DuplicateFree;
    HeadIs(h, d, es, ss);
    assert es[0..] == es && ss[0..] == ss;
  }

  /** What the next round finds: the first element that is left, and its service. */
  lemma DestroyingHead(h0: Heap, h: Heap, d: Addr, es: seq<Addr>, ss: seq<Addr>, n: nat)
    requires Destroying(h0, h, d, es, ss, n) && n < |es|
    ensures Listed(h, d, es[n..], ss[n..]) && Owned(h.services, d, ss[n..]) && DuplicateFree(h.services, ss[n..])
    ensures es[n..] != [] && es[n..][0] == es[n] && ss[n..][0] == ss[n]
    ensures es[n] in h.elements && h.elements[es[n]].service == ss[n] && h.elements[es[n]].next == PtrAt(es, n + 1)
    ensures ss[n] in h.services && h.services[ss[n]] == h0.services[ss[n]] && h.services[ss[n]].device == To(d)
    ensures KeyOf(h.devices[d], h.services[ss[n]]) == KeyOf(h0.devices[d], h0.services[ss[n]])
  {
    hide IsHeapList, DuplicateFree;
    OneMore(es, n);
    OneMore(ss, n);
    CellAt(h.elements, h.devices[d].service_head, es[n..], ss[n..], 0);
    assert ss[n] in ss[n..];
  }

  lemma DestroyingNext(h0: Heap, h: Heap, h': Heap, d: Addr, es: seq<Addr>, ss: seq<Addr>, n: nat)
    requires Destroying(h0, h, d, es, ss, n) && n < |es| && HeadDestroyed(h, h', d, es[n..], ss[n..])
    requires KeyOf(h0.devices[d], h0.services[ss[n]]) !in h0.registered
    ensures Destroying(h0, h', d, es, ss, n + 1)
  {
    hide Listed, Owned, DuplicateFree, KeyOf;
    OneMore(es, n);
    OneMore(ss, n);
  }

  lemma {:induction false} DestroyingDone(h0: Heap, h: Heap, d: Addr, es: seq<Addr>, ss: seq<Addr>, n: nat)
    requires Destroying(h0, h, d, es, ss, n)
    requires n < |es| ==> KeyOf(h0.devices[d], h0.services[ss[n]]) in h0.registered
    ensures n == FirstRegistered(h0, h0.devices[d], ss)
    ensures n < |es| ==> DeviceDestroyed(h0, h, d, es, ss, n)
    ensures n < |es| && Anchored(h0) && Listed(h0, d, es, ss) ==> Anchored(h)
    ensures n == |es| ==> d in h.devices && DeviceDestroyed(h0, h.(devices := h.devices - {d}), d, es, ss, n)
  {
    hide DuplicateFree;
    FirstRegisteredIs(h0, h0.devices[d], ss, n);
    if n < |es| && Anchored(h0) && Listed(h0, d, es, ss) {
      DeviceFreesAnothersIff(h0, h, d, es, ss, n);
    }
  }

  lemma DestroyedAll(h: Heap, h': Heap, d: Addr, es: seq<Addr>, ss: seq<Addr>)
    requires Listed(h, d, es, ss) && |es| == |ss| && DeviceDestroyed(h, h', d, es, ss, |es|)
    ensures Anchored(h) ==> (Anchored(h') <==> Complete(h, d, ss))
  {
    hide DeviceDestroyed, Anchored, Complete;
    if Anchored(h) {
      DeviceFreesAnothersIff(h, h', d, es, ss, |es|);
    }
  }

  /** The first and the last cell of a list, which is where its head and the head's prev point. */
  lemma EndsOf(cells: Elements, head: Ptr, es: seq<Addr>, ss: seq<Addr>)
    requires IsHeapList(cells, head, es, ss) && head != Null
    ensures es != [] && head == To(es[0]) && es[0] in cells && es[|es| - 1] in cells
    ensures cells[es[0]].prev == To(es[|es| - 1]) && forall e | e in es :: e in cells
  {
    CellAt(cells, head, es, ss, 0);
    CellAt(cells, head, es, ss, |es| - 1);
  }

  lemma InCells(cells: Elements, head: Ptr, es: seq<Addr>, ss: seq<Addr>)
    requires IsHeapList(cells, head, es, ss)
    ensures forall e | e in es :: e in cells
  {
    if es != [] {
      CellAt(cells, head, es, ss, 0);
    }
  }

  lemma EmptyList(cells: Elements, es: seq<Addr>, ss: seq<Addr>)
    requires IsHeapList(cells, Null, es, ss)
    ensures es == [] && ss == []
  {
  }

  /** A newly allocated service changes nothing for those on the list. */
  lemma NewService(services: Services, services': Services, d: Device, s: Addr, ss: seq<Addr>)
    requires Allocated(services, ss) && s !in services && s in services' && services' == services[s := services'[s]]
    requires Named(services, d, ss) && DuplicateFree(services, ss)
    ensures Allocated(services', ss) && Named(services', d, ss) && DuplicateFree(services', ss) && s !in ss
  {
  }

  /** A URL that is not listed belongs to a type and ID that are not listed. */
  lemma NewName(services: Services, d: Device, s: Addr, ss: seq<Addr>)
    requires Allocated(services, ss + [s]) && Named(services, d, ss + [s]) && DuplicateFree(services, ss)
    requires forall t | t in ss :: services[t].url != services[s].url
    ensures DuplicateFree(services, ss + [s])
  {
    var u := ss + [s];
    forall i, j | 0 <= i < j < |u| ensures !SameName(services[u[i]], services[u[j]]) {
      assert u[i] in u && u[j] in u && (i < |ss| ==> u[i] in ss);
    }
  }

  /** What a list's head says of its length. */
  lemma HeadIs(h: Heap, d: Addr, es: seq<Addr>, ss: seq<Addr>)
    requires Listed(h, d, es, ss)
    ensures |es| == |ss| && h.devices[d].service_head == PtrAt(es, 0)
  {
  }

  lemma {:induction false} MatchIs(services: Services, ss: seq<Addr>, n: Service, k: nat)
    requires Allocated(services, ss) && k <= |ss| && (k < |ss| ==> SameName(services[ss[k]], n))
    requires forall i | 0 <= i < k :: !SameName(services[ss[i]], n)
    ensures k == Match(services, ss, n)
  {
    var m := Match(services, ss, n);
    assert m >= k;
  }

  lemma {:induction false} FirstRegisteredIs(h: Heap, d: Device, ss: seq<Addr>, k: nat)
    requires Allocated(h.services, ss) && k <= |ss| && (k < |ss| ==> KeyOf(d, h.services[ss[k]]) in h.registered)
    requires forall i | 0 <= i < k :: KeyOf(d, h.services[ss[i]]) !in h.registered
    ensures k == FirstRegistered(h, d, ss)
  {
    var f := FirstRegistered(h, d, ss);
    assert f >= k;
  }

  /** The list is empty after the removal exactly when its one element went. */
  lemma RemovedHead(h: Heap, h': Heap, d: Addr, es: seq<Addr>, ss: seq<Addr>, k: nat)
    requires Listed(h, d, es, ss) && es != [] && k <= |es| && ElementRemoved(h, h', d, es, ss, k)
    ensures h'.devices[d].service_head == Null <==> k < |es| == 1
  {
  }

  lemma {:induction false} NoElements(h: Heap, d: Addr)
    requires d in h.devices && h.devices[d].service_head == Null
    ensures Listed(h, d, [], []) && Owned(h.services, d, []) && DuplicateFree(h.services, [])
    ensures FirstRegistered(h, h.devices[d], []) == 0
  {
  }

  lemma OneMore(s: seq<Addr>, n: nat)
    requires n < |s|
    ensures s[n..][0] == s[n] && s[n..][1..] == s[n + 1..] && s[n..] != []
    ensures Range(s[..n + 1]) == Range(s[..n]) + {s[n]}
    ensures forall x | x in s[n..] :: x in s
  {
    assert s[..n + 1] == s[..n] + [s[n]];
  }

  /** The services after the first one of a duplicate-free list are others, with other names. */
  lemma {:induction false} TailFacts(services: Services, d: Addr, es: seq<Addr>, ss: seq<Addr>)
    requires ss != [] && |es| == |ss|
    requires Owned(services, d, ss) && Allocated(services, ss) && DuplicateFree(services, ss)
    ensures Without(es, 0) == es[1..] && Without(ss, 0) == ss[1..] && Allocated(services, ss[1..])
    ensures Match(services, ss[1..], services[ss[0]]) == |ss| - 1
    ensures var rest := services - {ss[0]};
            Allocated(rest, ss[1..]) && Owned(rest, d, ss[1..]) && DuplicateFree(rest, ss[1..])
  {
    hide Match;
    var t := ss[1..];
    forall i | 0 <= i < |t| ensures t[i] in ss && !SameName(services[t[i]], services[ss[0]]) {
      assert t[i] == ss[i + 1] && !SameName(services[ss[0]], services[ss[i + 1]]);
    }
    MatchIs(services, t, services[ss[0]], |t|);
    TailDuplicateFree(services, ss);
    FreedOther(services, d, t, ss[0]);
  }

  lemma TailDuplicateFree(services: Services, ss: seq<Addr>)
    requires ss != [] && Allocated(services, ss) && DuplicateFree(services, ss)
    ensures Allocated(services, ss[1..]) && DuplicateFree(services, ss[1..])
  {
    var t := ss[1..];
    forall i, j | 0 <= i < j < |t| ensures !SameName(services[t[i]], services[t[j]]) {
      assert t[i] == ss[i + 1] && t[j] == ss[j + 1];
    }
  }

  /** Freeing a service that is not on a list leaves what the list needs. */
  lemma FreedOther(services: Services, d: Addr, ss: seq<Addr>, s: Addr)
    requires Allocated(services, ss) && Owned(services, d, ss) && DuplicateFree(services, ss) && s !in ss
    ensures Allocated(services - {s}, ss) && Owned(services - {s}, d, ss) && DuplicateFree(services - {s}, ss)
  {
  }

  // ---------------------------------------------------------------- what the calls mean for the whole heap

  /** Every allocated service has an allocated device. */
  ghost predicate Anchored(h: Heap) {
    forall s | s in h.services :: h.services[s].device.To? && h.services[s].device.addr in h.devices
  }

  /** Every allocated service of d is on the list. */
  ghost predicate Complete(h: Heap, d: Addr, ss: seq<Addr>) {
    forall s | s in h.services && h.services[s].device == To(d) :: s in ss
  }

  /** A listed service of a duplicate-free list is the one its type and ID find. */
  lemma {:induction false} OwnPosition(services: Services, ss: seq<Addr>, j: nat)
    requires Allocated(services, ss) && DuplicateFree(services, ss) && j < |ss|
    ensures ss[j] in services && Match(services, ss, services[ss[j]]) == j
  {
    var k := Match(services, ss, services[ss[j]]);
    assert k <= j;
  }

  /**
   A service on its device's duplicate-free list: destroying it frees exactly that service and its own
   element, and the device exactly when it was the last; otherwise the list is what it was without it.
   */
  lemma {:induction false} DestroysItsOwn(h: Heap, h': Heap, d: Addr, es: seq<Addr>, ss: seq<Addr>, j: nat)
    requires Listed(h, d, es, ss) && DuplicateFree(h.services, ss) && j < |ss| == |es|
    requires ServiceDestroyed(h, h', ss[j], d, es, ss, Match(h.services, ss, h.services[ss[j]]))
    ensures h'.services == h.services - {ss[j]} && h'.elements.Keys == h.elements.Keys - {es[j]}
    ensures h'.devices.Keys == h.devices.Keys - if |ss| == 1 then {d} else {}
    ensures |ss| > 1 ==> IsHeapList(h'.elements, h'.devices[d].service_head, Without(es, j), Without(ss, j))
  {
    OwnPosition(h.services, ss, j);
  }

  /**
   Destroying a service takes the device from under another one exactly when the list holds one element,
   a match for the service's type and ID, and another allocated service, listed or not, has the device.
   */
  lemma FreesAnothersDeviceIff(h: Heap, h': Heap, s: Addr, d: Addr, es: seq<Addr>, ss: seq<Addr>, k: nat)
    requires Anchored(h) && s in h.services && Listed(h, d, es, ss) && ServiceDestroyed(h, h', s, d, es, ss, k)
    ensures !Anchored(h') <==> k < |es| == 1 && exists t | t in h.services :: t != s && h.services[t].device == To(d)
  {
    if t :| t in h'.services && (!h'.services[t].device.To? || h'.services[t].device.addr !in h'.devices) {
      assert h.services[t].device == h'.services[t].device;
    }
    if t :| k < |es| == 1 && t in h.services && t != s && h.services[t].device == To(d) {
      assert t in h'.services && h'.services[t].device.addr !in h'.devices;
    }
  }

  /** Destroying a device: exactly when all its listed services go and an unlisted one has it. */
  lemma DeviceFreesAnothersIff(h: Heap, h': Heap, d: Addr, es: seq<Addr>, ss: seq<Addr>, n: nat)
    requires Anchored(h) && Listed(h, d, es, ss) && n <= |es| == |ss| && DeviceDestroyed(h, h', d, es, ss, n)
    ensures !Anchored(h') <==> n == |es| && !Complete(h, d, ss)
  {
    assert ss[..|ss|] == ss;
    if t :| t in h'.services && (!h'.services[t].device.To? || h'.services[t].device.addr !in h'.devices) {
      assert h.services[t].device == h'.services[t].device;
      assert n == |es|;
      assert t !in ss;
    }
    if t :| n == |es| && t in h.services && h.services[t].device == To(d) && t !in ss {
      assert t in h'.services && h'.services[t].device.addr !in h'.devices;
    }
  }

  /** So where every service is on its device's list, no teardown leaves a service without its device. */
  lemma TeardownKeepsAnchored(h: Heap, h': Heap, d: Addr, es: seq<Addr>, ss: seq<Addr>, n: nat)
    requires Anchored(h) && Complete(h, d, ss) && Listed(h, d, es, ss) && n <= |es| == |ss|
    requires DeviceDestroyed(h, h', d, es, ss, n)
             || exists s | s in ss :: ServiceDestroyed(h, h', s, d, es, ss, n)
    ensures Anchored(h')
  {
    if DeviceDestroyed(h, h', d, es, ss, n) {
      DeviceFreesAnothersIff(h, h', d, es, ss, n);
    } else {
      var s :| s in ss && ServiceDestroyed(h, h', s, d, es, ss, n);
      FreesAnothersDeviceIff(h, h', s, d, es, ss, n);
      assert |es| == 1 ==> ss == [s];
    }
  }

  /**
   Two creations with one type and ID, whatever they are: destroying either of the two services leaves
   the other with a device that is no longer there.
   */
  method DuplicateLosesDevice(device: Device, stype: string, sid: string, destroyRefused: bool)
    returns (mem: Memory, survivor: Addr)
    requires device.service_head == Null
    ensures survivor in mem.services && mem.services[survivor].device.To?
    ensures mem.services[survivor].device.addr !in mem.devices
  {
    hide IsHeapList, Urls.KeyUrl, Named, DuplicateFree, Match;
    mem := new Memory({});
    mem.devices := map[7 := device];
    StartsEmpty(mem.Value(), 7);
    var kept, refused := 0, 1;
    var status := mem.CreateService(stype, sid, 7, kept, kept, [], []);
    assert status == Success && [] + [kept] == [kept];
    ghost var name := mem.services[kept];
    status := mem.CreateService(stype, sid, 7, refused, refused, [kept], [kept]);
    assert kept in [kept] && status == AlreadyInList;
    survivor := if destroyRefused then kept else refused;
    MatchIs(mem.services, [kept], name, 0);
    status := mem.DestroyService(if destroyRefused then refused else kept, 7, [kept], [kept]);
  }

  lemma StartsEmpty(h: Heap, d: Addr)
    requires d in h.devices && h.devices[d].service_head == Null
    ensures Listed(h, d, [], []) && Named(h.services, h.devices[d], []) && DuplicateFree(h.services, [])
  {
  }
}
