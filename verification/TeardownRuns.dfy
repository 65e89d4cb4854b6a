/**
 Sequences of calls that create and destroy devices and services, on the whole heap: what they always
 keep, and exactly when a service loses its device.
 */
module TeardownRuns {
  import opened Basics
  import opened DeviceHeap
  import opened Teardown
  import Urls

  /** A device's list: its elements and their services. */
  datatype Links = Links(es: seq<Addr>, ss: seq<Addr>)

  type Lists = map<Addr, Links>

  /** The addresses are those malloc returns.  Registration stands for what the server does in between. */
  datatype Call =
    | NewDevice(device: Addr, dtype: string, id: string)
    | NewService(stype: string, sid: string, device: Addr, service: Addr, element: Addr)
    | DestroyServiceCall(service: Addr)
    | DestroyDeviceCall(device: Addr)
    | Registration(keys: set<Urls.Key>)

  /** One device's list is well formed, its own, named as created, and without duplicates. */
  ghost predicate Sound(h: Heap, d: Addr, l: Links) {
    && Listed(h, d, l.es, l.ss) && Owned(h.services, d, l.ss)
    && Named(h.services, h.devices[d], l.ss) && DuplicateFree(h.services, l.ss)
  }

  /** Every allocated device has such a list, and no two lists share an element. */
  ghost predicate Whole(h: Heap, ls: Lists) {
    && ls.Keys == h.devices.Keys
    && (forall d | d in ls :: Sound(h, d, ls[d]))
    && forall d, e | d in ls && e in ls && d != e :: Disjoint(ls[d].es, ls[e].es)
  }

  /** A call is allowed where its arguments are allocated, and its addresses are not. */
  ghost predicate Allowed(h: Heap, c: Call) {
    match c
    case NewDevice(d, _, _) => d !in h.devices
    case NewService(_, _, d, s, a) => d in h.devices && s !in h.services && a !in h.elements
    case DestroyServiceCall(s) => s in h.services && h.services[s].device.To? && h.services[s].device.addr in h.devices
    case DestroyDeviceCall(d) => d in h.devices
    case Registration(_) => true
  }

  /** A creation that the device refuses. */
  ghost predicate Refused(h: Heap, c: Call, ss: seq<Addr>)
    requires c.NewService? && c.device in h.devices && Allocated(h.services, ss)
  {
    exists t | t in ss :: h.services[t].url == NewUrl(h, c)
  }

  function NewUrl(h: Heap, c: Call): string
    requires c.NewService? && c.device in h.devices
  {
    Urls.KeyUrl(Urls.Key(h.devices[c.device].dtype, h.devices[c.device].id, c.stype, c.sid))
  }

  /** create_service_struct, as CreateService's contract has it. */
  ghost predicate Created(h: Heap, h': Heap, c: Call, l: Links)
    requires c.NewService? && c.device in h.devices && Allocated(h.services, l.ss)
  {
    var d, s, a := c.device, c.service, c.element;
    && h'.services == h.services[s := Service(c.stype, c.sid, NewUrl(h, c), To(d))] && h'.registered == h.registered
    && SameElsewhere(h.elements, h'.elements, l.es) && SameButHead(h.devices, h'.devices, d)
    && if Refused(h, c, l.ss) then h'.elements == h.elements && h'.devices == h.devices
       else h'.elements.Keys == h.elements.Keys + {a} && Sound(h', d, Links(l.es + [a], l.ss + [s]))
  }

  /** What a call does to the heap when the list it works on is l. */
  ghost predicate Does(h: Heap, c: Call, h': Heap, l: Links)
    requires Allowed(h, c)
  {
    match c
    case NewDevice(d, t, i) => h' == h.(devices := h.devices[d := Device(t, i, Null)])
    case NewService(_, _, d, _, _) => Sound(h, d, l) && Created(h, h', c, l)
    case DestroyServiceCall(s) =>
      var d := h.services[s].device.addr;
      && Listed(h, d, l.es, l.ss)
      && if KeyOf(h.devices[d], h.services[s]) in h.registered then h' == h
         else ServiceDestroyed(h, h', s, d, l.es, l.ss, Match(h.services, l.ss, h.services[s]))
    case DestroyDeviceCall(d) =>
      && Listed(h, d, l.es, l.ss) && |l.es| == |l.ss|
      && DeviceDestroyed(h, h', d, l.es, l.ss, FirstRegistered(h, h.devices[d], l.ss))
    case Registration(keys) => h' == h.(registered := keys)
  }

  /** The device a call works on. */
  function Target(h: Heap, c: Call): Addr
    requires Allowed(h, c) && !c.Registration?
  {
    if c.DestroyServiceCall? then h.services[c.service].device.addr else c.device
  }

  /** The lists after a call that worked on its target's list. */
  ghost function ListsAfter(h: Heap, c: Call, ls: Lists): Lists
    requires Allowed(h, c) && Whole(h, ls)
  {
    match c
    case NewDevice(d, _, _) => ls[d := Links([], [])]
    case NewService(_, _, d, s, a) =>
      if Refused(h, c, ls[d].ss) then ls else ls[d := Links(ls[d].es + [a], ls[d].ss + [s])]
    case DestroyServiceCall(s) =>
      var d := Target(h, c);
      var k := Match(h.services, ls[d].ss, h.services[s]);
      if KeyOf(h.devices[d], h.services[s]) in h.registered then ls
      else if k < |ls[d].ss| == 1 then ls - {d}
      else ls[d := Links(Without(ls[d].es, k), Without(ls[d].ss, k))]
    case DestroyDeviceCall(d) =>
      var n := FirstRegistered(h, h.devices[d], ls[d].ss);
      if n == |ls[d].ss| then ls - {d} else ls[d := Links(ls[d].es[n..], ls[d].ss[n..])]
    case Registration(_) => ls
  }

  // ---------------------------------------------------------------- every call keeps the lists

  /** A list whose cells and services are left alone stays sound. */
  lemma OthersKept(h: Heap, h': Heap, es: seq<Addr>, e: Addr, l: Links)
    requires Sound(h, e, l) && Disjoint(l.es, es) && SameElsewhere(h.elements, h'.elements, es)
    requires forall s | s in l.ss :: s in h'.services && h'.services[s] == h.services[s]
    requires e in h'.devices && h'.devices[e] == h.devices[e]
    ensures Sound(h', e, l)
  {
    forall i | 0 <= i < |l.es| ensures IsItem(h'.elements, l.es, l.ss[i], i) {
      assert IsItem(h.elements, l.es, l.ss[i], i) && l.es[i] in l.es;
    }
  }

  lemma {:induction false} SameAt(cells: Elements, head: Ptr, l: Links, m: Links, i: nat)
    requires IsHeapList(cells, head, l.es, l.ss) && IsHeapList(cells, head, m.es, m.ss) && i < |l.es|
    ensures i < |m.es| && l.es[i] == m.es[i] && l.ss[i] == m.ss[i]
  {
    assert IsItem(cells, l.es, l.ss[i], i);
    if i > 0 {
      SameAt(cells, head, l, m, i - 1);
      assert IsItem(cells, l.es, l.ss[i - 1], i - 1) && IsItem(cells, m.es, m.ss[i - 1], i - 1);
    }
    assert IsItem(cells, m.es, m.ss[i], i);
  }

  /** A head stands for one list only. */
  lemma ListUnique(cells: Elements, head: Ptr, l: Links, m: Links)
    requires IsHeapList(cells, head, l.es, l.ss) && IsHeapList(cells, head, m.es, m.ss)
    ensures l == m
  {
    forall i | 0 <= i < |l.es| ensures i < |m.es| && l.es[i] == m.es[i] && l.ss[i] == m.ss[i] {
      SameAt(cells, head, l, m, i);
    }
  }

  /** Services of other devices than d are as they were. */
  ghost predicate OthersServices(h: Heap, h': Heap, d: Addr) {
    forall s | s in h.services && h.services[s].device != To(d) :: s in h'.services && h'.services[s] == h.services[s]
  }

  lemma OtherSound(h: Heap, h': Heap, ls: Lists, d: Addr, e: Addr)
    requires Whole(h, ls) && d in ls && e in ls && e != d
    requires SameElsewhere(h.elements, h'.elements, ls[d].es) && OthersServices(h, h', d)
    requires e in h'.devices && h'.devices[e] == h.devices[e]
    ensures Sound(h', e, ls[e]) && forall x | x in ls[e].es :: x in h.elements
  {
    assert Disjoint(ls[e].es, ls[d].es) && Sound(h, e, ls[e]);
    InCells(h.elements, h.devices[e].service_head, ls[e].es, ls[e].ss);
    hide IsHeapList, DuplicateFree, Named, Allocated;
    OthersKept(h, h', ls[d].es, e, ls[e]);
  }

  /** A call that changes d's list only. */
  lemma ReplaceKeeps(h: Heap, h': Heap, ls: Lists, d: Addr, l: Links)
    requires Whole(h, ls) && d in ls && Sound(h', d, l) && SameButHead(h.devices, h'.devices, d)
    requires SameElsewhere(h.elements, h'.elements, ls[d].es) && OthersServices(h, h', d)
    requires forall x | x in l.es :: x in ls[d].es || x !in h.elements
    ensures Whole(h', ls[d := l])
  {
    var ls' := ls[d := l];
    hide Sound, SameElsewhere, OthersServices;
    forall e | e in ls && e != d ensures Sound(h', e, ls[e]) && Disjoint(ls[e].es, l.es) && Disjoint(l.es, ls[e].es) {
      OtherSound(h, h', ls, d, e);
      assert Disjoint(ls[e].es, ls[d].es);
    }
  }

  /** A call that frees d. */
  lemma RemoveKeeps(h: Heap, h': Heap, ls: Lists, d: Addr)
    requires Whole(h, ls) && d in ls && h'.devices == h.devices - {d}
    requires SameElsewhere(h.elements, h'.elements, ls[d].es) && OthersServices(h, h', d)
    ensures Whole(h', ls - {d})
  {
    hide Sound, SameElsewhere, OthersServices;
    forall e | e in ls && e != d ensures Sound(h', e, ls[e]) {
      OtherSound(h, h', ls, d, e);
    }
  }

  /** Part of a sound list is sound where its services are left alone. */
  lemma PartSound(h: Heap, h': Heap, d: Addr, l: Links, m: Links)
    requires Sound(h, d, l) && SameButHead(h.devices, h'.devices, d)
    requires IsHeapList(h'.elements, h'.devices[d].service_head, m.es, m.ss)
    requires forall s | s in m.ss :: s in l.ss && s in h'.services && h'.services[s] == h.services[s]
    requires Allocated(h.services, m.ss) && DuplicateFree(h.services, m.ss)
    ensures Sound(h', d, m)
  {
    hide IsHeapList;
  }

  /** Without its element k a duplicate-free list is duplicate-free and does not hold what it held there. */
  lemma WithoutFacts(services: Services, ss: seq<Addr>, k: nat)
    requires Allocated(services, ss) && DuplicateFree(services, ss) && k <= |ss|
    ensures Allocated(services, Without(ss, k)) && DuplicateFree(services, Without(ss, k))
    ensures forall x | x in Without(ss, k) :: x in ss && (k < |ss| ==> x != ss[k])
    ensures forall x | x in ss && (k < |ss| ==> x != ss[k]) :: x in Without(ss, k)
  {
    if k < |ss| {
      var t := WithoutAt(ss, k);
      hide Without;
      forall i, j | 0 <= i < j < |t| ensures !SameName(services[t[i]], services[t[j]]) {
        assert t[i] == ss[if i < k then i else i + 1] && t[j] == ss[if j < k then j else j + 1];
      }
      forall x | x in t ensures x in ss && x != ss[k] {
        var i :| 0 <= i < |t| && t[i] == x;
        assert x == ss[if i < k then i else i + 1];
      }
      forall x | x in ss && x != ss[k] ensures x in t {
        var j :| 0 <= j < |ss| && ss[j] == x;
        assert x == t[if j < k then j else j - 1];
      }
    }
  }

  lemma NewDeviceKeeps(h: Heap, ls: Lists, c: Call, h': Heap)
    requires Whole(h, ls) && c.NewDevice? && Allowed(h, c) && Does(h, c, h', Links([], []))
    ensures Whole(h', ListsAfter(h, c, ls))
  {
    hide Sound;
    forall e | e in ls ensures Sound(h', e, ls[e]) {
      assert Sound(h, e, ls[e]);
      SoundElsewhere(h, h', e, ls[e]);
    }
    EmptySound(h', c.device);
  }

  lemma SoundElsewhere(h: Heap, h': Heap, e: Addr, l: Links)
    requires Sound(h, e, l) && h'.elements == h.elements && h'.services == h.services
    requires e in h'.devices && h'.devices[e] == h.devices[e]
    ensures Sound(h', e, l)
  {
  }

  lemma EmptySound(h: Heap, d: Addr)
    requires d in h.devices && h.devices[d].service_head == Null
    ensures Sound(h, d, Links([], []))
  {
  }

  lemma NewServiceKeeps(h: Heap, ls: Lists, c: Call, h': Heap)
    requires Whole(h, ls) && c.NewService? && Allowed(h, c) && Does(h, c, h', ls[c.device])
    ensures Whole(h', ListsAfter(h, c, ls))
  {
    var d, l := c.device, ls[c.device];
    assert Sound(h, d, l);
    hide Named, DuplicateFree, Refused, NewUrl;
    if Refused(h, c, l.ss) {
      forall t | t in l.ss ensures h'.services[t] == h.services[t] {
        assert t in h.services;
      }
      OthersKept(h, h', [], d, l);
      ReplaceKeeps(h, h', ls, d, l);
      assert ls[d := l] == ls;
    } else {
      hide Sound, IsHeapList;
      ReplaceKeeps(h, h', ls, d, Links(l.es + [c.element], l.ss + [c.service]));
    }
  }

  /** What the destruction of a service leaves of its device's list. */
  lemma DestroyedSound(h: Heap, h': Heap, s: Addr, d: Addr, l: Links, k: nat)
    requires Sound(h, d, l) && s in h.services && |l.es| == |l.ss|
    requires k == Match(h.services, l.ss, h.services[s]) && !(k < |l.es| == 1)
    requires ServiceDestroyed(h, h', s, d, l.es, l.ss, k)
    ensures Sound(h', d, Links(Without(l.es, k), Without(l.ss, k)))
  {
    WithoutFacts(h.services, l.ss, k);
    if s in l.ss {
      var j :| 0 <= j < |l.ss| && l.ss[j] == s;
      OwnPosition(h.services, l.ss, j);
    }
    hide Match, Without, IsHeapList;
    PartSound(h, h', d, l, Links(Without(l.es, k), Without(l.ss, k)));
  }

  lemma PartElements(es: seq<Addr>, k: nat, n: nat)
    requires n <= |es|
    ensures (forall x | x in Without(es, k) :: x in es) && forall x | x in es[n..] :: x in es
  {
  }

  lemma DestroyServiceKeeps(h: Heap, ls: Lists, c: Call, h': Heap)
    requires Whole(h, ls) && c.DestroyServiceCall? && Allowed(h, c) && Does(h, c, h', ls[Target(h, c)])
    ensures Whole(h', ListsAfter(h, c, ls))
  {
    var s, d := c.service, Target(h, c);
    var l := ls[d];
    assert Sound(h, d, l);
    HeadIs(h, d, l.es, l.ss);
    if KeyOf(h.devices[d], h.services[s]) !in h.registered {
      var k := Match(h.services, l.ss, h.services[s]);
      hide Sound, Match, Without, IsHeapList, Whole;
      if k < |l.es| == 1 {
        RemoveKeeps(h, h', ls, d);
      } else {
        DestroyedSound(h, h', s, d, l, k);
        PartElements(l.es, k, 0);
        ReplaceKeeps(h, h', ls, d, Links(Without(l.es, k), Without(l.ss, k)));
      }
    }
  }

  lemma TailDuplicates(services: Services, ss: seq<Addr>, n: nat)
    requires Allocated(services, ss) && DuplicateFree(services, ss) && n <= |ss|
    ensures Allocated(services, ss[n..]) && DuplicateFree(services, ss[n..])
    ensures forall x | x in ss[n..] :: x in ss && x !in ss[..n]
  {
    var t := ss[n..];
    forall i, j | 0 <= i < j < |t| ensures !SameName(services[t[i]], services[t[j]]) {
      assert t[i] == ss[n + i] && t[j] == ss[n + j];
    }
    forall x | x in t ensures x !in ss[..n] {
      var i :| 0 <= i < |t| && t[i] == x;
      assert x == ss[n + i];
    }
  }

  lemma DestroyDeviceKeeps(h: Heap, ls: Lists, c: Call, h': Heap)
    requires Whole(h, ls) && c.DestroyDeviceCall? && Allowed(h, c) && Does(h, c, h', ls[c.device])
    ensures Whole(h', ListsAfter(h, c, ls))
  {
    var d, l := c.device, ls[c.device];
    assert Sound(h, d, l);
    var n := FirstRegistered(h, h.devices[d], l.ss);
    TailDuplicates(h.services, l.ss, n);
    PartElements(l.es, 0, n);
    OthersServicesKept(h, h', d, l.ss, n);
    if n == |l.ss| {
      hide Sound, IsHeapList, FirstRegistered, Whole;
      RemoveKeeps(h, h', ls, d);
    } else {
      PartSound(h, h', d, l, Links(l.es[n..], l.ss[n..]));
      hide Sound, IsHeapList, FirstRegistered, Whole;
      ReplaceKeeps(h, h', ls, d, Links(l.es[n..], l.ss[n..]));
    }
  }

  lemma OthersServicesKept(h: Heap, h': Heap, d: Addr, ss: seq<Addr>, n: nat)
    requires Owned(h.services, d, ss) && n <= |ss| && h'.services == h.services - Range(ss[..n])
    ensures OthersServices(h, h', d)
  {
    assert forall x | x in ss[..n] :: x in ss;
  }

  /** The list a call worked on is the one its device has. */
  lemma TargetList(h: Heap, ls: Lists, c: Call, h': Heap, l: Links)
    requires Whole(h, ls) && Allowed(h, c) && Does(h, c, h', l) && !c.Registration? && !c.NewDevice?
    ensures l == ls[Target(h, c)]
  {
    var d := Target(h, c);
    assert Sound(h, d, ls[d]);
    hide IsHeapList;
    ListUnique(h.elements, h.devices[d].service_head, l, ls[d]);
  }

  /** Every call keeps every device's list well formed and apart from the others. */
  lemma CallKeepsWhole(h: Heap, ls: Lists, c: Call, h': Heap, l: Links)
    requires Whole(h, ls) && Allowed(h, c) && Does(h, c, h', l)
    ensures Whole(h', ListsAfter(h, c, ls))
  {
    if !c.Registration? && !c.NewDevice? {
      TargetList(h, ls, c, h', l);
    }
    match c
    case NewDevice(_, _, _) => NewDeviceKeeps(h, ls, c, h');
    case NewService(_, _, _, _, _) => NewServiceKeeps(h, ls, c, h');
    case DestroyServiceCall(_) => DestroyServiceKeeps(h, ls, c, h');
    case DestroyDeviceCall(_) => DestroyDeviceKeeps(h, ls, c, h');
    case Registration(_) =>
      forall e | e in ls ensures Sound(h', e, ls[e]) {
        SoundElsewhere(h, h', e, ls[e]);
      }
  }

  // ---------------------------------------------------------------- when a service loses its device

  /** What a caller can check before the call, l being the list of the device it works on. */
  ghost predicate RobsWith(h: Heap, c: Call, l: Links)
    requires Allowed(h, c) && Allocated(h.services, l.ss)
  {
    match c
    case DestroyServiceCall(s) =>
      var d := Target(h, c);
      && KeyOf(h.devices[d], h.services[s]) !in h.registered
      && Match(h.services, l.ss, h.services[s]) < |l.es| == 1
      && exists t | t in h.services :: t != s && h.services[t].device == To(d)
    case DestroyDeviceCall(d) =>
      FirstRegistered(h, h.devices[d], l.ss) == |l.ss| && !Complete(h, d, l.ss)
    case _ => false
  }

  /** The call takes a device away from a service that stays allocated. */
  ghost predicate Robs(h: Heap, ls: Lists, c: Call)
    requires Allowed(h, c) && Whole(h, ls)
  {
    !c.Registration? && !c.NewDevice? && RobsWith(h, c, ls[Target(h, c)])
  }

  /** Where no device goes and a new service has one, every service keeps one. */
  lemma GrowsAnchored(h: Heap, h': Heap, s: Addr)
    requires Anchored(h) && h.devices.Keys <= h'.devices.Keys
    requires forall t | t in h'.services && t != s :: t in h.services && h'.services[t] == h.services[t]
    requires s in h'.services ==> h'.services[s].device.To? && h'.services[s].device.addr in h'.devices
    ensures Anchored(h')
  {
  }

  lemma CallAnchoredIff(h: Heap, ls: Lists, c: Call, h': Heap, l: Links)
    requires Whole(h, ls) && Anchored(h) && Allowed(h, c) && Does(h, c, h', l)
    ensures Anchored(h') <==> !Robs(h, ls, c)
  {
    if !c.Registration? && !c.NewDevice? {
      TargetList(h, ls, c, h', l);
    }
    if c.NewService? {
      hide Anchored, Whole, Sound, IsHeapList, Refused;
      GrowsAnchored(h, h', c.service);
    } else if c.DestroyServiceCall? || c.DestroyDeviceCall? {
      hide Anchored, Whole, Does, RobsWith;
      DestroyAnchoredIff(h, c, h', l);
    }
  }

  lemma DestroyAnchoredIff(h: Heap, c: Call, h': Heap, l: Links)
    requires Anchored(h) && Allowed(h, c) && Does(h, c, h', l) && (c.DestroyServiceCall? || c.DestroyDeviceCall?)
    ensures Allocated(h.services, l.ss) && (Anchored(h') <==> !RobsWith(h, c, l))
  {
    var d := Target(h, c);
    if c.DestroyServiceCall? {
      var s := h.services[c.service];
      hide Anchored, IsHeapList, Match, SameElsewhere;
      if KeyOf(h.devices[d], s) !in h.registered {
        FreesAnothersDeviceIff(h, h', c.service, d, l.es, l.ss, Match(h.services, l.ss, s));
      }
    } else {
      hide Anchored, IsHeapList, FirstRegistered, Complete;
      DeviceFreesAnothersIff(h, h', d, l.es, l.ss, FirstRegistered(h, h.devices[d], l.ss));
    }
  }

  /** Every allocated service has an allocated device and is on its list. */
  ghost predicate AllListed(h: Heap, ls: Lists) {
    Anchored(h) && AllComplete(h, ls)
  }

  ghost predicate AllComplete(h: Heap, ls: Lists) {
    forall d | d in ls :: Complete(h, d, ls[d].ss)
  }

  /** Where every service is listed no call takes a device away. */
  lemma ListedNotRobbed(h: Heap, ls: Lists, c: Call)
    requires Whole(h, ls) && AllListed(h, ls) && Allowed(h, c)
    ensures !Robs(h, ls, c)
  {
    if c.DestroyServiceCall? {
      var d, s := Target(h, c), c.service;
      assert Sound(h, d, ls[d]);
      HeadIs(h, d, ls[d].es, ls[d].ss);
      assert s in ls[d].ss;
      hide Sound, Match;
      if |ls[d].ss| == 1 {
        assert ls[d].ss == [s];
      }
    }
  }

  lemma CallKeepsListed(h: Heap, ls: Lists, c: Call, h': Heap, l: Links)
    requires Whole(h, ls) && AllListed(h, ls) && Allowed(h, c) && Does(h, c, h', l)
    requires c.NewService? ==> !Refused(h, c, ls[c.device].ss)
    ensures AllListed(h', ListsAfter(h, c, ls))
  {
    CallAnchoredIff(h, ls, c, h', l);
    ListedNotRobbed(h, ls, c);
    CallKeepsComplete(h, ls, c, h', l, ListsAfter(h, c, ls));
  }

  lemma CallKeepsComplete(h: Heap, ls: Lists, c: Call, h': Heap, l: Links, ls': Lists)
    requires Whole(h, ls) && AllListed(h, ls) && Allowed(h, c) && Does(h, c, h', l)
    requires (c.NewService? ==> !Refused(h, c, ls[c.device].ss)) && ls' == ListsAfter(h, c, ls)
    ensures AllComplete(h', ls')
  {
    match c
    case NewDevice(_, _, _) =>
    case NewService(_, _, d, s, a) =>
      TargetList(h, ls, c, h', l);
      NewServiceListed(h, ls, h', d, s, a);
    case DestroyServiceCall(s) =>
      TargetList(h, ls, c, h', l);
      assert Sound(h, Target(h, c), l);
      DestroyServiceListed(h, ls, h', Target(h, c), s, ls');
    case DestroyDeviceCall(d) =>
      TargetList(h, ls, c, h', l);
      DestroyDeviceListed(h, ls, h', d, FirstRegistered(h, h.devices[d], l.ss), ls');
    case Registration(_) =>
  }

  lemma NewServiceListed(h: Heap, ls: Lists, h': Heap, d: Addr, s: Addr, a: Addr)
    requires AllComplete(h, ls) && d in ls && s !in h.services && s in h'.services
    requires h'.services == h.services[s := h'.services[s]] && h'.services[s].device == To(d)
    ensures AllComplete(h', ls[d := Links(ls[d].es + [a], ls[d].ss + [s])])
  {
    hide Complete;
    CreatedComplete(h, h', s, d);
  }

  lemma DestroyServiceListed(h: Heap, ls: Lists, h': Heap, d: Addr, s: Addr, ls': Lists)
    requires AllComplete(h, ls) && d in ls && Allocated(h.services, ls[d].ss) && DuplicateFree(h.services, ls[d].ss)
    requires s in h.services && h.services[s].device == To(d)
    requires (h' == h && ls' == ls)
             || (h'.services == h.services - {s}
                 && var k := Match(h.services, ls[d].ss, h.services[s]);
                    ls' == ls - {d} || ls' == ls[d := Links(Without(ls[d].es, k), Without(ls[d].ss, k))])
    ensures AllComplete(h', ls')
  {
    assert Complete(h, d, ls[d].ss);
    hide Complete, Match, Without, DuplicateFree;
    if h' != h || ls' != ls {
      DestroyedComplete(h, h', s, d, ls[d].ss);
    }
  }

  lemma DestroyDeviceListed(h: Heap, ls: Lists, h': Heap, d: Addr, n: nat, ls': Lists)
    requires AllComplete(h, ls) && d in ls && n <= |ls[d].ss| == |ls[d].es|
    requires h'.services == h.services - Range(ls[d].ss[..n])
    requires ls' == ls - {d} || ls' == ls[d := Links(ls[d].es[n..], ls[d].ss[n..])]
    ensures AllComplete(h', ls')
  {
    assert Complete(h, d, ls[d].ss);
    hide Complete, Range;
    FreedComplete(h, h', d, ls[d].ss, n);
  }

  /** A created service is one more of its device and none of another. */
  lemma CreatedComplete(h: Heap, h': Heap, s: Addr, d: Addr)
    requires s !in h.services && s in h'.services && h'.services == h.services[s := h'.services[s]]
    requires h'.services[s].device == To(d)
    ensures forall ss | Complete(h, d, ss) :: Complete(h', d, ss + [s])
    ensures forall e, ss | e != d && Complete(h, e, ss) :: Complete(h', e, ss)
  {
  }

  /** What is left of the list holds what is left of the services. */
  lemma FreedComplete(h: Heap, h': Heap, d: Addr, ss: seq<Addr>, n: nat)
    requires n <= |ss| && h'.services == h.services - Range(ss[..n]) && Complete(h, d, ss)
    ensures Complete(h', d, ss[n..])
    ensures forall e, t | Complete(h, e, t) :: Complete(h', e, t)
  {
    assert ss == ss[..n] + ss[n..];
  }

  /** The list without the destroyed service still holds all other services of its device, and so do other lists. */
  lemma {:induction false} DestroyedComplete(h: Heap, h': Heap, s: Addr, d: Addr, ss: seq<Addr>)
    requires Allocated(h.services, ss) && DuplicateFree(h.services, ss) && Complete(h, d, ss)
    requires s in h.services && h.services[s].device == To(d) && h'.services == h.services - {s}
    ensures Complete(h', d, Without(ss, Match(h.services, ss, h.services[s])))
    ensures forall e, t | Complete(h, e, t) :: Complete(h', e, t)
  {
    var j :| 0 <= j < |ss| && ss[j] == s;
    OwnPosition(h.services, ss, j);
    WithoutFacts(h.services, ss, j);
    hide Match, Without;
  }

  // ---------------------------------------------------------------- runs

  /** The heaps between the calls, from an empty one. */
  ghost predicate IsRun(hs: seq<Heap>, calls: seq<Call>) {
    && |hs| == |calls| + 1 && hs[0].services == map[] && hs[0].elements == map[] && hs[0].devices == map[]
    && forall k | 0 <= k < |calls| :: Allowed(hs[k], calls[k]) && Performs(hs[k], calls[k], hs[k + 1])
  }

  ghost predicate Performs(h: Heap, c: Call, h': Heap)
    requires Allowed(h, c)
  {
    exists l :: Does(h, c, h', l)
  }

  lemma PerformsKeeps(h: Heap, ls: Lists, c: Call, h': Heap)
    requires Whole(h, ls) && Allowed(h, c) && Performs(h, c, h')
    ensures Whole(h', ListsAfter(h, c, ls))
    ensures Anchored(h) ==> (Anchored(h') <==> !Robs(h, ls, c))
    ensures AllListed(h, ls) && (c.NewService? ==> !Refused(h, c, ls[c.device].ss)) ==>
              AllListed(h', ListsAfter(h, c, ls))
  {
    var l :| Does(h, c, h', l);
    hide Does, Whole, Robs, Anchored, AllListed, Refused, ListsAfter;
    CallKeepsWhole(h, ls, c, h', l);
    if Anchored(h) {
      CallAnchoredIff(h, ls, c, h', l);
    }
    if AllListed(h, ls) && (c.NewService? ==> !Refused(h, c, ls[c.device].ss)) {
      CallKeepsListed(h, ls, c, h', l);
    }
  }

  /** After any calls every allocated device has a well formed list of its own, and these are they. */
  ghost function ListsAt(hs: seq<Heap>, calls: seq<Call>, k: nat): (ls: Lists)
    requires IsRun(hs, calls) && k < |hs|
    ensures Whole(hs[k], ls)
  {
    if k == 0 then map[]
    else
      PerformsKeeps(hs[k - 1], ListsAt(hs, calls, k - 1), calls[k - 1], hs[k]);
      ListsAfter(hs[k - 1], calls[k - 1], ListsAt(hs, calls, k - 1))
  }

  lemma {:induction false} AnchoredUpTo(hs: seq<Heap>, calls: seq<Call>, k: nat)
    requires IsRun(hs, calls) && k < |hs|
    requires forall i | 0 <= i < k :: !Robs(hs[i], ListsAt(hs, calls, i), calls[i])
    ensures Anchored(hs[k])
  {
    hide Robs, Whole, ListsAfter, Performs;
    if k > 0 {
      AnchoredUpTo(hs, calls, k - 1);
      PerformsKeeps(hs[k - 1], ListsAt(hs, calls, k - 1), calls[k - 1], hs[k]);
    }
  }

  /**
   In any run, every allocated service keeps an allocated device throughout exactly when no call robs one: a
   service destroyed as the last listed one, or a device destroyed, while another allocated service has the
   device.
   */
  lemma {:induction false} ServicesKeepDevicesIff(hs: seq<Heap>, calls: seq<Call>)
    requires IsRun(hs, calls)
    ensures (forall k | 0 <= k < |hs| :: Anchored(hs[k]))
            <==> forall k | 0 <= k < |calls| :: !Robs(hs[k], ListsAt(hs, calls, k), calls[k])
  {
    hide Robs, Whole, ListsAt, Performs, Anchored;
    if forall k | 0 <= k < |hs| :: Anchored(hs[k]) {
      forall k | 0 <= k < |calls| ensures !Robs(hs[k], ListsAt(hs, calls, k), calls[k]) {
        assert Anchored(hs[k]) && Anchored(hs[k + 1]);
        PerformsKeeps(hs[k], ListsAt(hs, calls, k), calls[k], hs[k + 1]);
      }
    }
    if forall k | 0 <= k < |calls| :: !Robs(hs[k], ListsAt(hs, calls, k), calls[k]) {
      forall k | 0 <= k < |hs| ensures Anchored(hs[k]) {
        AnchoredUpTo(hs, calls, k);
      }
    }
  }

  /**
   In a run in which no creation is refused every allocated service is at all times on the list of its own
   allocated device.
   */
  lemma {:induction false} UnrefusedStayListed(hs: seq<Heap>, calls: seq<Call>, k: nat)
    requires IsRun(hs, calls) && k < |hs|
    requires forall i | 0 <= i < k && calls[i].NewService? ::
               !Refused(hs[i], calls[i], ListsAt(hs, calls, i)[calls[i].device].ss)
    ensures AllListed(hs[k], ListsAt(hs, calls, k))
  {
    if k > 0 {
      UnrefusedStayListed(hs, calls, k - 1);
      hide AllListed, Refused, Whole, ListsAfter, Performs;
      PerformsKeeps(hs[k - 1], ListsAt(hs, calls, k - 1), calls[k - 1], hs[k]);
    }
  }

  // ---------------------------------------------------------------- the calls in place

  /** One call on the heap in memory, l being the list of the device it works on. */
  method PerformOn(mem: Memory, c: Call, ghost l: Links)
    requires Allowed(mem.Value(), c)
    requires !c.Registration? && !c.NewDevice? ==> Sound(mem.Value(), Target(mem.Value(), c), l)
    modifies mem
    ensures Does(old(mem.Value()), c, mem.Value(), l)
  {
    hide IsHeapList, Named, DuplicateFree, Match, FirstRegistered, Without, Anchored, Complete;
    match c {
      case NewDevice(d, dtype, id) =>
        mem.CreateDevice(d, dtype, id);
      case NewService(stype, sid, d, s, a) =>
        var status := mem.CreateService(stype, sid, d, s, a, l.es, l.ss);
      case DestroyServiceCall(s) =>
        var status := mem.DestroyService(s, mem.services[s].device.addr, l.es, l.ss);
      case DestroyDeviceCall(d) =>
        var status := mem.DestroyDevice(d, l.es, l.ss);
      case Registration(keys) =>
        mem.registered := keys;
    }
  }

  /** So the calls in place are the steps of the runs. */
  method Perform(mem: Memory, c: Call, ghost ls: Lists)
    requires Allowed(mem.Value(), c) && Whole(mem.Value(), ls)
    modifies mem
    ensures Performs(old(mem.Value()), c, mem.Value()) && Whole(mem.Value(), ListsAfter(old(mem.Value()), c, ls))
  {
    ghost var h := mem.Value();
    ghost var l := if c.Registration? || c.NewDevice? then Links([], []) else ls[Target(h, c)];
    hide Sound, Does, ListsAfter;
    PerformOn(mem, c, l);
    PerformsKeeps(h, ls, c, mem.Value());
  }
}
