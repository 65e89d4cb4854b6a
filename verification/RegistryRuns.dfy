/**
 The list and the XML tree after any register and unregister calls, as functions of the calls: which
 services and devices they hold and in which order, and what each call reports.
 */
module RegistryRuns {
  import opened Basics
  import opened Urls
  import opened Registry

  /** What each call reports after any calls on plain keys: by the keys that are live. */
  lemma {:induction false} CodesTell(calls: seq<Call>, s: Service)
    requires forall i | 0 <= i < |calls| :: Plain(KeyOf(calls[i].service))
    requires Plain(KeyOf(s))
    ensures Register(Run(calls), s).1 == AlreadyRegistered <==> !s.device.secure && KeyOf(s) in Live(calls)
    ensures Register(Run(calls), s).1 == Success <==> !s.device.secure && KeyOf(s) !in Live(calls)
    ensures Register(Run(calls), s).1 == NoHttps <==> s.device.secure
    ensures Unregister(Run(calls), s).1 == Success <==> !s.device.secure && KeyOf(s) in Live(calls)
    ensures Unregister(Run(calls), s).1 == NotRegistered <==> s.device.secure || KeyOf(s) !in Live(calls)
  {
    StoresAgree(calls);
    hide Run, Live;
    assert Registered(Run(calls).list, KeyOf(s)) <==> KeyOf(s) in Live(calls);
    assert Registered(Run(calls).list, KeyOf(s)) <==> InXml(Run(calls).xml, KeyOf(s));
  }

  /** The services of the list whose key is another. */
  function Others(list: seq<Service>, k: Key): seq<Service> {
    if list == [] then [] else (if KeyOf(list[0]) == k then [] else [list[0]]) + Others(list[1..], k)
  }

  /** The services registered and not unregistered since, in the order they came, from the calls and keys alone. */
  function LiveServices(calls: seq<Call>): seq<Service> {
    if calls == [] then []
    else
      var before, s := LiveServices(calls[..|calls| - 1]), calls[|calls| - 1].service;
      if s.device.secure then before
      else if calls[|calls| - 1].UnregisterCall? then Others(before, KeyOf(s))
      else if KeyOf(s) in Live(calls[..|calls| - 1]) then before
      else before + [s]
  }

  lemma {:induction false} OthersAll(list: seq<Service>, k: Key)
    requires forall i | 0 <= i < |list| :: KeyOf(list[i]) != k
    ensures Others(list, k) == list
  {
    if list != [] {
      OthersAll(list[1..], k);
      assert list == [list[0]] + list[1..];
    }
  }

  /** On a list without duplicates, taking out one service is keeping those with other keys. */
  lemma {:induction false} OthersWithout(list: seq<Service>, f: nat)
    requires ListUnique(list) && f < |list|
    ensures Others(list, KeyOf(list[f])) == Without(list, f)
  {
    hide KeyOf, Without;
    var rest := list[1..];
    WithoutCons(list, f);
    assert forall i | 0 <= i < |rest| :: rest[i] == list[i + 1];
    if f == 0 {
      OthersAll(rest, KeyOf(list[0]));
    } else {
      assert KeyOf(list[0]) != KeyOf(list[f]);
      OthersWithout(rest, f - 1);
    }
  }

  /** After any calls on plain keys the list is exactly the services registered and not unregistered since. */
  lemma {:induction false} ListIsLive(calls: seq<Call>)
    requires forall i | 0 <= i < |calls| :: Plain(KeyOf(calls[i].service))
    ensures Run(calls).list == LiveServices(calls)
  {
    if calls != [] {
      var before, s := calls[..|calls| - 1], calls[|calls| - 1].service;
      ListIsLive(before);
      StoresAgree(before);
      var list := Run(before).list;
      hide Plain, KeyUrl;
      if calls[|calls| - 1].UnregisterCall? && !s.device.secure {
        LiveTaken(Run(before), s);
      } else {
        assert Registered(list, KeyOf(s)) <==> KeyOf(s) in Live(before);
      }
    }
  }

  /** The list after an unregister call, by keys. */
  lemma {:induction false} LiveTaken(r: Stores, s: Service)
    requires Consistent(r) && AllPlain(r.list) && Plain(KeyOf(s)) && !s.device.secure
    ensures Unregister(r, s).0.list == Others(r.list, KeyOf(s))
  {
    RegisteredIff(r.list, KeyOf(s));
    if Registered(r.list, KeyOf(s)) {
      LookupsAgree(r.list, KeyOf(s));
      var f := First(r.list, SameKey(KeyOf(s)));
      assert SameKey(KeyOf(s))(r.list[f]);
      OthersWithout(r.list, f);
    } else {
      OthersAll(r.list, KeyOf(s));
    }
  }

  // ---------------------------------------------------------------- the tree

  /** A device's type and ID. */
  type DeviceName = (string, string)

  function NameOf(k: Key): DeviceName {
    (k.dtype, k.did)
  }

  /** The devices of the registered services in the order they first came; none ever leaves the tree. */
  function DevicesSeen(calls: seq<Call>): seq<DeviceName> {
    if calls == [] then []
    else
      var before, c := DevicesSeen(calls[..|calls| - 1]), calls[|calls| - 1];
      if c.RegisterCall? && !c.service.device.secure && NameOf(KeyOf(c.service)) !in before
      then before + [NameOf(KeyOf(c.service))] else before
  }

  function EntryOf(s: Service): Entry {
    Entry(s.stype, s.sid)
  }

  /** es with e behind it, where it is wanted. */
  function Put(es: seq<Entry>, e: Entry, wanted: bool): seq<Entry> {
    if wanted then es + [e] else es
  }

  /** The entries of a device's services, in the order of the list. */
  function EntriesOf(list: seq<Service>, d: DeviceName): seq<Entry> {
    if list == [] then []
    else
      var last := list[|list| - 1];
      Put(EntriesOf(list[..|list| - 1], d), EntryOf(last), NameOf(KeyOf(last)) == d)
  }

  /** The tree with one node for each device, holding its services. */
  function TreeOf(devices: seq<DeviceName>, list: seq<Service>): seq<DeviceNode> {
    seq(|devices|, i requires 0 <= i < |devices| =>
      DeviceNode(devices[i].0, devices[i].1, EntriesOf(list, devices[i])))
  }

  lemma {:induction false} EntriesSnoc(list: seq<Service>, s: Service, d: DeviceName)
    ensures EntriesOf(list + [s], d) == Put(EntriesOf(list, d), EntryOf(s), NameOf(KeyOf(s)) == d)
  {
    assert (list + [s])[..|list|] == list;
  }

  lemma {:induction false} NoEntries(list: seq<Service>, d: DeviceName)
    requires forall i | 0 <= i < |list| :: NameOf(KeyOf(list[i])) != d
    ensures EntriesOf(list, d) == []
  {
    if list != [] {
      NoEntries(list[..|list| - 1], d);
    }
  }

  /** Every listed service's device is among these. */
  ghost predicate Covers(devices: seq<DeviceName>, list: seq<Service>) {
    forall i | 0 <= i < |list| :: NameOf(KeyOf(list[i])) in devices
  }

  /** The node of k's device is at its position among the devices. */
  lemma {:induction false} DeviceAt(devices: seq<DeviceName>, list: seq<Service>, k: Key) returns (i: nat)
    requires Distinct(devices)
    ensures i == First(TreeOf(devices, list), IsDevice(k)) <= |devices|
    ensures i < |devices| ==> devices[i] == NameOf(k)
    ensures i == |devices| <==> NameOf(k) !in devices
  {
    var xml := TreeOf(devices, list);
    i := First(xml, IsDevice(k));
    if i < |devices| {
      assert IsDevice(k)(xml[i]);
    }
    forall j | 0 <= j < i ensures devices[j] != NameOf(k) {
      assert !IsDevice(k)(xml[j]);
    }
  }

  /** Registering a new service adds its entry last under its device, which comes last when it is new. */
  lemma {:induction false} TreeGrows(devices: seq<DeviceName>, list: seq<Service>, s: Service)
    requires Distinct(devices) && Covers(devices, list) && !InXml(TreeOf(devices, list), KeyOf(s))
    ensures var d := NameOf(KeyOf(s));
            AddToXml(TreeOf(devices, list), KeyOf(s))
            == TreeOf(if d in devices then devices else devices + [d], list + [s])
  {
    var d, xml := NameOf(KeyOf(s)), TreeOf(devices, list);
    var i := DeviceAt(devices, list, KeyOf(s));
    var devices' := if d in devices then devices else devices + [d];
    if i == |devices| {
      NoEntries(list, d);
    }
    hide EntriesOf, First, InXml;
    var xml' := AddToXml(xml, KeyOf(s));
    forall j | 0 <= j < |devices'| ensures xml'[j] == TreeOf(devices', list + [s])[j] {
      EntriesSnoc(list, s, devices'[j]);
      assert j < |devices| && j != i ==> devices[j] != d;
    }
    assert |xml'| == |devices'|;
  }

  // ---------------------------------------------------------------- taking an entry out

  lemma {:induction false} EntryListed(list: seq<Service>, d: DeviceName, e: Entry)
    ensures e in EntriesOf(list, d)
            <==> exists i :: 0 <= i < |list| && NameOf(KeyOf(list[i])) == d && EntryOf(list[i]) == e
  {
    if list != [] {
      var before, last := list[..|list| - 1], list[|list| - 1];
      EntryListed(before, d, e);
      if i :| 0 <= i < |before| && NameOf(KeyOf(before[i])) == d && EntryOf(before[i]) == e {
        assert list[i] == before[i];
      }
      if i :| 0 <= i < |list| && NameOf(KeyOf(list[i])) == d && EntryOf(list[i]) == e {
        assert i < |before| ==> before[i] == list[i];
      }
    }
  }

  lemma {:induction false} OthersSnoc(list: seq<Service>, s: Service, k: Key)
    ensures Others(list + [s], k) == if KeyOf(s) == k then Others(list, k) else Others(list, k) + [s]
  {
    if list == [] {
      assert list + [s] == [s];
    } else {
      assert (list + [s])[1..] == list[1..] + [s];
      OthersSnoc(list[1..], s, k);
    }
  }

  /** The entries but one. */
  function Except(es: seq<Entry>, e: Entry): seq<Entry> {
    if es == [] then [] else Put(Except(es[..|es| - 1], e), es[|es| - 1], es[|es| - 1] != e)
  }

  lemma {:induction false} ExceptSnoc(es: seq<Entry>, x: Entry, e: Entry)
    ensures Except(es + [x], e) == Put(Except(es, e), x, x != e)
  {
    assert (es + [x])[..|es|] == es;
  }

  lemma {:induction false} SameKeyIff(s: Service, k: Key)
    ensures KeyOf(s) == k <==> NameOf(KeyOf(s)) == NameOf(k) && EntryOf(s) == Entry(k.stype, k.sid)
  {
  }

  lemma {:induction false} PutWhen(es: seq<Entry>, e: Entry)
    ensures Put(es, e, true) == es + [e] && Put(es, e, false) == es
  {
  }

  /** Without a key's service, its device's entries are those but one and other devices' are the same. */
  lemma {:induction false} EntriesOthers(list: seq<Service>, k: Key, d: DeviceName)
    ensures EntriesOf(Others(list, k), d)
            == if d == NameOf(k) then Except(EntriesOf(list, d), Entry(k.stype, k.sid)) else EntriesOf(list, d)
  {
    if list != [] {
      var before, last := list[..|list| - 1], list[|list| - 1];
      assert list == before + [last];
      EntriesOthers(before, k, d);
      OthersSnoc(before, last, k);
      EntriesSnoc(before, last, d);
      hide EntriesOf, Others, Except, Put;
      SameKeyIff(last, k);
      if KeyOf(last) != k {
        EntriesSnoc(Others(before, k), last, d);
      }
      ExceptSnoc(EntriesOf(before, d), EntryOf(last), Entry(k.stype, k.sid));
      PutWhen(Except(EntriesOf(before, d), Entry(k.stype, k.sid)), EntryOf(last));
      PutWhen(EntriesOf(before, d), EntryOf(last));
      PutWhen(EntriesOf(Others(before, k), d), EntryOf(last));
    }
  }

  lemma {:induction false} ExceptNone(es: seq<Entry>, e: Entry)
    requires e !in es
    ensures Except(es, e) == es
  {
    if es != [] {
      assert es == es[..|es| - 1] + [es[|es| - 1]];
      ExceptNone(es[..|es| - 1], e);
    }
  }

  lemma {:induction false} ExceptIsWithout(es: seq<Entry>, e: Entry, f: nat)
    requires EntriesUnique(es) && f < |es| && es[f] == e
    ensures Except(es, e) == Without(es, f)
  {
    var before, last := es[..|es| - 1], es[|es| - 1];
    assert es == before + [last];
    if f == |es| - 1 {
      assert forall i | 0 <= i < |before| :: before[i] == es[i] != es[f];
      ExceptNone(before, e);
    } else {
      assert before[f] == e && last != e;
      ExceptIsWithout(before, e, f);
      WithoutSnoc(before, last, f);
    }
  }

  lemma {:induction false} WithoutSnoc<E>(s: seq<E>, x: E, k: nat)
    requires k < |s|
    ensures Without(s + [x], k) == Without(s, k) + [x]
  {
  }

  /** Unregistering takes the entry out from under its device and leaves the device. */
  lemma {:induction false} TreeShrinks(devices: seq<DeviceName>, list: seq<Service>, k: Key)
    requires Distinct(devices) && XmlUnique(TreeOf(devices, list)) && InXml(TreeOf(devices, list), k)
    ensures RemoveFromXml(TreeOf(devices, list), k) == TreeOf(devices, Others(list, k))
  {
    var xml := TreeOf(devices, list);
    var i := First(xml, Holds(k));
    HoldsIff(xml[i], k);
    var es := xml[i].services;
    var f, e := First(es, IsEntry(k)), Entry(k.stype, k.sid);
    assert IsEntry(k)(es[f]) && es[f] == e;
    ExceptIsWithout(es, e, f);
    assert devices[i] == NameOf(k) && EntriesUnique(es);
    hide EntriesOf, Others, Except, First, Without, XmlUnique;
    var xml' := RemoveFromXml(xml, k);
    forall j | 0 <= j < |devices| ensures xml'[j] == TreeOf(devices, Others(list, k))[j] {
      EntriesOthers(list, k, devices[j]);
      assert j != i ==> devices[j] != devices[i];
    }
    assert |xml'| == |devices|;
  }

  lemma {:induction false} CoversOthers(devices: seq<DeviceName>, list: seq<Service>, k: Key)
    requires Covers(devices, list)
    ensures Covers(devices, Others(list, k))
  {
    if list != [] {
      assert forall i | 0 <= i < |list| - 1 :: list[1..][i] == list[i + 1];
      CoversOthers(devices, list[1..], k);
    }
  }

  /**
   After any calls on plain keys the tree is: a node for every device that was ever registered, in that order,
   holding the entries of its services that are registered and not unregistered since, in their order.
   */
  lemma {:induction false} TreeIsLive(calls: seq<Call>)
    requires forall i | 0 <= i < |calls| :: Plain(KeyOf(calls[i].service))
    ensures Run(calls).xml == TreeOf(DevicesSeen(calls), LiveServices(calls))
    ensures Distinct(DevicesSeen(calls)) && Covers(DevicesSeen(calls), LiveServices(calls))
  {
    if calls != [] {
      var before, c := calls[..|calls| - 1], calls[|calls| - 1];
      TreeIsLive(before);
      ListIsLive(before);
      StoresAgree(before);
      TreeStep(Run(before), DevicesSeen(before), c);
      assert Registered(Run(before).list, KeyOf(c.service)) <==> KeyOf(c.service) in Live(before);
      hide Do, TreeOf, Others, Plain, KeyUrl, Covers;
      StepLists(calls);
    }
  }

  /** The devices and services after one more call. */
  lemma {:induction false} StepLists(calls: seq<Call>)
    requires calls != []
    ensures var before, c := calls[..|calls| - 1], calls[|calls| - 1];
            && Run(calls) == Do(Run(before), c)
            && DevicesSeen(calls) == DevicesAfter(DevicesSeen(before), c)
            && LiveServices(calls) == ListAfter(LiveServices(before), c, KeyOf(c.service) in Live(before))
  {
  }

  function DevicesAfter(devices: seq<DeviceName>, c: Call): seq<DeviceName> {
    if c.RegisterCall? && !c.service.device.secure && NameOf(KeyOf(c.service)) !in devices
    then devices + [NameOf(KeyOf(c.service))] else devices
  }

  function ListAfter(list: seq<Service>, c: Call, live: bool): seq<Service> {
    if c.service.device.secure then list
    else if c.UnregisterCall? then Others(list, KeyOf(c.service))
    else if live then list else list + [c.service]
  }

  lemma {:induction false} TreeStep(r: Stores, devices: seq<DeviceName>, c: Call)
    requires Consistent(r) && AllPlain(r.list) && Plain(KeyOf(c.service))
    requires r.xml == TreeOf(devices, r.list) && Distinct(devices) && Covers(devices, r.list)
    ensures var list' := ListAfter(r.list, c, Registered(r.list, KeyOf(c.service)));
            && Do(r, c).xml == TreeOf(DevicesAfter(devices, c), list')
            && Distinct(DevicesAfter(devices, c)) && Covers(DevicesAfter(devices, c), list')
  {
    var s, k := c.service, KeyOf(c.service);
    assert Registered(r.list, k) <==> InXml(r.xml, k);
    RegisteredIff(r.list, k);
    if !s.device.secure {
      if c.UnregisterCall? {
        CoversOthers(devices, r.list, k);
        if Registered(r.list, k) {
          hide TreeOf, Covers, Others, Registered, InXml, RemoveFromXml;
          TreeShrinks(devices, r.list, k);
        } else {
          OthersAll(r.list, k);
        }
      } else if !Registered(r.list, k) {
        hide TreeOf, InXml, AddToXml;
        TreeGrows(devices, r.list, s);
      }
    }
  }
}
