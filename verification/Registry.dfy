/**
 Registration with the unsecure server enabled: the server's service list and the XML tree of
 devices and services, which every call updates one after the other.
 */
module Registry {
  import opened Basics
  import opened Urls

  datatype Code = Success | AlreadyRegistered | NotRegistered | NoHttps | XmlError

  datatype Entry = Entry(stype: string, sid: string)

  /** A device element of the XML tree and its service children. */
  datatype DeviceNode = DeviceNode(dtype: string, id: string, services: seq<Entry>)

  datatype Stores = Stores(list: seq<Service>, xml: seq<DeviceNode>)

  /** The position of the first element that satisfies p, or the length. */
  function First<E>(xs: seq<E>, p: E -> bool): (k: nat)
    ensures k <= |xs| && (k < |xs| ==> p(xs[k])) && forall i | 0 <= i < k :: !p(xs[i])
  {
    if xs == [] then 0 else if p(xs[0]) then 0 else 1 + First(xs[1..], p)
  }

  function SameKey(k: Key): Service -> bool {
    (s: Service) => KeyOf(s) == k
  }

  function SameUrl(url: string): Service -> bool {
    (s: Service) => Url(s) == url
  }

  function IsDevice(k: Key): DeviceNode -> bool {
    (n: DeviceNode) => n.dtype == k.dtype && n.id == k.did
  }

  function IsEntry(k: Key): Entry -> bool {
    (e: Entry) => e.stype == k.stype && e.sid == k.sid
  }

  /** The device node of k that has k's service as a child. */
  function Holds(k: Key): DeviceNode -> bool {
    (n: DeviceNode) => IsDevice(k)(n) && First(n.services, IsEntry(k)) < |n.services|
  }

  /** is_unsecure_service_registered */
  predicate Registered(list: seq<Service>, k: Key) {
    First(list, SameKey(k)) < |list|
  }

  /** service_is_in_xml_file */
  predicate InXml(xml: seq<DeviceNode>, k: Key) {
    First(xml, Holds(k)) < |xml|
  }

  /** add_service_to_xml */
  function AddToXml(xml: seq<DeviceNode>, k: Key): seq<DeviceNode> {
    if InXml(xml, k) then xml
    else
      var i := First(xml, IsDevice(k));
      if i == |xml| then xml + [DeviceNode(k.dtype, k.did, [Entry(k.stype, k.sid)])]
      else xml[i := xml[i].(services := xml[i].services + [Entry(k.stype, k.sid)])]
  }

  /** remove_service_from_XML */
  function RemoveFromXml(xml: seq<DeviceNode>, k: Key): seq<DeviceNode> {
    var i := First(xml, Holds(k));
    if i == |xml| then xml
    else xml[i := xml[i].(services := Without(xml[i].services, First(xml[i].services, IsEntry(k))))]
  }

  /** register_service_in_server */
  function Register(r: Stores, s: Service): (Stores, Code) {
    if s.device.secure then (r, NoHttps)
    else if Registered(r.list, KeyOf(s)) then (r, AlreadyRegistered)
    else (Stores(r.list + [s], AddToXml(r.xml, KeyOf(s))), Success)
  }

  /** unregister_service_in_server: the list is searched by URL, the XML tree by the four keys. */
  function Unregister(r: Stores, s: Service): (Stores, Code) {
    if s.device.secure || !Registered(r.list, KeyOf(s)) then (r, NotRegistered)
    else
      var list := Without(r.list, First(r.list, SameUrl(Url(s))));
      if !InXml(r.xml, KeyOf(s)) then (Stores(list, r.xml), XmlError)
      else (Stores(list, RemoveFromXml(r.xml, KeyOf(s))), Success)
  }

  // ---------------------------------------------------------------- consistency

  ghost predicate ListUnique(list: seq<Service>) {
    forall i, j | 0 <= i < j < |list| :: KeyOf(list[i]) != KeyOf(list[j])
  }

  ghost predicate XmlUnique(xml: seq<DeviceNode>) {
    && (forall i, j | 0 <= i < j < |xml| :: xml[i].dtype != xml[j].dtype || xml[i].id != xml[j].id)
    && (forall i | 0 <= i < |xml| :: EntriesUnique(xml[i].services))
  }

  ghost predicate EntriesUnique(es: seq<Entry>) {
    forall i, j | 0 <= i < j < |es| :: es[i] != es[j]
  }

  /** The list and the tree hold the same services, without duplicates, one node per device. */
  ghost predicate Consistent(r: Stores) {
    ListUnique(r.list) && XmlUnique(r.xml) && forall k :: Registered(r.list, k) <==> InXml(r.xml, k)
  }

  lemma RegisteredIff(list: seq<Service>, k: Key)
    ensures Registered(list, k) <==> exists i :: 0 <= i < |list| && KeyOf(list[i]) == k
  {
    if i :| 0 <= i < |list| && KeyOf(list[i]) == k {
      assert SameKey(k)(list[i]);
    }
    var f := First(list, SameKey(k));
    assert f < |list| ==> SameKey(k)(list[f]);
  }

  /** k's service is a child of node n. */
  ghost predicate Child(n: DeviceNode, k: Key) {
    n.dtype == k.dtype && n.id == k.did && Entry(k.stype, k.sid) in n.services
  }

  lemma HoldsDef(n: DeviceNode, k: Key)
    ensures Holds(k)(n) <==> n.dtype == k.dtype && n.id == k.did && First(n.services, IsEntry(k)) < |n.services|
  {
    var f := First(n.services, IsEntry(k));
    assert Holds(k)(n) == (IsDevice(k)(n) && f < |n.services|);
  }

  lemma HoldsIff(n: DeviceNode, k: Key)
    ensures Holds(k)(n) <==> Child(n, k)
  {
    var f := First(n.services, IsEntry(k));
    if f < |n.services| {
      assert IsEntry(k)(n.services[f]);
      assert n.services[f] == Entry(k.stype, k.sid);
    }
    if Entry(k.stype, k.sid) in n.services {
      var i :| 0 <= i < |n.services| && n.services[i] == Entry(k.stype, k.sid);
      assert IsEntry(k)(n.services[i]);
      assert f < |n.services|;
    }
    assert Holds(k)(n) == (IsDevice(k)(n) && f < |n.services|);
  }

  lemma InXmlIff(xml: seq<DeviceNode>, k: Key)
    ensures InXml(xml, k) <==> exists i :: 0 <= i < |xml| && Child(xml[i], k)
  {
    if i :| 0 <= i < |xml| && Child(xml[i], k) {
      HoldsIff(xml[i], k);
    }
    var f := First(xml, Holds(k));
    if f < |xml| {
      HoldsIff(xml[f], k);
    }
  }

  lemma AppendList(list: seq<Service>, s: Service, k: Key)
    ensures Registered(list + [s], k) <==> Registered(list, k) || k == KeyOf(s)
    ensures ListUnique(list) && !Registered(list, KeyOf(s)) ==> ListUnique(list + [s])
  {
    var t := list + [s];
    RegisteredIff(list, k);
    RegisteredIff(t, k);
    if Registered(list, k) {
      var i :| 0 <= i < |list| && KeyOf(list[i]) == k;
      assert KeyOf(t[i]) == k;
    }
    if k == KeyOf(s) {
      assert KeyOf(t[|list|]) == k;
    }
    RegisteredIff(list, KeyOf(s));
  }

  lemma DropList(list: seq<Service>, d: nat, k: Key)
    requires d < |list| && ListUnique(list)
    ensures Registered(Without(list, d), k) <==> Registered(list, k) && k != KeyOf(list[d])
    ensures ListUnique(Without(list, d))
  {
    var t := WithoutAt(list, d);
    hide Without, Registered, KeyOf;
    RegisteredIff(list, k);
    RegisteredIff(t, k);
    if Registered(list, k) && k != KeyOf(list[d]) {
      var i :| 0 <= i < |list| && KeyOf(list[i]) == k;
      assert KeyOf(t[if i < d then i else i - 1]) == k;
    }
    if Registered(t, k) {
      var i :| 0 <= i < |t| && KeyOf(t[i]) == k;
      assert KeyOf(list[if i < d then i else i + 1]) == k;
    }
  }

  /** Replacing a device node by one of the same device changes its own children only. */
  lemma PutNode(xml: seq<DeviceNode>, i: nat, n: DeviceNode, k: Key)
    requires i < |xml| && XmlUnique(xml) && n.dtype == xml[i].dtype && n.id == xml[i].id && EntriesUnique(n.services)
    ensures XmlUnique(xml[i := n])
    ensures InXml(xml[i := n], k) <==> if IsDevice(k)(n) then Child(n, k) else InXml(xml, k)
  {
    var t := xml[i := n];
    InXmlIff(xml, k);
    InXmlIff(t, k);
    if InXml(t, k) {
      var j :| 0 <= j < |t| && Child(t[j], k);
      assert j != i ==> Child(xml[j], k);
    }
    if Child(n, k) {
      assert Child(t[i], k);
    }
    if InXml(xml, k) && !IsDevice(k)(n) {
      var j :| 0 <= j < |xml| && Child(xml[j], k);
      assert j != i && Child(t[j], k);
    }
  }

  lemma AppendNode(xml: seq<DeviceNode>, n: DeviceNode, k: Key)
    requires XmlUnique(xml) && EntriesUnique(n.services)
    requires forall i | 0 <= i < |xml| :: xml[i].dtype != n.dtype || xml[i].id != n.id
    ensures XmlUnique(xml + [n])
    ensures InXml(xml + [n], k) <==> InXml(xml, k) || Child(n, k)
  {
    var t := xml + [n];
    InXmlIff(xml, k);
    InXmlIff(t, k);
    if InXml(xml, k) {
      var j :| 0 <= j < |xml| && Child(xml[j], k);
      assert Child(t[j], k);
    }
    if Child(n, k) {
      assert Child(t[|xml|], k);
    }
    if InXml(t, k) {
      var j :| 0 <= j < |t| && Child(t[j], k);
      assert j < |xml| ==> Child(xml[j], k);
    }
  }

  /** The device's children are the services the tree holds for it. */
  lemma OnlyNode(xml: seq<DeviceNode>, i: nat, k: Key)
    requires i < |xml| && XmlUnique(xml) && IsDevice(k)(xml[i])
    ensures InXml(xml, k) <==> Child(xml[i], k)
  {
    InXmlIff(xml, k);
    if InXml(xml, k) {
      var j :| 0 <= j < |xml| && Child(xml[j], k);
      assert j == i;
    }
  }

  lemma AddXmlEffect(xml: seq<DeviceNode>, k0: Key, k: Key)
    requires XmlUnique(xml)
    ensures XmlUnique(AddToXml(xml, k0))
    ensures InXml(AddToXml(xml, k0), k) <==> InXml(xml, k) || k == k0
  {
    if !InXml(xml, k0) {
      var i, e := First(xml, IsDevice(k0)), Entry(k0.stype, k0.sid);
      if i == |xml| {
        assert forall j | 0 <= j < |xml| :: !IsDevice(k0)(xml[j]);
        AppendNode(xml, DeviceNode(k0.dtype, k0.did, [e]), k);
      } else {
        OnlyNode(xml, i, k0);
        assert IsDevice(k0)(xml[i]);
        PutNode(xml, i, xml[i].(services := xml[i].services + [e]), k);
        if IsDevice(k)(xml[i]) {
          OnlyNode(xml, i, k);
        }
      }
    }
  }

  lemma DropEntry(es: seq<Entry>, e: Entry, d: nat)
    requires EntriesUnique(es) && d < |es| && es[d] == e
    ensures EntriesUnique(Without(es, d))
    ensures forall x :: x in Without(es, d) <==> x in es && x != e
  {
    var t := Without(es, d);
    assert forall i | 0 <= i < |t| :: t[i] == es[if i < d then i else i + 1];
    forall x | x in es && x != e ensures x in t {
      var i :| 0 <= i < |es| && es[i] == x;
      assert t[if i < d then i else i - 1] == x;
    }
  }

  lemma RemoveXmlEffect(xml: seq<DeviceNode>, k0: Key, k: Key)
    requires XmlUnique(xml)
    ensures XmlUnique(RemoveFromXml(xml, k0))
    ensures InXml(RemoveFromXml(xml, k0), k) <==> InXml(xml, k) && k != k0
  {
    var i := First(xml, Holds(k0));
    if i < |xml| {
      HoldsIff(xml[i], k0);
      var es, d := xml[i].services, First(xml[i].services, IsEntry(k0));
      assert IsEntry(k0)(es[d]) && es[d] == Entry(k0.stype, k0.sid);
      DropEntry(es, es[d], d);
      PutNode(xml, i, xml[i].(services := Without(es, d)), k);
      if IsDevice(k)(xml[i]) {
        OnlyNode(xml, i, k);
      }
    }
  }

  /** Both stores changed by the same key. */
  lemma SameChange(r: Stores, r': Stores, k0: Key, added: bool)
    requires Consistent(r) && ListUnique(r'.list) && XmlUnique(r'.xml)
    requires forall k :: Registered(r'.list, k) <==> if k == k0 then added else Registered(r.list, k)
    requires forall k :: InXml(r'.xml, k) <==> if k == k0 then added else InXml(r.xml, k)
    ensures Consistent(r')
  {
  }

  /** register_service_in_server keeps the two stores together, whatever the keys. */
  lemma RegisterKeeps(r: Stores, s: Service)
    requires Consistent(r)
    ensures Consistent(Register(r, s).0)
    ensures forall k :: Registered(Register(r, s).0.list, k) <==>
                          Registered(r.list, k) || (!s.device.secure && k == KeyOf(s))
  {
    hide Registered, InXml, AddToXml, XmlUnique, ListUnique;
    if !s.device.secure && !Registered(r.list, KeyOf(s)) {
      var r' := Register(r, s).0;
      AppendList(r.list, s, KeyOf(s));
      AddXmlEffect(r.xml, KeyOf(s), KeyOf(s));
      forall k ensures Registered(r'.list, k) <==> Registered(r.list, k) || k == KeyOf(s) {
        AppendList(r.list, s, k);
      }
      forall k ensures InXml(r'.xml, k) <==> InXml(r.xml, k) || k == KeyOf(s) {
        AddXmlEffect(r.xml, KeyOf(s), k);
      }
      SameChange(r, r', KeyOf(s), true);
    }
  }

  /** The first listed service with s's URL exists when s is registered. */
  lemma UrlListed(r: Stores, s: Service)
    requires Registered(r.list, KeyOf(s))
    ensures First(r.list, SameUrl(Url(s))) < |r.list|
  {
    RegisteredIff(r.list, KeyOf(s));
    var i :| 0 <= i < |r.list| && KeyOf(r.list[i]) == KeyOf(s);
    assert SameUrl(Url(s))(r.list[i]);
  }

  /**
   unregister_service_in_server keeps the two stores together exactly when the first listed service
   with the URL is one with the same four keys; then it removes just that service from both.
   */
  lemma UnregisterKeepsIff(r: Stores, s: Service)
    requires Consistent(r) && !s.device.secure && Registered(r.list, KeyOf(s))
    ensures var f := First(r.list, SameUrl(Url(s)));
            && f < |r.list| && Unregister(r, s).1 == Success
            && (Consistent(Unregister(r, s).0) <==> KeyOf(r.list[f]) == KeyOf(s))
            && (KeyOf(r.list[f]) == KeyOf(s) ==>
                  forall k :: Registered(Unregister(r, s).0.list, k) <==> Registered(r.list, k) && k != KeyOf(s))
  {
    UrlListed(r, s);
    hide Registered, InXml, RemoveFromXml, XmlUnique, ListUnique, First, Without;
    var f, r' := First(r.list, SameUrl(Url(s))), Unregister(r, s).0;
    forall k ensures Registered(r'.list, k) <==> Registered(r.list, k) && k != KeyOf(r.list[f]) {
      DropList(r.list, f, k);
    }
    forall k ensures InXml(r'.xml, k) <==> InXml(r.xml, k) && k != KeyOf(s) {
      RemoveXmlEffect(r.xml, KeyOf(s), k);
    }
    DropList(r.list, f, KeyOf(s));
    RemoveXmlEffect(r.xml, KeyOf(s), KeyOf(s));
    if KeyOf(r.list[f]) == KeyOf(s) {
      SameChange(r, r', KeyOf(s), false);
    } else {
      assert Registered(r'.list, KeyOf(s)) && !InXml(r'.xml, KeyOf(s));
    }
  }

  ghost predicate AllPlain(list: seq<Service>) {
    forall i | 0 <= i < |list| :: Plain(KeyOf(list[i]))
  }

  /** On plain keys the URL finds the service the four keys find. */
  lemma {:induction false} LookupsAgree(list: seq<Service>, k: Key)
    requires AllPlain(list) && Plain(k)
    ensures First(list, SameUrl(KeyUrl(k))) == First(list, SameKey(k))
  {
    var u, f := First(list, SameUrl(KeyUrl(k))), First(list, SameKey(k));
    ParseUrl(k);
    if u < |list| {
      assert SameUrl(KeyUrl(k))(list[u]);
      ParseUrl(KeyOf(list[u]));
      assert SameKey(k)(list[u]);
    }
    if f < |list| {
      assert SameKey(k)(list[f]);
      assert SameUrl(KeyUrl(k))(list[f]);
    }
  }

  datatype Call = RegisterCall(service: Service) | UnregisterCall(service: Service)

  function Do(r: Stores, c: Call): Stores {
    match c
    case RegisterCall(s) => Register(r, s).0
    case UnregisterCall(s) => Unregister(r, s).0
  }

  function Run(calls: seq<Call>): Stores {
    if calls == [] then Stores([], []) else Do(Run(calls[..|calls| - 1]), calls[|calls| - 1])
  }

  /** The keys a sequence of calls leaves registered, from the calls alone. */
  function Live(calls: seq<Call>): set<Key> {
    if calls == [] then {}
    else
      var before, c := Live(calls[..|calls| - 1]), calls[|calls| - 1];
      if c.service.device.secure then before
      else if c.RegisterCall? then before + {KeyOf(c.service)} else before - {KeyOf(c.service)}
  }

  /** What a reachable registry satisfies. */
  ghost predicate Sound(r: Stores, live: set<Key>) {
    Consistent(r) && AllPlain(r.list) && forall k :: Registered(r.list, k) <==> k in live
  }

  lemma DoKeeps(r: Stores, live: set<Key>, c: Call)
    requires Sound(r, live) && Plain(KeyOf(c.service))
    ensures var k := KeyOf(c.service);
            Sound(Do(r, c), if c.service.device.secure then live
                            else if c.RegisterCall? then live + {k} else live - {k})
  {
    var s := c.service;
    assert AllPlain(Do(r, c).list);
    if c.RegisterCall? {
      RegisterKeeps(r, s);
    } else if !s.device.secure && Registered(r.list, KeyOf(s)) {
      UnregisterKeepsIff(r, s);
      LookupsAgree(r.list, KeyOf(s));
      var f := First(r.list, SameUrl(Url(s)));
      assert SameKey(KeyOf(s))(r.list[f]);
    }
  }

  /**
   After any sequence of calls about services with plain keys, the list and the tree hold the same
   services, exactly those registered and not unregistered since, without duplicates and with one
   node per device, and looking up by URL is looking up by the four keys.
   */
  lemma {:induction false} StoresAgree(calls: seq<Call>)
    requires forall i | 0 <= i < |calls| :: Plain(KeyOf(calls[i].service))
    ensures var r := Run(calls);
            && Consistent(r) && AllPlain(r.list)
            && (forall k :: Registered(r.list, k) <==> k in Live(calls))
            && (forall k | Plain(k) :: First(r.list, SameUrl(KeyUrl(k))) == First(r.list, SameKey(k)))
  {
    RunSound(calls);
    hide Run, Live;
    var list := Run(calls).list;
    forall k | Plain(k) ensures First(list, SameUrl(KeyUrl(k))) == First(list, SameKey(k)) {
      LookupsAgree(list, k);
    }
  }

  lemma {:induction false} RunSound(calls: seq<Call>)
    requires forall i | 0 <= i < |calls| :: Plain(KeyOf(calls[i].service))
    ensures Sound(Run(calls), Live(calls))
  {
    if calls == [] {
      EmptySound();
    } else {
      hide Sound, Do;
      RunSound(calls[..|calls| - 1]);
      DoKeeps(Run(calls[..|calls| - 1]), Live(calls[..|calls| - 1]), calls[|calls| - 1]);
    }
  }

  lemma EmptySound()
    ensures Sound(Stores([], []), {})
  {
  }

  lemma RunThree(c1: Call, c2: Call, c3: Call)
    ensures Run([c1, c2, c3]) == Do(Do(Do(Stores([], []), c1), c2), c3)
  {
    RunSnoc([], c1);
    RunSnoc([] + [c1], c2);
    RunSnoc([] + [c1] + [c2], c3);
    assert [] + [c1] + [c2] + [c3] == [c1, c2, c3];
  }

  lemma {:induction false} RunSnoc(calls: seq<Call>, c: Call)
    ensures Run(calls + [c]) == Do(Run(calls), c)
  {
    assert (calls + [c])[..|calls|] == calls;
  }

  lemma RegisterFirst(s: Service)
    requires !s.device.secure
    ensures var r1 := Register(Stores([], []), s).0; Consistent(r1) && r1.list == [s]
  {
    EmptySound();
    RegisterKeeps(Stores([], []), s);
  }

  lemma RegisterSecond(r: Stores, s: Service, t: Service)
    requires Consistent(r) && r.list == [s] && KeyOf(s) != KeyOf(t) && !t.device.secure
    ensures var r2 := Register(r, t).0; Consistent(r2) && r2.list == [s, t]
  {
    RegisterKeeps(r, t);
    RegisteredIff(r.list, KeyOf(t));
  }

  /** Taking the second of two services off by a URL they share takes the first one off. */
  lemma UnregisterSecond(r: Stores, s: Service, t: Service)
    requires Consistent(r) && r.list == [s, t] && KeyOf(s) != KeyOf(t) && Url(s) == Url(t) && !t.device.secure
    ensures !Consistent(Unregister(r, t).0)
  {
    hide Consistent, Unregister, KeyOf, Url;
    RegisteredIff(r.list, KeyOf(t));
    assert KeyOf(r.list[1]) == KeyOf(t);
    UnregisterKeepsIff(r, t);
    assert SameUrl(Url(t))(r.list[0]);
  }

  /** Two services that share a URL: registering both and removing the second leaves the stores apart. */
  lemma SharedUrlSeparatesStores(s: Service, t: Service)
    requires KeyOf(s) != KeyOf(t) && Url(s) == Url(t) && !s.device.secure && !t.device.secure
    ensures !Consistent(Run([RegisterCall(s), RegisterCall(t), UnregisterCall(t)]))
  {
    hide Consistent, Register, Unregister, Run, KeyOf, Url;
    RunThree(RegisterCall(s), RegisterCall(t), UnregisterCall(t));
    RegisterFirst(s);
    var r1 := Register(Stores([], []), s).0;
    RegisterSecond(r1, s, t);
    UnregisterSecond(Register(r1, t).0, s, t);
  }

  /**
   Whatever the service: registering it and its twin and removing either keeps the stores together
   exactly when its device type, device ID and service type hold no slash.
   */
  lemma SlashSeparatesStores(s: Service)
    requires !s.device.secure
    ensures Consistent(Run([RegisterCall(s), RegisterCall(Twin(s)), UnregisterCall(Twin(s))])) <==> Plain(KeyOf(s))
    ensures Consistent(Run([RegisterCall(Twin(s)), RegisterCall(s), UnregisterCall(s)])) <==> Plain(KeyOf(s))
  {
    hide Consistent, Run, KeyOf, Url, Twin, Plain;
    var t := Twin(s);
    SlashCollides(s);
    if Plain(KeyOf(s)) {
      StoresAgree([RegisterCall(s), RegisterCall(t), UnregisterCall(t)]);
      StoresAgree([RegisterCall(t), RegisterCall(s), UnregisterCall(s)]);
    } else {
      SharedUrlSeparatesStores(s, t);
      SharedUrlSeparatesStores(t, s);
    }
  }
}
