/**
 The unsecure server's list and the XML tree with their search loops, updated in place; each call is
 proved against the function that says what it does to both stores.
 */
module RegistryServer {
  import opened Urls
  import opened Registry

  class Server {
    var list: seq<Service>
    var xml: seq<DeviceNode>

    ghost function Value(): Stores
      reads this
    {
      Stores(list, xml)
    }

    constructor ()
      ensures Value() == Stores([], [])
    {
      list, xml := [], [];
    }

    /** is_unsecure_service_registered, and get_service_from_unsecure_server where a service is found. */
    method FindByKey(k: Key) returns (i: nat)
      ensures i == First(list, SameKey(k))
    {
      i := 0;
      while i < |list| && !(list[i].device.dtype == k.dtype && list[i].device.id == k.did
                            && list[i].stype == k.stype && list[i].sid == k.sid)
        invariant i <= |list| && forall j | 0 <= j < i :: !SameKey(k)(list[j])
      {
        assert !SameKey(k)(list[i]);
        i := i + 1;
      }
      FirstIs(list, SameKey(k), i);
    }

    /** matching_service, and the loop of unregister_service_in_unsecure_server. */
    method FindByUrl(url: string) returns (i: nat)
      ensures i == First(list, SameUrl(url))
    {
      i := 0;
      while i < |list| && Url(list[i]) != url
        invariant i <= |list| && forall j | 0 <= j < i :: !SameUrl(url)(list[j])
      {
        assert !SameUrl(url)(list[i]);
        i := i + 1;
      }
      FirstIs(list, SameUrl(url), i);
    }

    /** get_xml_node_of_device */
    method FindDevice(k: Key) returns (i: nat)
      ensures i == First(xml, IsDevice(k))
    {
      i := 0;
      while i < |xml| && !(xml[i].dtype == k.dtype && xml[i].id == k.did)
        invariant i <= |xml| && forall j | 0 <= j < i :: !IsDevice(k)(xml[j])
      {
        assert !IsDevice(k)(xml[i]);
        i := i + 1;
      }
      FirstIs(xml, IsDevice(k), i);
    }

    /** The inner loop of get_xml_node_of_service. */
    method FindEntry(n: DeviceNode, k: Key) returns (j: nat)
      ensures j == First(n.services, IsEntry(k))
    {
      j := 0;
      while j < |n.services| && !(n.services[j].stype == k.stype && n.services[j].sid == k.sid)
        invariant j <= |n.services| && forall l | 0 <= l < j :: !IsEntry(k)(n.services[l])
      {
        assert !IsEntry(k)(n.services[j]);
        j := j + 1;
      }
      FirstIs(n.services, IsEntry(k), j);
    }

    /** service_is_in_xml_file and get_xml_node_of_service: every node of the device is searched. */
    method FindService(k: Key) returns (i: nat, j: nat)
      ensures i == First(xml, Holds(k))
      ensures i < |xml| ==> j == First(xml[i].services, IsEntry(k)) < |xml[i].services|
    {
      i, j := 0, 0;
      while i < |xml|
        invariant i <= |xml| && forall l | 0 <= l < i :: !Holds(k)(xml[l])
      {
        HoldsDef(xml[i], k);
        if xml[i].dtype == k.dtype && xml[i].id == k.did {
          j := FindEntry(xml[i], k);
          if j < |xml[i].services| {
            assert Holds(k)(xml[i]);
            FirstIs(xml, Holds(k), i);
            return;
          }
        }
        assert !Holds(k)(xml[i]);
        i := i + 1;
      }
      FirstIs(xml, Holds(k), i);
    }

    /** add_service_to_xml, adding the device's node first when there is none. */
    method AddService(k: Key)
      modifies this`xml
      ensures xml == AddToXml(old(xml), k)
    {
      hide First, Holds, IsDevice;
      var i, j := FindService(k);
      if i < |xml| {
        return;
      }
      var d := FindDevice(k);
      if d == |xml| {
        LastPut(xml, DeviceNode(k.dtype, k.did, []), DeviceNode(k.dtype, k.did, [Entry(k.stype, k.sid)]));
        assert [] + [Entry(k.stype, k.sid)] == [Entry(k.stype, k.sid)];
        xml := xml + [DeviceNode(k.dtype, k.did, [])];
      }
      xml := xml[d := xml[d].(services := xml[d].services + [Entry(k.stype, k.sid)])];
    }

    /** remove_service_from_XML */
    method RemoveService(k: Key) returns (found: bool)
      modifies this`xml
      ensures found == InXml(old(xml), k) && xml == RemoveFromXml(old(xml), k)
    {
      var i, j := FindService(k);
      found := i < |xml|;
      if found {
        xml := xml[i := xml[i].(services := xml[i].services[..j] + xml[i].services[j + 1..])];
      }
    }

    method RegisterService(s: Service) returns (code: Code)
      modifies this
      ensures (Value(), code) == Register(old(Value()), s)
    {
      if s.device.secure {
        return NoHttps;
      }
      var i := FindByKey(KeyOf(s));
      if i < |list| {
        return AlreadyRegistered;
      }
      list := list + [s];
      AddService(KeyOf(s));
      code := Success;
    }

    method UnregisterService(s: Service) returns (code: Code)
      modifies this
      ensures (Value(), code) == Unregister(old(Value()), s)
    {
      if s.device.secure {
        return NotRegistered;
      }
      var i := FindByKey(KeyOf(s));
      if i == |list| {
        return NotRegistered;
      }
      var u := FindByUrl(Url(s));
      if u < |list| {
        list := list[..u] + list[u + 1..];
      }
      var found := RemoveService(KeyOf(s));
      code := if found then Success else XmlError;
    }
  }

  lemma LastPut<E>(xs: seq<E>, x: E, y: E)
    ensures (xs + [x])[|xs| := y] == xs + [y] && (xs + [x])[|xs|] == x
  {
  }

  /** The only position with First's property is First. */
  lemma {:induction false} FirstIs<E>(xs: seq<E>, p: E -> bool, k: nat)
    requires k <= |xs| && (k < |xs| ==> p(xs[k])) && forall i | 0 <= i < k :: !p(xs[i])
    ensures k == First(xs, p)
  {
    var f := First(xs, p);
    assert f >= k;
  }
}
