/**
 * The client's mDNS discovery: EspListener.add_service records each
 * announced `_http._tcp` service, and scan_esp returns what a fresh
 * listener collected. The browse itself (zeroconf's threads and the 5 s
 * sleep) is replaced by the sequence of add_service calls it made.
 */
module Discovery {
  import opened Wrappers
  import PyDict
  import Entries

  /** What `zeroconf.get_service_info` returned: None, or the service's IPv4 addresses. */
  datatype ServiceInfo = ServiceInfo(addresses: seq<Entries.IPv4>)

  /** One add_service callback: the service name and its service info. */
  datatype Announcement = Announcement(name: string, info: Option<ServiceInfo>)

  type Registry = PyDict.Dict<string, Option<string>>

  /** `socket.inet_ntoa(info.addresses[0]) if info.addresses else None`. */
  function FirstAddress(info: ServiceInfo): (ip: Option<string>)
    ensures ip.None? <==> |info.addresses| == 0
    ensures ip.Some? ==> Entries.ParseDotted(ip.value) == Some(info.addresses[0])
  {
    if |info.addresses| > 0 then
      Entries.InetNtoaRoundTrip(info.addresses[0]);
      Some(Entries.InetNtoa(info.addresses[0]))
    else None
  }

  /** The registry after one add_service call, as a value. */
  function Register(registry: Registry, a: Announcement): (r: Registry)
    requires registry.Valid()
    ensures r.Valid()
  {
    if a.info.Some? then PyDict.Put(registry, a.name, FirstAddress(a.info.value)) else registry
  }

  /** The registry a fresh listener holds after the announcements, in order. */
  function ScanResult(announcements: seq<Announcement>): (r: Registry)
    ensures r.Valid()
  {
    if |announcements| == 0 then PyDict.Empty()
    else Register(ScanResult(announcements[..|announcements| - 1]), announcements[|announcements| - 1])
  }

  /**
   * The last announcement of `name` that came with service info, if any: a
   * reference for what the registry holds under that name.
   */
  function LastInfo(announcements: seq<Announcement>, name: string): Option<ServiceInfo> {
    if |announcements| == 0 then None
    else
      var a := announcements[|announcements| - 1];
      if a.name == name && a.info.Some? then a.info
      else LastInfo(announcements[..|announcements| - 1], name)
  }

  /**
   * After a scan, a name is registered exactly when one of its announcements
   * came with service info, and it maps to the first address of the last
   * such announcement.
   */
  lemma {:induction false} ScanLookup(announcements: seq<Announcement>, name: string)
    ensures name in ScanResult(announcements).values <==> LastInfo(announcements, name).Some?
    ensures name in ScanResult(announcements).values ==>
      ScanResult(announcements).values[name] == FirstAddress(LastInfo(announcements, name).value)
  {
    if |announcements| > 0 {
      ScanLookup(announcements[..|announcements| - 1], name);
    }
  }

  /** The scan finds nothing exactly when no announcement came with service info. */
  lemma {:induction false} ScanEmpty(announcements: seq<Announcement>)
    ensures ScanResult(announcements).IsEmpty() <==>
      forall k :: 0 <= k < |announcements| ==> announcements[k].info.None?
  {
    if |announcements| > 0 {
      var init := announcements[..|announcements| - 1];
      ScanEmpty(init);
      assert forall k :: 0 <= k < |init| ==> init[k] == announcements[k];
    }
  }

  /** EspListener: its esp32_list dict. */
  class EspListener {
    var esp32List: Registry

    /** `EspListener()`: an empty dict. */
    constructor ()
      ensures esp32List == PyDict.Empty()
    {
      esp32List := PyDict.Empty();
    }

    /** add_service: record the name with its first address, when service info came back. */
    method AddService(name: string, info: Option<ServiceInfo>)
      requires esp32List.Valid()
      modifies this
      ensures esp32List == Register(old(esp32List), Announcement(name, info))
    {
      if info.Some? {
        var ip := if |info.value.addresses| > 0 then Some(Entries.InetNtoa(info.value.addresses[0])) else None;
        esp32List := PyDict.Put(esp32List, name, ip);
      }
    }
  }

  /** scan_esp: a fresh listener receives the announcements; its dict is the result. */
  method ScanEsp(announcements: seq<Announcement>) returns (found: Registry)
    ensures found == ScanResult(announcements)
  {
    var listener := new EspListener();
    var i := 0;
    while i < |announcements|
      invariant 0 <= i <= |announcements|
      invariant listener.esp32List == ScanResult(announcements[..i])
    {
      assert announcements[..i + 1][..i] == announcements[..i];
      listener.AddService(announcements[i].name, announcements[i].info);
      i := i + 1;
    }
    assert announcements[..i] == announcements;
    found := listener.esp32List;
  }
}
