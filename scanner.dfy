/**
 * The main block: find the local address, derive the range, sweep it, then for
 * each discovered device look up its vendor, probe the default ports and
 * assemble one four-column record.
 */
module Scanner {
  import opened Text
  import opened AddressResolver
  import opened LinkDiscovery
  import opened VendorLookup
  import opened PortProbe

  /** One result row: "IP Address", "MAC Address", "Vendor", "Open Ports". */
  datatype ScanRecord = ScanRecord(ipAddress: string, macAddress: string, vendor: string, openPorts: string)

  function RecordFor(device: Device, lookup: string -> LookupOutcome, connect: (string, nat) -> int): ScanRecord {
    ScanRecord(device.ip, device.mac, GetVendor(device.mac, lookup),
               FormatOpenPorts(Accepted(device.ip, COMMON_PORTS, connect)))
  }

  /** The records for a list of devices: one per device, in device order. */
  function ScanResults(devices: seq<Device>, lookup: string -> LookupOutcome, connect: (string, nat) -> int): seq<ScanRecord> {
    seq(|devices|, i requires 0 <= i < |devices| => RecordFor(devices[i], lookup, connect))
  }

  /** The main loop: vendor lookup and port probe per device, one record appended each time. */
  method AssembleRecords(connectedDevices: seq<Device>, lookup: string -> LookupOutcome, connect: (string, nat) -> int)
    returns (scanResults: seq<ScanRecord>)
    ensures scanResults == ScanResults(connectedDevices, lookup, connect)
  {
    scanResults := [];
    for k := 0 to |connectedDevices|
      invariant scanResults == ScanResults(connectedDevices[..k], lookup, connect)
    {
      var device := connectedDevices[k];
      var ip := device.ip;
      var mac := device.mac;
      var vendorName := GetVendor(mac, lookup);
      var openPorts := ScanPorts(ip, connect, COMMON_PORTS);
      var openPortsStr := FormatOpenPorts(openPorts);
      scanResults := scanResults + [ScanRecord(ip, mac, vendorName, openPortsStr)];
    }
    assert connectedDevices[..|connectedDevices|] == connectedDevices;
  }

  /**
   * A whole run. The four oracles stand for the socket that finds the local
   * address, the ARP send/receive step, the vendor database and TCP connect.
   */
  method Run(bound: Option<string>, sendReceive: string -> SendReceive,
             lookup: string -> LookupOutcome, connect: (string, nat) -> int)
    returns (networkRange: string, scanResults: seq<ScanRecord>)
    ensures networkRange == NetworkRange(LocalIp(bound))
    ensures scanResults == ScanResults(Discovered(sendReceive(networkRange)), lookup, connect)
  {
    var localIp := LocalIp(bound);
    networkRange := NetworkRange(localIp);
    var connectedDevices := ScanNetwork(networkRange, sendReceive);
    scanResults := AssembleRecords(connectedDevices, lookup, connect);
  }

  /**
   * Each record carries its device's IP and MAC, the vendor lookup for that MAC,
   * and an "Open Ports" column that reads back as the strictly ascending list of
   * default ports accepting on that IP ("None" exactly when there are none).
   */
  lemma RecordsMatchDevices(devices: seq<Device>, lookup: string -> LookupOutcome, connect: (string, nat) -> int)
    ensures |ScanResults(devices, lookup, connect)| == |devices|
    ensures forall i | 0 <= i < |devices| ::
      var r := ScanResults(devices, lookup, connect)[i];
      && r.ipAddress == devices[i].ip
      && r.macAddress == devices[i].mac
      && r.vendor == GetVendor(devices[i].mac, lookup)
      && ParseOpenPorts(r.openPorts) == Some(Accepted(devices[i].ip, COMMON_PORTS, connect))
      && (r.openPorts == NO_PORTS <==> forall p | p in COMMON_PORTS :: connect(devices[i].ip, p) != 0)
      && StrictlyAscending(Accepted(devices[i].ip, COMMON_PORTS, connect))
      && forall p | p in Accepted(devices[i].ip, COMMON_PORTS, connect) :: p in COMMON_PORTS
  {
    forall i | 0 <= i < |devices|
      ensures var r := ScanResults(devices, lookup, connect)[i];
        && ParseOpenPorts(r.openPorts) == Some(Accepted(devices[i].ip, COMMON_PORTS, connect))
        && (r.openPorts == NO_PORTS <==> forall p | p in COMMON_PORTS :: connect(devices[i].ip, p) != 0)
        && StrictlyAscending(Accepted(devices[i].ip, COMMON_PORTS, connect))
        && forall p | p in Accepted(devices[i].ip, COMMON_PORTS, connect) :: p in COMMON_PORTS
    {
      var ports := Accepted(devices[i].ip, COMMON_PORTS, connect);
      FormatRoundTrip(ports);
      FormatNoneIffEmpty(ports);
      CommonPortsResult(devices[i].ip, connect);
      AcceptedMembers(devices[i].ip, COMMON_PORTS, connect);
      if ports != [] {
        assert ports[0] in ports;
      }
    }
  }

  /** When the sweep raises or nobody answers, the run reports no records rather than failing. */
  lemma NoDevicesNoRecords(outcome: SendReceive, lookup: string -> LookupOutcome, connect: (string, nat) -> int)
    requires outcome.Raised? || outcome.replies == []
    ensures ScanResults(Discovered(outcome), lookup, connect) == []
  {
  }

  /** A vendor lookup that fails with a `KeyError` gives "Unknown" and every device still gets its record. */
  lemma KeyErrorStillRecorded(devices: seq<Device>, i: nat, lookup: string -> LookupOutcome, connect: (string, nat) -> int)
    requires i < |devices| && lookup(devices[i].mac) == KeyError
    ensures |ScanResults(devices, lookup, connect)| == |devices|
    ensures ScanResults(devices, lookup, connect)[i].vendor == UNKNOWN
  {
  }

  /** Ports 80 and 443 accepting on a host give exactly [80, 443]. */
  lemma TwoOpenPorts(ip: string, connect: (string, nat) -> int)
    requires forall p: nat :: connect(ip, p) == 0 <==> p == 80 || p == 443
    ensures Accepted(ip, COMMON_PORTS, connect) == [80, 443]
  {
    var ports := Accepted(ip, COMMON_PORTS, connect);
    AcceptedAscending(ip, COMMON_PORTS, connect);
    AcceptedMembers(ip, COMMON_PORTS, connect);
    assert COMMON_PORTS[5] == 80 && COMMON_PORTS[9] == 443;
    AscendingUnique(ports, [80, 443]);
  }

  /**
   * One host answers the sweep of the local range, its vendor is found and
   * only ports 80 and 443 accept: exactly one record, with "80, 443" in the
   * "Open Ports" column (e.g. 192.168.1.10, aa:bb:cc:11:22:33, "Acme Corp").
   */
  lemma SingleHostScenario(bound: Option<string>, sendReceive: string -> SendReceive,
                           lookup: string -> LookupOutcome, connect: (string, nat) -> int,
                           ip: string, mac: string, vendor: string)
    requires sendReceive(NetworkRange(LocalIp(bound))) == Answered([ArpReply(ip, mac)])
    requires lookup(mac) == Found(vendor)
    requires forall p: nat :: connect(ip, p) == 0 <==> p == 80 || p == 443
    ensures ScanResults(Discovered(sendReceive(NetworkRange(LocalIp(bound)))), lookup, connect) ==
      [ScanRecord(ip, mac, vendor, "80, 443")]
  {
    TwoOpenPorts(ip, connect);
    WebPortsColumn();
    var devices := Discovered(sendReceive(NetworkRange(LocalIp(bound))));
    assert devices == [Device(ip, mac)];
    assert ScanResults(devices, lookup, connect)[0] == ScanRecord(ip, mac, vendor, "80, 443");
  }

  lemma WebPortsColumn()
    ensures FormatOpenPorts([80, 443]) == "80, 443"
  {
  }
}
