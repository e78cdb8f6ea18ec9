/**
 * Link-layer discovery: one broadcast ARP sweep of the range, one device per
 * answered reply.
 *
 * Building and sending the frame and waiting one second for replies is an
 * oracle from the range to what the send/receive step produced: the answered
 * replies in the order the transport returned them, or an exception.
 */
module LinkDiscovery {

  /** The reply half of one answered request: the sender's IP and hardware address. */
  datatype ArpReply = ArpReply(psrc: string, hwsrc: string)

  /** `{"ip": ..., "mac": ...}` */
  datatype Device = Device(ip: string, mac: string)

  datatype SendReceive = Answered(replies: seq<ArpReply>) | Raised(message: string)

  function DeviceOf(reply: ArpReply): Device {
    Device(reply.psrc, reply.hwsrc)
  }

  /**
   * The devices a send/receive outcome yields: one per reply, in order, duplicates
   * kept; none when the step raised.
   */
  function Discovered(outcome: SendReceive): (devices: seq<Device>)
    ensures outcome.Raised? ==> devices == []
    ensures outcome.Answered? ==>
      |devices| == |outcome.replies| &&
      forall i | 0 <= i < |devices| ::
        devices[i].ip == outcome.replies[i].psrc && devices[i].mac == outcome.replies[i].hwsrc
    decreases if outcome.Answered? then |outcome.replies| else 0
  {
    match outcome
    case Raised(_) => []
    case Answered(replies) =>
      if |replies| == 0 then []
      else [DeviceOf(replies[0])] + Discovered(Answered(replies[1..]))
  }

  /** `scan_network`: sweep the range and collect one device per answered reply. */
  method ScanNetwork(ipRange: string, sendReceive: string -> SendReceive) returns (devices: seq<Device>)
    ensures devices == Discovered(sendReceive(ipRange))
  {
    var outcome := sendReceive(ipRange);
    match outcome {
      case Raised(_) =>
        devices := [];
      case Answered(answeredList) =>
        devices := [];
        for k := 0 to |answeredList|
          invariant |devices| == k
          invariant forall i | 0 <= i < k ::
            devices[i] == Device(answeredList[i].psrc, answeredList[i].hwsrc)
        {
          var element := answeredList[k];
          devices := devices + [Device(element.psrc, element.hwsrc)];
        }
    }
  }
}
