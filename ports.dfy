/**
 * The TCP port probe and the string the open ports are reported as.
 *
 * A TCP connect attempt is an oracle from (ip, port) to the result code
 * `connect_ex` returns; 0 means the connection was established.
 */
module PortProbe {
  import opened Text

  /** The default port list, in probing order. */
  const COMMON_PORTS: seq<nat> := [21, 22, 23, 25, 53, 80, 110, 135, 139, 443, 445, 3389, 8080]

  const NO_PORTS := "None"
  const PORT_SEPARATOR := ", "

  /** The ports of `ports` that accept a connection on `ip`, in list order. */
  function Accepted(ip: string, ports: seq<nat>, connect: (string, nat) -> int): seq<nat> {
    if |ports| == 0 then []
    else (if connect(ip, ports[0]) == 0 then [ports[0]] else []) + Accepted(ip, ports[1..], connect)
  }

  ghost predicate StrictlyAscending(s: seq<nat>) {
    forall i, j | 0 <= i < j < |s| :: s[i] < s[j]
  }

  /** Probing one more port adds it at the end exactly when it accepts. */
  lemma {:induction false} AcceptedSnoc(ip: string, ports: seq<nat>, port: nat, connect: (string, nat) -> int)
    ensures Accepted(ip, ports + [port], connect) ==
      Accepted(ip, ports, connect) + (if connect(ip, port) == 0 then [port] else [])
    decreases |ports|
  {
    if |ports| > 0 {
      assert (ports + [port])[1..] == ports[1..] + [port];
      AcceptedSnoc(ip, ports[1..], port, connect);
    }
  }

  /** A port is reported exactly when it is in the list and accepts; nothing more. */
  lemma {:induction false} AcceptedMembers(ip: string, ports: seq<nat>, connect: (string, nat) -> int)
    ensures |Accepted(ip, ports, connect)| <= |ports|
    ensures forall p :: p in Accepted(ip, ports, connect) <==> p in ports && connect(ip, p) == 0
    decreases |ports|
  {
    if |ports| > 0 {
      AcceptedMembers(ip, ports[1..], connect);
      assert ports == [ports[0]] + ports[1..];
    }
  }

  /** Probing in ascending order gives an ascending result. */
  lemma {:induction false} AcceptedAscending(ip: string, ports: seq<nat>, connect: (string, nat) -> int)
    requires StrictlyAscending(ports)
    ensures StrictlyAscending(Accepted(ip, ports, connect))
    decreases |ports|
  {
    if |ports| > 0 {
      var rest := Accepted(ip, ports[1..], connect);
      AcceptedAscending(ip, ports[1..], connect);
      AcceptedMembers(ip, ports[1..], connect);
      forall p | p in rest ensures ports[0] < p {
        var k :| 0 <= k < |ports[1..]| && ports[1..][k] == p;
        assert ports[k + 1] == p;
      }
      var head := if connect(ip, ports[0]) == 0 then [ports[0]] else [];
      var r := head + rest;
      assert r == Accepted(ip, ports, connect);
      forall i, j | 0 <= i < j < |r| ensures r[i] < r[j] {
        if head != [] && i == 0 {
          assert r[j] == rest[j - 1] && rest[j - 1] in rest;
        } else {
          assert r[i] == rest[i - |head|] && r[j] == rest[j - |head|];
        }
      }
    }
  }

  /** A strictly ascending sequence is determined by its elements. */
  lemma {:induction false} AscendingUnique(a: seq<nat>, b: seq<nat>)
    requires StrictlyAscending(a) && StrictlyAscending(b)
    requires forall x :: x in a <==> x in b
    ensures a == b
    decreases |a|
  {
    assert |a| == 0 || a[0] in a;
    assert |b| == 0 || b[0] in b;
    if a != [] && b != [] {
      assert a[0] == b[0] by {
        assert a[0] in b && b[0] in a;
      }
      forall x ensures x in a[1..] <==> x in b[1..] {
        if x in a[1..] {
          assert x in b && x != b[0];
        }
        if x in b[1..] {
          assert x in a && x != a[0];
        }
      }
      AscendingUnique(a[1..], b[1..]);
    }
  }

  /**
   * With the default list the open ports are strictly ascending (so without
   * duplicates), at most 13, all default ports, and none at all when every
   * connect fails.
   */
  lemma CommonPortsResult(ip: string, connect: (string, nat) -> int)
    ensures StrictlyAscending(Accepted(ip, COMMON_PORTS, connect))
    ensures |Accepted(ip, COMMON_PORTS, connect)| <= 13
    ensures forall p | p in Accepted(ip, COMMON_PORTS, connect) :: p in COMMON_PORTS
    ensures (forall p | p in COMMON_PORTS :: connect(ip, p) != 0) ==> Accepted(ip, COMMON_PORTS, connect) == []
  {
    AcceptedAscending(ip, COMMON_PORTS, connect);
    AcceptedMembers(ip, COMMON_PORTS, connect);
    if Accepted(ip, COMMON_PORTS, connect) != [] {
      assert Accepted(ip, COMMON_PORTS, connect)[0] in Accepted(ip, COMMON_PORTS, connect);
    }
  }

  /** `scan_ports`: try each port in order and keep those whose connect result is 0. */
  method ScanPorts(ipAddress: string, connect: (string, nat) -> int, commonPorts: seq<nat>)
    returns (openPorts: seq<nat>)
    ensures openPorts == Accepted(ipAddress, commonPorts, connect)
  {
    openPorts := [];
    for k := 0 to |commonPorts|
      invariant openPorts == Accepted(ipAddress, commonPorts[..k], connect)
    {
      var port := commonPorts[k];
      var result := connect(ipAddress, port);
      if result == 0 {
        openPorts := openPorts + [port];
      }
      assert commonPorts[..k + 1] == commonPorts[..k] + [port];
      AcceptedSnoc(ipAddress, commonPorts[..k], port, connect);
    }
    assert commonPorts[..|commonPorts|] == commonPorts;
  }

  function PortStrings(ports: seq<nat>): (pieces: seq<string>)
    ensures |pieces| == |ports|
    ensures forall i | 0 <= i < |ports| :: pieces[i] == NatToString(ports[i])
  {
    seq(|ports|, i requires 0 <= i < |ports| => NatToString(ports[i]))
  }

  /** The "Open Ports" column: "None" for no ports, else the decimal ports joined with ", ". */
  function FormatOpenPorts(openPorts: seq<nat>): string {
    if |openPorts| == 0 then NO_PORTS else Join(PORT_SEPARATOR, PortStrings(openPorts))
  }

  function ParsePorts(pieces: seq<string>): Option<seq<nat>> {
    if |pieces| == 0 then Some([])
    else match (ParseNat(pieces[0]), ParsePorts(pieces[1..]))
      case (Some(port), Some(rest)) => Some([port] + rest)
      case _ => None
  }

  /** Reads an "Open Ports" string back: split on ", " and parse each piece. */
  function ParseOpenPorts(s: string): Option<seq<nat>> {
    if s == NO_PORTS then Some([]) else ParsePorts(SplitOn(s, PORT_SEPARATOR))
  }

  lemma {:induction false} ParsePortStrings(ports: seq<nat>)
    ensures ParsePorts(PortStrings(ports)) == Some(ports)
    decreases |ports|
  {
    if |ports| > 0 {
      var pieces := PortStrings(ports);
      assert pieces[1..] == PortStrings(ports[1..]);
      ParseNatToString(ports[0]);
      ParsePortStrings(ports[1..]);
      assert ParseNat(pieces[0]) == Some(ports[0]);
      assert ParsePorts(pieces[1..]) == Some(ports[1..]);
      assert ports == [ports[0]] + ports[1..];
    }
  }

  /** A non-empty list is written starting with a digit, so never as "None". */
  lemma FormatStartsWithDigit(openPorts: seq<nat>)
    requires |openPorts| > 0
    ensures |FormatOpenPorts(openPorts)| > 0 && IsDigit(FormatOpenPorts(openPorts)[0])
  {
  }

  /** The column reads "None" exactly when no port is open. */
  lemma FormatNoneIffEmpty(openPorts: seq<nat>)
    ensures FormatOpenPorts(openPorts) == NO_PORTS <==> openPorts == []
  {
    if openPorts != [] {
      FormatStartsWithDigit(openPorts);
    }
  }

  /** Splitting the column on ", " and parsing each piece gives back the open ports. */
  lemma FormatRoundTrip(openPorts: seq<nat>)
    ensures ParseOpenPorts(FormatOpenPorts(openPorts)) == Some(openPorts)
  {
    if openPorts != [] {
      var pieces := PortStrings(openPorts);
      FormatNoneIffEmpty(openPorts);
      forall i | 0 <= i < |pieces| ensures PORT_SEPARATOR[0] !in pieces[i] {
        assert AllDigits(pieces[i]);
      }
      SplitJoin(pieces, PORT_SEPARATOR);
      ParsePortStrings(openPorts);
    }
  }
}
