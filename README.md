# Network scanner: discovery and probe logic

A model of the decision logic of a small LAN scanner (`scanner.py`). The scanner
finds its own IPv4 address and derives a /24 range from it. It sweeps that range
with one broadcast ARP request and turns each reply into a device. For each device
it looks up the vendor of the hardware address and tries a TCP connect on 13
well-known ports. It then assembles one four-column record per device:
"IP Address", "MAC Address", "Vendor", "Open Ports".

Every I/O step is an input or an oracle:

- the socket that finds the local address is an `Option<string>` (`None` when it raised);
- the ARP send/receive step is a function from the range to `Answered(replies)` or `Raised(message)`;
- the vendor database is a function from the address to `Found(name)`, `KeyError` or `OtherError(message)`;
- `connect_ex` is a function from (ip, port) to its result code.

Modules:

- `Text`: Python's `str.split` and `str.join`, and `str()` of a non-negative integer.
  It also has a decimal parser, which is a reference inverse and not part of the program.
- `AddressResolver`: the loopback fallback and the range derivation.
- `LinkDiscovery`: `scan_network`.
- `VendorLookup`: `get_vendor`.
- `PortProbe`: `scan_ports` and the "Open Ports" string.
- `Scanner`: the main loop and a whole run.

Intended behaviour against what the code does (the model follows the code):

- Vendor failures. Intended: every failed lookup yields "Unknown", and lookups are cached.
  The code: only a `KeyError` yields "Unknown"; any other exception yields "Error getting vendor: "
  followed by its message; a new lookup object is made on every call, so nothing is cached.
- Open ports in the record. Intended: a list of integers.
  The code: the joined string, or "None" when the list is empty.
- Range derivation. Intended: the first three octets followed by ".0/24".
  The code: everything before the last '.' followed by ".0/24". The two agree on a dotted quad;
  an address without a '.' gives ".0/24".
- Discovered addresses. Intended: every record's IP lies inside the derived range.
  The code: this is never checked.

## Model

| member | source | states |
|---|---|---|
| AddressResolver.LocalIp | scanner.py:35-45 | the reported address when the socket succeeded, "127.0.0.1" when it raised |
| AddressResolver.NetworkRange | scanner.py:91 | no contract of its own; specified by NetworkRangeKeepsPrefix, LastFieldReplaced and DottedQuadRange |
| AddressResolver.NetworkRangeKeepsPrefix | scanner.py:91 | the range is everything before the last '.' followed by ".0/24"; with no '.' it is ".0/24" |
| AddressResolver.LastFieldReplaced | scanner.py:91 | for an address p.q where q has no '.', the range is p.0/24 |
| AddressResolver.DottedQuadRange | scanner.py:91 | for a.b.c.d the range is a.b.c.0/24 |
| AddressResolver.FallbackRange | scanner.py:42 | the loopback fallback gives the range 127.0.0.0/24 |
| LinkDiscovery.DeviceOf | scanner.py:58 | no contract of its own; specified by Discovered, whose contract gives each device's ip and mac |
| LinkDiscovery.Discovered | scanner.py:56-63 | one device per answered reply, in order, with ip = psrc and mac = hwsrc, duplicates kept; no devices when the step raised |
| LinkDiscovery.ScanNetwork | scanner.py:47-63 | the append loop yields exactly the devices of the send/receive outcome for the given range |
| VendorLookup.GetVendor | scanner.py:65-73 | the found name; "Unknown" for a KeyError; "Error getting vendor: " followed by the message for any other failure |
| VendorLookup.UnknownOnlyForKeyError | scanner.py:70-73 | a failed lookup reads "Unknown" if and only if it was a KeyError |
| VendorLookup.ClassifyGetVendor | scanner.py:67-73 | the lookup outcome can be read back from the vendor string unless the vendor's own name looks like a failure string |
| PortProbe.Accepted | scanner.py:79-84 | no contract of its own; specified by AcceptedSnoc, AcceptedMembers, AcceptedAscending and ScanPorts |
| PortProbe.AcceptedSnoc | scanner.py:79-84 | probing one more port appends it exactly when its connect result is 0 |
| PortProbe.AcceptedMembers | scanner.py:79-84 | a port is in the result if and only if it is in the list and its connect result is 0; the result is no longer than the list |
| PortProbe.AcceptedAscending | scanner.py:79-84 | probing a strictly ascending list gives a strictly ascending result |
| PortProbe.AscendingUnique | scanner.py:75 | a strictly ascending port list is determined by which ports it contains |
| PortProbe.CommonPortsResult | scanner.py:75-86 | with the default list the result is strictly ascending (so duplicate-free), has at most 13 ports, all default ports, and is empty when every connect fails |
| PortProbe.ScanPorts | scanner.py:75-86 | the loop returns exactly the ports of the list whose connect result is 0, in list order |
| PortProbe.FormatOpenPorts | scanner.py:106 | no contract of its own; specified by FormatNoneIffEmpty, FormatStartsWithDigit and FormatRoundTrip |
| PortProbe.FormatStartsWithDigit | scanner.py:106 | a non-empty port list is written starting with a decimal digit |
| PortProbe.FormatNoneIffEmpty | scanner.py:106 | the "Open Ports" string is "None" if and only if the list is empty |
| PortProbe.FormatRoundTrip | scanner.py:106 | splitting the string on ", " and parsing each piece gives back the port list |
| Text.SplitOn | scanner.py:91 | at least one piece; otherwise specified by JoinSplit and SplitPiecesFree |
| Text.Join | scanner.py:106 | no contract of its own; specified by JoinSplit, SplitJoin and JoinSnoc |
| Text.NatToString | scanner.py:106 | str() of a port is a non-empty string of decimal digits with no leading zero |
| Text.ParseNatToString | scanner.py:106 | parsing str(n) gives back n |
| Text.JoinSplit | scanner.py:91 | joining the pieces of a split with the same separator gives back the string |
| Text.SplitJoin | scanner.py:106 | splitting a join gives back the pieces when no piece holds the separator's first character |
| Text.SplitPiecesFree | scanner.py:91 | no piece of a split on one character contains that character |
| Scanner.RecordFor | scanner.py:108-113 | no contract of its own; specified by RecordsMatchDevices |
| Scanner.ScanResults | scanner.py:101-113 | no contract of its own; specified by RecordsMatchDevices, NoDevicesNoRecords and KeyErrorStillRecorded |
| Scanner.AssembleRecords | scanner.py:101-113 | the main loop yields exactly one record per device, in device order, built from the vendor lookup and the port probe |
| Scanner.Run | scanner.py:89-113 | a run sweeps the range derived from the local address and returns the records of the devices that sweep yields |
| Scanner.RecordsMatchDevices | scanner.py:101-113 | each record carries its device's IP and MAC and the vendor lookup for that MAC; its "Open Ports" string parses back to the accepted default ports, which are strictly ascending and all in the default list, and reads "None" exactly when no default port accepts |
| Scanner.NoDevicesNoRecords | scanner.py:94-101 | a sweep that raised or got no replies yields no records |
| Scanner.KeyErrorStillRecorded | scanner.py:101-113 | a device whose lookup raises KeyError still gets its record, with vendor "Unknown" |
| Scanner.TwoOpenPorts | scanner.py:75-86 | if only ports 80 and 443 accept, the probe returns exactly [80, 443] |
| Scanner.WebPortsColumn | scanner.py:106 | the ports [80, 443] are written as "80, 443" |
| Scanner.SingleHostScenario | scanner.py:89-113 | one reply, a found vendor and ports 80 and 443 open give exactly one record with those fields and "80, 443" |

## Left out

- Dependency bootstrap (scanner.py:11-32): it imports modules and runs pip in a subprocess. This changes the environment and holds no scanning logic.
- The socket calls in `get_local_ip` (scanner.py:37-44) are OS I/O. Their result is the `Option<string>` input; only the fallback is modelled.
- Building the Ethernet/ARP frame, `srp` and its 1-second timeout (scanner.py:51-54) are raw network I/O. They are replaced by the send/receive oracle.
- Creating, timing out and closing the TCP socket (scanner.py:80-82, 85) is network I/O with a floating-point timeout. It is replaced by the `connect_ex` oracle.
- PortProbe.ScanPorts: ports are natural numbers; the OverflowError that `connect_ex` raises for a port above 65535 is not modelled, because the only list the program passes is the default one.
- PortProbe.ScanPorts: an exception raised by `connect_ex` itself (for an unresolvable host name) is not modelled; the oracle always returns a result code.
- The oracles are fixed functions for the whole run. Two identical replies therefore get identical "Vendor" and "Open Ports" columns, whereas the code makes a fresh lookup and fresh connects for each device, whose answers may differ.
- The vendor database behind `MacLookup().lookup` (scanner.py:68) is a foreign library. Only its three kinds of outcome are modelled.
- Console output and column padding (scanner.py:49, 61-62, 78, 97-99, 114) are left out.
- The timestamped CSV file (scanner.py:116-132) is file I/O and wall-clock time, so it is left out.
- The decimal parser `Text.ParseNat` accepts only digits. It is a reference inverse for the round trip. It is not Python's `int()`, which also accepts signs, spaces and underscores.
