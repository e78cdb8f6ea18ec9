/**
 * The operator's own address and the range that is swept from it.
 *
 * The socket probe that finds the outbound interface's address is an input:
 * `Some(ip)` when it succeeded, `None` when it raised.
 */
module AddressResolver {
  import opened Text

  /** The address used when no outbound interface can be found. */
  const LOOPBACK := "127.0.0.1"

  /** The local address: what the socket reported, or the loopback fallback. */
  function LocalIp(bound: Option<string>): (ip: string)
    ensures bound.Some? ==> ip == bound.value
    ensures bound.None? ==> ip == LOOPBACK
  {
    match bound
    case Some(address) => address
    case None => LOOPBACK
  }

  /**
   * The scan range: split the address on '.', drop the last field, join the
   * rest with '.' and append ".0/24". A /24 is assumed whatever the real netmask.
   */
  function NetworkRange(localIp: string): string {
    var fields := SplitOn(localIp, ".");
    Join(".", fields[..|fields| - 1]) + ".0/24"
  }

  /** Everything before the last '.' is kept and ".0/24" appended; with no '.' only ".0/24" remains. */
  lemma {:induction false} NetworkRangeKeepsPrefix(localIp: string)
    ensures '.' !in localIp ==> NetworkRange(localIp) == ".0/24"
    ensures '.' in localIp ==>
      NetworkRange(localIp) == localIp[..LastIndexOf(localIp, '.')] + ".0/24"
  {
    var fields := SplitOn(localIp, ".");
    var n := |fields|;
    JoinSplit(localIp, ".");
    SplitPiecesFree(localIp, '.');
    if n == 1 {
      assert localIp == fields[0];
    } else {
      var prefix := Join(".", fields[..n - 1]);
      assert fields == fields[..n - 1] + [fields[n - 1]];
      JoinSnoc(".", fields[..n - 1], fields[n - 1]);
      assert localIp == prefix + ['.'] + fields[n - 1];
      LastIndexOfAfter(prefix, '.', fields[n - 1]);
      assert localIp[..|prefix|] == prefix;
    }
  }

  /** Replacing the field after the last '.' by "0/24" gives the range. */
  lemma LastFieldReplaced(localIp: string, prefix: string, last: string)
    requires localIp == prefix + "." + last && '.' !in last
    ensures NetworkRange(localIp) == prefix + ".0/24"
  {
    NetworkRangeKeepsPrefix(localIp);
    LastIndexOfAfter(prefix, '.', last);
    assert localIp[..|prefix|] == prefix;
  }

  /** For a dotted quad a.b.c.d the range is a.b.c.0/24. */
  lemma DottedQuadRange(a: string, b: string, c: string, d: string)
    requires '.' !in a && '.' !in b && '.' !in c && '.' !in d
    ensures NetworkRange(a + "." + b + "." + c + "." + d) == a + "." + b + "." + c + ".0/24"
  {
    LastFieldReplaced(a + "." + b + "." + c + "." + d, a + "." + b + "." + c, d);
  }

  /** Without a network the loopback fallback gives 127.0.0.0/24. */
  lemma FallbackRange()
    ensures NetworkRange(LocalIp(None)) == "127.0.0.0/24"
  {
    LastFieldReplaced(LOOPBACK, "127.0.0", "1");
  }
}
