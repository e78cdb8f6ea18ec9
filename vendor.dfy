/**
 * Vendor lookup by hardware address. The vendor database is an oracle from the
 * address to the outcome of one lookup: a name, a `KeyError`, or any other
 * exception with its message. A fresh lookup is made on every call; nothing is cached.
 */
module VendorLookup {

  datatype LookupOutcome = Found(name: string) | KeyError | OtherError(message: string)

  const UNKNOWN := "Unknown"
  const ERROR_PREFIX := "Error getting vendor: "

  /** `get_vendor`: the vendor name, "Unknown" for a missing key, a message for any other failure. */
  function GetVendor(mac: string, lookup: string -> LookupOutcome): (vendor: string)
    ensures lookup(mac).Found? ==> vendor == lookup(mac).name
    ensures lookup(mac).KeyError? ==> vendor == UNKNOWN
    ensures lookup(mac).OtherError? ==>
      ERROR_PREFIX <= vendor && vendor[|ERROR_PREFIX|..] == lookup(mac).message
  {
    match lookup(mac)
    case Found(name) => name
    case KeyError => UNKNOWN
    case OtherError(message) => ERROR_PREFIX + message
  }

  /** A failed lookup reads "Unknown" exactly when it was a `KeyError`: other failures do not. */
  lemma UnknownOnlyForKeyError(mac: string, lookup: string -> LookupOutcome)
    requires !lookup(mac).Found?
    ensures GetVendor(mac, lookup) == UNKNOWN <==> lookup(mac).KeyError?
  {
  }

  /** Reads a vendor string back as the outcome that produced it. */
  function Classify(vendor: string): LookupOutcome {
    if ERROR_PREFIX <= vendor then OtherError(vendor[|ERROR_PREFIX|..])
    else if vendor == UNKNOWN then KeyError
    else Found(vendor)
  }

  /** A vendor name that could be mistaken for one of the two failure strings. */
  predicate Ambiguous(outcome: LookupOutcome) {
    outcome.Found? && (outcome.name == UNKNOWN || ERROR_PREFIX <= outcome.name)
  }

  /** The outcome can be recovered from the string unless the vendor's own name is ambiguous. */
  lemma ClassifyGetVendor(mac: string, lookup: string -> LookupOutcome)
    requires !Ambiguous(lookup(mac))
    ensures Classify(GetVendor(mac, lookup)) == lookup(mac)
  {
  }
}
