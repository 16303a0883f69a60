/** The address resolver: what `getIpv4` and `getIpv6` keep of the address the echo
    service returned.

    The HTTP request, reading the body and `net.ParseIP` are not part of this model:
    each function takes the parse result, which is nil when any of those steps failed. */
module Resolver {
  import opened NetIP

  /** The tail of `getIpv4`: nil unless the parsed address has an IPv4 form, and then
      that 4-byte form. */
  function GetIpv4(parsed: IP): (r: IP)
    ensures |r| == 0 || |r| == IPv4Len
    ensures |r| == IPv4Len <==> |parsed| == IPv4Len || IsV4Mapped(parsed)
    ensures |parsed| == IPv4Len ==> r == parsed
    ensures IsV4Mapped(parsed) ==> parsed == Mapped(r)
  {
    if |To4(parsed)| == 0 then [] else To4(parsed)
  }

  /** The tail of `getIpv6`: the parsed address unchanged unless it has an IPv4 form,
      and then nil. */
  function GetIpv6(parsed: IP): (r: IP)
    ensures |To4(r)| == 0
    ensures |r| != IPv4Len && !IsV4Mapped(r)
    ensures r == parsed <==> |To4(parsed)| == 0
    ensures r != parsed ==> r == []
  {
    if |To4(parsed)| != 0 then [] else parsed
  }

  /** `net.ParseIP` returns nil or a 16-byte slice (IPv4 literals in their mapped form). */
  predicate IsParseResult(parsed: IP) {
    |parsed| == 0 || |parsed| == IPv6Len
  }

  /** On anything `net.ParseIP` returns, the IPv6 lookup yields nil or a 16-byte
      address that is not IPv4-mapped. */
  lemma GetIpv6OfParseResult(parsed: IP)
    requires IsParseResult(parsed)
    ensures var r := GetIpv6(parsed);
            r == [] || (|r| == IPv6Len && !IsV4Mapped(r))
    ensures GetIpv6(parsed) != [] <==> |parsed| == IPv6Len && !IsV4Mapped(parsed)
  {
  }

  /** The two lookups never both keep the same parse result: one address is either
      IPv4 or IPv6, never both. */
  lemma LookupsDisjoint(parsed: IP)
    ensures GetIpv4(parsed) == [] || GetIpv6(parsed) == []
  {
  }

  /** A failed lookup (nil) stays nil in both families. */
  lemma FailureStaysAbsent()
    ensures GetIpv4([]) == [] && GetIpv6([]) == []
  {
  }
}
