/** The reconciler's requests: which record-set upsert `updateDnsRecords` sends to
    the DNS zone for an address. */
module Records {
  import opened NetIP
  import opened IPText
  import opened Resolver

  /** The record name for the zone apex. */
  const RecordName: string := "@"
  /** `DnsTtlInSeconds`. */
  const DnsTtlInSeconds: int := 3600

  datatype RecordType = A | AAAA

  /** The record set sent with an upsert: the A records, the AAAA records (each the
      text of one address) and the time to live. */
  datatype RecordSet = RecordSet(aRecords: seq<string>, aaaaRecords: seq<string>, ttl: int)

  /** One `CreateOrUpdate` call on the record-sets client. */
  datatype Request = Request(
    resourceGroup: string, zone: string, name: string,
    recordType: RecordType, recordSet: RecordSet)

  /** The resource group and zone read from the environment at start-up. */
  datatype Config = Config(resourceGroup: string, domainName: string)

  /** An upsert of the apex record of the configured zone with a single address of the
      given type. */
  function Upsert(cfg: Config, t: RecordType, text: string): (q: Request)
    ensures WellFormed(cfg, q) && q.recordType == t && Value(cfg, q) == text
  {
    var records := if t == A then RecordSet([text], [], DnsTtlInSeconds)
                   else RecordSet([], [text], DnsTtlInSeconds);
    Request(cfg.resourceGroup, cfg.domainName, RecordName, t, records)
  }

  /** What every request of the updater looks like: the configured zone, name "@",
      TTL 3600, one value in the slot of its record type and none in the other. */
  predicate WellFormed(cfg: Config, q: Request) {
    q.resourceGroup == cfg.resourceGroup && q.zone == cfg.domainName &&
    q.name == RecordName && q.recordSet.ttl == DnsTtlInSeconds &&
    match q.recordType
    case A => |q.recordSet.aRecords| == 1 && q.recordSet.aaaaRecords == []
    case AAAA => q.recordSet.aRecords == [] && |q.recordSet.aaaaRecords| == 1
  }

  /** The address text a well-formed request carries. */
  function Value(cfg: Config, q: Request): string
    requires WellFormed(cfg, q)
  {
    if q.recordType == A then q.recordSet.aRecords[0] else q.recordSet.aaaaRecords[0]
  }

  /** The requests `updateDnsRecords` sends for `ip`: one A upsert for a 4-byte
      address, one AAAA upsert for a 16-byte one, none for any other length (nil
      included). The value is the address's text. */
  function Upserts(cfg: Config, ip: IP): (r: seq<Request>)
    ensures |r| <= 1
    ensures |r| == 1 <==> |ip| == IPv4Len || |ip| == IPv6Len
    ensures forall q :: q in r ==>
              WellFormed(cfg, q) && Value(cfg, q) == Text(ip) &&
              (q.recordType == A <==> |ip| == IPv4Len)
  {
    if |ip| == IPv4Len then [Upsert(cfg, A, Text(ip))]
    else if |ip| == IPv6Len then [Upsert(cfg, AAAA, Text(ip))]
    else []
  }

  /** A 16-byte IPv4-mapped address, were it passed in, would go out as an AAAA
      upsert whose value is dotted decimal: the length alone picks the record type. */
  lemma MappedGoesOutAsDottedAAAA(cfg: Config, a: IP)
    requires |a| == IPv4Len
    ensures var r := Upserts(cfg, Mapped(a));
            |r| == 1 && r[0].recordType == AAAA && Value(cfg, r[0]) == Dotted(a)
  {
    To4OfMapped(a);
  }

  /** Any address the IPv4 lookup keeps goes out as exactly one A upsert whose value
      is its dotted text, which names no other address. */
  lemma Ipv4LookupLandsInA(cfg: Config, parsed: IP)
    requires GetIpv4(parsed) != []
    ensures var ip := GetIpv4(parsed);
            var r := Upserts(cfg, ip);
            |r| == 1 && r[0].recordType == A && Value(cfg, r[0]) == Dotted(ip) &&
            ':' !in Value(cfg, r[0])
    ensures forall b: IP :: |b| == IPv4Len && Dotted(b) == Text(GetIpv4(parsed)) ==> b == GetIpv4(parsed)
  {
    var ip := GetIpv4(parsed);
    TextOfIPv4(ip);
    forall b: IP | |b| == IPv4Len && Dotted(b) == Text(ip) ensures b == ip {
      DottedInjective(b, ip);
    }
  }

  /** Any address the IPv6 lookup keeps never goes out as an A upsert; when it is a
      parse result, it goes out as exactly one AAAA upsert in colon-hexadecimal form. */
  lemma Ipv6LookupLandsInAAAA(cfg: Config, parsed: IP)
    ensures forall q :: q in Upserts(cfg, GetIpv6(parsed)) ==> q.recordType == AAAA
    ensures IsParseResult(parsed) && GetIpv6(parsed) != [] ==>
              var r := Upserts(cfg, GetIpv6(parsed));
              |r| == 1 && r[0].recordType == AAAA &&
              ':' in Value(cfg, r[0]) && '.' !in Value(cfg, r[0])
  {
    var ip := GetIpv6(parsed);
    if IsParseResult(parsed) && ip != [] {
      GetIpv6OfParseResult(parsed);
      TextOfIPv6(ip);
    }
  }
}
