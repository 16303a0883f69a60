# Dynamic-DNS updater for an Azure DNS zone: model of the reconciliation loop

The updater runs forever. Each iteration asks one echo service for the machine's public
IPv4 address and another for its IPv6 address. It keeps only an address of the right
family. It compares each address with the one it saw last for that family. When the two
differ, it upserts the zone's apex record (`@`, A for IPv4, AAAA for IPv6, TTL 3600) if
the new address is 4 or 16 bytes long; a nil address that differs sends nothing. Either
way it then remembers the new address, whether the upsert succeeded or not.

The model has six modules:

- `NetIP` (netip.dfy): Go's `net.IP` as a byte sequence. The nil slice is the empty
  sequence; `len`, `To4` and `bytes.Equal` treat the two the same. It also defines
  `To4`, with the IPv4-mapped form of section 2.5.5.2 of RFC 4291, and `bytes.Equal`.
- `IPText` (iptext.dfy): `IP.String()`, the text that becomes the record's value.
  IPv4 prints as dotted decimal. IPv6 prints in hexadecimal with the longest run of zero
  groups compressed to `::`, as sections 4.2.2 and 4.2.3 of RFC 5952 require. The module
  proves that the dotted text identifies the address, that every hexadecimal field reads
  back as its group, and that the run chosen for `::` follows the RFC.
- `Resolver` (resolver.dfy): the family filters at the end of `getIpv4` and `getIpv6`.
  Each one takes the parse result as its input.
- `Records` (records.dfy): the upsert requests that `updateDnsRecords` sends. It picks
  the record type from the address length.
- `Reconcile` (reconcile.dfy): one iteration of `main`'s loop (`Iteration`) and a finite
  run of iterations (`Iterations`), both as functions. The class `Updater` holds the
  loop's two variables and a log of the calls it has sent. Its methods `Step` and `Loop`
  are proved against those functions. The RPC (`CreateOrUpdate`) returns an arbitrary
  outcome. Nothing reads that outcome, so the new state is the same whichever outcome
  it is.
- `Scenarios` (scenarios.dfy): concrete iterations starting from a previous address of
  1.2.3.4.

Two consequences of the code are worth stating:

- A failed upsert is not retried. The slot is overwritten whatever `CreateOrUpdate`
  returned (main.go:138-147), so the same address is not sent again until it changes
  (`RepeatIsQuiet`).
- Losing an address sends nothing, because `len(nil)` is 0 (main.go:65). The slot
  becomes nil, and the next successful lookup is sent again (`LostAddressClearsSlot`,
  `Scenarios.FailedLookupClearsSlot`).

## Model

| member | source | states |
|---|---|---|
| NetIP.To4 | main.go:55-58 | `To4` gives a 4-byte result exactly when the address is 4 bytes long or IPv4-mapped; otherwise it gives nil. A 4-byte address comes back unchanged. A mapped address is the mapping of its result. |
| NetIP.Mapped | main.go:55-58 | The IPv4-mapped form of a 4-byte address is mapped, and its last four bytes are that address. |
| NetIP.To4OfMapped | main.go:55-58 | `To4` undoes the IPv4-mapping. |
| NetIP.To4Idempotent | main.go:55-58 | `To4` of a result of `To4` is that result. |
| NetIP.BytesEqual | main.go:138 | `bytes.Equal` holds exactly when both addresses have the same bytes, so nil equals nil. |
| IPText.HexDigit | main.go:63 | A hexadecimal digit is lowercase, and its value is the number it was made from. |
| IPText.Decimal | main.go:63 | A byte's decimal text is non-empty and contains only digits. Zero is "0"; any other number has no leading zero. |
| IPText.DecimalRoundTrip | main.go:63 | Reading a number's decimal text gives the number back. |
| IPText.DottedFields | main.go:63 | Cutting the dotted text at its dots gives the four decimal fields. |
| IPText.DottedInjective | main.go:63 | Two IPv4 addresses with the same dotted text are the same address. |
| IPText.Dotted | main.go:63 | Dotted text contains at least one '.', and every other character is a decimal digit. |
| IPText.Hex | main.go:63 | A group's hexadecimal text is non-empty and contains only lowercase hex digits. Zero is "0"; any other number has no leading zero. |
| IPText.HexRoundTrip | main.go:63 | Reading a number's hexadecimal text gives the number back. |
| IPText.HexBytes | main.go:63 | The `?`-prefixed form of an address of any other length has two hex digits per byte. |
| IPText.HexBytesRoundTrip | main.go:63 | In that form, the two digits at each byte's position read back as that byte, high digit first. |
| IPText.ZeroRunLength | main.go:63 | The run of zero groups it measures is all zero and stops at a non-zero group or at the end. |
| IPText.ZeroRunAtMost | main.go:63 | No run of zero groups starting at a position is longer than the measured run there. |
| IPText.ScanRuns | main.go:63 | The run that the scan for `::` returns lies within the groups. |
| IPText.ScanRunsChosen | main.go:63 | The scan keeps the first of the longest runs of at least two zero groups. |
| IPText.LongestZeroRunChosen | main.go:63 | The run that IPv6 text compresses to `::` has at least two groups. It is a longest run, and the first of several longest runs. Without such a run nothing is compressed (sections 4.2.2 and 4.2.3 of RFC 5952). |
| IPText.JoinHex | main.go:63 | Joined groups contain only hex digits and ':', with a ':' as soon as there are two groups. |
| IPText.JoinHexFields | main.go:63 | Cutting joined groups at ':' gives each group's hexadecimal text, in order. |
| IPText.IPv6Text | main.go:63 | IPv6 text contains at least one ':', and every other character is a hex digit. |
| IPText.IPv6TextLayout | main.go:63 | Without a run of two zero groups, the text's colon-separated fields are the eight groups in hexadecimal. Otherwise `::` replaces exactly the run that RFC 5952 chooses, and the groups before and after it are written out one hexadecimal field each. |
| IPText.Text | main.go:63 | `IP.String()` gives "<nil>" for nil. An address with an IPv4 form prints with a '.' and no ':'. Any other 16-byte address prints with a ':' and no '.'. Any other length prints as '?' followed by the bytes in hexadecimal. |
| IPText.TextOfIPv4 | main.go:63 | An address with an IPv4 form prints as the dotted text of that form, so a mapped address prints like its 4-byte form. |
| IPText.TextIdentifiesIPv4 | main.go:63 | Two addresses with an IPv4 form and the same text have the same IPv4 form. |
| IPText.TextOfIPv6 | main.go:63 | A 16-byte address that is not IPv4-mapped prints as its IPv6 text. |
| Resolver.GetIpv4 | main.go:54-58 | The IPv4 lookup yields nil or exactly 4 bytes. It yields 4 bytes exactly when the parse result is 4 bytes long or IPv4-mapped, and then it yields the IPv4 address itself. |
| Resolver.GetIpv6 | main.go:35-40 | The IPv6 lookup never yields an address with an IPv4 form, so it never yields 4 bytes or a mapped address. It keeps the parse result exactly when that result has no IPv4 form; otherwise it yields nil. |
| Resolver.GetIpv6OfParseResult | main.go:35-40 | For any `net.ParseIP` result, the IPv6 lookup yields nil or a 16-byte address that is not mapped. It yields an address exactly when the parse result is one. |
| Resolver.LookupsDisjoint | main.go:37-38 | No parse result is kept by both the IPv4 lookup and the IPv6 lookup. |
| Resolver.FailureStaysAbsent | main.go:35-40 | A failed lookup (nil) gives nil in both families. |
| Records.Upsert | main.go:67-83 | An upsert request is well formed, has the requested type, and carries the given text as its one value. |
| Records.Upserts | main.go:65-110 | At most one request is sent. One is sent exactly for a 4-byte or a 16-byte address. It is an A request exactly for 4 bytes. Every request uses the configured zone, name "@" and TTL 3600. It carries the address's text as the single value in the slot of its type. |
| Records.MappedGoesOutAsDottedAAAA | main.go:88-101 | The length alone picks the type, so a mapped 16-byte address would go out as an AAAA request with a dotted value. |
| Records.Ipv4LookupLandsInA | main.go:55-79 | A non-nil IPv4 lookup result goes out as exactly one A request. Its value is the dotted text, contains no ':', and names no other address. |
| Records.Ipv6LookupLandsInAAAA | main.go:88-101 | An IPv6 lookup result never goes out as an A request. A non-nil lookup result of a parse result goes out as exactly one AAAA request in colon-hex form. |
| Reconcile.Reconcile | main.go:138-142 | One family: the slot always ends up holding the current address. A request is sent exactly when the address differs from the slot and has length 4 or 16. |
| Reconcile.Iteration | main.go:136-148 | After an iteration the slots hold exactly the two lookup results. At most two requests are sent, and all of them are well formed. |
| Reconcile.OfTypeAppend | main.go:138-148 | Picking the requests of one type out of two logs one after the other gives the picks of each log, in the same order. |
| Reconcile.IterationSplitsByFamily | main.go:138-148 | The A requests of an iteration are exactly those of the IPv4 half, and the AAAA requests exactly those of the IPv6 half. |
| Reconcile.FamiliesIndependent | main.go:138-148 | A family's new slot and its requests depend only on that family's previous slot and lookup. |
| Reconcile.UnchangedFamilyIsQuiet | main.go:138-148 | If a lookup result is byte-equal to its slot (including nil and nil), no request is sent for that family and the slot is unchanged. |
| Reconcile.ChangedFamilyIsUpdated | main.go:138-147 | If a lookup result differs from its slot, the slot takes the new value. The family's requests are exactly the upserts for that value, one when it is not nil. |
| Reconcile.LostAddressClearsSlot | main.go:138-147 | Nil after a present address clears the slot, and nothing is sent. |
| Reconcile.FirstAddressIsSent | main.go:133-148 | Starting from the nil slots, the first address that each lookup yields is sent. |
| Reconcile.RepeatIsQuiet | main.go:138-147 | A second iteration that sees the same lookups sends nothing, so a failed upsert is not retried. |
| Reconcile.Iterations | main.go:135-151 | A run of n iterations sends at most 2n well-formed requests. Afterwards the slots hold the last iteration's lookups, or the starting slots after no iteration. |
| Reconcile.SteadyStateIsQuiet | main.go:135-151 | Once the slots hold what the lookups keep returning, further iterations send nothing and change nothing. |
| Reconcile.Updater.constructor | main.go:133-134 | Both slots start nil and nothing has been sent. |
| Reconcile.Updater.CreateOrUpdate | main.go:67-83 | The request is appended to the call log with an arbitrary outcome. |
| Reconcile.Updater.UpdateDnsRecords | main.go:61-111 | The requests sent are exactly `Upserts` of the address, and the earlier log is kept. |
| Reconcile.Updater.Step | main.go:136-148 | The new slots and the requests sent are those of `Iteration`, whatever the upserts returned. The earlier call log is kept as a prefix. |
| Reconcile.Updater.Loop | main.go:135-151 | Over a finite sequence of lookups, the new slots and the requests sent are those of `Iterations`. The earlier call log is kept as a prefix. |
| Scenarios.SameAddressSendsNothing | main.go:138-142 | Previous 1.2.3.4, lookup 1.2.3.4: nothing is sent, and the slot stays. |
| Scenarios.NewAddressSendsOneUpsert | main.go:138-142 | Previous 1.2.3.4, lookup 5.6.7.8: exactly one A upsert of "5.6.7.8" with TTL 3600 is sent, and the slot becomes 5.6.7.8. |
| Scenarios.FailedLookupClearsSlot | main.go:138-142 | Previous 1.2.3.4, failed lookup: nothing is sent and the slot is cleared. The next lookup of 1.2.3.4 is sent again. |
| Scenarios.IPv4AnswerToIPv6LookupIsDropped | main.go:35-40 | An IPv4 answer from the IPv6 service is dropped, and nothing is sent for IPv6. |

## Left out

- The HTTP requests to the echo services and reading their bodies (main.go:24-33, 44-53)
  are network I/O. Every failure there yields nil, so the model takes the lookup's
  outcome as an input.
- `net.ParseIP` (main.go:35, 54) is a standard-library parser. Its result is an input.
  `Resolver.IsParseResult` states only the shape of that result: nil or 16 bytes.
- Reading the environment and building the credential and the record-sets client
  (main.go:114-131) is operating-system and SDK glue. The resource group and the zone
  become a `Config` value.
- The body of `CreateOrUpdate` is a foreign RPC. It is modelled as appending the request
  to a log with an arbitrary success flag.
- `time.Sleep` and the loop's infinite repetition (main.go:135, 150): the model runs one
  iteration, or a finite sequence of them.
- `fmt.Printf` (main.go:86, 108, 139, 145) only writes log output. The `fmt.Errorf` values
  (main.go:26, 31, 46, 51, 123, 129) are built and discarded, so they produce no output
  at all.
- `IPText.IPv6Text`: the model shows how the text is laid out and that each written
  field reads back as its group. It does not define a parser for the `::` form, so it
  does not prove that the text determines the address, as it does for IPv4 text.
