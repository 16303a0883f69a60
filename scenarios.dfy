/** Concrete runs of one iteration, from a previous IPv4 address 1.2.3.4. The IPv4
    service's answer reaches the updater as `net.ParseIP` returns it, in mapped form. */
module Scenarios {
  import opened NetIP
  import opened IPText
  import opened Records
  import opened Reconcile

  const Old: IP := [1, 2, 3, 4]
  const New: IP := [5, 6, 7, 8]

  /** The same address again: nothing is sent and the slot stays 1.2.3.4. */
  lemma SameAddressSendsNothing(cfg: Config)
    ensures var o := Iteration(cfg, Slots(Old, []), Resolution(Mapped(Old), []));
            o.requests == [] && o.slots == Slots(Old, [])
  {
    To4OfMapped(Old);
  }

  /** A new address: one A upsert of "5.6.7.8" with TTL 3600, and the slot becomes
      5.6.7.8, whatever the upsert returns. */
  lemma NewAddressSendsOneUpsert(cfg: Config)
    ensures var o := Iteration(cfg, Slots(Old, []), Resolution(Mapped(New), []));
            o.requests == [Request(cfg.resourceGroup, cfg.domainName, "@", A,
                                   RecordSet(["5.6.7.8"], [], 3600))] &&
            o.slots == Slots(New, [])
  {
    To4OfMapped(New);
    assert Text(New) == "5.6.7.8";
  }

  /** The IPv4 lookup fails: nothing is sent (nil has length 0) and the slot is
      cleared, so the next successful lookup of 1.2.3.4 is sent again. */
  lemma FailedLookupClearsSlot(cfg: Config)
    ensures var o := Iteration(cfg, Slots(Old, []), Resolution([], []));
            o.requests == [] && o.slots == Slots([], []) &&
            |Iteration(cfg, o.slots, Resolution(Mapped(Old), [])).requests| == 1
  {
    To4OfMapped(Old);
  }

  /** The IPv6 service answering with an IPv4 address: the IPv6 lookup drops it and
      nothing is sent for IPv6. */
  lemma IPv4AnswerToIPv6LookupIsDropped(cfg: Config)
    ensures var o := Iteration(cfg, Slots(Old, []), Resolution(Mapped(Old), Mapped(New)));
            o.requests == [] && o.slots == Slots(Old, [])
  {
    To4OfMapped(Old);
    To4OfMapped(New);
  }
}
