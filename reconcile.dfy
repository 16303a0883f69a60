/** The reconciliation loop of `main`: each iteration resolves both families, compares
    each with the address last seen for that family, sends an upsert when they differ,
    and then records the current address whatever the upsert returned. */
module Reconcile {
  import opened NetIP
  import opened IPText
  import opened Resolver
  import opened Records

  /** The loop's variables `previousIpv4` and `previousIpv6`. */
  datatype Slots = Slots(previousIpv4: IP, previousIpv6: IP)

  /** Both start nil. */
  const Initial: Slots := Slots([], [])

  /** What the two echo services' answers parsed to in one iteration (nil on any
      failure of the request, the read or the parse). */
  datatype Resolution = Resolution(parsedV4: IP, parsedV6: IP)

  /** The slots after an iteration and the upserts it sent, in order. */
  datatype Outcome = Outcome(slots: Slots, requests: seq<Request>)

  /** One family's half of the loop body: an upsert when the current address differs
      from the previous one byte for byte, and the current address kept either way. */
  function Reconcile(cfg: Config, previous: IP, current: IP): (r: (IP, seq<Request>))
    ensures r.0 == current
    ensures r.1 != [] <==> current != previous && (|current| == IPv4Len || |current| == IPv6Len)
    ensures r.1 != [] ==> r.1 == Upserts(cfg, current)
  {
    if !BytesEqual(current, previous) then (current, Upserts(cfg, current)) else (previous, [])
  }

  /** One iteration of the loop: IPv4 first, then IPv6. */
  function Iteration(cfg: Config, s: Slots, res: Resolution): (o: Outcome)
    ensures o.slots == Slots(GetIpv4(res.parsedV4), GetIpv6(res.parsedV6))
    ensures |o.requests| <= 2
    ensures forall q :: q in o.requests ==> WellFormed(cfg, q)
  {
    var (p4, r4) := Reconcile(cfg, s.previousIpv4, GetIpv4(res.parsedV4));
    var (p6, r6) := Reconcile(cfg, s.previousIpv6, GetIpv6(res.parsedV6));
    Outcome(Slots(p4, p6), r4 + r6)
  }

  /** The requests of one record type, in order. */
  function OfType(qs: seq<Request>, t: RecordType): (r: seq<Request>)
    ensures |r| <= |qs|
    ensures forall q :: q in r ==> q in qs && q.recordType == t
    ensures forall q :: q in qs && q.recordType == t ==> q in r
  {
    if qs == [] then []
    else if qs[0].recordType == t then [qs[0]] + OfType(qs[1..], t)
    else OfType(qs[1..], t)
  }

  lemma {:induction false} OfTypeAppend(a: seq<Request>, b: seq<Request>, t: RecordType)
    ensures OfType(a + b, t) == OfType(a, t) + OfType(b, t)
    decreases |a|
  {
    if a == [] {
      assert a + b == b;
    } else {
      assert (a + b)[0] == a[0];
      assert (a + b)[1..] == a[1..] + b;
      OfTypeAppend(a[1..], b, t);
    }
  }

  lemma {:induction false} OfTypeAll(qs: seq<Request>, t: RecordType)
    requires forall q :: q in qs ==> q.recordType == t
    ensures OfType(qs, t) == qs
    decreases |qs|
  {
    if qs != [] {
      assert qs[0] in qs;
      OfTypeAll(qs[1..], t);
    }
  }

  lemma OfTypeNone(qs: seq<Request>, t: RecordType)
    requires forall q :: q in qs ==> q.recordType != t
    ensures OfType(qs, t) == []
  {
  }

  /** The A upserts of an iteration are exactly the IPv4 half's, the AAAA upserts
      exactly the IPv6 half's. */
  lemma IterationSplitsByFamily(cfg: Config, s: Slots, res: Resolution)
    ensures OfType(Iteration(cfg, s, res).requests, A) ==
            Reconcile(cfg, s.previousIpv4, GetIpv4(res.parsedV4)).1
    ensures OfType(Iteration(cfg, s, res).requests, AAAA) ==
            Reconcile(cfg, s.previousIpv6, GetIpv6(res.parsedV6)).1
  {
    var r4 := Reconcile(cfg, s.previousIpv4, GetIpv4(res.parsedV4)).1;
    var r6 := Reconcile(cfg, s.previousIpv6, GetIpv6(res.parsedV6)).1;
    assert Iteration(cfg, s, res).requests == r4 + r6;
    OfTypeAppend(r4, r6, A);
    OfTypeAppend(r4, r6, AAAA);
    OfTypeAll(r4, A);
    OfTypeNone(r4, AAAA);
    Ipv6LookupLandsInAAAA(cfg, res.parsedV6);
    OfTypeAll(r6, AAAA);
    OfTypeNone(r6, A);
  }

  /** The families are independent: the IPv4 slot and the A upserts of an iteration
      depend only on the previous IPv4 slot and the IPv4 lookup, and the IPv6 slot
      and the AAAA upserts only on their IPv6 counterparts. */
  lemma FamiliesIndependent(cfg: Config, s: Slots, res: Resolution, s': Slots, res': Resolution)
    ensures s.previousIpv4 == s'.previousIpv4 && res.parsedV4 == res'.parsedV4 ==>
              Iteration(cfg, s, res).slots.previousIpv4 == Iteration(cfg, s', res').slots.previousIpv4 &&
              OfType(Iteration(cfg, s, res).requests, A) == OfType(Iteration(cfg, s', res').requests, A)
    ensures s.previousIpv6 == s'.previousIpv6 && res.parsedV6 == res'.parsedV6 ==>
              Iteration(cfg, s, res).slots.previousIpv6 == Iteration(cfg, s', res').slots.previousIpv6 &&
              OfType(Iteration(cfg, s, res).requests, AAAA) == OfType(Iteration(cfg, s', res').requests, AAAA)
  {
    IterationSplitsByFamily(cfg, s, res);
    IterationSplitsByFamily(cfg, s', res');
  }

  /** A family whose lookup is byte-equal to its slot (both nil included) sends
      nothing and keeps its slot. */
  lemma UnchangedFamilyIsQuiet(cfg: Config, s: Slots, res: Resolution)
    ensures GetIpv4(res.parsedV4) == s.previousIpv4 ==>
              OfType(Iteration(cfg, s, res).requests, A) == [] &&
              Iteration(cfg, s, res).slots.previousIpv4 == s.previousIpv4
    ensures GetIpv6(res.parsedV6) == s.previousIpv6 ==>
              OfType(Iteration(cfg, s, res).requests, AAAA) == [] &&
              Iteration(cfg, s, res).slots.previousIpv6 == s.previousIpv6
  {
    IterationSplitsByFamily(cfg, s, res);
  }

  /** A family whose lookup differs from its slot takes the current address and sends
      one upsert of its own type exactly when that address is not nil; a lookup that
      fails after a success therefore clears the slot and sends nothing. */
  lemma ChangedFamilyIsUpdated(cfg: Config, s: Slots, res: Resolution)
    ensures var ip := GetIpv4(res.parsedV4);
            ip != s.previousIpv4 ==>
              Iteration(cfg, s, res).slots.previousIpv4 == ip &&
              OfType(Iteration(cfg, s, res).requests, A) == Upserts(cfg, ip) &&
              (|Upserts(cfg, ip)| == 1 <==> ip != [])
    ensures var ip := GetIpv6(res.parsedV6);
            ip != s.previousIpv6 ==>
              Iteration(cfg, s, res).slots.previousIpv6 == ip &&
              OfType(Iteration(cfg, s, res).requests, AAAA) == Upserts(cfg, ip) &&
              (IsParseResult(res.parsedV6) ==> (|Upserts(cfg, ip)| == 1 <==> ip != []))
  {
    IterationSplitsByFamily(cfg, s, res);
    if IsParseResult(res.parsedV6) {
      GetIpv6OfParseResult(res.parsedV6);
    }
  }

  /** Losing an address (nil after a present one) clears the slot and sends nothing. */
  lemma LostAddressClearsSlot(cfg: Config, s: Slots, res: Resolution)
    ensures s.previousIpv4 != [] && GetIpv4(res.parsedV4) == [] ==>
              Iteration(cfg, s, res).slots.previousIpv4 == [] &&
              OfType(Iteration(cfg, s, res).requests, A) == []
    ensures s.previousIpv6 != [] && GetIpv6(res.parsedV6) == [] ==>
              Iteration(cfg, s, res).slots.previousIpv6 == [] &&
              OfType(Iteration(cfg, s, res).requests, AAAA) == []
  {
    IterationSplitsByFamily(cfg, s, res);
  }

  /** From the initial nil slots, the first address each lookup yields is always sent. */
  lemma FirstAddressIsSent(cfg: Config, res: Resolution)
    ensures GetIpv4(res.parsedV4) != [] ==> |OfType(Iteration(cfg, Initial, res).requests, A)| == 1
    ensures IsParseResult(res.parsedV6) && GetIpv6(res.parsedV6) != [] ==>
              |OfType(Iteration(cfg, Initial, res).requests, AAAA)| == 1
  {
    ChangedFamilyIsUpdated(cfg, Initial, res);
  }

  /** An iteration that sees what the previous iteration saw sends nothing, whether or
      not the previous iteration's upserts succeeded: a failed upsert is not retried
      until the address changes again. */
  lemma RepeatIsQuiet(cfg: Config, s: Slots, res: Resolution)
    ensures Iteration(cfg, Iteration(cfg, s, res).slots, res).requests == []
  {
  }

  /** A finite run of the loop over the given lookups, in order. */
  function Iterations(cfg: Config, s: Slots, rs: seq<Resolution>): (o: Outcome)
    ensures |o.requests| <= 2 * |rs|
    ensures forall q :: q in o.requests ==> WellFormed(cfg, q)
    ensures rs == [] ==> o.slots == s
    ensures rs != [] ==> o.slots == Slots(GetIpv4(rs[|rs| - 1].parsedV4), GetIpv6(rs[|rs| - 1].parsedV6))
    decreases |rs|
  {
    if rs == [] then Outcome(s, [])
    else
      var first := Iteration(cfg, s, rs[0]);
      var rest := Iterations(cfg, first.slots, rs[1..]);
      IterationsStep(cfg, rs, first, rest);
      Outcome(rest.slots, first.requests + rest.requests)
  }

  /** `Iterations`' contract for a non-empty run, from those of its first iteration
      and of the rest. */
  lemma IterationsStep(cfg: Config, rs: seq<Resolution>, first: Outcome, rest: Outcome)
    requires rs != []
    requires first.slots == Slots(GetIpv4(rs[0].parsedV4), GetIpv6(rs[0].parsedV6))
    requires |first.requests| <= 2
    requires forall q :: q in first.requests ==> WellFormed(cfg, q)
    requires |rest.requests| <= 2 * |rs[1..]|
    requires forall q :: q in rest.requests ==> WellFormed(cfg, q)
    requires rs[1..] == [] ==> rest.slots == first.slots
    requires rs[1..] != [] ==>
               rest.slots == Slots(GetIpv4(rs[1..][|rs[1..]| - 1].parsedV4), GetIpv6(rs[1..][|rs[1..]| - 1].parsedV6))
    ensures |first.requests + rest.requests| <= 2 * |rs|
    ensures forall q :: q in first.requests + rest.requests ==> WellFormed(cfg, q)
    ensures rest.slots == Slots(GetIpv4(rs[|rs| - 1].parsedV4), GetIpv6(rs[|rs| - 1].parsedV6))
  {
    if rs[1..] != [] {
      assert rs[1..][|rs[1..]| - 1] == rs[|rs| - 1];
    }
  }

  /** A run from position `i` is the iteration at `i` followed by the run after it. */
  lemma IterationsFirst(cfg: Config, s: Slots, rs: seq<Resolution>, i: nat)
    requires i < |rs|
    ensures var first := Iteration(cfg, s, rs[i]);
            var rest := Iterations(cfg, first.slots, rs[i + 1..]);
            Iterations(cfg, s, rs[i..]) == Outcome(rest.slots, first.requests + rest.requests)
  {
    assert rs[i..][1..] == rs[i + 1..];
  }

  lemma AppendAssociative(a: seq<Request>, b: seq<Request>, c: seq<Request>)
    ensures (a + b) + c == a + (b + c)
  {
  }

  /** Once the slots hold what the lookups keep returning, the loop sends nothing more. */
  lemma {:induction false} SteadyStateIsQuiet(cfg: Config, s: Slots, res: Resolution, rs: seq<Resolution>)
    requires s == Slots(GetIpv4(res.parsedV4), GetIpv6(res.parsedV6))
    requires forall k :: 0 <= k < |rs| ==> rs[k] == res
    ensures Iterations(cfg, s, rs).requests == []
    ensures Iterations(cfg, s, rs).slots == s
    decreases |rs|
  {
    if rs != [] {
      SteadyStateIsQuiet(cfg, s, res, rs[1..]);
    }
  }

  /** One `CreateOrUpdate` sent, and whether it came back without error. */
  datatype Call = Call(request: Request, succeeded: bool)

  /** The requests of a call log, in order. */
  function Sent(calls: seq<Call>): (r: seq<Request>)
    ensures |r| == |calls|
    ensures forall k :: 0 <= k < |calls| ==> r[k] == calls[k].request
  {
    seq(|calls|, k requires 0 <= k < |calls| => calls[k].request)
  }

  /** A log that extends a log that extends `a` extends `a`. */
  lemma PrefixExtends(a: seq<Call>, b: seq<Call>, c: seq<Call>)
    requires |a| <= |b| && b[..|a|] == a
    requires |b| <= |c| && c[..|b|] == b
    ensures |a| <= |c| && c[..|a|] == a
  {
    assert c[..|a|] == c[..|b|][..|a|];
  }

  /** The state `main` keeps between iterations, with the calls it has sent. */
  class Updater {
    const config: Config
    var previousIpv4: IP
    var previousIpv6: IP
    /** Every upsert sent so far and its outcome; the outcome is only ever printed. */
    var calls: seq<Call>

    function State(): Slots
      reads this
    {
      Slots(previousIpv4, previousIpv6)
    }

    constructor (config: Config)
      ensures this.config == config && State() == Initial && calls == []
    {
      this.config := config;
      previousIpv4, previousIpv6 := [], [];
      calls := [];
    }

    /** The record-sets client's `CreateOrUpdate`: the call is sent and may succeed
        or fail. */
    method CreateOrUpdate(q: Request) returns (ok: bool)
      modifies this`calls
      ensures calls == old(calls) + [Call(q, ok)]
    {
      ok := *;
      calls := calls + [Call(q, ok)];
    }

    /** `updateDnsRecords`: dispatch on the address's length. */
    method UpdateDnsRecords(ip: IP)
      modifies this`calls
      ensures |calls| == |old(calls)| + |Upserts(config, ip)|
      ensures calls[..|old(calls)|] == old(calls)
      ensures Sent(calls) == Sent(old(calls)) + Upserts(config, ip)
    {
      var ipStr := Text(ip);
      if |ip| == IPv4Len {
        var ok := CreateOrUpdate(Upsert(config, A, ipStr));
      } else if |ip| == IPv6Len {
        var ok := CreateOrUpdate(Upsert(config, AAAA, ipStr));
      }
    }

    /** One iteration of `main`'s loop. The new slots are the same whatever the
        upserts returned. */
    method Step(res: Resolution)
      modifies this
      ensures State() == Iteration(config, old(State()), res).slots
      ensures previousIpv4 == GetIpv4(res.parsedV4) && previousIpv6 == GetIpv6(res.parsedV6)
      ensures |calls| >= |old(calls)| && calls[..|old(calls)|] == old(calls)
      ensures Sent(calls) == Sent(old(calls)) + Iteration(config, old(State()), res).requests
    {
      var ipv4 := GetIpv4(res.parsedV4);
      var ipv6 := GetIpv6(res.parsedV6);
      ghost var r4 := Reconcile(config, previousIpv4, ipv4).1;
      ghost var r6 := Reconcile(config, previousIpv6, ipv6).1;
      if !BytesEqual(ipv4, previousIpv4) {
        UpdateDnsRecords(ipv4);
        previousIpv4 := ipv4;
      }
      assert Sent(calls) == Sent(old(calls)) + r4;
      ghost var between := calls;
      if !BytesEqual(ipv6, previousIpv6) {
        UpdateDnsRecords(ipv6);
        previousIpv6 := ipv6;
      }
      assert Sent(calls) == Sent(between) + r6;
      PrefixExtends(old(calls), between, calls);
      AppendAssociative(Sent(old(calls)), r4, r6);
    }

    /** `main`'s loop over a finite sequence of lookups. */
    method Loop(rs: seq<Resolution>)
      modifies this
      ensures State() == Iterations(config, old(State()), rs).slots
      ensures |calls| >= |old(calls)| && calls[..|old(calls)|] == old(calls)
      ensures Sent(calls) == Sent(old(calls)) + Iterations(config, old(State()), rs).requests
    {
      ghost var total, sent := Iterations(config, State(), rs), Sent(calls);
      var i := 0;
      while i < |rs|
        invariant 0 <= i <= |rs|
        invariant |calls| >= |old(calls)| && calls[..|old(calls)|] == old(calls)
        invariant Iterations(config, State(), rs[i..]).slots == total.slots
        invariant Sent(calls) + Iterations(config, State(), rs[i..]).requests == sent + total.requests
      {
        ghost var sentBefore, callsBefore := Sent(calls), calls;
        ghost var first := Iteration(config, State(), rs[i]);
        ghost var rest := Iterations(config, first.slots, rs[i + 1..]);
        IterationsFirst(config, State(), rs, i);
        Step(rs[i]);
        PrefixExtends(old(calls), callsBefore, calls);
        AppendAssociative(sentBefore, first.requests, rest.requests);
        i := i + 1;
      }
    }
  }
}
