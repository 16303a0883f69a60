/** Addresses as the updater sees them: Go's `net.IP`, a slice of bytes.

    Every failure path of the updater returns the nil slice. Go's `len`, `To4` and
    `bytes.Equal` cannot tell a nil slice from an empty one, so nil is the empty
    sequence here and no separate "absent" tag is needed. */
module NetIP {

  /** One octet of an address. */
  type Byte = x: int | 0 <= x < 256

  /** A `net.IP`; `[]` is nil. */
  type IP = seq<Byte>

  /** `net.IPv4len` and `net.IPv6len`. */
  const IPv4Len: nat := 4
  const IPv6Len: nat := 16

  /** The ten zero bytes and two 0xff bytes that open an IPv4-mapped IPv6 address
      (section 2.5.5.2 of RFC 4291). */
  const V4InV6Prefix: IP := [0, 0, 0, 0, 0, 0, 0, 0, 0, 0, 0xff, 0xff]

  predicate IsV4Mapped(ip: IP) {
    |ip| == IPv6Len && (forall k :: 0 <= k < 10 ==> ip[k] == 0) && ip[10] == 0xff && ip[11] == 0xff
  }

  /** The IPv4-mapped IPv6 form of a 4-byte address. */
  function Mapped(a: IP): (m: IP)
    requires |a| == IPv4Len
    ensures IsV4Mapped(m) && m[12..] == a
  {
    V4InV6Prefix + a
  }

  /** Go's `IP.To4`: the 4-byte form of an IPv4 address, nil for anything else. */
  function To4(ip: IP): (r: IP)
    ensures |r| == 0 || |r| == IPv4Len
    ensures |r| == IPv4Len <==> |ip| == IPv4Len || IsV4Mapped(ip)
    ensures |ip| == IPv4Len ==> r == ip
    ensures IsV4Mapped(ip) ==> ip == Mapped(r)
  {
    if |ip| == IPv4Len then ip
    else if IsV4Mapped(ip) then ip[12..]
    else []
  }

  /** Mapping a 4-byte address into IPv6 and taking its `To4` gives the address back. */
  lemma To4OfMapped(a: IP)
    requires |a| == IPv4Len
    ensures To4(Mapped(a)) == a
  {
    assert Mapped(a)[12..] == a;
  }

  /** `To4` is idempotent: its result is already in 4-byte form (or nil). */
  lemma To4Idempotent(ip: IP)
    ensures To4(To4(ip)) == To4(ip)
  {
  }

  /** Go's `bytes.Equal`: same length and the same byte at every position, so a nil
      slice equals an empty one. On this model it is exactly sequence equality. */
  function BytesEqual(a: IP, b: IP): (r: bool)
    ensures r <==> a == b
    decreases |a|
  {
    |a| == |b| && (|a| == 0 || (a[0] == b[0] && BytesEqual(a[1..], b[1..])))
  }
}
