/** The text form of an address, `IP.String()` in Go, which becomes the value of
    the DNS record: dotted decimal for IPv4 (also for an IPv4-mapped 16-byte
    address), the compressed hexadecimal form of section 4 of RFC 5952 for IPv6. */
module IPText {
  import opened NetIP

  predicate IsDecimalDigit(c: char) { '0' <= c <= '9' }
  predicate IsHexDigit(c: char) { '0' <= c <= '9' || 'a' <= c <= 'f' }

  /** The value of one hexadecimal digit. */
  function HexDigitValue(c: char): nat
    requires IsHexDigit(c)
  {
    if c <= '9' then c as int - '0' as int else c as int - 'a' as int + 10
  }

  function DecimalDigit(d: nat): (c: char)
    requires d < 10
    ensures IsDecimalDigit(c)
    ensures c as int - '0' as int == d
  {
    ('0' as int + d) as char
  }

  function HexDigit(d: nat): (c: char)
    requires d < 16
    ensures IsHexDigit(c)
    ensures HexDigitValue(c) == d
  {
    if d < 10 then ('0' as int + d) as char else ('a' as int + d - 10) as char
  }

  /** `n` in decimal without leading zeros. */
  function Decimal(n: nat): (s: string)
    ensures 1 <= |s|
    ensures forall c :: c in s ==> IsDecimalDigit(c)
    ensures n == 0 ==> s == "0"
    ensures n > 0 ==> s[0] != '0'
    decreases n
  {
    if n < 10 then [DecimalDigit(n)] else Decimal(n / 10) + [DecimalDigit(n % 10)]
  }

  /** The number a string of decimal digits denotes; the reference reading of `Decimal`. */
  function DecimalValue(s: string): nat
    requires forall c :: c in s ==> IsDecimalDigit(c)
    decreases |s|
  {
    if s == [] then 0
    else
      assert s[|s| - 1] in s && IsDecimalDigit(s[|s| - 1]);
      assert s[|s| - 1] as int >= '0' as int;
      DecimalValue(s[..|s| - 1]) * 10 + (s[|s| - 1] as int - '0' as int)
  }

  lemma {:induction false} DecimalRoundTrip(n: nat)
    ensures DecimalValue(Decimal(n)) == n
    decreases n
  {
    if n >= 10 {
      var s := Decimal(n);
      assert s[..|s| - 1] == Decimal(n / 10);
      DecimalRoundTrip(n / 10);
    }
  }

  /** `n` in lowercase hexadecimal without leading zeros (Go's `appendHex` on a 16-bit group). */
  function Hex(n: nat): (s: string)
    ensures 1 <= |s|
    ensures forall c :: c in s ==> IsHexDigit(c)
    ensures n == 0 ==> s == "0"
    ensures n > 0 ==> s[0] != '0'
    decreases n
  {
    if n < 16 then [HexDigit(n)] else Hex(n / 16) + [HexDigit(n % 16)]
  }

  /** The number a string of hexadecimal digits denotes; the reference reading of `Hex`. */
  function HexValue(s: string): nat
    requires forall c :: c in s ==> IsHexDigit(c)
    decreases |s|
  {
    if s == [] then 0
    else
      assert s[|s| - 1] in s;
      HexValue(s[..|s| - 1]) * 16 + HexDigitValue(s[|s| - 1])
  }

  lemma {:induction false} HexRoundTrip(n: nat)
    ensures HexValue(Hex(n)) == n
    decreases n
  {
    if n >= 16 {
      var s := Hex(n);
      assert s[..|s| - 1] == Hex(n / 16);
      HexRoundTrip(n / 16);
    }
  }

  /** Two lowercase hexadecimal digits per byte (Go's `hexString`), high digit first. */
  function HexBytes(b: IP): (s: string)
    ensures |s| == 2 * |b|
    ensures forall c :: c in s ==> IsHexDigit(c)
  {
    if b == [] then "" else [HexDigit(b[0] / 16), HexDigit(b[0] % 16)] + HexBytes(b[1..])
  }

  /** Reading the two digits of each byte gives the byte back. */
  lemma {:induction false} HexBytesRoundTrip(b: IP)
    ensures var s := HexBytes(b);
            forall k :: 0 <= k < |b| ==>
              HexDigitValue(s[2 * k]) * 16 + HexDigitValue(s[2 * k + 1]) == b[k]
    decreases |b|
  {
    if b != [] {
      var s := HexBytes(b);
      var rest := HexBytes(b[1..]);
      assert s == [HexDigit(b[0] / 16), HexDigit(b[0] % 16)] + rest;
      HexBytesRoundTrip(b[1..]);
      forall k | 0 <= k < |b|
        ensures HexDigitValue(s[2 * k]) * 16 + HexDigitValue(s[2 * k + 1]) == b[k]
      {
        if k > 0 {
          var j := k - 1;
          assert s[2 * k] == rest[2 * j] && s[2 * k + 1] == rest[2 * j + 1];
          assert b[k] == b[1..][j];
        }
      }
    }
  }

  /** Dotted decimal, `a.b.c.d`. */
  function Dotted(a: IP): (r: string)
    requires |a| == IPv4Len
    ensures forall c :: c in r ==> IsDecimalDigit(c) || c == '.'
    ensures '.' in r
  {
    var r := Decimal(a[0]) + "." + Decimal(a[1]) + "." + Decimal(a[2]) + "." + Decimal(a[3]);
    assert r[|Decimal(a[0])|] == '.';
    r
  }

  /** A string cut at every `sep`: the reference reading of `Dotted` (with '.') and
      of `JoinHex` (with ':'). */
  function SplitOn(s: string, sep: char): (fields: seq<string>)
    ensures |fields| >= 1
    decreases |s|
  {
    if s == [] then [""]
    else
      var rest := SplitOn(s[1..], sep);
      if s[0] == sep then [""] + rest else [[s[0]] + rest[0]] + rest[1..]
  }

  lemma {:induction false} SplitOnField(x: string, sep: char, y: string)
    requires sep !in x
    ensures SplitOn(x + [sep] + y, sep) == [x] + SplitOn(y, sep)
    decreases |x|
  {
    if x == [] {
      assert x + [sep] + y == [sep] + y;
    } else {
      assert x[0] in x;
      assert (x + [sep] + y)[1..] == x[1..] + [sep] + y;
      SplitOnField(x[1..], sep, y);
      assert [x[0]] + x[1..] == x;
    }
  }

  lemma {:induction false} SplitOnNone(x: string, sep: char)
    requires sep !in x
    ensures SplitOn(x, sep) == [x]
    decreases |x|
  {
    if x != [] {
      assert x[0] in x;
      SplitOnNone(x[1..], sep);
      assert [x[0]] + x[1..] == x;
    }
  }

  /** Cutting the dotted text at its dots gives back the four decimal fields. */
  lemma DottedFields(a: IP)
    requires |a| == IPv4Len
    ensures SplitOn(Dotted(a), '.') == [Decimal(a[0]), Decimal(a[1]), Decimal(a[2]), Decimal(a[3])]
  {
    var d3 := Decimal(a[3]);
    var t2 := Decimal(a[2]) + "." + d3;
    var t1 := Decimal(a[1]) + "." + t2;
    assert Dotted(a) == Decimal(a[0]) + "." + t1;
    SplitOnField(Decimal(a[0]), '.', t1);
    SplitOnField(Decimal(a[1]), '.', t2);
    SplitOnField(Decimal(a[2]), '.', d3);
    SplitOnNone(d3, '.');
  }

  /** The dotted text determines the address: two different IPv4 addresses never
      produce the same A record value. */
  lemma DottedInjective(a: IP, b: IP)
    requires |a| == IPv4Len && |b| == IPv4Len
    requires Dotted(a) == Dotted(b)
    ensures a == b
  {
    DottedFields(a);
    DottedFields(b);
    var fa := [Decimal(a[0]), Decimal(a[1]), Decimal(a[2]), Decimal(a[3])];
    var fb := [Decimal(b[0]), Decimal(b[1]), Decimal(b[2]), Decimal(b[3])];
    assert fa == fb;
    forall k | 0 <= k < IPv4Len ensures a[k] == b[k] {
      assert Decimal(a[k]) == fa[k] == fb[k] == Decimal(b[k]);
      DecimalRoundTrip(a[k]);
      DecimalRoundTrip(b[k]);
    }
  }

  // ---- IPv6 ----

  /** The eight 16-bit groups of a 16-byte address, most significant byte first. */
  function Groups(ip: IP): (g: seq<nat>)
    requires |ip| == IPv6Len
    ensures |g| == 8
    ensures forall k :: 0 <= k < 8 ==> (g[k] == 0 <==> ip[2 * k] == 0 && ip[2 * k + 1] == 0)
  {
    seq(8, k requires 0 <= k < 8 => (ip[2 * k] as int) * 256 + ip[2 * k + 1])
  }

  /** Groups `s` up to but excluding `e` are all zero. */
  predicate IsZeroRun(g: seq<nat>, s: int, e: int) {
    0 <= s <= e <= |g| && forall k :: s <= k < e ==> g[k] == 0
  }

  /** The run that `::` replaces, or none. */
  datatype ZeroRun = NoRun | Run(start: nat, end: nat)

  function RunLength(r: ZeroRun): int {
    match r
    case NoRun => 0
    case Run(s, e) => e - s
  }

  /** The rule of sections 4.2.2 and 4.2.3 of RFC 5952: `::` replaces a run of at
      least two zero groups, a longest one, and the first of several longest ones;
      with no run of two zero groups nothing is replaced. */
  ghost predicate IsChosenRun(g: seq<nat>, r: ZeroRun) {
    match r
    case NoRun =>
      forall s, e :: IsZeroRun(g, s, e) ==> e - s < 2
    case Run(start, end) =>
      2 <= end - start && IsZeroRun(g, start, end) &&
      (forall s, e :: IsZeroRun(g, s, e) ==> e - s <= end - start) &&
      (forall s, e :: IsZeroRun(g, s, e) && s < start ==> e - s < end - start)
  }

  /** The number of zero groups starting at `i`. */
  function ZeroRunLength(g: seq<nat>, i: nat): (n: nat)
    requires i <= |g|
    ensures IsZeroRun(g, i, i + n)
    ensures i + n < |g| ==> g[i + n] != 0
    decreases |g| - i
  {
    if i < |g| && g[i] == 0 then 1 + ZeroRunLength(g, i + 1) else 0
  }

  lemma ZeroRunAtMost(g: seq<nat>, s: int, e: int)
    requires IsZeroRun(g, s, e)
    ensures e - s <= ZeroRunLength(g, s)
  {
  }

  /** Go's search in `appendTo6`: from group `i` on, replace the best run so far by a
      strictly longer one of at least two groups. */
  function ScanRuns(g: seq<nat>, i: nat, best: ZeroRun): (r: ZeroRun)
    requires i <= |g|
    requires best.Run? ==> best.start <= best.end <= |g|
    ensures r.Run? ==> r.start <= r.end <= |g|
    decreases |g| - i
  {
    if i == |g| then best
    else
      var n := ZeroRunLength(g, i);
      if n >= 2 && n > RunLength(best) then ScanRuns(g, i + 1, Run(i, i + n))
      else ScanRuns(g, i + 1, best)
  }

  function LongestZeroRun(g: seq<nat>): (r: ZeroRun)
    ensures r.Run? ==> r.start <= r.end <= |g|
  {
    ScanRuns(g, 0, NoRun)
  }

  /** What `ScanRuns` knows after looking at the groups before `i`. */
  ghost predicate ScannedUpTo(g: seq<nat>, i: nat, best: ZeroRun) {
    match best
    case NoRun =>
      forall s, e :: IsZeroRun(g, s, e) && s < i ==> e - s < 2
    case Run(start, end) =>
      start < i && 2 <= end - start && IsZeroRun(g, start, end) &&
      (forall s, e :: IsZeroRun(g, s, e) && s < i ==> e - s <= end - start) &&
      (forall s, e :: IsZeroRun(g, s, e) && s < start ==> e - s < end - start)
  }

  /** Having looked at every group, the best run found is the chosen one. */
  lemma ScannedAll(g: seq<nat>, best: ZeroRun)
    requires ScannedUpTo(g, |g|, best)
    ensures IsChosenRun(g, best)
  {
  }

  /** Looking at group `i` keeps `ScannedUpTo` one group further on. */
  lemma ScanOneGroup(g: seq<nat>, i: nat, best: ZeroRun)
    requires i < |g|
    requires ScannedUpTo(g, i, best)
    ensures var n := ZeroRunLength(g, i);
            ScannedUpTo(g, i + 1, if n >= 2 && n > RunLength(best) then Run(i, i + n) else best)
  {
    var n := ZeroRunLength(g, i);
    forall s, e | IsZeroRun(g, s, e) && s == i ensures e - s <= n {
      ZeroRunAtMost(g, s, e);
    }
  }

  lemma {:induction false} ScanRunsChosen(g: seq<nat>, i: nat, best: ZeroRun)
    requires i <= |g|
    requires ScannedUpTo(g, i, best)
    ensures IsChosenRun(g, ScanRuns(g, i, best))
    decreases |g| - i
  {
    if i == |g| {
      ScannedAll(g, best);
    } else {
      var n := ZeroRunLength(g, i);
      var next := if n >= 2 && n > RunLength(best) then Run(i, i + n) else best;
      assert ScanRuns(g, i, best) == ScanRuns(g, i + 1, next);
      ScanOneGroup(g, i, best);
      ScanRunsChosen(g, i + 1, next);
    }
  }

  /** The run Go's formatter compresses obeys RFC 5952. */
  lemma LongestZeroRunChosen(g: seq<nat>)
    ensures IsChosenRun(g, LongestZeroRun(g))
  {
    ScanRunsChosen(g, 0, NoRun);
  }

  /** Groups in hexadecimal, separated by ':'. */
  function JoinHex(g: seq<nat>): (s: string)
    ensures forall c :: c in s ==> IsHexDigit(c) || c == ':'
    ensures |g| >= 2 ==> ':' in s
  {
    if g == [] then ""
    else if |g| == 1 then Hex(g[0])
    else Hex(g[0]) + ":" + JoinHex(g[1..])
  }

  /** Cutting `JoinHex` at its colons gives each group's hexadecimal text, in order;
      with `HexRoundTrip`, reading those fields gives the groups back. */
  lemma {:induction false} JoinHexFields(g: seq<nat>)
    requires g != []
    ensures var fields := SplitOn(JoinHex(g), ':');
            |fields| == |g| && forall k :: 0 <= k < |g| ==> fields[k] == Hex(g[k])
    decreases |g|
  {
    if |g| == 1 {
      SplitOnNone(Hex(g[0]), ':');
    } else {
      SplitOnField(Hex(g[0]), ':', JoinHex(g[1..]));
      JoinHexFields(g[1..]);
    }
  }

  /** The IPv6 text form: groups in hexadecimal, the chosen run of zero groups as `::`. */
  function IPv6Text(ip: IP): (s: string)
    requires |ip| == IPv6Len
    ensures forall c :: c in s ==> IsHexDigit(c) || c == ':'
    ensures ':' in s
  {
    var g := Groups(ip);
    match LongestZeroRun(g)
    case NoRun => JoinHex(g)
    case Run(s, e) =>
      var text := JoinHex(g[..s]) + "::" + JoinHex(g[e..]);
      assert text[|JoinHex(g[..s])|] == ':';
      text
  }

  /** How IPv6 text is laid out. Without a run of two zero groups, the colon-separated
      fields are the eight groups in hexadecimal. Otherwise `::` stands for exactly the
      run that RFC 5952 chooses: the groups before it and after it are written out,
      each hexadecimal field being one group. */
  lemma IPv6TextLayout(ip: IP)
    requires |ip| == IPv6Len
    ensures var g := Groups(ip);
            match LongestZeroRun(g)
            case NoRun =>
              IsChosenRun(g, NoRun) &&
              var fields := SplitOn(IPv6Text(ip), ':');
              |fields| == 8 && forall k :: 0 <= k < 8 ==> fields[k] == Hex(g[k])
            case Run(s, e) =>
              IsChosenRun(g, Run(s, e)) &&
              IPv6Text(ip) == JoinHex(g[..s]) + "::" + JoinHex(g[e..]) &&
              (s > 0 ==> var fields := SplitOn(JoinHex(g[..s]), ':');
                         |fields| == s && forall k :: 0 <= k < s ==> fields[k] == Hex(g[k])) &&
              (e < 8 ==> var fields := SplitOn(JoinHex(g[e..]), ':');
                         |fields| == 8 - e && forall k :: e <= k < 8 ==> fields[k - e] == Hex(g[k]))
  {
    var g := Groups(ip);
    LongestZeroRunChosen(g);
    match LongestZeroRun(g)
    case NoRun =>
      JoinHexFields(g);
    case Run(s, e) =>
      if s > 0 {
        JoinHexFields(g[..s]);
      }
      if e < 8 {
        JoinHexFields(g[e..]);
      }
  }

  /** Go's `IP.String()`: "<nil>" for nil, dotted decimal for an address with an IPv4
      form, colon-hexadecimal for any other 16-byte address, and '?' followed by the
      bytes in hexadecimal for any other length. */
  function Text(ip: IP): (r: string)
    ensures |ip| == 0 ==> r == "<nil>"
    ensures |To4(ip)| == IPv4Len ==> '.' in r && ':' !in r
    ensures |ip| == IPv6Len && |To4(ip)| == 0 ==> ':' in r && '.' !in r
    ensures |ip| != 0 && |ip| != IPv4Len && |ip| != IPv6Len ==>
              |r| == 1 + 2 * |ip| && r[0] == '?' && r[1..] == HexBytes(ip)
  {
    if |ip| == 0 then "<nil>"
    else if |ip| != IPv4Len && |ip| != IPv6Len then "?" + HexBytes(ip)
    else if |To4(ip)| == IPv4Len then Dotted(To4(ip))
    else IPv6Text(ip)
  }

  /** A 4-byte address and its IPv4-mapped form print the same dotted text. */
  lemma TextOfIPv4(ip: IP)
    requires |To4(ip)| == IPv4Len
    ensures Text(ip) == Dotted(To4(ip))
    ensures Text(ip) == Text(To4(ip))
  {
  }

  /** The text identifies an address with an IPv4 form: two such addresses with the
      same text have the same 4-byte form. */
  lemma TextIdentifiesIPv4(a: IP, b: IP)
    requires |To4(a)| == IPv4Len && |To4(b)| == IPv4Len
    requires Text(a) == Text(b)
    ensures To4(a) == To4(b)
  {
    DottedInjective(To4(a), To4(b));
  }

  /** A 16-byte address that is not IPv4-mapped prints in colon-hexadecimal form. */
  lemma TextOfIPv6(ip: IP)
    requires |ip| == IPv6Len && |To4(ip)| == 0
    ensures Text(ip) == IPv6Text(ip)
  {
  }
}
