/** The IPv4 header checksum (lib/perf/raw_ethernet_resources.c), against the ones' complement sum of
    section 1 of RFC 1071. */
module IpChecksum {
  import opened Modular
  import opened Sums

  const ONES: nat := 0xFFFF

  type Byte = x: nat | x < 256

  function Word(low: nat, high: nat): nat {
    low + 256 * high
  }

  /** The 16-bit words of a buffer as a little-endian host loads them; a last odd byte is in none. */
  function Words(bytes: seq<Byte>): (ws: seq<nat>)
    ensures |ws| == |bytes| / 2 && forall i :: 0 <= i < |ws| ==> ws[i] <= ONES
  {
    seq(|bytes| / 2, i requires 0 <= i < |bytes| / 2 => Word(bytes[2 * i], bytes[2 * i + 1]))
  }

  /** The same words as a big-endian host loads them. */
  function SwappedWords(bytes: seq<Byte>): (ws: seq<nat>)
    ensures |ws| == |bytes| / 2 && forall i :: 0 <= i < |ws| ==> ws[i] <= ONES
  {
    seq(|bytes| / 2, i requires 0 <= i < |bytes| / 2 => Word(bytes[2 * i + 1], bytes[2 * i]))
  }

  /** Ones' complement addition: the carry out comes back in at the bottom. */
  function OnesAdd(a: nat, b: nat): nat {
    if a + b > ONES then a + b - ONES else a + b
  }

  /** The ones' complement sum of 16-bit words. */
  function OnesSum(ws: seq<nat>): nat {
    if ws == [] then 0 else OnesAdd(OnesSum(ws[..|ws| - 1]), ws[|ws| - 1])
  }

  /** The 16-bit representative of a sum: zero only for zero, 0xFFFF for its other multiples. */
  function Reduce(t: nat): (r: nat)
    ensures r <= ONES && (r == 0 <==> t == 0)
  {
    if t == 0 then 0 else (t - 1) % ONES + 1
  }

  lemma ReduceSmall(t: nat)
    requires t <= ONES
    ensures Reduce(t) == t
  {
  }

  /** Sums that differ by a multiple of 0xFFFF have one representative, zero apart. */
  lemma ReduceCongruent(t: nat, u: nat, q: int)
    requires t == u + q * ONES && (t == 0 <==> u == 0)
    ensures Reduce(t) == Reduce(u)
  {
    if t > 0 {
      AddMultiple(u - 1, q, ONES);
    }
  }

  lemma ReduceAdd(t: nat, w: nat)
    requires w <= ONES
    ensures Reduce(t + w) == OnesAdd(Reduce(t), w)
  {
    var r := Reduce(t);
    if t > 0 {
      DivideExactly(t - 1, ONES);
      assert t == r + ((t - 1) / ONES) * ONES;
      var s := OnesAdd(r, w);
      ReduceCongruent(t + w, s, (t - 1) / ONES + if r + w > ONES then 1 else 0);
    }
    ReduceSmall(OnesAdd(r, w));
  }

  /** The sum with carries brought back at once is the plain sum, reduced at the end. */
  lemma {:induction false} OnesSumIsReducedSum(ws: seq<nat>)
    requires forall i :: 0 <= i < |ws| ==> ws[i] <= ONES
    ensures OnesSum(ws) == Reduce(Sum(ws))
  {
    if ws != [] {
      OnesSumIsReducedSum(ws[..|ws| - 1]);
      ReduceAdd(Sum(ws[..|ws| - 1]), ws[|ws| - 1]);
    }
  }

  /** `(sum & 0xFFFF) + (sum >> 16)`. */
  function Fold(sum: nat): nat {
    sum % 0x1_0000 + sum / 0x1_0000
  }

  lemma FoldKeeps(sum: nat)
    ensures Reduce(Fold(sum)) == Reduce(sum)
    ensures sum >= 0x1_0000 ==> Fold(sum) < sum
    ensures sum < 0x1_0000_0000 ==> Fold(sum) < 0x2_0000
  {
    DivideExactly(sum, 0x1_0000);
    ReduceCongruent(sum, Fold(sum), sum / 0x1_0000);
  }

  /** What `ip_checksum` returns for a buffer, however long. */
  function Checksum(bytes: seq<Byte>): nat {
    ONES - Reduce(Sum(Words(bytes)))
  }

  /** `sum & 0x80000000`, for a 32-bit value. */
  lemma HighBit(sum: nat)
    requires sum < 0x1_0000_0000
    ensures sum / 0x8000_0000 % 2 != 0 <==> sum >= 0x8000_0000
  {
    if sum >= 0x8000_0000 {
      RemainderUnique(sum, 0x8000_0000, 1, sum - 0x8000_0000);
    } else {
      RemainderUnique(sum, 0x8000_0000, 0, sum);
    }
  }

  /** One word more, folded if the high bit is set: the accumulator stays below it. */
  lemma NextWord(ws: seq<nat>, i: nat, sum: nat)
    requires i < |ws| && ws[i] <= ONES && sum < 0x8000_0000 && Reduce(sum) == OnesSum(ws[..i])
    ensures sum + ws[i] < 0x1_0000_0000
    ensures var t := sum + ws[i];
            var next := if t / 0x8000_0000 % 2 != 0 then Fold(t) else t;
            next < 0x8000_0000 && Reduce(next) == OnesSum(ws[..i + 1])
  {
    assert ws[..i + 1][..i] == ws[..i];
    ReduceAdd(sum, ws[i]);
    HighBit(sum + ws[i]);
    FoldKeeps(sum + ws[i]);
  }

  /** The first loop, over the words. The accumulator fits 32 bits throughout. */
  method SumWords(bytes: seq<Byte>) returns (sum: nat)
    ensures sum < 0x8000_0000 && Reduce(sum) == OnesSum(Words(bytes))
  {
    sum := 0;
    var ip, left := 0, |bytes|;
    ghost var ws := Words(bytes);
    while left > 1
      invariant 0 <= left && left == |bytes| - 2 * ip
      invariant sum < 0x8000_0000 && Reduce(sum) == OnesSum(ws[..ip])
    {
      NextWord(ws, ip, sum);
      sum := sum + Word(bytes[2 * ip], bytes[2 * ip + 1]);
      ip := ip + 1;
      if sum / 0x8000_0000 % 2 != 0 {
        sum := Fold(sum);
      }
      left := left - 2;
    }
    assert ws[..ip] == ws;
  }

  /** The second loop: every fold keeps what the accumulator stands for. */
  method FoldDown(start: nat) returns (sum: nat)
    ensures sum == Reduce(start)
  {
    sum := start;
    while sum / 0x1_0000 != 0
      invariant Reduce(sum) == Reduce(start)
      decreases sum
    {
      FoldKeeps(sum);
      sum := Fold(sum);
    }
    ReduceSmall(sum);
  }

  method ComputeChecksum(bytes: seq<Byte>) returns (check: nat)
    ensures check == Checksum(bytes)
    ensures check == ONES - OnesSum(Words(bytes))
  {
    var sum := SumWords(bytes);
    sum := FoldDown(sum);
    OnesSumIsReducedSum(Words(bytes));
    check := ONES - sum;
  }

  /** RFC 1071 pads odd data with a zero byte; the source leaves the last byte out. */
  function PaddedWords(bytes: seq<Byte>): seq<nat> {
    if |bytes| % 2 == 0 then Words(bytes) else Words(bytes) + [bytes[|bytes| - 1]]
  }

  /** So the two agree exactly on even lengths and on a zero last byte. */
  lemma AgreesWithPaddingIff(bytes: seq<Byte>)
    ensures Checksum(bytes) == ONES - OnesSum(PaddedWords(bytes)) <==>
            |bytes| % 2 == 0 || bytes[|bytes| - 1] == 0
  {
    var ws := Words(bytes);
    OnesSumIsReducedSum(ws);
    if |bytes| % 2 == 1 {
      assert PaddedWords(bytes)[..|ws|] == ws;
    }
  }

  /** Storing the checksum of data in a zeroed, aligned field of it makes the whole check to zero. */
  lemma StoredChecksumVerifies(bytes: seq<Byte>, field: nat, stored: seq<Byte>)
    requires 2 * field + 1 < |bytes|
    requires bytes[2 * field] == 0 && bytes[2 * field + 1] == 0
    requires stored == bytes[2 * field := Checksum(bytes) % 256][2 * field + 1 := Checksum(bytes) / 256]
    ensures Checksum(stored) == 0
  {
    var ws, c := Words(bytes), Checksum(bytes);
    WordsStored(bytes, field, c, stored);
    SumUpdate(ws, field, c);
    Complement(Sum(ws));
  }

  lemma WordsStored(bytes: seq<Byte>, field: nat, c: nat, stored: seq<Byte>)
    requires 2 * field + 1 < |bytes| && c <= ONES
    requires stored == bytes[2 * field := c % 256][2 * field + 1 := c / 256]
    ensures Words(stored) == Words(bytes)[field := c]
  {
    DivideExactly(c, 256);
    forall i | 0 <= i < |Words(bytes)|
      ensures Words(stored)[i] == if i == field then c else Words(bytes)[i]
    {
    }
  }

  /** A sum and its own complement make all ones. */
  lemma Complement(t: nat)
    ensures Reduce(t + (ONES - Reduce(t))) == ONES
  {
    if t > 0 {
      DivideExactly(t - 1, ONES);
      ReduceCongruent(t + (ONES - Reduce(t)), ONES, (t - 1) / ONES);
    }
    ReduceSmall(ONES);
  }

  function Swap(w: nat): nat {
    Word(w / 256, w % 256)
  }

  lemma SwapIs(w: nat)
    ensures Swap(w) == 256 * w - (w / 256) * ONES
    ensures Swap(w) == 0 <==> w == 0
  {
    DivideExactly(w, 256);
  }

  /** The plain sums in the two byte orders agree up to a factor of 256, modulo 0xFFFF. */
  lemma {:induction false} SwappedSum(ws: seq<nat>, swapped: seq<nat>) returns (q: nat)
    requires |ws| == |swapped| && forall i :: 0 <= i < |ws| ==> swapped[i] == Swap(ws[i])
    ensures Sum(swapped) == 256 * Sum(ws) - q * ONES
    ensures Sum(swapped) == 0 <==> Sum(ws) == 0
  {
    if ws == [] {
      return 0;
    }
    var n := |ws| - 1;
    q := SwappedSum(ws[..n], swapped[..n]);
    SwapIs(ws[n]);
    q := q + ws[n] / 256;
  }

  lemma WordsSwap(bytes: seq<Byte>)
    ensures forall i :: 0 <= i < |Words(bytes)| ==> SwappedWords(bytes)[i] == Swap(Words(bytes)[i])
  {
    forall i | 0 <= i < |Words(bytes)|
      ensures SwappedWords(bytes)[i] == Swap(Words(bytes)[i])
    {
      var low: nat, high: nat := bytes[2 * i], bytes[2 * i + 1];
      RemainderUnique(Word(low, high), 256, high, low);
    }
  }

  lemma SwapReduced(t: nat, u: nat, q: nat)
    requires u == 256 * t - q * ONES && (u == 0 <==> t == 0)
    ensures Reduce(u) == Swap(Reduce(t))
  {
    var r := Reduce(t);
    SwapIs(r);
    ReduceSmall(Swap(r));
    if t > 0 {
      DivideExactly(t - 1, ONES);
      ReduceCongruent(u, Swap(r), 256 * ((t - 1) / ONES) - q + r / 256);
    }
  }

  /** The ones' complement sum does not depend on byte order, except that its own bytes swap
      (section 2 of RFC 1071): what one host stores, a host of the other order can verify. */
  lemma ByteOrderIndependent(bytes: seq<Byte>)
    ensures OnesSum(SwappedWords(bytes)) == Swap(OnesSum(Words(bytes)))
  {
    OnesSumIsReducedSum(Words(bytes));
    OnesSumIsReducedSum(SwappedWords(bytes));
    WordsSwap(bytes);
    var q := SwappedSum(Words(bytes), SwappedWords(bytes));
    SwapReduced(Sum(Words(bytes)), Sum(SwappedWords(bytes)), q);
  }

  /** The fields `gen_ipv4_header` fills, before the checksum; addresses are in memory order. */
  function HeaderWithoutCheck(saddr: seq<Byte>, daddr: seq<Byte>, protocol: Byte, pktSize: int, ttl: int, tos: int):
    (h: seq<Byte>)
    requires |saddr| == 4 && |daddr| == 4
    ensures |h| == 20
  {
    [0x45, if tos == -1 then 0 else tos % 256, pktSize / 256 % 256, pktSize % 256,
     0, 0, 0, 0,
     ttl % 256, protocol, 0, 0] + saddr + daddr
  }

  method GenIpv4Header(
    buffer: array<Byte>, saddr: seq<Byte>, daddr: seq<Byte>, protocol: Byte, pktSize: int, ttl: int, tos: int)
    requires buffer.Length >= 20 && |saddr| == 4 && |daddr| == 4
    modifies buffer
    ensures Checksum(buffer[..20]) == 0
    ensures OnesSum(SwappedWords(buffer[..20])) == ONES
    ensures buffer[0] == 16 * 4 + 5                                   // version 4, five words of header
    ensures buffer[1] == if tos == -1 then 0 else tos % 256
    ensures Word(buffer[3], buffer[2]) == pktSize % 0x1_0000          // total length, in network order
    ensures buffer[4] == buffer[5] == buffer[6] == buffer[7] == 0     // identification, flags and fragment
    ensures buffer[8] == ttl % 256 && buffer[9] == protocol
    ensures buffer[12..16] == saddr && buffer[16..20] == daddr
    ensures buffer[20..] == old(buffer[20..])
  {
    var header := HeaderWithoutCheck(saddr, daddr, protocol, pktSize, ttl, tos);
    var check := ComputeChecksum(header);
    var filled: seq<Byte> := header[10 := check % 256][11 := check / 256];
    StoredChecksumVerifies(header, 5, filled);
    FilledParts(saddr, daddr, protocol, pktSize, ttl, tos, check);
    ChecksumZero(filled);
    Copy(filled, buffer);
    SamePrefix(buffer[..], filled);
  }

  /** The two bytes of a 16-bit length. */
  lemma LengthBytes(n: int)
    ensures Word(n % 256, n / 256 % 256) == n % 0x1_0000
  {
    DivideExactly(n, 256);
    DivideExactly(n / 256, 256);
    RemainderUnique(n, 0x1_0000, n / 256 / 256, Word(n % 256, n / 256 % 256));
  }

  lemma FilledParts(saddr: seq<Byte>, daddr: seq<Byte>, protocol: Byte, pktSize: int, ttl: int, tos: int, check: nat)
    requires |saddr| == 4 && |daddr| == 4 && check <= ONES
    ensures var h := HeaderWithoutCheck(saddr, daddr, protocol, pktSize, ttl, tos);
            var filled: seq<Byte> := h[10 := check % 256][11 := check / 256];
            && filled[0] == 0x45 && filled[1] == (if tos == -1 then 0 else tos % 256)
            && Word(filled[3], filled[2]) == pktSize % 0x1_0000
            && filled[4] == filled[5] == filled[6] == filled[7] == 0
            && filled[8] == ttl % 256 && filled[9] == protocol
            && filled[12..16] == saddr && filled[16..20] == daddr
  {
    HeaderParts(saddr, daddr, protocol, pktSize, ttl, tos);
    var h := HeaderWithoutCheck(saddr, daddr, protocol, pktSize, ttl, tos);
    var filled: seq<Byte> := h[10 := check % 256][11 := check / 256];
    assert filled[12..16] == h[12..16] && filled[16..20] == h[16..20];
    LengthBytes(pktSize);
  }

  lemma SamePrefix(b: seq<Byte>, filled: seq<Byte>)
    requires |filled| == 20 <= |b| && b[..20] == filled
    ensures forall i :: 0 <= i < 10 ==> b[i] == filled[i]
    ensures b[12..16] == filled[12..16] && b[16..20] == filled[16..20]
  {
    assert forall i :: 0 <= i < 20 ==> b[i] == b[..20][i];
    assert b[12..16] == b[..20][12..16] && b[16..20] == b[..20][16..20];
  }

  lemma ChecksumZero(bytes: seq<Byte>)
    requires Checksum(bytes) == 0
    ensures OnesSum(SwappedWords(bytes)) == ONES
  {
    ZeroIsAllOnes(bytes);
    ByteOrderIndependent(bytes);
    SwapOnes();
  }

  lemma ZeroIsAllOnes(bytes: seq<Byte>)
    requires Checksum(bytes) == 0
    ensures OnesSum(Words(bytes)) == ONES
  {
    OnesSumIsReducedSum(Words(bytes));
  }

  lemma SwapOnes()
    ensures Swap(ONES) == ONES
  {
  }

  lemma HeaderParts(saddr: seq<Byte>, daddr: seq<Byte>, protocol: Byte, pktSize: int, ttl: int, tos: int)
    requires |saddr| == 4 && |daddr| == 4
    ensures HeaderWithoutCheck(saddr, daddr, protocol, pktSize, ttl, tos)[12..16] == saddr
    ensures HeaderWithoutCheck(saddr, daddr, protocol, pktSize, ttl, tos)[16..20] == daddr
  {
  }

  /** memcpy. */
  method Copy(data: seq<Byte>, buffer: array<Byte>)
    requires |data| <= buffer.Length
    modifies buffer
    ensures buffer[..|data|] == data
    ensures buffer[|data|..] == old(buffer[|data|..])
  {
    for i := 0 to |data|
      invariant buffer[..i] == data[..i]
      invariant buffer[|data|..] == old(buffer[|data|..])
    {
      buffer[i] := data[i];
    }
  }
}
