/**
 The IPv4 header (section 3.1 of RFC 791) and TCP header (section 3.1 of
 RFC 793) of a packet held in one byte buffer, as values: where the fields lie,
 when a packet validates, and what the address, port and reset rewrites give.
 */
module Headers {
  import opened Bytes
  import opened Checksum

  const TCP_PROTOCOL: byte := 6
  const MIN_HEADER := 20

  /** Length in bytes of the IP header: four times the low half of the first byte. */
  function HeaderLen(b: seq<byte>): (n: nat)
    requires |b| >= 1
  {
    b[0] as int % 16 * 4
  }

  function TotalLen(b: seq<byte>): uint16
    requires |b| >= 4
  {
    Get16(b, 2)
  }

  /** Length in bytes of the TCP header that starts at `tcp`. */
  function DataOffset(b: seq<byte>, tcp: nat): (n: nat)
    requires tcp + 13 <= |b|
  {
    b[tcp + 12] as int / 16 * 4
  }

  /** The packet check, over the first `n` bytes. */
  predicate Validates(b: seq<byte>, n: nat)
    requires n <= |b|
  {
    && n >= 2 * MIN_HEADER
    && b[9] == TCP_PROTOCOL
    && HeaderLen(b) + MIN_HEADER <= n
    && TotalLen(b) <= n
    && HeaderLen(b) + DataOffset(b, HeaderLen(b)) <= TotalLen(b)
  }

  /** Neither header is shorter than its fixed part, so the two do not overlap. */
  predicate FullHeaders(b: seq<byte>)
    requires |b| >= 1 && HeaderLen(b) + MIN_HEADER <= |b|
  {
    HeaderLen(b) >= MIN_HEADER && DataOffset(b, HeaderLen(b)) >= MIN_HEADER
  }

  /** All that the rewrites need of a buffer; the protocol number plays no part. */
  predicate Framed(b: seq<byte>) {
    && |b| >= 2 * MIN_HEADER
    && HeaderLen(b) + MIN_HEADER <= |b|
    && FullHeaders(b)
    && HeaderLen(b) + DataOffset(b, HeaderLen(b)) <= TotalLen(b) <= |b|
  }

  lemma ValidatedIsFramed(b: seq<byte>, n: nat)
    requires n <= |b| && Validates(b, n) && FullHeaders(b)
    ensures Framed(b)
  {
  }

  // ----- the two ends of a packet -----

  datatype End = Source | Destination

  function AddrAt(e: End): nat {
    if e == Source then 12 else 16
  }

  function PortAt(b: seq<byte>, e: End): nat
    requires |b| >= 1
  {
    HeaderLen(b) + if e == Source then 0 else 2
  }

  function Addr(b: seq<byte>, e: End): uint32
    requires |b| >= 20
  {
    Get32(b, AddrAt(e))
  }

  function Port(b: seq<byte>, e: End): uint16
    requires |b| >= 1 && HeaderLen(b) + 4 <= |b|
  {
    Get16(b, PortAt(b, e))
  }

  const IP_CHECK := 10

  function TcpCheckAt(b: seq<byte>): nat
    requires |b| >= 1
  {
    HeaderLen(b) + 16
  }

  // ----- checksums -----

  function IpHeader(b: seq<byte>): seq<byte>
    requires |b| >= 1 && HeaderLen(b) <= |b|
  {
    b[..HeaderLen(b)]
  }

  /** Addresses, a zero byte, the protocol and the segment length. */
  function PseudoHeader(b: seq<byte>): (r: seq<byte>)
    requires Framed(b)
    ensures |r| == 12
  {
    var n := TotalLen(b) - HeaderLen(b);
    b[12..20] + [0, TCP_PROTOCOL, n / 0x100, n % 0x100]
  }

  function Segment(b: seq<byte>): (r: seq<byte>)
    requires Framed(b)
  {
    b[HeaderLen(b)..TotalLen(b)]
  }

  function IpChecksum(b: seq<byte>): uint16
    requires |b| >= 1 && HeaderLen(b) <= |b|
  {
    0xffff - Canon(WordSum(IpHeader(b)))
  }

  /** The one-pass checksum of pseudo-header and segment (section 3.1 of RFC 793). */
  function TcpChecksum(b: seq<byte>): uint16
    requires Framed(b)
  {
    0xffff - Canon(WordSum(PseudoHeader(b) + Segment(b)))
  }

  /** What a receiver tests: both one's-complement sums are all ones. */
  predicate ChecksumsVerify(b: seq<byte>)
    requires Framed(b)
  {
    && Canon(WordSum(IpHeader(b))) == 0xffff
    && Canon(WordSum(PseudoHeader(b) + Segment(b))) == 0xffff
  }

  /**
   The same test from the bytes of the wire: with `h` and `n` the header length and
   total length, the words of the IP header, and those of addresses, protocol
   number 6, segment length and segment, each sum to a multiple of 65535.
   */
  predicate WireVerifies(b: seq<byte>)
    requires Framed(b)
  {
    var h, n := 4 * (b[0] as int % 16), 0x100 * b[2] as int + b[3] as int;
    && WordSum(b[..h]) % 0xffff == 0
    && (Get16(b, 12) + Get16(b, 14) + Get16(b, 16) + Get16(b, 18) + 6 + (n - h) + WordSum(b[h..n])) % 0xffff == 0
  }

  /** Summing in three chained pieces, each folded to 16 bits, is summing once. */
  lemma ChainedSum(pseudo: seq<byte>, header: seq<byte>, data: seq<byte>)
    requires |pseudo| % 2 == 0 && |header| % 2 == 0
    ensures Canon(Canon(Canon(WordSum(pseudo)) + WordSum(header)) + WordSum(data))
         == Canon(WordSum(pseudo + header + data))
    ensures Canon(Canon(WordSum(pseudo)) + WordSum(header)) == Canon(WordSum(pseudo + header))
  {
    hide WordSum, Canon;
    CanonAbsorbs(WordSum(pseudo), WordSum(header));
    CanonAbsorbs(WordSum(pseudo) + WordSum(header), WordSum(data));
    WordSumConcat(pseudo, header);
    WordSumConcat(pseudo + header, data);
  }

  // ----- rewriting one end -----

  function SetAddr(b: seq<byte>, e: End, ip: uint32): (r: seq<byte>)
    requires |b| >= MIN_HEADER && HeaderLen(b) <= |b|
    ensures |r| == |b|
  {
    var z := Put32(Put16(b, IP_CHECK, 0), AddrAt(e), ip);
    Put16(z, IP_CHECK, IpChecksum(z))
  }

  function SetPort(b: seq<byte>, e: End, port: uint16): (r: seq<byte>)
    requires Framed(b)
    ensures |r| == |b|
  {
    var z := Put16(Put16(b, PortAt(b, e), port), TcpCheckAt(b), 0);
    Put16(z, TcpCheckAt(b), TcpChecksum(z))
  }

  function Rewrite(b: seq<byte>, e: End, ip: uint32, port: uint16): (r: seq<byte>)
    requires Framed(b)
    ensures |r| == |b|
  {
    SetPort(SetAddr(b, e, ip), e, port)
  }

  // ----- the reset packet -----

  datatype Host = LittleEndian | BigEndian

  /** Adding one to the 16-bit identification field in the byte order of the host. */
  function IncrementId(b: seq<byte>, host: Host): (r: seq<byte>)
    requires |b| >= 6
    ensures |r| == |b| && forall k | 0 <= k < |b| && k != 4 && k != 5 :: r[k] == b[k]
  {
    match host
    case BigEndian => Put16(b, 4, (Get16(b, 4) + 1) % 0x1_0000)
    case LittleEndian =>
      var v := (b[5] as int * 0x100 + b[4] as int + 1) % 0x1_0000;
      b[4 := v % 0x100][5 := v / 0x100]
  }

  const RESET_LEN := 40
  const RST_ACK: byte := 0x14

  /** The constant fields of a reset's IP header, a fresh id and a zero checksum. */
  function ResetIpFixed(b: seq<byte>, host: Host): (r: seq<byte>)
    requires |b| >= RESET_LEN
    ensures |r| == |b| && HeaderLen(r) == 20 && TotalLen(r) == RESET_LEN
  {
    var h := b[0 := b[0] as int / 16 * 16 + 5];
    var l := IncrementId(Put16(h, 2, RESET_LEN), host);
    Put16(Put16(l, 6, 0)[8 := 60], IP_CHECK, 0)
  }

  function SwapAddrs(b: seq<byte>): (r: seq<byte>)
    requires |b| >= 20
    ensures |r| == |b| && forall k | 0 <= k < |b| && !(12 <= k < 20) :: r[k] == b[k]
  {
    Put32(Put32(b, 12, Get32(b, 16)), 16, Get32(b, 12))
  }

  function ResetIp(b: seq<byte>, host: Host): (r: seq<byte>)
    requires |b| >= RESET_LEN
    ensures |r| == |b|
  {
    var s := SwapAddrs(ResetIpFixed(b, host));
    Put16(s, IP_CHECK, IpChecksum(s))
  }

  function SwapPorts(b: seq<byte>): (r: seq<byte>)
    requires |b| >= RESET_LEN
    ensures |r| == |b| && forall k | 0 <= k < |b| && !(20 <= k < 24) :: r[k] == b[k]
  {
    Put16(Put16(b, 20, Get16(b, 22)), 22, Get16(b, 20))
  }

  /** The old acknowledgement number becomes the sequence number; the old sequence number plus one is acknowledged. */
  function AnswerNumbers(b: seq<byte>): (r: seq<byte>)
    requires |b| >= RESET_LEN
    ensures |r| == |b| && forall k | 0 <= k < |b| && !(24 <= k < 32) :: r[k] == b[k]
  {
    Put32(Put32(b, 24, Get32(b, 28)), 28, (Get32(b, 24) + 1) % 0x1_0000_0000)
  }

  /** The TCP header of a reset, always written at byte 20, with a zero checksum. */
  function ResetTcpBlank(b: seq<byte>): (r: seq<byte>)
    requires |b| >= RESET_LEN
    ensures |r| == |b| && forall k | 0 <= k < 20 :: r[k] == b[k]
    ensures DataOffset(r, 20) == 20
  {
    var s := AnswerNumbers(SwapPorts(b));
    Put16(s[32 := 5 * 16 + s[32] as int % 16][33 := RST_ACK], 36, 0)
  }

  function ResetTcp(b: seq<byte>): (r: seq<byte>)
    requires |b| >= RESET_LEN && HeaderLen(b) == 20 && TotalLen(b) == RESET_LEN
    ensures |r| == |b|
  {
    hide ResetTcpBlank;
    var z := ResetTcpBlank(b);
    Put16(z, 36, TcpChecksum(z))
  }

  function Reset(b: seq<byte>, host: Host): (r: seq<byte>)
    requires |b| >= RESET_LEN
    ensures |r| == |b|
  {
    hide ResetTcp, SwapAddrs, ResetIpFixed;
    ResetTcp(ResetIp(b, host))
  }
}
