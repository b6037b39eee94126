/** What the reset construction makes of an arbitrary packet. */
module Resetting {
  import opened Bytes
  import opened Headers
  import opened Rewriting

  /** Sequence and acknowledgement numbers of the TCP header at byte 20. */
  function Seq20(b: seq<byte>): uint32
    requires |b| >= RESET_LEN
  {
    Get32(b, 24)
  }

  function Ack20(b: seq<byte>): uint32
    requires |b| >= RESET_LEN
  {
    Get32(b, 28)
  }

  /** The identification field as the host reads it. */
  function IdOf(b: seq<byte>, host: Host): uint16
    requires |b| >= 6
  {
    if host == BigEndian then Get16(b, 4) else b[5] as int * 0x100 + b[4] as int
  }

  /** A packet whose fields hold the checksums of its own blank is sealed. */
  lemma SealedByParts(r: seq<byte>)
    requires Framed(r)
    requires Get16(r, IP_CHECK) == IpChecksum(Blank(r))
    requires Get16(r, TcpCheckAt(r)) == TcpChecksum(Blank(r))
    ensures Seal(r) == r && ChecksumsVerify(r)
  {
    BlankRestored(r);
    SealVerifies(r);
  }

  lemma ResetIpFixedFields(b: seq<byte>, host: Host)
    requires |b| >= RESET_LEN
    ensures var f := ResetIpFixed(b, host);
            && f[0] == b[0] as int / 16 * 16 + 5
            && Get16(f, 2) == RESET_LEN && Get16(f, 6) == 0 && Get16(f, IP_CHECK) == 0
            && f[1] == b[1] && f[8] == 60 && f[9] == b[9]
            && IdOf(f, host) == (IdOf(b, host) + 1) % 0x1_0000
            && Get32(f, 12) == Get32(b, 12) && Get32(f, 16) == Get32(b, 16)
            && forall k | 12 <= k < |b| :: f[k] == b[k]
  {
  }

  lemma SwapAddrsFields(f: seq<byte>)
    requires |f| >= RESET_LEN
    ensures var s := SwapAddrs(f);
            && Get32(s, 12) == Get32(f, 16) && Get32(s, 16) == Get32(f, 12)
            && forall k | 0 <= k < |f| && !(12 <= k < 20) :: s[k] == f[k]
  {
  }

  lemma ResetIpFields(b: seq<byte>, host: Host)
    requires |b| >= RESET_LEN
    ensures var r := ResetIp(b, host);
            && r[0] == b[0] as int / 16 * 16 + 5
            && HeaderLen(r) == 20 && TotalLen(r) == RESET_LEN
            && Get16(r, 6) == 0 && r[1] == b[1] && r[8] == 60 && r[9] == b[9]
            && IdOf(r, host) == (IdOf(b, host) + 1) % 0x1_0000
            && Addr(r, Source) == Addr(b, Destination) && Addr(r, Destination) == Addr(b, Source)
            && Get16(r, IP_CHECK) == IpChecksum(Put16(r, IP_CHECK, 0))
            && Get16(r, 20) == Get16(b, 20) && Get16(r, 22) == Get16(b, 22)
            && Seq20(r) == Seq20(b) && Ack20(r) == Ack20(b)
            && forall k | 20 <= k < |b| :: r[k] == b[k]
  {
    hide ResetIpFixed, SwapAddrs;
    var f := ResetIpFixed(b, host);
    var s := SwapAddrs(f);
    var r := ResetIp(b, host);
    ResetIpFixedFields(b, host);
    SwapAddrsFields(f);
    assert r == Put16(s, IP_CHECK, IpChecksum(s));
    assert Put16(r, IP_CHECK, 0) == s;
  }

  lemma ResetTcpBlankFields(b: seq<byte>)
    requires |b| >= RESET_LEN
    ensures var z := ResetTcpBlank(b);
            && Get16(z, 20) == Get16(b, 22) && Get16(z, 22) == Get16(b, 20)
            && Seq20(z) == Ack20(b) && Ack20(z) == (Seq20(b) + 1) % 0x1_0000_0000
            && z[32] == 5 * 16 + b[32] as int % 16 && z[33] == RST_ACK
            && Get16(z, 36) == 0
            && forall k | 0 <= k < 20 || k == 34 || k == 35 || 38 <= k < |b| :: z[k] == b[k]
  {
  }

  lemma ResetTcpFields(b: seq<byte>)
    requires |b| >= RESET_LEN && HeaderLen(b) == 20 && TotalLen(b) == RESET_LEN
    ensures var r := ResetTcp(b);
            && Framed(r) && HeaderLen(r) == 20 && TotalLen(r) == RESET_LEN && DataOffset(r, 20) == 20
            && Get16(r, 6) == Get16(b, 6) && Get32(r, 12) == Get32(b, 12) && Get32(r, 16) == Get32(b, 16)
            && Get16(r, 20) == Get16(b, 22) && Get16(r, 22) == Get16(b, 20)
            && Seq20(r) == Ack20(b) && Ack20(r) == (Seq20(b) + 1) % 0x1_0000_0000
            && r[32] == 5 * 16 + b[32] as int % 16 && r[33] == RST_ACK && Get16(r, 4) == Get16(b, 4)
            && Framed(Put16(r, 36, 0)) && Get16(r, 36) == TcpChecksum(Put16(r, 36, 0))
            && forall k | 0 <= k < 20 || k == 34 || k == 35 || 38 <= k < |b| :: r[k] == b[k]
  {
    hide ResetTcpBlank;
    var z := ResetTcpBlank(b);
    var r := ResetTcp(b);
    ResetTcpBlankFields(b);
    assert HeaderLen(z) == 20 && TotalLen(z) == RESET_LEN && DataOffset(z, 20) == 20;
    assert r == Put16(z, 36, TcpChecksum(z));
    assert Put16(r, 36, 0) == z;
  }

  /** The checksum of the IP pass survives the TCP pass, and both verify. */
  lemma ResetSealed(b: seq<byte>, host: Host)
    requires |b| >= RESET_LEN
    ensures Framed(Reset(b, host)) && HeaderLen(Reset(b, host)) == 20
    ensures Seal(Reset(b, host)) == Reset(b, host) && ChecksumsVerify(Reset(b, host))
  {
    hide ResetIp, ResetTcp;
    var i := ResetIp(b, host);
    ResetIpFields(b, host);
    ResetTcpFields(i);
    var r := Reset(b, host);
    var y := Put16(r, 36, 0);
    assert HeaderLen(r) == 20;
    assert Blank(r) == Put16(y, IP_CHECK, 0);
    PortPassSum(y, 0);
    assert IpHeader(Blank(r)) == IpHeader(Put16(i, IP_CHECK, 0));
    SealedByParts(r);
  }

  /**
   From any buffer of at least 40 bytes: a 40-byte reset-and-acknowledge packet
   with verifying checksums, swapped addresses, and ports, sequence and
   acknowledgement numbers answering those found at byte 20; the version, type of
   service, window, urgent pointer and all later bytes are untouched and the
   identification is one higher. It validates exactly when the buffer held a TCP packet.
   */
  lemma ResetCorrect(b: seq<byte>, host: Host, n: nat)
    requires |b| >= 40 && n <= |b|
    ensures var r := Reset(b, host);
            && Framed(r) && ChecksumsVerify(r) && WireVerifies(r) && Get16(r, 10) != 0xffff && Get16(r, 36) != 0xffff
            && HeaderLen(r) == 20 && DataOffset(r, 20) == 20 && TotalLen(r) == 40
            && r[0] == b[0] as int / 16 * 16 + 5 && r[1] == b[1] && Get16(r, 2) == 40
            && (host == BigEndian ==> Get16(r, 4) == (Get16(b, 4) + 1) % 0x1_0000)
            && (host == LittleEndian ==> r[4] as int + 0x100 * r[5] as int == (b[4] as int + 0x100 * b[5] as int + 1) % 0x1_0000)
            && Get16(r, 6) == 0 && r[8] == 60 && r[9] == b[9]
            && Get32(r, 12) == Get32(b, 16) && Get32(r, 16) == Get32(b, 12)
            && Get16(r, 20) == Get16(b, 22) && Get16(r, 22) == Get16(b, 20)
            && Get32(r, 24) == Get32(b, 28) && Get32(r, 28) == (Get32(b, 24) + 1) % 0x1_0000_0000
            && r[32] == 0x50 + b[32] as int % 16 && r[33] == 0x14
            && r[34..36] == b[34..36] && r[38..40] == b[38..40]
            && (Validates(r, n) <==> n >= 40 && b[9] == 6)
            && forall k | 40 <= k < |b| :: r[k] == b[k]
  {
    hide ResetIp, ResetTcp, ChecksumsVerify, WireVerifies, Get16, Get32, FullHeaders, Seal;
    ResetIpFields(b, host);
    ResetTcpFields(ResetIp(b, host));
    ResetSealed(b, host);
    VerifyIff(Reset(b, host));
    SealedIff(Reset(b, host));
  }

  lemma ResetEnds(b: seq<byte>, host: Host)
    requires |b| >= RESET_LEN
    ensures var r := Reset(b, host);
            && HeaderLen(r) == 20
            && Addr(r, Source) == Addr(b, Destination) && Addr(r, Destination) == Addr(b, Source)
            && Port(r, Source) == Get16(b, 22) && Port(r, Destination) == Get16(b, 20)
            && Seq20(r) == Ack20(b) && Ack20(r) == (Seq20(b) + 1) % 0x1_0000_0000
  {
    hide Reset, Get16, Get32;
    ResetCorrect(b, host, 0);
  }

  /** The reset goes back to the sender: swapped ports, the sequence number expected, and an acknowledgement of what was sent. */
  predicate Answers(r: seq<byte>, b: seq<byte>)
    requires |r| >= RESET_LEN && HeaderLen(r) == 20 && |b| >= 1 && HeaderLen(b) + 12 <= |b|
  {
    && Port(r, Source) == Port(b, Destination) && Port(r, Destination) == Port(b, Source)
    && Seq20(r) == Get32(b, HeaderLen(b) + 8)
    && Ack20(r) == (Get32(b, HeaderLen(b) + 4) + 1) % 0x1_0000_0000
  }

  /**
   The reset answers the packet's ports and numbers exactly when the twelve bytes
   at 20 are those of its TCP header, in particular whenever there are no IP
   options.
   */
  lemma ResetAnswersIff(b: seq<byte>, host: Host)
    requires |b| >= RESET_LEN && HeaderLen(b) + 12 <= |b|
    ensures var r := Reset(b, host);
            && |r| == |b| && HeaderLen(r) == 20
            && (Answers(r, b) <==> b[20..32] == b[HeaderLen(b)..HeaderLen(b) + 12])
    ensures HeaderLen(b) == 20 ==> Answers(Reset(b, host), b)
  {
    hide Reset, Get16, Get32;
    var h := HeaderLen(b);
    ResetEnds(b, host);
    SuccessorInjective(Seq20(b), Get32(b, h + 4));
    Get32Halves(b, 20, h);
    SameBytes(b, 20, h);
  }

  lemma SuccessorInjective(a: uint32, b: uint32)
    ensures (a + 1) % 0x1_0000_0000 == (b + 1) % 0x1_0000_0000 <==> a == b
  {
  }

  /** Twelve bytes agree exactly when their three 32-bit words do. */
  lemma SameBytes(b: seq<byte>, i: nat, j: nat)
    requires i + 12 <= |b| && j + 12 <= |b|
    ensures b[i..i + 12] == b[j..j + 12] <==>
            Get32(b, i) == Get32(b, j) && Get32(b, i + 4) == Get32(b, j + 4) && Get32(b, i + 8) == Get32(b, j + 8)
  {
    var x, y := b[i..i + 12], b[j..j + 12];
    assert Get32(x, 0) == Get32(b, i) && Get32(x, 4) == Get32(b, i + 4) && Get32(x, 8) == Get32(b, i + 8);
    assert Get32(y, 0) == Get32(b, j) && Get32(y, 4) == Get32(b, j + 4) && Get32(y, 8) == Get32(b, j + 8);
    if Get32(x, 0) == Get32(y, 0) && Get32(x, 4) == Get32(y, 4) && Get32(x, 8) == Get32(y, 8) {
      Get32Injective(x, y, 0);
      Get32Injective(x, y, 4);
      Get32Injective(x, y, 8);
    }
  }

  /** A valid packet with one word of IP options, from port 256 to port 0. */
  function PacketWithOptions(): (b: seq<byte>)
    ensures |b| == 44
  {
    seq(44, k => if k == 0 then 0x46 else if k == 3 then 44 else if k == 9 then 6 else if k == 24 then 1 else if k == 36 then 0x50 else 0)
  }

  /** The failing packet: its options are taken for the TCP header, so the reset does not go back to port 256. */
  lemma ResetMissesSender(host: Host)
    ensures var b := PacketWithOptions();
            && Validates(b, 44) && FullHeaders(b) && HeaderLen(b) == 24
            && Port(b, Source) == 0x100
            && HeaderLen(Reset(b, host)) == 20 && Port(Reset(b, host), Destination) == 0
            && !Answers(Reset(b, host), b)
  {
    hide Reset;
    ResetEnds(PacketWithOptions(), host);
  }

  /** Two resets restore the ends; the sequence numbers have each moved on by one. */
  lemma ResetTwice(b: seq<byte>, host: Host)
    requires |b| >= RESET_LEN
    ensures var r := Reset(Reset(b, host), host);
            && Addr(r, Source) == Addr(b, Source) && Addr(r, Destination) == Addr(b, Destination)
            && HeaderLen(r) == 20
            && Port(r, Source) == Get16(b, 20) && Port(r, Destination) == Get16(b, 22)
            && Seq20(r) == (Seq20(b) + 1) % 0x1_0000_0000
            && Ack20(r) == (Ack20(b) + 1) % 0x1_0000_0000
  {
    hide Reset;
    ResetEnds(b, host);
    ResetEnds(Reset(b, host), host);
  }
}
