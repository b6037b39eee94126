/** The operations on a packet buffer, in place, each proved against its value in `Headers`. */
module ProtocolHeaders {
  import opened Bytes
  import opened Checksum
  import opened Headers
  import opened Rewriting
  import opened Resetting

  method Store16(buffer: array<byte>, i: nat, v: uint16)
    requires i + 2 <= buffer.Length
    modifies buffer
    ensures buffer[..] == Put16(old(buffer[..]), i, v)
  {
    buffer[i], buffer[i + 1] := v / 0x100, v % 0x100;
  }

  method Store32(buffer: array<byte>, i: nat, v: uint32)
    requires i + 4 <= buffer.Length
    modifies buffer
    ensures buffer[..] == Put32(old(buffer[..]), i, v)
  {
    Store16(buffer, i, v / 0x1_0000);
    Store16(buffer, i + 2, v % 0x1_0000);
  }

  function Load16(buffer: array<byte>, i: nat): (v: uint16)
    requires i + 2 <= buffer.Length
    reads buffer
    ensures v == Get16(buffer[..], i)
  {
    buffer[i] as int * 0x100 + buffer[i + 1] as int
  }

  function Load32(buffer: array<byte>, i: nat): (v: uint32)
    requires i + 4 <= buffer.Length
    reads buffer
    ensures v == Get32(buffer[..], i)
  {
    Load16(buffer, i) * 0x1_0000 + Load16(buffer, i + 2)
  }

  method IpCsum(buffer: array<byte>) returns (c: uint16)
    requires buffer.Length >= 1 && HeaderLen(buffer[..]) <= buffer.Length
    ensures c == IpChecksum(buffer[..])
  {
    var n := buffer[0] as int % 16 * 4;
    SmallSumFits(n, 0);
    var sum := Summing(buffer, 0, n, 0);
    assert buffer[0..n] == IpHeader(buffer[..]);
    c := 0xffff - sum;
  }

  datatype Pointer = Null | At(offset: nat)

  /** The twelve bytes summed before the segment. */
  method BuildPseudoHeader(buffer: array<byte>, segmentLen: uint16) returns (pseudo: array<byte>)
    requires Framed(buffer[..]) && segmentLen == TotalLen(buffer[..]) - HeaderLen(buffer[..])
    ensures fresh(pseudo) && pseudo[..] == PseudoHeader(buffer[..])
  {
    pseudo := new byte[12](i => 0);
    for i := 0 to 8
      invariant forall k | 0 <= k < i :: pseudo[k] == buffer[12 + k]
      invariant forall k | i <= k < 12 :: pseudo[k] == 0
    {
      pseudo[i] := buffer[12 + i];
    }
    pseudo[9] := TCP_PROTOCOL;
    Store16(pseudo, 10, segmentLen);
  }

  lemma SumPieces(b: seq<byte>, doff: nat)
    requires Framed(b) && doff == DataOffset(b, HeaderLen(b))
    ensures var tcp := HeaderLen(b);
            var head := Canon(Canon(WordSum(PseudoHeader(b))) + WordSum(b[tcp..tcp + doff]));
            && Canon(head + WordSum(b[tcp + doff..TotalLen(b)])) == 0xffff - TcpChecksum(b)
            && (TotalLen(b) == tcp + doff ==> head == 0xffff - TcpChecksum(b))
  {
    hide WordSum, Canon;
    var tcp := HeaderLen(b);
    var header, data := b[tcp..tcp + doff], b[tcp + doff..TotalLen(b)];
    assert Segment(b) == header + data;
    assert PseudoHeader(b) + Segment(b) == PseudoHeader(b) + header + data;
    ChainedSum(PseudoHeader(b), header, data);
  }

  /**
   The three chained sums: pseudo-header, TCP header, data. The data pointer may
   be null only when the lengths leave no data, so it is never followed then.
   */
  method TcpCsum(buffer: array<byte>, tcp: nat, data: Pointer) returns (c: uint16)
    requires Framed(buffer[..]) && tcp == HeaderLen(buffer[..])
    requires data.At? ==> data.offset == tcp + DataOffset(buffer[..], tcp)
    requires data.Null? ==> TotalLen(buffer[..]) == tcp + DataOffset(buffer[..], tcp)
    ensures c == TcpChecksum(buffer[..])
  {
    hide PseudoHeader, TcpChecksum, WordSum, Canon, FullHeaders, SumFits;
    var doff := buffer[tcp + 12] as int / 16 * 4;
    var dataBytes := Load16(buffer, 2) - buffer[0] as int % 16 * 4 - doff;
    SumPieces(buffer[..], doff);
    var pseudo := BuildPseudoHeader(buffer, doff + dataBytes);
    assert pseudo[0..12] == pseudo[..];
    SmallSumFits(12, 0);
    var sum := Summing(pseudo, 0, 12, 0);
    assert buffer[tcp..tcp + doff] == buffer[..][tcp..tcp + doff];
    SmallSumFits(doff, sum);
    sum := Summing(buffer, tcp, doff, sum);
    if dataBytes > 0 {
      var from := data.offset;
      assert buffer[from..from + dataBytes] == buffer[..][tcp + doff..TotalLen(buffer[..])];
      SmallSumFits(dataBytes, sum);
      sum := Summing(buffer, from, dataBytes, sum);
    }
    c := 0xffff - sum;
  }

  /** On success also gives the offset of the TCP header. */
  method ValidateIpTcp(buffer: array<byte>, size: nat) returns (ok: bool, tcp: nat)
    requires size <= buffer.Length
    ensures ok <==> Validates(buffer[..], size)
    ensures ok ==> tcp == HeaderLen(buffer[..])
  {
    ok, tcp := false, 0;
    if 2 * MIN_HEADER > size {
      return;
    }
    if buffer[9] != TCP_PROTOCOL {
      return;
    }
    var headerLen := buffer[0] as int % 16 * 4;
    if headerLen + MIN_HEADER > size {
      return;
    }
    if Load16(buffer, 2) > size {
      return;
    }
    if Load16(buffer, 2) < headerLen + buffer[headerLen + 12] as int / 16 * 4 {
      return;
    }
    ok, tcp := true, headerLen;
  }

  method ReplaceSrcIp(buffer: array<byte>, ip: uint32)
    requires buffer.Length >= MIN_HEADER && HeaderLen(buffer[..]) <= buffer.Length
    modifies buffer
    ensures buffer[..] == SetAddr(old(buffer[..]), Source, ip)
  {
    Store16(buffer, IP_CHECK, 0);
    Store32(buffer, 12, ip);
    var c := IpCsum(buffer);
    Store16(buffer, IP_CHECK, c);
  }

  method ReplaceDstIp(buffer: array<byte>, ip: uint32)
    requires buffer.Length >= MIN_HEADER && HeaderLen(buffer[..]) <= buffer.Length
    modifies buffer
    ensures buffer[..] == SetAddr(old(buffer[..]), Destination, ip)
  {
    Store16(buffer, IP_CHECK, 0);
    Store32(buffer, 16, ip);
    var c := IpCsum(buffer);
    Store16(buffer, IP_CHECK, c);
  }

  lemma PortBlankFramed(b: seq<byte>, e: End, port: uint16)
    requires Framed(b)
    ensures var z := Put16(Put16(b, PortAt(b, e), port), TcpCheckAt(b), 0);
            && Framed(z) && HeaderLen(z) == HeaderLen(b)
            && DataOffset(z, HeaderLen(b)) == DataOffset(b, HeaderLen(b))
  {
  }

  method ReplaceSrcPort(buffer: array<byte>, port: uint16)
    requires Framed(buffer[..])
    modifies buffer
    ensures buffer[..] == SetPort(old(buffer[..]), Source, port)
  {
    var tcp := buffer[0] as int % 16 * 4;
    var data := tcp + buffer[tcp + 12] as int / 16 * 4;
    PortBlankFramed(buffer[..], Source, port);
    Store16(buffer, tcp, port);
    Store16(buffer, tcp + 16, 0);
    var c := TcpCsum(buffer, tcp, At(data));
    Store16(buffer, tcp + 16, c);
  }

  method ReplaceDstPort(buffer: array<byte>, port: uint16)
    requires Framed(buffer[..])
    modifies buffer
    ensures buffer[..] == SetPort(old(buffer[..]), Destination, port)
  {
    var tcp := buffer[0] as int % 16 * 4;
    var data := tcp + buffer[tcp + 12] as int / 16 * 4;
    PortBlankFramed(buffer[..], Destination, port);
    Store16(buffer, tcp + 2, port);
    Store16(buffer, tcp + 16, 0);
    var c := TcpCsum(buffer, tcp, At(data));
    Store16(buffer, tcp + 16, c);
  }

  method ReplaceSrcIpPort(buffer: array<byte>, ip: uint32, port: uint16)
    requires Framed(buffer[..])
    modifies buffer
    ensures buffer[..] == Rewrite(old(buffer[..]), Source, ip, port)
  {
    SetAddrFrame(buffer[..], Source, ip);
    ReplaceSrcIp(buffer, ip);
    ReplaceSrcPort(buffer, port);
  }

  method ReplaceDstIpPort(buffer: array<byte>, ip: uint32, port: uint16)
    requires Framed(buffer[..])
    modifies buffer
    ensures buffer[..] == Rewrite(old(buffer[..]), Destination, ip, port)
  {
    SetAddrFrame(buffer[..], Destination, ip);
    ReplaceDstIp(buffer, ip);
    ReplaceDstPort(buffer, port);
  }

  method FillinReset(buffer: array<byte>, host: Host) returns (size: nat)
    requires buffer.Length >= RESET_LEN
    modifies buffer
    ensures buffer[..] == Reset(old(buffer[..]), host)
    ensures size == RESET_LEN
  {
    FillinResetIp(buffer, host);
    ResetIpFields(old(buffer[..]), host);
    FillinResetTcp(buffer);
    ResetTcpFields(ResetIp(old(buffer[..]), host));
    size := Load16(buffer, 2);
  }

  /** The first half of the reset: the IP header. */
  method FillinResetIp(buffer: array<byte>, host: Host)
    requires buffer.Length >= RESET_LEN
    modifies buffer
    ensures buffer[..] == ResetIp(old(buffer[..]), host)
  {
    hide ResetIpFixed, SwapAddrs;
    FillinResetFixed(buffer, host);
    ResetIpFixedFields(old(buffer[..]), host);
    SwapAddrsFields(buffer[..]);
    ExchangeAddrs(buffer);
    var c := IpCsum(buffer);
    Store16(buffer, IP_CHECK, c);
  }

  method FillinResetFixed(buffer: array<byte>, host: Host)
    requires buffer.Length >= RESET_LEN
    modifies buffer
    ensures buffer[..] == ResetIpFixed(old(buffer[..]), host)
  {
    buffer[0] := buffer[0] as int / 16 * 16 + 5;
    Store16(buffer, 2, RESET_LEN);
    if host == BigEndian {
      Store16(buffer, 4, (Load16(buffer, 4) as int + 1) % 0x1_0000);
    } else {
      var id := (buffer[5] as int * 0x100 + buffer[4] as int + 1) % 0x1_0000;
      buffer[4], buffer[5] := id % 0x100, id / 0x100;
    }
    Store16(buffer, 6, 0);
    buffer[8] := 60;
    Store16(buffer, IP_CHECK, 0);
  }

  method ExchangeAddrs(buffer: array<byte>)
    requires buffer.Length >= 20
    modifies buffer
    ensures buffer[..] == SwapAddrs(old(buffer[..]))
  {
    var saddr := Load32(buffer, 12);
    Store32(buffer, 12, Load32(buffer, 16));
    Store32(buffer, 16, saddr);
  }

  /** The second half of the reset: the TCP header at byte 20; there is no data to sum. */
  method FillinResetTcp(buffer: array<byte>)
    requires buffer.Length >= RESET_LEN
    requires HeaderLen(buffer[..]) == 20 && TotalLen(buffer[..]) == RESET_LEN
    modifies buffer
    ensures buffer[..] == ResetTcp(old(buffer[..]))
  {
    hide ResetTcpBlank;
    var tcp := buffer[0] as int % 16 * 4;
    ResetTcpBlankFields(buffer[..]);
    FillinResetFields(buffer, tcp);
    var c := TcpCsum(buffer, tcp, Null);
    Store16(buffer, tcp + 16, c);
  }

  method FillinResetFields(buffer: array<byte>, tcp: nat)
    requires buffer.Length >= RESET_LEN && tcp == 20
    modifies buffer
    ensures buffer[..] == ResetTcpBlank(old(buffer[..]))
  {
    hide AnswerNumbers;
    var source := Load16(buffer, tcp);
    Store16(buffer, tcp, Load16(buffer, tcp + 2));
    Store16(buffer, tcp + 2, source);
    AnswerSequence(buffer, tcp);
    buffer[tcp + 12] := 5 * 16 + buffer[tcp + 12] as int % 16;
    buffer[tcp + 13] := RST_ACK;
    Store16(buffer, tcp + 16, 0);
  }

  method AnswerSequence(buffer: array<byte>, tcp: nat)
    requires buffer.Length >= RESET_LEN && tcp == 20
    modifies buffer
    ensures buffer[..] == AnswerNumbers(old(buffer[..]))
  {
    var seqNo := Load32(buffer, tcp + 4);
    Store32(buffer, tcp + 4, Load32(buffer, tcp + 8));
    Store32(buffer, tcp + 8, (seqNo as int + 1) % 0x1_0000_0000);
  }
}
