/**
 What the packet operations do to datagrams: each reads and changes exactly the
 fields that the wire format gives it.
 */
module WireLaws {
  import opened Bytes
  import opened Checksum
  import opened Headers
  import opened Rewriting
  import opened Resetting
  import opened Flags
  import opened Translation
  import opened Wire

  // ----- rewriting -----

  lemma SameWords(a: seq<byte>, b: seq<byte>, i: nat, n: nat)
    requires i + n <= |a| && i + n <= |b| && forall k | i <= k < i + n :: a[k] == b[k]
    ensures a[i..i + n] == b[i..i + n]
    ensures n == 2 ==> Get16(a, i) == Get16(b, i)
    ensures n == 4 ==> Get32(a, i) == Get32(b, i)
  {
  }

  /** The buffers agree but for checksums, addresses and ports. */
  ghost predicate Alike(a: seq<byte>, b: seq<byte>)
    requires Framed(b)
  {
    && |a| == |b|
    && forall k | 0 <= k < |b| && !(10 <= k < 20) && !(HeaderLen(b) <= k < HeaderLen(b) + 4)
                  && !(HeaderLen(b) + 16 <= k < HeaderLen(b) + 18) :: a[k] == b[k]
  }

  lemma AlikeWords(a: seq<byte>, b: seq<byte>)
    requires Framed(b) && Alike(a, b)
    ensures var h := HeaderLen(b);
            && Get16(a, 2) == Get16(b, 2) && Get16(a, 4) == Get16(b, 4) && Get16(a, 6) == Get16(b, 6)
            && Get32(a, h + 4) == Get32(b, h + 4) && Get32(a, h + 8) == Get32(b, h + 8)
            && Get16(a, h + 14) == Get16(b, h + 14) && Get16(a, h + 18) == Get16(b, h + 18)
  {
    hide Get16, Get32, HeaderLen;
    var h := HeaderLen(b);
    SameWords(a, b, 2, 2);
    SameWords(a, b, 4, 2);
    SameWords(a, b, 6, 2);
    SameWords(a, b, h + 4, 4);
    SameWords(a, b, h + 8, 4);
    SameWords(a, b, h + 14, 2);
    SameWords(a, b, h + 18, 2);
  }

  lemma AlikeSlices(a: seq<byte>, b: seq<byte>)
    requires Framed(b) && Alike(a, b)
    ensures var h, n := HeaderLen(b), TotalLen(b); var o := DataOffset(b, h);
            && a[20..h] == b[20..h] && a[h + 20..h + o] == b[h + 20..h + o] && a[h + o..n] == b[h + o..n] && a[n..] == b[n..]
            && |a| == |b| && a[0] == b[0] && a[1] == b[1] && a[8] == b[8] && a[9] == b[9] && a[h + 12] == b[h + 12] && a[h + 13] == b[h + 13]
  {
    hide Get16, HeaderLen;
  }

  /** Then they decode alike but for those fields. */
  lemma DecodedAlike(a: seq<byte>, b: seq<byte>)
    requires Framed(b) && Alike(a, b)
    ensures Framed(a) && TotalLen(a) == TotalLen(b) && a[TotalLen(b)..] == b[TotalLen(b)..]
    ensures var x := Decode(a);
            x == Decode(b).(ipCheck := x.ipCheck, saddr := x.saddr, daddr := x.daddr,
                            sport := x.sport, dport := x.dport, tcpCheck := x.tcpCheck)
  {
    hide Get16, Get32, Control, Alike;
    AlikeWords(a, b);
    AlikeSlices(a, b);
  }

  /**
   On datagrams a rewrite is an update of one address, one port and the two
   checksums, to the only values other than 0xffff that a receiver accepts; the
   bytes after the datagram stay.
   */
  lemma RewriteDatagram(b: seq<byte>, e: End, ip: uint32, port: uint16)
    requires Framed(b)
    ensures var r := Rewrite(b, e, ip, port);
            && Framed(r) && WireVerifies(r) && TotalLen(r) == TotalLen(b) && r[TotalLen(b)..] == b[TotalLen(b)..]
            && var c, t := Decode(r).ipCheck, Decode(r).tcpCheck;
               && c != 0xffff && t != 0xffff
               && Decode(r) == match e
                               case Source => Decode(b).(saddr := ip, sport := port, ipCheck := c, tcpCheck := t)
                               case Destination => Decode(b).(daddr := ip, dport := port, ipCheck := c, tcpCheck := t)
  {
    hide Rewrite, WireVerifies, Get16, Get32, Control, FullHeaders, Validates, HeaderLen, TotalLen;
    var r := Rewrite(b, e, ip, port);
    RewriteCorrect(b, 0, e, ip, port);
    DecodedAlike(r, b);
    if e == Source {
      SameWords(r, b, 16, 4);
    } else {
      SameWords(r, b, 12, 4);
    }
  }

  /** The same from the other side: what becomes of the bytes of any datagram. */
  lemma RewriteEncoded(d: Datagram, tail: seq<byte>, e: End, ip: uint32, port: uint16) returns (r: Datagram)
    requires Fits(d)
    ensures Framed(Encode(d) + tail) && Fits(r) && Rewrite(Encode(d) + tail, e, ip, port) == Encode(r) + tail
    ensures r == match e
                 case Source => d.(saddr := ip, sport := port, ipCheck := r.ipCheck, tcpCheck := r.tcpCheck)
                 case Destination => d.(daddr := ip, dport := port, ipCheck := r.ipCheck, tcpCheck := r.tcpCheck)
    ensures Framed(Encode(r) + tail) && WireVerifies(Encode(r) + tail)
  {
    hide Encode, Decode, Rewrite, WireVerifies, Framed, Fits, TotalLen, Length;
    var b := Encode(d) + tail;
    DecodeEncoded(d, tail);
    EncodedTail(d, tail);
    RewriteDatagram(b, e, ip, port);
    var w := Rewrite(b, e, ip, port);
    r := Decode(w);
    EncodeDecoded(w);
  }

  lemma EncodedTail(d: Datagram, tail: seq<byte>)
    requires Fits(d)
    ensures var b := Encode(d) + tail; |b| >= 4 && TotalLen(b) <= |b| && b[TotalLen(b)..] == tail
  {
    hide Encode;
    EncodedIp(d, tail);
    EncodedVariable(d, tail);
  }

  // ----- resets -----

  /**
   A reset of datagram `d`: swapped ends, the answering numbers, ACK and RST alone,
   no TCP options and no data; the identification and the checksums are new and
   everything else is as in `d`.
   */
  predicate ResetOf(r: Datagram, d: Datagram) {
    r == d.(id := r.id, fragment := 0, ttl := 60, ipCheck := r.ipCheck, saddr := d.daddr, daddr := d.saddr,
            sport := d.dport, dport := d.sport, seqNo := d.ackNo, ackNo := (d.seqNo + 1) % 0x1_0000_0000,
            cwr := false, ece := false, urg := false, ack := true, psh := false, rst := true, syn := false, fin := false,
            tcpCheck := r.tcpCheck, tcpOptions := [], payload := [])
  }

  /** Without IP options the construction gives a reset of the whole datagram. */
  lemma ResetDatagram(b: seq<byte>, host: Host)
    requires Framed(b) && HeaderLen(b) == 20
    ensures Framed(Reset(b, host)) && ResetOf(Decode(Reset(b, host)), Decode(b))
  {
    hide Reset, WireVerifies, ChecksumsVerify, Get16, Get32, Validates, TotalLen, HeaderLen, Control;
    var r := Reset(b, host);
    ResetCorrect(b, host, 0);
    ReadSlice(r, b, 34);
    ReadSlice(r, b, 38);
    ResetBits();
    HalfBytes(b[0]);
    HalfBytes(b[32]);
  }

  lemma ReadSlice(a: seq<byte>, b: seq<byte>, i: nat)
    requires i + 2 <= |a| && i + 2 <= |b| && a[i..i + 2] == b[i..i + 2]
    ensures Get16(a, i) == Get16(b, i)
  {
    assert a[i] == a[i..i + 2][0] && a[i + 1] == a[i..i + 2][1];
    assert b[i] == b[i..i + 2][0] && b[i + 1] == b[i..i + 2][1];
  }

  lemma ResetBits()
    ensures Control(0x14, 4) && Control(0x14, 16)
    ensures !Control(0x14, 1) && !Control(0x14, 2) && !Control(0x14, 8) && !Control(0x14, 32) && !Control(0x14, 64) && !Control(0x14, 128)
  {
  }

  // ----- what the handlers read -----

  /** The flags of the usual control bytes. */
  lemma HeaderFlags(b: seq<byte>)
    requires Framed(b)
    ensures var h, f := HeaderOf(b), b[HeaderLen(b) + 13];
            && (f == 0x02 ==> h.syn && !h.ack && !h.fin)
            && (f == 0x10 ==> !h.syn && h.ack && !h.fin)
            && (f == 0x01 ==> !h.syn && !h.ack && h.fin)
            && (f == 0x12 ==> h.syn && h.ack && !h.fin)
            && (f == 0x11 ==> !h.syn && h.ack && h.fin)
            && (f == 0x18 ==> !h.syn && h.ack && !h.fin)
            && (f == 0x04 ==> !h.syn && !h.ack && !h.fin)
  {
    hide Get32, FullHeaders, TotalLen;
  }

  /** The sequence number is read where it is written, and changes nothing else that is read. */
  lemma HeaderSeq(b: seq<byte>, v: uint32)
    requires Framed(b)
    ensures var s := Put32(b, HeaderLen(b) + 4, v);
            Framed(s) && HeaderOf(s) == HeaderOf(b).(seqNo := v)
  {
    hide Put32, Get16;
    var s := Put32(b, HeaderLen(b) + 4, v);
    SameWords(s, b, 2, 2);
    SameWords(s, b, HeaderLen(b) + 8, 4);
  }

  lemma HeaderAck(b: seq<byte>, v: uint32)
    requires Framed(b)
    ensures var s := Put32(b, HeaderLen(b) + 8, v);
            Framed(s) && HeaderOf(s) == HeaderOf(b).(ackNo := v)
  {
    hide Put32, Get16;
    var s := Put32(b, HeaderLen(b) + 8, v);
    SameWords(s, b, 2, 2);
    SameWords(s, b, HeaderLen(b) + 4, 4);
  }

  /** What a handler would read of a reset. */
  lemma ResetHeader(b: seq<byte>, host: Host)
    requires |b| >= 40
    ensures Framed(Reset(b, host))
    ensures HeaderOf(Reset(b, host)) == Header(false, true, false, Get32(b, 28), (Get32(b, 24) + 1) % 0x1_0000_0000)
  {
    hide Reset, WireVerifies, ChecksumsVerify, Get16, Get32, FullHeaders, Validates, TotalLen;
    ResetCorrect(b, host, 0);
  }

  // ----- the packet check -----

  /** A packet that validates still does with any data appended and its length told. */
  lemma DataValidates(b: seq<byte>, n: nat, data: seq<byte>)
    requires n == |b| && Validates(b, n) && TotalLen(b) == n && n + |data| <= 0xffff
    ensures Validates(Put16(b + data, 2, n + |data|), n + |data|)
  {
  }

  /**
   The packet check from the bytes: it fails exactly for a size below two fixed
   headers, another protocol, an IP header that leaves no room for a TCP header, a
   total length beyond the size, or headers longer than the total length.
   */
  lemma RefusedIff(b: seq<byte>, n: nat)
    requires n <= |b|
    ensures !Validates(b, n) <==>
            || n < 40 || b[9] != 6
            || n < 4 * (b[0] as int % 16) + 20
            || n < 0x100 * b[2] as int + b[3] as int
            || 0x100 * b[2] as int + b[3] as int < 4 * (b[0] as int % 16) + 4 * (b[4 * (b[0] as int % 16) + 12] as int / 16)
  {
  }

  // ----- one packet in numbers -----

  /** The IP header of an acknowledgement from 192.168.1.2 port 32928 to 172.67.129.9 port 80. */
  function CaptureIp(): (b: seq<byte>)
    ensures |b| == 20
  {
    [0x45, 0x10, 0x00, 0x28, 0xe7, 0x3c, 0x40, 0x00, 0x40, 0x06, 0x64, 0x8c, 0xc0, 0xa8, 0x01, 0x02, 0xac, 0x43, 0x81, 0x09]
  }

  function CaptureTcp(): (b: seq<byte>)
    ensures |b| == 20
  {
    [0x80, 0xa0, 0x00, 0x50, 0xc6, 0x51, 0x0d, 0x3e, 0x1a, 0x8f, 0x34, 0xf7, 0x50, 0x10, 0x01, 0xf6, 0x1a, 0xe1, 0x00, 0x00]
  }

  function Capture(): (b: seq<byte>)
    ensures |b| == 40
  {
    CaptureIp() + CaptureTcp()
  }

  lemma WordSum20(s: seq<byte>)
    requires |s| == 20
    ensures WordSum(s) == Get16(s, 0) + Get16(s, 2) + Get16(s, 4) + Get16(s, 6) + Get16(s, 8)
                          + Get16(s, 10) + Get16(s, 12) + Get16(s, 14) + Get16(s, 16) + Get16(s, 18)
  {
    hide WordSum, Get16;
    assert s[0..] == s && s[20..] == [];
    WordSumFrom(s, 0);
    WordSumFrom(s, 2);
    WordSumFrom(s, 4);
    WordSumFrom(s, 6);
    WordSumFrom(s, 8);
    WordSumFrom(s, 10);
    WordSumFrom(s, 12);
    WordSumFrom(s, 14);
    WordSumFrom(s, 16);
    WordSumFrom(s, 18);
    WordSumUnfold(s[20..]);
  }

  lemma CaptureIpFields()
    ensures var b := CaptureIp();
            && b[0] == 0x45 && b[9] == 6 && Get16(b, 2) == 40 && Get16(b, 10) == 0x648c
            && Get16(b, 12) + Get16(b, 14) + Get16(b, 16) + Get16(b, 18) == 0x1_eef6
            && WordSum(b) == 0x3_fffc
  {
    hide WordSum;
    WordSum20(CaptureIp());
  }

  lemma CaptureTcpFields()
    ensures var b := CaptureTcp();
            b[12] == 0x50 && Get16(b, 16) == 0x1ae1 && WordSum(b) == 0x2_10ec
  {
    hide WordSum;
    WordSum20(CaptureTcp());
  }

  lemma CaptureFields()
    ensures var b := Capture();
            && Framed(b) && Validates(b, 40) && HeaderLen(b) == 20 && TotalLen(b) == 40
            && Get16(b, 10) == 0x648c && Get16(b, 36) == 0x1ae1
            && Get16(b, 12) + Get16(b, 14) + Get16(b, 16) + Get16(b, 18) == 0x1_eef6
            && WordSum(b[..20]) == 0x3_fffc && WordSum(b[20..40]) == 0x2_10ec
  {
    hide WordSum, CaptureIp, CaptureTcp;
    CaptureIpFields();
    CaptureTcpFields();
    var b := Capture();
    assert b[..20] == CaptureIp() && b[20..40] == CaptureTcp();
  }

  lemma CaptureAccepted()
    ensures Framed(Capture()) && WireVerifies(Capture())
  {
    hide WordSum, Capture;
    CaptureFields();
  }

  /** The captured checksums are accepted, and they are the ones the code computes. */
  lemma CaptureVerifies()
    ensures Framed(Capture()) && Validates(Capture(), 40) && WireVerifies(Capture())
    ensures Seal(Capture()) == Capture()
    ensures IpChecksum(Blank(Capture())) == 0x648c && TcpChecksum(Blank(Capture())) == 0x1ae1
  {
    hide Capture, WireVerifies, ChecksumsVerify, Seal, Blank;
    CaptureFields();
    CaptureAccepted();
    VerifyIff(Capture());
    SealedIff(Capture());
    SealHolds(Capture());
  }

  lemma SealHolds(b: seq<byte>)
    requires Framed(b)
    ensures Get16(Seal(b), 10) == IpChecksum(Blank(b)) && Get16(Seal(b), HeaderLen(b) + 16) == TcpChecksum(Blank(b))
  {
    hide WordSum, Canon, Blank, PseudoHeader, Segment, IpHeader;
  }
}
