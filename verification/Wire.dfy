/**
 Packets as sections 3.1 of RFC 791 and RFC 793 draw them: a datagram by its
 fields, its bytes on the wire, and the proof that the buffer model reads and
 writes exactly those bytes.
 */
module Wire {
  import opened Bytes
  import opened Headers
  import opened Flags
  import opened Translation

  /** The fields of an IPv4 datagram with a TCP segment. */
  datatype Datagram = Datagram(
    version: nat, tos: byte, id: uint16, fragment: uint16, ttl: byte, protocol: byte, ipCheck: uint16,
    saddr: uint32, daddr: uint32, ipOptions: seq<byte>,
    sport: uint16, dport: uint16, seqNo: uint32, ackNo: uint32, reserved: nat,
    cwr: bool, ece: bool, urg: bool, ack: bool, psh: bool, rst: bool, syn: bool, fin: bool,
    window: uint16, tcpCheck: uint16, urgent: uint16, tcpOptions: seq<byte>, payload: seq<byte>)

  predicate Fits(d: Datagram) {
    && d.version < 16 && d.reserved < 16
    && |d.ipOptions| % 4 == 0 && |d.ipOptions| <= 40
    && |d.tcpOptions| % 4 == 0 && |d.tcpOptions| <= 40
    && Length(d) <= 0xffff
  }

  function Length(d: Datagram): nat {
    20 + |d.ipOptions| + 20 + |d.tcpOptions| + |d.payload|
  }

  function Bit(b: bool): (r: nat)
    ensures r <= 1
  {
    if b then 1 else 0
  }

  /** The control bit of weight `w`. */
  predicate Control(f: byte, w: nat)
    requires w > 0
  {
    f as int / w % 2 == 1
  }

  /** The control bits: FIN is the lowest, then SYN, RST, PSH, ACK, URG, ECE, CWR. */
  function FlagByte(d: Datagram): byte {
    Bit(d.fin) + 2 * Bit(d.syn) + 4 * Bit(d.rst) + 8 * Bit(d.psh)
    + 16 * Bit(d.ack) + 32 * Bit(d.urg) + 64 * Bit(d.ece) + 128 * Bit(d.cwr)
  }

  function Hi(v: uint16): byte {
    v / 0x100
  }

  function Lo(v: uint16): byte {
    v % 0x100
  }

  function Top(v: uint32): uint16 {
    v / 0x1_0000
  }

  function Bottom(v: uint32): uint16 {
    v % 0x1_0000
  }

  function IpFixed(d: Datagram): (r: seq<byte>)
    requires Fits(d)
    ensures |r| == 20
  {
    [16 * d.version + 5 + |d.ipOptions| / 4, d.tos, Hi(Length(d)), Lo(Length(d)),
     Hi(d.id), Lo(d.id), Hi(d.fragment), Lo(d.fragment),
     d.ttl, d.protocol, Hi(d.ipCheck), Lo(d.ipCheck),
     Hi(Top(d.saddr)), Lo(Top(d.saddr)), Hi(Bottom(d.saddr)), Lo(Bottom(d.saddr)),
     Hi(Top(d.daddr)), Lo(Top(d.daddr)), Hi(Bottom(d.daddr)), Lo(Bottom(d.daddr))]
  }

  function TcpFixed(d: Datagram): (r: seq<byte>)
    requires Fits(d)
    ensures |r| == 20
  {
    [Hi(d.sport), Lo(d.sport), Hi(d.dport), Lo(d.dport),
     Hi(Top(d.seqNo)), Lo(Top(d.seqNo)), Hi(Bottom(d.seqNo)), Lo(Bottom(d.seqNo)),
     Hi(Top(d.ackNo)), Lo(Top(d.ackNo)), Hi(Bottom(d.ackNo)), Lo(Bottom(d.ackNo)),
     16 * (5 + |d.tcpOptions| / 4) + d.reserved, FlagByte(d), Hi(d.window), Lo(d.window),
     Hi(d.tcpCheck), Lo(d.tcpCheck), Hi(d.urgent), Lo(d.urgent)]
  }

  /** The bytes of a datagram on the wire. */
  function Encode(d: Datagram): (b: seq<byte>)
    requires Fits(d)
    ensures |b| == Length(d)
  {
    IpFixed(d) + d.ipOptions + TcpFixed(d) + d.tcpOptions + d.payload
  }

  // ----- reading what was written -----

  /** Where the two fixed headers lie in a buffer that starts with a datagram. */
  lemma EncodedBytes(d: Datagram, tail: seq<byte>)
    requires Fits(d)
    ensures var b := Encode(d) + tail; var h := 20 + |d.ipOptions|;
            && |b| >= h + 20
            && b[..20] == IpFixed(d) && b[h..h + 20] == TcpFixed(d)
            && (forall k | 0 <= k < 20 :: b[k] == IpFixed(d)[k])
            && (forall k | 0 <= k < 20 :: b[h + k] == TcpFixed(d)[k])
  {
    hide IpFixed, TcpFixed;
    var b, h := Encode(d) + tail, 20 + |d.ipOptions|;
    assert b[..20] == IpFixed(d);
    assert b[h..h + 20] == TcpFixed(d);
  }

  lemma DivUnique(f: nat, w: nat, low: nat, x: nat)
    requires w > 0 && low < w && f == low + w * x
    ensures f / w == x
  {
    var e := f / w - x;
    assert w * e == low - f % w;
  }

  /** The bit of weight `w` in a sum of weighted bits. */
  lemma OneBit(f: byte, w: nat, low: nat, b: bool, high: nat)
    requires w > 0 && low < w && f == low + w * (Bit(b) + 2 * high)
    ensures Control(f, w) == b
  {
    DivUnique(f, w, low, Bit(b) + 2 * high);
  }

  lemma FinRead(d: Datagram)
    ensures Control(FlagByte(d), 1) == d.fin
  {
  }

  lemma SynRead(d: Datagram)
    ensures Control(FlagByte(d), 2) == d.syn
  {
    OneBit(FlagByte(d), 2, Bit(d.fin), d.syn,
           Bit(d.rst) + 2 * Bit(d.psh) + 4 * Bit(d.ack) + 8 * Bit(d.urg) + 16 * Bit(d.ece) + 32 * Bit(d.cwr));
  }

  lemma RstRead(d: Datagram)
    ensures Control(FlagByte(d), 4) == d.rst
  {
    OneBit(FlagByte(d), 4, Bit(d.fin) + 2 * Bit(d.syn), d.rst,
           Bit(d.psh) + 2 * Bit(d.ack) + 4 * Bit(d.urg) + 8 * Bit(d.ece) + 16 * Bit(d.cwr));
  }

  lemma PshRead(d: Datagram)
    ensures Control(FlagByte(d), 8) == d.psh
  {
    OneBit(FlagByte(d), 8, Bit(d.fin) + 2 * Bit(d.syn) + 4 * Bit(d.rst), d.psh,
           Bit(d.ack) + 2 * Bit(d.urg) + 4 * Bit(d.ece) + 8 * Bit(d.cwr));
  }

  lemma AckRead(d: Datagram)
    ensures Control(FlagByte(d), 16) == d.ack
  {
    OneBit(FlagByte(d), 16, Bit(d.fin) + 2 * Bit(d.syn) + 4 * Bit(d.rst) + 8 * Bit(d.psh), d.ack,
           Bit(d.urg) + 2 * Bit(d.ece) + 4 * Bit(d.cwr));
  }

  lemma UrgRead(d: Datagram)
    ensures Control(FlagByte(d), 32) == d.urg
  {
    OneBit(FlagByte(d), 32, Bit(d.fin) + 2 * Bit(d.syn) + 4 * Bit(d.rst) + 8 * Bit(d.psh) + 16 * Bit(d.ack), d.urg,
           Bit(d.ece) + 2 * Bit(d.cwr));
  }

  lemma EceRead(d: Datagram)
    ensures Control(FlagByte(d), 64) == d.ece
  {
    OneBit(FlagByte(d), 64, Bit(d.fin) + 2 * Bit(d.syn) + 4 * Bit(d.rst) + 8 * Bit(d.psh) + 16 * Bit(d.ack) + 32 * Bit(d.urg), d.ece,
           Bit(d.cwr));
  }

  lemma CwrRead(d: Datagram)
    ensures Control(FlagByte(d), 128) == d.cwr
  {
    OneBit(FlagByte(d), 128, Bit(d.fin) + 2 * Bit(d.syn) + 4 * Bit(d.rst) + 8 * Bit(d.psh) + 16 * Bit(d.ack) + 32 * Bit(d.urg) + 64 * Bit(d.ece), d.cwr, 0);
  }

  /** Every control bit reads back as it was written. */
  lemma FlagBits(d: Datagram)
    ensures var f := FlagByte(d);
            && Control(f, 1) == d.fin && Control(f, 2) == d.syn && Control(f, 4) == d.rst && Control(f, 8) == d.psh
            && Control(f, 16) == d.ack && Control(f, 32) == d.urg && Control(f, 64) == d.ece && Control(f, 128) == d.cwr
  {
    hide FlagByte, Control;
    FinRead(d);
    SynRead(d);
    RstRead(d);
    PshRead(d);
    AckRead(d);
    UrgRead(d);
    EceRead(d);
    CwrRead(d);
  }

  lemma Join16(v: uint16)
    ensures Hi(v) as int * 0x100 + Lo(v) as int == v
  {
  }

  lemma Join32(v: uint32)
    ensures (Hi(Top(v)) as int * 0x100 + Lo(Top(v)) as int) * 0x1_0000
            + (Hi(Bottom(v)) as int * 0x100 + Lo(Bottom(v)) as int) == v
  {
    Join16(Top(v));
    Join16(Bottom(v));
  }

  /** The two header lengths in their half bytes. */
  lemma Nibbles(v: nat, o: nat)
    requires v < 16 && o % 4 == 0 && o <= 40
    ensures (16 * v + 5 + o / 4) % 16 * 4 == 20 + o && (16 * v + 5 + o / 4) / 16 == v
    ensures (16 * (5 + o / 4) + v) / 16 * 4 == 20 + o && (16 * (5 + o / 4) + v) % 16 == v
  {
  }

  /** The IP fields of a buffer that starts with a datagram. */
  lemma EncodedIp(d: Datagram, tail: seq<byte>)
    requires Fits(d)
    ensures var b := Encode(d) + tail;
            && HeaderLen(b) == 20 + |d.ipOptions| && TotalLen(b) == Length(d) && b[0] as int / 16 == d.version
            && b[1] == d.tos && b[8] == d.ttl && b[9] == d.protocol
            && Get16(b, 4) == d.id && Get16(b, 6) == d.fragment && Get16(b, 10) == d.ipCheck
            && Get32(b, 12) == d.saddr && Get32(b, 16) == d.daddr
  {
    hide Encode, Hi, Lo, Top, Bottom;
    EncodedBytes(d, tail);
    Nibbles(d.version, |d.ipOptions|);
    var b := Encode(d) + tail;
    assert b[0] == IpFixed(d)[0] && b[1] == IpFixed(d)[1] && b[8] == IpFixed(d)[8] && b[9] == IpFixed(d)[9];
    Join16(Length(d));
    Join16(d.id);
    Join16(d.fragment);
    Join16(d.ipCheck);
    Join32(d.saddr);
    Join32(d.daddr);
    ShiftedIp(b, IpFixed(d));
  }

  lemma ShiftedIp(b: seq<byte>, t: seq<byte>)
    requires |t| == 20 && 20 <= |b| && b[..20] == t
    ensures Get16(b, 2) == Get16(t, 2) && Get16(b, 4) == Get16(t, 4) && Get16(b, 6) == Get16(t, 6) && Get16(b, 10) == Get16(t, 10)
    ensures Get32(b, 12) == Get32(t, 12) && Get32(b, 16) == Get32(t, 16)
  {
    assert forall k | 0 <= k < 20 :: t[k] == b[..20][k];
  }

  /** The TCP fields of a buffer that starts with a datagram. */
  lemma EncodedTcp(d: Datagram, tail: seq<byte>)
    requires Fits(d)
    ensures var b := Encode(d) + tail; var h := 20 + |d.ipOptions|;
            && Get16(b, h) == d.sport && Get16(b, h + 2) == d.dport
            && Get32(b, h + 4) == d.seqNo && Get32(b, h + 8) == d.ackNo
            && DataOffset(b, h) == 20 + |d.tcpOptions| && b[h + 12] as int % 16 == d.reserved && b[h + 13] == FlagByte(d)
            && Get16(b, h + 14) == d.window && Get16(b, h + 16) == d.tcpCheck && Get16(b, h + 18) == d.urgent
  {
    hide Encode, Hi, Lo, Top, Bottom, FlagByte;
    var b, h := Encode(d) + tail, 20 + |d.ipOptions|;
    EncodedBytes(d, tail);
    Join16(d.sport);
    Join16(d.dport);
    Join16(d.window);
    Join16(d.tcpCheck);
    Join16(d.urgent);
    Join32(d.seqNo);
    Join32(d.ackNo);
    Nibbles(d.reserved, |d.tcpOptions|);
    Shifted(b, h, TcpFixed(d));
    assert b[h + 12] == TcpFixed(d)[12] && b[h + 13] == TcpFixed(d)[13];
  }

  /** Fields of a fixed header that starts at `h`. */
  lemma Shifted(b: seq<byte>, h: nat, t: seq<byte>)
    requires |t| == 20 && h + 20 <= |b| && b[h..h + 20] == t
    ensures Get16(b, h) == Get16(t, 0) && Get16(b, h + 2) == Get16(t, 2)
    ensures Get16(b, h + 14) == Get16(t, 14) && Get16(b, h + 16) == Get16(t, 16) && Get16(b, h + 18) == Get16(t, 18)
    ensures Get32(b, h + 4) == Get32(t, 4) && Get32(b, h + 8) == Get32(t, 8)
  {
    assert forall k | 0 <= k < 20 :: t[k] == b[h..h + 20][k];
  }

  lemma EncodedVariable(d: Datagram, tail: seq<byte>)
    requires Fits(d)
    ensures var b := Encode(d) + tail; var h := 20 + |d.ipOptions|; var o := 20 + |d.tcpOptions|;
            && b[20..h] == d.ipOptions && b[h + 20..h + o] == d.tcpOptions
            && b[h + o..Length(d)] == d.payload && b[Length(d)..] == tail
  {
    hide IpFixed, TcpFixed;
  }

  lemma EncodedFramed(d: Datagram, tail: seq<byte>)
    requires Fits(d)
    ensures Framed(Encode(d) + tail)
  {
    hide Encode, Get16, Get32, FlagByte;
    EncodedIp(d, tail);
    EncodedTcp(d, tail);
  }

  /**
   A datagram read back from a buffer that starts with its bytes is the same
   datagram, whatever its options and data and whatever follows it.
   */
  lemma DecodeEncoded(d: Datagram, tail: seq<byte>)
    requires Fits(d)
    ensures Framed(Encode(d) + tail) && Decode(Encode(d) + tail) == d
  {
    hide Encode, Get16, Get32, FlagByte, Control, Fits, Length, TotalLen, HeaderLen, DataOffset;
    EncodedFramed(d, tail);
    EncodedIp(d, tail);
    EncodedTcp(d, tail);
    EncodedVariable(d, tail);
    FlagBits(d);
  }

  /** What the handlers read of a framed packet is what its datagram says. */
  lemma HeaderOfDecoded(b: seq<byte>)
    requires Framed(b)
    ensures var d := Decode(b);
            && HeaderOf(b) == Header(d.syn, d.ack, d.fin, d.seqNo, d.ackNo)
            && Addr(b, Source) == d.saddr && Addr(b, Destination) == d.daddr
            && Port(b, Source) == d.sport && Port(b, Destination) == d.dport
  {
    hide Get16, Get32;
  }

  /** A datagram validates exactly if it is TCP and all of it is within the size given. */
  lemma EncodedValidatesIff(d: Datagram, tail: seq<byte>, n: nat)
    requires Fits(d) && n <= Length(d) + |tail|
    ensures var b := Encode(d) + tail;
            PacketOk(b, n) && (Validates(b, n) <==> d.protocol == 6 && Length(d) <= n)
  {
    hide Encode, Get16, Get32, FlagByte;
    EncodedIp(d, tail);
    EncodedTcp(d, tail);
  }

  // ----- every packet is a datagram -----

  lemma Halve(f: nat, w: nat)
    requires w in {1, 2, 4, 8, 16, 32, 64, 128}
    ensures f / w == 2 * (f / (2 * w)) + f / w % 2
  {
    if w == 1 {
    } else if w == 2 {
    } else if w == 4 {
    } else if w == 8 {
    } else if w == 16 {
    } else if w == 32 {
    } else if w == 64 {
    } else {
    }
  }

  /** A byte is the sum of its bits. */
  lemma ByteOfBits(f: byte)
    ensures f == f % 2 + 2 * (f / 2 % 2) + 4 * (f / 4 % 2) + 8 * (f / 8 % 2)
                 + 16 * (f / 16 % 2) + 32 * (f / 32 % 2) + 64 * (f / 64 % 2) + 128 * (f / 128 % 2)
  {
    Halve(f, 1);
    Halve(f, 2);
    Halve(f, 4);
    Halve(f, 8);
    Halve(f, 16);
    Halve(f, 32);
    Halve(f, 64);
    Halve(f, 128);
    assert f / 256 == 0;
  }

  lemma ControlIs(f: byte, w: nat)
    requires w > 0
    ensures Bit(Control(f, w)) == f as int / w % 2
  {
  }

  lemma ControlsRecombine(f: byte)
    ensures Bit(Control(f, 1)) + 2 * Bit(Control(f, 2)) + 4 * Bit(Control(f, 4)) + 8 * Bit(Control(f, 8))
            + 16 * Bit(Control(f, 16)) + 32 * Bit(Control(f, 32)) + 64 * Bit(Control(f, 64)) + 128 * Bit(Control(f, 128)) == f
  {
    hide Bit, Control;
    ByteOfBits(f);
    ControlIs(f, 1);
    ControlIs(f, 2);
    ControlIs(f, 4);
    ControlIs(f, 8);
    ControlIs(f, 16);
    ControlIs(f, 32);
    ControlIs(f, 64);
    ControlIs(f, 128);
  }

  /** The datagram at the start of a framed buffer. */
  function Decode(b: seq<byte>): (d: Datagram)
    requires Framed(b)
  {
    var h := HeaderLen(b);
    var f := b[h + 13];
    Datagram(b[0] as int / 16, b[1], Get16(b, 4), Get16(b, 6), b[8], b[9], Get16(b, 10), Get32(b, 12), Get32(b, 16), b[20..h],
             Get16(b, h), Get16(b, h + 2), Get32(b, h + 4), Get32(b, h + 8), b[h + 12] as int % 16,
             Control(f, 128), Control(f, 64), Control(f, 32), Control(f, 16),
             Control(f, 8), Control(f, 4), Control(f, 2), Control(f, 1),
             Get16(b, h + 14), Get16(b, h + 16), Get16(b, h + 18),
             b[h + 20..h + DataOffset(b, h)], b[h + DataOffset(b, h)..TotalLen(b)])
  }

  lemma HalfBytes(x: byte)
    ensures 0 <= x / 16 < 16 && 0 <= x % 16 < 16 && x == 16 * (x / 16) + x % 16
  {
  }

  lemma DecodedFits(b: seq<byte>)
    requires Framed(b)
    ensures Fits(Decode(b)) && Length(Decode(b)) == TotalLen(b)
    ensures 20 + |Decode(b).ipOptions| == HeaderLen(b) && 20 + |Decode(b).tcpOptions| == DataOffset(b, HeaderLen(b))
  {
    hide Get16, Get32, Control;
    HalfBytes(b[0]);
    HalfBytes(b[HeaderLen(b) + 12]);
  }

  lemma Split16(b: seq<byte>, i: nat)
    requires i + 2 <= |b|
    ensures Hi(Get16(b, i)) == b[i] && Lo(Get16(b, i)) == b[i + 1]
  {
  }

  lemma Split32(b: seq<byte>, i: nat)
    requires i + 4 <= |b|
    ensures Hi(Top(Get32(b, i))) == b[i] && Lo(Top(Get32(b, i))) == b[i + 1]
    ensures Hi(Bottom(Get32(b, i))) == b[i + 2] && Lo(Bottom(Get32(b, i))) == b[i + 3]
  {
    assert Top(Get32(b, i)) == Get16(b, i) && Bottom(Get32(b, i)) == Get16(b, i + 2);
  }

  lemma DecodedIp(b: seq<byte>)
    requires Framed(b)
    ensures Fits(Decode(b)) && IpFixed(Decode(b)) == b[..20]
  {
    hide Hi, Lo, Top, Bottom, Get16, Get32;
    DecodedFits(b);
    Split16(b, 2);
    Split16(b, 4);
    Split16(b, 6);
    Split16(b, 10);
    Split32(b, 12);
    Split32(b, 16);
  }

  lemma DecodedFlags(b: seq<byte>)
    requires Framed(b)
    ensures FlagByte(Decode(b)) == b[HeaderLen(b) + 13]
  {
    hide Get16, Get32, Bit, Control, DataOffset, TotalLen, FullHeaders, HeaderLen;
    var d, f := Decode(b), b[HeaderLen(b) + 13];
    ControlsRecombine(f);
    assert Bit(d.fin) == Bit(Control(f, 1)) && Bit(d.syn) == Bit(Control(f, 2));
    assert Bit(d.rst) == Bit(Control(f, 4)) && Bit(d.psh) == Bit(Control(f, 8));
    assert Bit(d.ack) == Bit(Control(f, 16)) && Bit(d.urg) == Bit(Control(f, 32));
    assert Bit(d.ece) == Bit(Control(f, 64)) && Bit(d.cwr) == Bit(Control(f, 128));
  }

  lemma DecodedTcp(b: seq<byte>)
    requires Framed(b)
    ensures var h := HeaderLen(b); Fits(Decode(b)) && TcpFixed(Decode(b)) == b[h..h + 20]
  {
    hide Hi, Lo, Top, Bottom, Get16, Get32, FlagByte;
    var h := HeaderLen(b);
    DecodedFits(b);
    DecodedFlags(b);
    Split16(b, h);
    Split16(b, h + 2);
    Split32(b, h + 4);
    Split32(b, h + 8);
    Split16(b, h + 14);
    Split16(b, h + 16);
    Split16(b, h + 18);
  }

  lemma Pieces(b: seq<byte>, h: nat, o: nat, n: nat)
    requires 20 <= h && 20 <= o && h + o <= n <= |b|
    ensures b == b[..20] + b[20..h] + b[h..h + 20] + b[h + 20..h + o] + b[h + o..n] + b[n..]
  {
  }

  /** Every framed buffer is the bytes of the datagram read from it and what follows them. */
  lemma EncodeDecoded(b: seq<byte>)
    requires Framed(b)
    ensures Fits(Decode(b)) && b == Encode(Decode(b)) + b[TotalLen(b)..]
  {
    hide IpFixed, TcpFixed, Get16, Get32, Control, Length, Fits, HeaderLen, DataOffset;
    DecodedFits(b);
    DecodedIp(b);
    DecodedTcp(b);
    Pieces(b, HeaderLen(b), DataOffset(b, HeaderLen(b)), TotalLen(b));
  }
}
