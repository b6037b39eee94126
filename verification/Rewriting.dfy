/**
 Laws of the address and port rewrites. They all follow from one fact: a rewrite
 sets the two fields and then seals the packet, where sealing replaces both
 checksum fields by values that depend only on the other bytes.
 */
module Rewriting {
  import opened Bytes
  import opened Checksum
  import opened Headers

  /** The packet with both checksum fields zero. */
  function Blank(b: seq<byte>): (r: seq<byte>)
    requires Framed(b)
    ensures |r| == |b| && Framed(r) && HeaderLen(r) == HeaderLen(b) && TotalLen(r) == TotalLen(b)
  {
    Put16(Put16(b, IP_CHECK, 0), TcpCheckAt(b), 0)
  }

  function Seal(b: seq<byte>): (r: seq<byte>)
    requires Framed(b)
    ensures |r| == |b| && Framed(r) && HeaderLen(r) == HeaderLen(b) && TotalLen(r) == TotalLen(b)
  {
    var z := Blank(b);
    Put16(Put16(z, IP_CHECK, IpChecksum(z)), TcpCheckAt(b), TcpChecksum(z))
  }

  /** Only the address and the port of one end, without the checksums. */
  function SetEnd(b: seq<byte>, e: End, ip: uint32, port: uint16): (r: seq<byte>)
    requires Framed(b)
    ensures |r| == |b| && Framed(r) && HeaderLen(r) == HeaderLen(b) && TotalLen(r) == TotalLen(b)
  {
    Put16(Put32(b, AddrAt(e), ip), PortAt(b, e), port)
  }

  predicate CheckByte(b: seq<byte>, k: nat)
    requires |b| >= 1
  {
    k == IP_CHECK || k == IP_CHECK + 1 || k == TcpCheckAt(b) || k == TcpCheckAt(b) + 1
  }

  predicate EndByte(b: seq<byte>, e: End, k: nat)
    requires |b| >= 1
  {
    AddrAt(e) <= k < AddrAt(e) + 4 || PortAt(b, e) <= k < PortAt(b, e) + 2
  }

  // ----- sealing -----

  lemma BlankBytes(b: seq<byte>, k: nat)
    requires Framed(b) && k < |b|
    ensures Blank(b)[k] == if CheckByte(b, k) then 0 else b[k]
  {
  }

  lemma SealBytes(b: seq<byte>, k: nat)
    requires Framed(b) && k < |b| && !CheckByte(b, k)
    ensures Seal(b)[k] == b[k]
  {
  }

  /** Packets that differ only in checksum bytes have the same seal. */
  lemma SealUnique(a: seq<byte>, b: seq<byte>)
    requires Framed(a) && Framed(b) && |a| == |b| && HeaderLen(a) == HeaderLen(b)
    requires forall k | 0 <= k < |a| && !CheckByte(a, k) :: a[k] == b[k]
    ensures Seal(a) == Seal(b)
  {
    forall k | 0 <= k < |a|
      ensures Blank(a)[k] == Blank(b)[k]
    {
      BlankBytes(a, k);
      BlankBytes(b, k);
    }
    assert Blank(a) == Blank(b);
  }

  /** The checksum fields enter the two sums once each, at even places. */
  lemma IpSumOfChecked(z: seq<byte>, ip: uint16, tcp: uint16)
    requires Framed(z) && Get16(z, IP_CHECK) == 0
    ensures var r := Put16(Put16(z, IP_CHECK, ip), TcpCheckAt(z), tcp);
            Framed(r) && WordSum(IpHeader(r)) == WordSum(IpHeader(z)) + ip
  {
    var r := Put16(Put16(z, IP_CHECK, ip), TcpCheckAt(z), tcp);
    assert IpHeader(r) == Put16(IpHeader(z), IP_CHECK, ip);
    WordSumPut(IpHeader(z), IP_CHECK, ip);
  }

  lemma TcpSumOfChecked(z: seq<byte>, ip: uint16, tcp: uint16)
    requires Framed(z) && Get16(z, TcpCheckAt(z)) == 0
    ensures var r := Put16(Put16(z, IP_CHECK, ip), TcpCheckAt(z), tcp);
            Framed(r) && WordSum(PseudoHeader(r) + Segment(r)) == WordSum(PseudoHeader(z) + Segment(z)) + tcp
  {
    var r := Put16(Put16(z, IP_CHECK, ip), TcpCheckAt(z), tcp);
    hide WordSum;
    var whole := PseudoHeader(z) + Segment(z);
    assert PseudoHeader(r) == PseudoHeader(z);
    assert Segment(r) == Put16(Segment(z), 16, tcp);
    assert PseudoHeader(r) + Segment(r) == Put16(whole, 28, tcp);
    assert Get16(whole, 28) == Get16(z, TcpCheckAt(z));
    WordSumPut(whole, 28, tcp);
  }

  /** A packet is its blank with its own two field values put back. */
  lemma BlankRestored(b: seq<byte>)
    requires Framed(b)
    ensures b == Put16(Put16(Blank(b), IP_CHECK, Get16(b, IP_CHECK)), TcpCheckAt(b), Get16(b, TcpCheckAt(b)))
    ensures Get16(Blank(b), IP_CHECK) == 0 && Get16(Blank(b), TcpCheckAt(b)) == 0
  {
  }

  /** A sealed packet verifies. */
  lemma SealVerifies(b: seq<byte>)
    requires Framed(b)
    ensures ChecksumsVerify(Seal(b))
  {
    hide WordSum, Canon, Blank, PseudoHeader, Segment, IpHeader;
    BlankRestored(b);
    var z := Blank(b);
    IpSumOfChecked(z, IpChecksum(z), TcpChecksum(z));
    TcpSumOfChecked(z, IpChecksum(z), TcpChecksum(z));
    ComplementVerifies(WordSum(IpHeader(z)));
    ComplementVerifies(WordSum(PseudoHeader(z) + Segment(z)));
  }

  /** The header length in the first byte and the protocol number keep both sums above zero. */
  lemma SumsPositive(z: seq<byte>)
    requires Framed(z)
    ensures WordSum(IpHeader(z)) > 0
    ensures WordSum(PseudoHeader(z) + Segment(z)) > 0
  {
    WordSumPositive(IpHeader(z), 0);
    assert (PseudoHeader(z) + Segment(z))[9] == TCP_PROTOCOL;
    WordSumPositive(PseudoHeader(z) + Segment(z), 9);
  }

  /**
   A packet is a fixed point of sealing exactly when its checksums verify and
   neither field holds the alternative zero 0xffff.
   */
  lemma SealedIff(b: seq<byte>)
    requires Framed(b)
    ensures Seal(b) == b <==>
            ChecksumsVerify(b) && Get16(b, IP_CHECK) != 0xffff && Get16(b, TcpCheckAt(b)) != 0xffff
  {
    hide WordSum, Canon, Blank, PseudoHeader, Segment, IpHeader;
    var z, ip, tcp := Blank(b), Get16(b, IP_CHECK), Get16(b, TcpCheckAt(b));
    BlankRestored(b);
    IpSumOfChecked(z, ip, tcp);
    TcpSumOfChecked(z, ip, tcp);
    SumsPositive(z);
    VerifyingField(WordSum(IpHeader(z)), ip);
    VerifyingField(WordSum(PseudoHeader(z) + Segment(z)), tcp);
    assert Get16(Put16(z, IP_CHECK, IpChecksum(z)), IP_CHECK) == IpChecksum(z);
    assert Get16(Seal(b), IP_CHECK) == IpChecksum(z);
    assert Get16(Seal(b), TcpCheckAt(b)) == TcpChecksum(z);
  }

  // ----- the sums from the wire -----

  lemma WordSumFrom(s: seq<byte>, k: nat)
    requires k + 2 <= |s|
    ensures WordSum(s[k..]) == Get16(s, k) + WordSum(s[k + 2..])
  {
    assert s[k..][2..] == s[k + 2..];
  }

  /** The pseudo-header adds both addresses, the protocol number and the segment length. */
  lemma PseudoSum(b: seq<byte>)
    requires Framed(b)
    ensures WordSum(PseudoHeader(b))
         == Get16(b, 12) + Get16(b, 14) + Get16(b, 16) + Get16(b, 18) + 6 + (TotalLen(b) - HeaderLen(b))
  {
    var p := PseudoHeader(b);
    PseudoWords(b);
    hide WordSum, PseudoHeader, Get16;
    assert p[0..] == p && p[12..] == [];
    WordSumFrom(p, 0);
    WordSumFrom(p, 2);
    WordSumFrom(p, 4);
    WordSumFrom(p, 6);
    WordSumFrom(p, 8);
    WordSumFrom(p, 10);
    WordSumUnfold(p[12..]);
  }

  lemma PseudoWords(b: seq<byte>)
    requires Framed(b)
    ensures var p := PseudoHeader(b);
            && Get16(p, 0) == Get16(b, 12) && Get16(p, 2) == Get16(b, 14) && Get16(p, 4) == Get16(b, 16) && Get16(p, 6) == Get16(b, 18)
            && Get16(p, 8) == 6 && Get16(p, 10) == TotalLen(b) - HeaderLen(b)
  {
    hide HeaderLen, TotalLen;
  }

  lemma AllOnesIff(n: nat)
    requires n > 0
    ensures Canon(n) == 0xffff <==> n % 0xffff == 0
  {
  }

  /** The receiver's test is a congruence over the words of the wire. */
  lemma VerifyIff(b: seq<byte>)
    requires Framed(b)
    ensures ChecksumsVerify(b) <==> WireVerifies(b)
  {
    hide WordSum, Canon, PseudoHeader;
    SumsPositive(b);
    PseudoSum(b);
    WordSumConcat(PseudoHeader(b), Segment(b));
    AllOnesIff(WordSum(IpHeader(b)));
    AllOnesIff(WordSum(PseudoHeader(b) + Segment(b)));
  }

  // ----- rewrites -----

  lemma SetAddrFrame(b: seq<byte>, e: End, ip: uint32)
    requires Framed(b)
    ensures var r := SetAddr(b, e, ip);
            Framed(r) && HeaderLen(r) == HeaderLen(b) && TotalLen(r) == TotalLen(b)
  {
  }

  /** What the first pass sums, and what the second pass sums, of the sealed packet's blank. */
  lemma AddrPassSum(b: seq<byte>, e: End, ip: uint32, port: uint16)
    requires Framed(b)
    ensures var z1 := Put32(Put16(b, IP_CHECK, 0), AddrAt(e), ip);
            HeaderLen(z1) == HeaderLen(b) && IpChecksum(z1) == IpChecksum(Blank(SetEnd(b, e, ip, port)))
  {
    var z1 := Put32(Put16(b, IP_CHECK, 0), AddrAt(e), ip);
    assert IpHeader(z1) == IpHeader(Blank(SetEnd(b, e, ip, port)));
  }

  /** The bytes around the checksum fields are those of a packet with the end set. */
  lemma PassesCommute(b: seq<byte>, e: End, ip: uint32, port: uint16, ci: uint16)
    requires Framed(b)
    ensures var s1 := Put16(Put32(Put16(b, IP_CHECK, 0), AddrAt(e), ip), IP_CHECK, ci);
            Put16(Put16(s1, PortAt(b, e), port), TcpCheckAt(b), 0)
            == Put16(Blank(SetEnd(b, e, ip, port)), IP_CHECK, ci)
  {
  }

  lemma PortPassSum(z: seq<byte>, ci: uint16)
    requires Framed(z)
    ensures Framed(Put16(z, IP_CHECK, ci)) && TcpChecksum(Put16(z, IP_CHECK, ci)) == TcpChecksum(z)
  {
  }

  /** The two passes of a rewrite amount to setting the fields and sealing once. */
  lemma RewriteIsSeal(b: seq<byte>, e: End, ip: uint32, port: uint16)
    requires Framed(b)
    ensures Rewrite(b, e, ip, port) == Seal(SetEnd(b, e, ip, port))
  {
    hide WordSum, Canon, PseudoHeader, Segment, IpHeader, Blank, SetEnd, Framed, FullHeaders;
    var z := Blank(SetEnd(b, e, ip, port));
    AddrPassSum(b, e, ip, port);
    SetAddrFrame(b, e, ip);
    PassesCommute(b, e, ip, port, IpChecksum(z));
    PortPassSum(z, IpChecksum(z));
  }

  lemma SetEndFields(b: seq<byte>, e: End, ip: uint32, port: uint16)
    requires Framed(b)
    ensures var s := SetEnd(b, e, ip, port);
            && Addr(s, e) == ip && Port(s, e) == port
            && forall k | 0 <= k < |b| && !EndByte(b, e, k) :: s[k] == b[k]
  {
  }

  lemma SealFields(s: seq<byte>, e: End)
    requires Framed(s)
    ensures Addr(Seal(s), e) == Addr(s, e) && Port(Seal(s), e) == Port(s, e)
    ensures Seal(s)[9] == s[9]
  {
    hide WordSum, Canon;
  }

  lemma SealedFields(s: seq<byte>)
    requires Framed(s)
    ensures Get16(Seal(s), IP_CHECK) != 0xffff && Get16(Seal(s), TcpCheckAt(s)) != 0xffff
  {
    hide ChecksumsVerify, Seal;
    SealIsIdempotent(s);
    SealedIff(Seal(s));
  }

  /**
   Replacing an address alone: the IP header sums to a multiple of 65535 and only
   the address and the IP checksum change; the TCP checksum is left to the port pass.
   */
  lemma SetAddrCorrect(b: seq<byte>, e: End, ip: uint32)
    requires |b| >= 20 && 12 <= HeaderLen(b) <= |b|
    ensures var r := SetAddr(b, e, ip); var at := if e == Source then 12 else 16;
            && HeaderLen(r) == HeaderLen(b) && WordSum(r[..HeaderLen(b)]) % 0xffff == 0
            && Get32(r, at) == ip
            && forall k | 0 <= k < |b| && !(10 <= k < 12) && !(at <= k < at + 4) :: r[k] == b[k]
  {
    hide WordSum, Canon;
    var z, r := Put32(Put16(b, 10, 0), AddrAt(e), ip), SetAddr(b, e, ip);
    var h := IpHeader(z);
    assert IpHeader(r) == Put16(h, 10, IpChecksum(z)) && Get16(h, 10) == 0;
    WordSumPut(h, 10, IpChecksum(z));
    ComplementVerifies(WordSum(h));
    WordSumPositive(h, 0);
    AllOnesIff(WordSum(IpHeader(r)));
  }

  /** Replacing a port alone: the segment sum verifies and only the port and the TCP checksum change. */
  lemma SetPortCorrect(b: seq<byte>, e: End, port: uint16)
    requires Framed(b)
    ensures var r := SetPort(b, e, port); var h := HeaderLen(b); var at := if e == Source then h else h + 2;
            && Framed(r) && HeaderLen(r) == h && TotalLen(r) == TotalLen(b) && Get16(r, at) == port
            && (WireVerifies(r) <==> WordSum(b[..h]) % 0xffff == 0)
            && forall k | 0 <= k < |b| && !(at <= k < at + 2) && !(h + 16 <= k < h + 18) :: r[k] == b[k]
  {
    hide WordSum, Canon, PseudoHeader, Segment;
    var h := HeaderLen(b);
    var y := Put16(b, PortAt(b, e), port);
    var z, r := Put16(y, h + 16, 0), SetPort(b, e, port);
    assert r == Put16(z, h + 16, TcpChecksum(z));
    SetPortSum(z);
  }

  lemma SetPortSum(z: seq<byte>)
    requires Framed(z) && Get16(z, HeaderLen(z) + 16) == 0
    ensures var r := Put16(z, HeaderLen(z) + 16, TcpChecksum(z));
            Framed(r) && (WireVerifies(r) <==> WordSum(z[..HeaderLen(z)]) % 0xffff == 0)
  {
    hide WordSum, Canon, PseudoHeader, Segment, WireVerifies, Put16;
    var c := TcpChecksum(z);
    var r := Put16(z, HeaderLen(z) + 16, c);
    TcpSumOfChecked(z, Get16(z, 10), c);
    assert Put16(z, 10, Get16(z, 10)) == z by { PutOwn(z); }
    assert IpHeader(r) == IpHeader(z);
    ComplementVerifies(WordSum(PseudoHeader(z) + Segment(z)));
    SumsPositive(z);
    AllOnesIff(WordSum(IpHeader(z)));
    VerifyIff(r);
  }

  lemma PutOwn(z: seq<byte>)
    requires |z| >= 12
    ensures Put16(z, 10, Get16(z, 10)) == z
  {
  }

  lemma RewriteFields(b: seq<byte>, n: nat, e: End, ip: uint32, port: uint16)
    requires Framed(b) && n <= |b|
    ensures var r := Rewrite(b, e, ip, port);
            && Framed(r) && HeaderLen(r) == HeaderLen(b) && TotalLen(r) == TotalLen(b)
            && (Validates(r, n) <==> Validates(b, n))
            && ChecksumsVerify(r)
            && Addr(r, e) == ip && Port(r, e) == port
            && Get16(r, IP_CHECK) != 0xffff && Get16(r, TcpCheckAt(r)) != 0xffff
            && forall k | 0 <= k < |b| && !CheckByte(b, k) && !EndByte(b, e, k) :: r[k] == b[k]
  {
    hide ChecksumsVerify, Rewrite, Seal, SetEnd, Get16, Get32;
    var s := SetEnd(b, e, ip, port);
    RewriteIsSeal(b, e, ip, port);
    SetEndFields(b, e, ip, port);
    SealVerifies(s);
    SealFields(s, e);
    SealedFields(s);
    forall k | 0 <= k < |b| && !CheckByte(b, k) && !EndByte(b, e, k)
      ensures Seal(s)[k] == b[k]
    {
      SealBytes(s, k);
    }
  }

  /**
   The rewrite theorem, at the places of the wire format: sums that a receiver
   accepts, the new address and port of one end, the other end and every other
   byte as before.
   */
  lemma RewriteCorrect(b: seq<byte>, n: nat, e: End, ip: uint32, port: uint16)
    requires Framed(b) && n <= |b|
    ensures var r := Rewrite(b, e, ip, port); var h := HeaderLen(b);
            && Framed(r) && HeaderLen(r) == h && TotalLen(r) == TotalLen(b)
            && (Validates(r, n) <==> Validates(b, n))
            && ChecksumsVerify(r) && WireVerifies(r)
            && Get16(r, 10) != 0xffff && Get16(r, h + 16) != 0xffff
    ensures e == Source ==>
              var r := Rewrite(b, e, ip, port); var h := HeaderLen(b);
              && Get32(r, 12) == ip && r[16..20] == b[16..20]
              && Get16(r, h) == port && Get16(r, h + 2) == Get16(b, h + 2)
              && forall k | 0 <= k < |b| && !(10 <= k < 16) && !(h <= k < h + 2) && !(h + 16 <= k < h + 18) :: r[k] == b[k]
    ensures e == Destination ==>
              var r := Rewrite(b, e, ip, port); var h := HeaderLen(b);
              && Get32(r, 16) == ip && r[12..16] == b[12..16]
              && Get16(r, h) == Get16(b, h) && Get16(r, h + 2) == port
              && forall k | 0 <= k < |b| && !(10 <= k < 12) && !(16 <= k < 20) && !(h + 2 <= k < h + 4)
                            && !(h + 16 <= k < h + 18) :: r[k] == b[k]
  {
    hide ChecksumsVerify, WireVerifies, Rewrite, Validates, HeaderLen, TotalLen;
    RewriteFields(b, n, e, ip, port);
    VerifyIff(Rewrite(b, e, ip, port));
  }

  lemma SealIsIdempotent(s: seq<byte>)
    requires Framed(s)
    ensures Seal(Seal(s)) == Seal(s)
  {
    forall k | 0 <= k < |s| && !CheckByte(s, k)
      ensures Seal(s)[k] == s[k]
    {
      SealBytes(s, k);
    }
    SealUnique(Seal(s), s);
  }

  /** Sealing before setting an end makes no difference to what is sealed after. */
  lemma SealThenSet(b: seq<byte>, e: End, ip: uint32, port: uint16)
    requires Framed(b)
    ensures Seal(SetEnd(Seal(b), e, ip, port)) == Seal(SetEnd(b, e, ip, port))
  {
    SealUnique(SetEnd(Seal(b), e, ip, port), SetEnd(b, e, ip, port));
  }

  lemma SetEndTwice(b: seq<byte>, e: End, ip: uint32, port: uint16, ip': uint32, port': uint16)
    requires Framed(b)
    ensures SetEnd(SetEnd(b, e, ip', port'), e, ip, port) == SetEnd(b, e, ip, port)
  {
  }

  lemma SetEndsCommute(b: seq<byte>, ip: uint32, port: uint16, ip': uint32, port': uint16)
    requires Framed(b)
    ensures SetEnd(SetEnd(b, Source, ip, port), Destination, ip', port')
         == SetEnd(SetEnd(b, Destination, ip', port'), Source, ip, port)
  {
  }

  /** A later rewrite of the same end fully overrides an earlier one. */
  lemma RewriteOverrides(b: seq<byte>, e: End, ip: uint32, port: uint16, ip': uint32, port': uint16)
    requires Framed(b)
    ensures Framed(Rewrite(b, e, ip', port'))
    ensures Rewrite(Rewrite(b, e, ip', port'), e, ip, port) == Rewrite(b, e, ip, port)
  {
    var s := SetEnd(b, e, ip', port');
    RewriteIsSeal(b, e, ip', port');
    RewriteIsSeal(Seal(s), e, ip, port);
    SealThenSet(s, e, ip, port);
    RewriteIsSeal(b, e, ip, port);
    SetEndTwice(b, e, ip, port, ip', port');
  }

  /** Rewrites of different ends commute. */
  lemma RewritesCommute(b: seq<byte>, ip: uint32, port: uint16, ip': uint32, port': uint16)
    requires Framed(b)
    ensures Framed(Rewrite(b, Source, ip, port)) && Framed(Rewrite(b, Destination, ip', port'))
    ensures Rewrite(Rewrite(b, Source, ip, port), Destination, ip', port')
         == Rewrite(Rewrite(b, Destination, ip', port'), Source, ip, port)
  {
    var s, d := SetEnd(b, Source, ip, port), SetEnd(b, Destination, ip', port');
    RewriteIsSeal(b, Source, ip, port);
    RewriteIsSeal(b, Destination, ip', port');
    RewriteIsSeal(Seal(s), Destination, ip', port');
    RewriteIsSeal(Seal(d), Source, ip, port);
    SealThenSet(s, Destination, ip', port');
    SealThenSet(d, Source, ip, port);
    SetEndsCommute(b, ip, port, ip', port');
  }

  lemma SetOwnEnd(b: seq<byte>, e: End)
    requires Framed(b)
    ensures SetEnd(b, e, Addr(b, e), Port(b, e)) == b
  {
    var r := SetEnd(b, e, Addr(b, e), Port(b, e));
    assert Get32(Put32(b, AddrAt(e), Addr(b, e)), AddrAt(e)) == Addr(b, e);
    Get32Injective(Put32(b, AddrAt(e), Addr(b, e)), b, AddrAt(e));
    Get16Injective(r, b, PortAt(b, e));
  }

  /**
   Undo: restoring the original address and port after any rewrite of that end
   gives back the original bytes exactly when the original packet's checksums
   verified and neither field was 0xffff.
   */
  lemma RewriteUndo(b: seq<byte>, e: End, ip: uint32, port: uint16)
    requires Framed(b)
    ensures Framed(Rewrite(b, e, ip, port))
    ensures Rewrite(Rewrite(b, e, ip, port), e, Addr(b, e), Port(b, e)) == b <==>
            ChecksumsVerify(b) && Get16(b, IP_CHECK) != 0xffff && Get16(b, TcpCheckAt(b)) != 0xffff
  {
    RewriteOverrides(b, e, Addr(b, e), Port(b, e), ip, port);
    RewriteIsSeal(b, e, Addr(b, e), Port(b, e));
    SetOwnEnd(b, e);
    SealedIff(b);
  }

  /** A valid packet without options or data, from and to address and port 0, with both checksum fields 0xffff. */
  function PacketWithOnes(): (b: seq<byte>)
    ensures |b| == 40
  {
    seq(40, k => if k == 0 then 0x45 else if k == 3 then 40 else if k == 9 then 6 else if k == 32 then 0x50
                 else if k == 10 || k == 11 || k == 36 || k == 37 then 0xff else 0)
  }

  /** The failing packet: whatever rewrite is undone, its bytes do not come back. */
  lemma UndoFails(e: End, ip: uint32, port: uint16)
    ensures var b := PacketWithOnes();
            && Validates(b, 40) && Framed(b) && Framed(Rewrite(b, e, ip, port))
            && Rewrite(Rewrite(b, e, ip, port), e, Addr(b, e), Port(b, e)) != b
  {
    hide Rewrite;
    RewriteUndo(PacketWithOnes(), e, ip, port);
  }
}
