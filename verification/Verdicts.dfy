/**
 The verdict on every valid packet, from the bytes of the packet and the sessions
 that are linked into the table: when it is sent on, when it opens a session, and
 when it is refused.
 */
module Verdicts {
  import opened Bytes
  import opened Headers
  import opened Rewriting
  import opened Sessions
  import opened TableLaws
  import opened Allocation
  import opened Flags
  import opened Translation
  import opened RunLaws
  import Refinement
  import PortReuse
  import Wire

  /** A packet that passes the packet check, with the clock readings in order. */
  ghost predicate Arrives(e: Event) {
    && !e.Sweeping? && Start(e) <= Finish(e)
    && PacketOk(e.buf, e.len) && Validates(e.buf, e.len) && Framed(e.buf)
  }

  /** Session `id` is linked under the source address and port of packet `b`. */
  ghost predicate ClientOf(t: Table, id: nat, b: seq<byte>)
    requires Shape(t) && Framed(b)
  {
    && Held(t, ByClient, id)
    && t.store[id].clientIp == Get32(b, 12) && t.store[id].clientPort == Get16(b, HeaderLen(b))
  }

  /** Session `id` is linked under the destination port of packet `b`. */
  ghost predicate ServerOf(t: Table, id: nat, b: seq<byte>)
    requires Shape(t) && Framed(b)
  {
    Held(t, ByServer, id) && t.store[id].serverPort == Get16(b, HeaderLen(b) + 2)
  }

  /** A port of the range that no session linked by server port has. */
  ghost predicate Free(t: Table, p: uint16)
    requires Shape(t)
  {
    && t.minPort <= p < t.minPort + t.modNum
    && forall id: nat | Held(t, ByServer, id) :: t.store[id].serverPort != p
  }

  // ----- linked sessions and lookups -----

  lemma FoundClient(t: Table, b: seq<byte>)
    requires WellFormed(t) && Framed(b)
    ensures var f := Find(t, ClientKey(Addr(b, Source), Port(b, Source)));
            && (forall id: nat :: f == Some(id) <==> ClientOf(t, id, b))
            && (f.None? <==> forall id: nat :: !ClientOf(t, id, b))
  {
    hide Find, Held, IndexOk, PortsOk, Get16, Get32, FullHeaders, HeaderLen;
    var k := ClientKey(Addr(b, Source), Port(b, Source));
    forall id: nat
      ensures Find(t, k) == Some(id) <==> ClientOf(t, id, b)
    {
      FindIff(t, k, id);
    }
    FindNone(t, k);
  }

  lemma FoundServer(t: Table, b: seq<byte>)
    requires WellFormed(t) && Framed(b)
    ensures var f := Find(t, ServerKey(Port(b, Destination)));
            && (forall id: nat :: f == Some(id) <==> ServerOf(t, id, b))
            && (f.None? <==> forall id: nat :: !ServerOf(t, id, b))
  {
    hide Find, Held, IndexOk, PortsOk, Get16, FullHeaders, HeaderLen;
    var k := ServerKey(Port(b, Destination));
    forall id: nat
      ensures Find(t, k) == Some(id) <==> ServerOf(t, id, b)
    {
      FindIff(t, k, id);
    }
    FindNone(t, k);
  }

  lemma FreeIff(t: Table, p: uint16)
    requires WellFormed(t)
    ensures Free(t, p) <==> InRange(t, p) && !InUse(t, p)
  {
    hide Find, Held, IndexOk, PortsOk;
    FindNone(t, ServerKey(p));
  }

  // ----- client packets -----

  /** A client with a linked session: sent on while the session lasts, and never a new session. */
  lemma KnownClient(host: Host, t: Table, e: Event, id: nat)
    requires WellFormed(t) && e.ClientPacket? && Arrives(e) && ClientOf(t, id, e.buf)
    ensures Step(host, t, e) ==
            if e.checked <= t.store[id].expire
            then Result(t.(store := t.store[id := Touch(t.store[id], FromClient(HeaderOf(e.buf)))]),
                        Forwarded(Rewrite(e.buf, Source, e.serverIp, t.store[id].serverPort), id))
            else Result(t, Refused(Reset(e.buf, host), 40))
  {
    hide Step, Find, Held, IndexOk, PortsOk, Shape, Rewrite, Reset, HeaderOf, Validates, ClientFlags, Probe, Addr, Port, Framed, Get16, Get32;
    FoundClient(t, e.buf);
    StepClient(host, t, e, Added(t, Some(id)));
  }

  /** Without a linked session, a packet that is not a SYN is refused and changes nothing. */
  lemma UnknownClient(host: Host, t: Table, e: Event)
    requires WellFormed(t) && e.ClientPacket? && Arrives(e) && (forall id: nat :: !ClientOf(t, id, e.buf))
    requires e.buf[HeaderLen(e.buf) + 13] as int / 2 % 2 == 0
    ensures Step(host, t, e) == Result(t, Refused(Reset(e.buf, host), 40))
  {
    hide Step, Find, Held, IndexOk, PortsOk, Shape, Rewrite, Reset, Validates, ClientFlags, Probe, Addr, Port, Get16, Get32, HeaderLen, TotalLen, FullHeaders;
    FoundClient(t, e.buf);
    StepClient(host, t, e, Added(t, None));
  }

  /** What adding does for a client without a linked session. */
  lemma AddNew(t: Table, ip: uint32, port: uint16, time: int)
    requires WellFormed(t) && Find(t, ClientKey(ip, port)).None?
    ensures var a := Add(t, ip, port, TIMEOUT, time);
            && (a.id.None? ==> a.table == t.(nextNum := a.table.nextNum))
            && (a.id.Some? ==>
                  && a.id == Some(|t.store|) && |a.table.store| == |t.store| + 1 && t.store <= a.table.store
                  && var s := a.table.store[|t.store|];
                     && s == NewSession(ip, port, s.serverPort, time + 10) && Free(t, s.serverPort)
                     && WellFormed(a.table)
                     && forall x: Side, id: nat :: Held(a.table, x, id) <==> Held(t, x, id) || id == |t.store|)
            && (CounterCovers(t.nextNum, t.modNum) ==> (a.id.Some? <==> exists p: uint16 :: Free(t, p)))
  {
    hide Find, Held, IndexOk, PortsOk, Probe, CounterCovers, InUse, Link;
    AddSound(t, ip, port, TIMEOUT, time);
    AddInv(t, ip, port, TIMEOUT, time, 0);
    AddLinks(t, ip, port, time);
    if CounterCovers(t.nextNum, t.modNum) {
      AddNoneIff(t, ip, port, TIMEOUT, time);
      forall p: uint16
        ensures Free(t, p) <==> InRange(t, p) && !InUse(t, p)
      {
        FreeIff(t, p);
      }
    }
  }

  lemma AddLinks(t: Table, ip: uint32, port: uint16, time: int)
    requires WellFormed(t) && Find(t, ClientKey(ip, port)).None?
    ensures var a := Add(t, ip, port, TIMEOUT, time);
            a.id.Some? ==>
              && t.store <= a.table.store && Shape(a.table)
              && forall x: Side, id: nat :: Held(a.table, x, id) <==> Held(t, x, id) || id == |t.store|
  {
    hide Find, Held, IndexOk, PortsOk, Probe, Link;
    var p := Probe(t, t.nextNum, 0);
    CounterFrame(t, p.nextNum, 0);
    if p.port.Some? {
      var u, s := t.(nextNum := p.nextNum), NewSession(ip, port, p.port.value, time + TIMEOUT);
      forall x: Side, id: nat
        ensures Shape(Link(u, s)) && (Held(Link(u, s), x, id) <==> Held(u, x, id) || id == |t.store|)
      {
        LinkHeld(u, s, x, id);
      }
      LinkGrows(u, s);
    }
  }

  lemma LinkGrows(t: Table, s: Session)
    requires Shape(t)
    ensures t.store <= Link(t, s).store && Shape(Link(t, s))
  {
  }

  /** A SYN of a client without a linked session, against what adding gives. */
  lemma NewClientStep(host: Host, t: Table, e: Event, a: Added)
    requires WellFormed(t) && e.ClientPacket? && Arrives(e) && (forall id: nat :: !ClientOf(t, id, e.buf))
    requires e.buf[HeaderLen(e.buf) + 13] as int / 2 % 2 == 1
    requires Find(t, ClientKey(Addr(e.buf, Source), Port(e.buf, Source))).None?
    requires a == Add(t, Addr(e.buf, Source), Port(e.buf, Source), TIMEOUT, e.added)
    requires a.id.Some? ==> a.id.value < |a.table.store|
    ensures a.id.None? ==> Step(host, t, e) == Result(a.table, Refused(Reset(e.buf, host), 40))
    ensures a.id.Some? ==>
              var s := a.table.store[a.id.value];
              Step(host, t, e) ==
                if e.checked > s.expire then Result(a.table, Refused(Reset(e.buf, host), 40))
                else Result(Update(a.table, a.id.value, ClientFlags(s, HeaderOf(e.buf))),
                            Forwarded(Rewrite(e.buf, Source, e.serverIp, s.serverPort), a.id.value))
  {
    hide Step, Find, Held, IndexOk, PortsOk, Shape, Rewrite, Reset, Validates, ClientFlags, Add, Addr, Port, Get16, Get32, HeaderLen, TotalLen, FullHeaders;
    StepClient(host, t, e, a);
  }

  lemma NewClientFlags(s: Session, ip: uint32, port: uint16, b: seq<byte>)
    requires Framed(b) && b[HeaderLen(b) + 13] as int / 2 % 2 == 1
    requires s == NewSession(ip, port, s.serverPort, s.expire)
    ensures ClientFlags(s, HeaderOf(b)) == s.(clientSeq := Get32(b, HeaderLen(b) + 4))
  {
  }

  lemma SourceRewritten(b: seq<byte>, ip: uint32, port: uint16)
    requires Framed(b)
    ensures var r := Rewrite(b, Source, ip, port); var h := HeaderLen(b);
            && Framed(r) && HeaderLen(r) == h && WireVerifies(r)
            && Get32(r, 12) == ip && Get16(r, h) == port
            && Get32(r, 16) == Get32(b, 16) && Get16(r, h + 2) == Get16(b, h + 2)
  {
    hide Rewrite, WireVerifies, ChecksumsVerify, HeaderLen, TotalLen, Validates;
    var r := Rewrite(b, Source, ip, port);
    RewriteCorrect(b, 0, Source, ip, port);
    assert forall k | 16 <= k < 20 :: r[k] == r[16..20][k - 16] && b[k] == b[16..20][k - 16];
  }

  /** The session that a SYN opens, and what leaves. */
  ghost predicate Opens(t: Table, e: Event, r: Result)
    requires Shape(t) && Arrives(e) && e.ClientPacket?
  {
    && Shape(r.table) && |r.table.store| == |t.store| + 1 && t.store <= r.table.store
    && (forall x: Side, id: nat :: Held(r.table, x, id) <==> Held(t, x, id) || id == |t.store|)
    && var s, h := r.table.store[|t.store|], HeaderLen(e.buf);
       && Free(t, s.serverPort) && s.expire == e.added + 10
       && s.clientIp == Get32(e.buf, 12) && s.clientPort == Get16(e.buf, h)
       && s.synState == 0 && s.clientFin == 0 && s.serverFin == 0 && s.serverSeq == 0
       && (r.outcome.Forwarded? ==>
             && r.outcome.id == |t.store| && s.clientSeq == Get32(e.buf, h + 4)
             && Framed(r.outcome.buf) && HeaderLen(r.outcome.buf) == h && WireVerifies(r.outcome.buf)
             && Get32(r.outcome.buf, 12) == e.serverIp && Get16(r.outcome.buf, h) == s.serverPort
             && Get32(r.outcome.buf, 16) == Get32(e.buf, 16) && Get16(r.outcome.buf, h + 2) == Get16(e.buf, h + 2))
  }

  /**
   A SYN of a client without a linked session, while the counter covers the range:
   a session is opened exactly if some port is free, on one of the free ports, and
   the SYN is sent on exactly if its deadline has not passed by then.
   */
  lemma NewClient(host: Host, t: Table, e: Event)
    requires WellFormed(t) && e.ClientPacket? && Arrives(e) && (forall id: nat :: !ClientOf(t, id, e.buf))
    requires e.buf[HeaderLen(e.buf) + 13] as int / 2 % 2 == 1
    requires CounterCovers(t.nextNum, t.modNum)
    ensures var r := Step(host, t, e);
            && (r.outcome.Forwarded? <==> (exists p: uint16 :: Free(t, p)) && e.checked <= e.added + 10)
            && (!r.outcome.Forwarded? ==> r.outcome == Refused(Reset(e.buf, host), 40))
            && (if exists p: uint16 :: Free(t, p) then Opens(t, e, r) else r.table == t.(nextNum := r.table.nextNum))
  {
    hide Step, Find, Held, IndexOk, PortsOk, Shape, Rewrite, Reset, Validates, ClientFlags, Add, Free, CounterCovers, WireVerifies, Get16, Get32, TotalLen, FullHeaders;
    FoundClient(t, e.buf);
    var ip, port := Addr(e.buf, Source), Port(e.buf, Source);
    var a := Add(t, ip, port, TIMEOUT, e.added);
    AddNew(t, ip, port, e.added);
    NewClientStep(host, t, e, a);
    if a.id.Some? {
      var s := a.table.store[|t.store|];
      NewClientFlags(s, ip, port, e.buf);
      assert SameIdentity(s, Touch(s, FromClient(HeaderOf(e.buf))));
      UpdateInv(a.table, |t.store|, ClientFlags(s, HeaderOf(e.buf)), 0);
      SourceRewritten(e.buf, e.serverIp, s.serverPort);
    }
  }

  /** When a client packet is sent on. */
  ghost predicate ClientAccepted(t: Table, e: Event)
    requires Shape(t) && e.ClientPacket? && Arrives(e)
  {
    if exists id: nat :: ClientOf(t, id, e.buf)
    then exists id: nat :: ClientOf(t, id, e.buf) && e.checked <= t.store[id].expire
    else
      && e.buf[HeaderLen(e.buf) + 13] as int / 2 % 2 == 1
      && (exists p: uint16 :: Free(t, p)) && e.checked <= e.added + 10
  }

  /** Every valid client packet: sent on, or refused with a reset; a session is created by new clients only. */
  lemma ClientVerdict(host: Host, t: Table, e: Event)
    requires WellFormed(t) && e.ClientPacket? && Arrives(e) && CounterCovers(t.nextNum, t.modNum)
    ensures var r := Step(host, t, e);
            && (r.outcome.Forwarded? <==> ClientAccepted(t, e))
            && (!r.outcome.Forwarded? ==> r.outcome == Refused(Reset(e.buf, host), 40))
            && (|r.table.store| == |t.store| + 1 <==>
                  && e.buf[HeaderLen(e.buf) + 13] as int / 2 % 2 == 1
                  && (exists p: uint16 :: Free(t, p)) && forall id: nat :: !ClientOf(t, id, e.buf))
  {
    hide Step, Find, Held, IndexOk, PortsOk, Shape, Rewrite, Reset, Validates, Free, CounterCovers, WireVerifies, Get16, Get32, TotalLen, FullHeaders, Touch, HeaderOf;
    FoundClient(t, e.buf);
    if id: nat :| ClientOf(t, id, e.buf) {
      KnownClient(host, t, e, id);
    } else if e.buf[HeaderLen(e.buf) + 13] as int / 2 % 2 == 1 {
      NewClient(host, t, e);
    } else {
      UnknownClient(host, t, e);
    }
  }

  // ----- world packets -----

  /** A world packet to the port of a linked session. */
  lemma KnownPort(host: Host, t: Table, e: Event, id: nat)
    requires WellFormed(t) && e.WorldPacket? && Arrives(e) && ServerOf(t, id, e.buf)
    ensures Step(host, t, e) ==
            if e.checked <= t.store[id].expire
            then Result(t.(store := t.store[id := Touch(t.store[id], FromWorld(HeaderOf(e.buf)))]),
                        Delivered(Rewrite(e.buf, Destination, t.store[id].clientIp, t.store[id].clientPort), id, t.store[id].clientIp))
            else Result(t, Refused(Reset(e.buf, host), 40))
  {
    hide Step, Find, Held, IndexOk, PortsOk, Shape, Rewrite, Reset, HeaderOf, Validates, WorldFlags, Addr, Port, Framed, Get16, Get32;
    FoundServer(t, e.buf);
    StepWorld(host, t, e, Some(id));
  }

  /** Every valid world packet: delivered exactly if an unexpired session is linked under its destination port; otherwise nothing changes. */
  lemma WorldVerdict(host: Host, t: Table, e: Event)
    requires WellFormed(t) && e.WorldPacket? && Arrives(e)
    ensures var r := Step(host, t, e);
            && (r.outcome.Delivered? <==> exists id: nat :: ServerOf(t, id, e.buf) && e.checked <= t.store[id].expire)
            && (!r.outcome.Delivered? ==> r == Result(t, Refused(Reset(e.buf, host), 40)))
            && |r.table.store| == |t.store|
  {
    hide Step, Find, Held, IndexOk, PortsOk, Shape, Rewrite, Reset, HeaderOf, Validates, WorldFlags, Addr, Port, Get16, Get32, TotalLen, FullHeaders, Touch;
    FoundServer(t, e.buf);
    if id: nat :| ServerOf(t, id, e.buf) {
      KnownPort(host, t, e, id);
    } else {
      StepWorld(host, t, e, None);
    }
  }

  /** A packet that fails the packet check is answered with a reset and changes nothing. */
  lemma InvalidVerdict(host: Host, t: Table, e: Event)
    requires WellFormed(t) && !e.Sweeping? && Start(e) <= Finish(e) && PacketOk(e.buf, e.len) && !Validates(e.buf, e.len)
    ensures Step(host, t, e) == Result(t, Refused(Reset(e.buf, host), 40))
  {
    hide Step, IndexOk, PortsOk, Shape, Reset, Validates;
    StepInvalid(host, t, e);
  }

  /**
   A sweep touches no session and sends nothing; of the linked sessions it keeps
   those unexpired at its end and drops those expired at its start.
   */
  lemma SweepVerdict(host: Host, t: Table, e: Event, x: Side, id: nat)
    requires WellFormed(t) && e.Sweeping? && Admissible(t, e) && e.from <= e.to
    ensures var r := Step(host, t, e);
            && r.outcome == Silent && r.table.store == t.store && r.table.nextNum == t.nextNum
            && (Held(r.table, x, id) ==> Held(t, x, id) && e.from <= t.store[id].expire)
            && (Held(t, x, id) && e.to <= t.store[id].expire ==> Held(r.table, x, id))
  {
    hide IndexOk, PortsOk, Held, SweepIndex, HandleClient, HandleWorld;
    SweepHeld(t, x, e.client, e.server, e.from, e.to, id);
  }

  // ----- enough ports -----

  lemma {:induction false} PortCount(store: seq<Session>, n: nat) returns (used: set<uint16>)
    requires n <= |store|
    ensures |used| <= n && forall id | 0 <= id < n :: store[id].serverPort in used
  {
    used := {};
    if n > 0 {
      used := PortCount(store, n - 1);
      used := used + {store[n - 1].serverPort};
    }
  }

  /** While fewer sessions than ports were ever created, a port is free. */
  lemma FreeWhileFew(t: Table) returns (p: uint16)
    requires WellFormed(t) && |t.store| < t.modNum
    ensures Free(t, p)
  {
    hide IndexOk, PortsOk, Bucket;
    var used := PortCount(t.store, |t.store|);
    var range := Refinement.Ports(t.minPort, t.modNum);
    Refinement.PortsSize(t.minPort, t.modNum);
    if range <= used {
      Refinement.SubsetSize(range, used);
      assert false;
    }
    p :| p in range && p !in used;
  }

  // ----- when the verdict on new clients is right -----

  /** A valid SYN, in time, of a client without a linked session. */
  ghost predicate Opening(t: Table, e: Event)
    requires Shape(t)
  {
    && e.ClientPacket? && Arrives(e) && e.checked <= e.added + 10
    && e.buf[HeaderLen(e.buf) + 13] as int / 2 % 2 == 1
    && forall id: nat :: !ClientOf(t, id, e.buf)
  }

  ghost predicate ServedIffFree(host: Host, t: Table, e: Event)
    requires WellFormed(t)
  {
    Opening(t, e) ==> (Step(host, t, e).outcome.Forwarded? <==> exists p: uint16 :: Free(t, p))
  }

  /** The bare SYN of a client. */
  function SynDatagram(ip: uint32, port: uint16): (d: Wire.Datagram)
    ensures Wire.Fits(d) && Wire.Length(d) == 40
  {
    Wire.Datagram(4, 0, 0, 0, 64, 6, 0, ip, 0, [], port, 80, 0, 0, 0,
                  false, false, false, false, false, false, true, false, 0, 0, 0, [], [])
  }

  lemma SynPacket(ip: uint32, port: uint16) returns (e: Event)
    ensures e.ClientPacket? && Arrives(e) && e.added == e.checked == 0
    ensures e.buf[HeaderLen(e.buf) + 13] as int / 2 % 2 == 1
    ensures Addr(e.buf, Source) == ip && Port(e.buf, Source) == port
  {
    hide Wire.Encode, Validates, FullHeaders;
    var d := SynDatagram(ip, port);
    var b := Wire.Encode(d) + [];
    Wire.EncodedIp(d, []);
    Wire.EncodedTcp(d, []);
    Wire.EncodedFramed(d, []);
    Wire.EncodedValidatesIff(d, [], 40);
    assert Wire.FlagByte(d) == 2;
    e := ClientPacket(b, 40, 0, 0, 0);
  }

  /**
   Exactness: "a new client is served if and only if a port is free" holds of every
   table with the given parameters and counter, and of every packet, precisely when
   the counter covers the range.
   */
  lemma ServedIffCovers(host: Host, len: nat, minPort: uint16, m: uint16, n: uint32)
    requires len > 0 && m > 0 && minPort + m <= 0x1_0000
    ensures CounterCovers(n, m) <==>
            forall t, e | Configured(t, len, minPort, m, n) :: ServedIffFree(host, t, e)
  {
    hide Step, Find, Held, IndexOk, PortsOk, Free, CounterCovers, Arrives, Add, HeaderLen, Get16, Get32, Reset, Opens;
    if CounterCovers(n, m) {
      forall t, e | Configured(t, len, minPort, m, n)
        ensures ServedIffFree(host, t, e)
      {
        if Opening(t, e) {
          NewClient(host, t, e);
        }
      }
    } else {
      var t, p, ip, port := AddMisses(len, minPort, m, n, TIMEOUT, 0);
      var e := SynPacket(ip, port);
      MissedSyn(host, t, e, p);
      assert Configured(t, len, minPort, m, n);
    }
  }

  lemma MissedSyn(host: Host, t: Table, e: Event, p: uint16)
    requires WellFormed(t) && e.ClientPacket? && Arrives(e) && e.checked <= e.added + 10
    requires e.buf[HeaderLen(e.buf) + 13] as int / 2 % 2 == 1
    requires InRange(t, p) && !InUse(t, p)
    requires Find(t, ClientKey(Addr(e.buf, Source), Port(e.buf, Source))).None?
    requires Add(t, Addr(e.buf, Source), Port(e.buf, Source), TIMEOUT, e.added).id.None?
    ensures !ServedIffFree(host, t, e)
  {
    hide Step, Find, Held, IndexOk, PortsOk, Shape, Free, InUse, Add, HeaderLen, Get16, Get32, Reset, Validates, FullHeaders, TotalLen;
    FoundClient(t, e.buf);
    FreeIff(t, p);
    NewClientStep(host, t, e, Add(t, Addr(e.buf, Source), Port(e.buf, Source), TIMEOUT, e.added));
  }

  // ----- over runs -----

  /** The verdict on client packets at any event of any run. */
  lemma RunClientVerdict(host: Host, t: Table, es: seq<Event>, n: nat)
    requires WellFormed(t) && n < |es| && es[n].ClientPacket? && Arrives(es[n])
    requires CounterCovers(At(host, t, es, n).nextNum, t.modNum)
    ensures var u, v, o := At(host, t, es, n), At(host, t, es, n + 1), OutcomeOf(host, t, es, n);
            && (o.Forwarded? <==> ClientAccepted(u, es[n]))
            && (!o.Forwarded? ==> o == Refused(Reset(es[n].buf, host), 40))
            && (if es[n].buf[HeaderLen(es[n].buf) + 13] as int / 2 % 2 == 1 && (exists p: uint16 :: Free(u, p))
                   && forall id: nat :: !ClientOf(u, id, es[n].buf)
                then Opens(u, es[n], Result(v, o)) else |v.store| == |u.store|)
  {
    hide Step, At, Held, IndexOk, PortsOk, Shape, Reset, Validates, Free, CounterCovers, WireVerifies, Get16, Get32, TotalLen, FullHeaders;
    var u := At(host, t, es, n);
    PortReuse.RangeKept(host, t, es, n);
    NextTable(host, t, es, n);
    ClientVerdict(host, u, es[n]);
    ClientGrowth(host, u, es[n]);
    if es[n].buf[HeaderLen(es[n].buf) + 13] as int / 2 % 2 == 1 && forall id: nat :: !ClientOf(u, id, es[n].buf) {
      NewClient(host, u, es[n]);
    }
  }

  lemma ClientGrowth(host: Host, t: Table, e: Event)
    requires WellFormed(t)
    ensures |t.store| <= |Step(host, t, e).table.store| <= |t.store| + 1
  {
    hide Step, IndexOk, PortsOk, Shape, Accepted, Touched, Created;
    StepStore(host, t, e, 0);
  }

  /** The verdict on world packets at any event of any run. */
  lemma RunWorldVerdict(host: Host, t: Table, es: seq<Event>, n: nat)
    requires WellFormed(t) && n < |es| && es[n].WorldPacket? && Arrives(es[n])
    ensures var u, v, o := At(host, t, es, n), At(host, t, es, n + 1), OutcomeOf(host, t, es, n);
            && (o.Delivered? <==> exists id: nat :: ServerOf(u, id, es[n].buf) && es[n].checked <= u.store[id].expire)
            && (!o.Delivered? ==> v == u && o == Refused(Reset(es[n].buf, host), 40))
  {
    hide Step, At, Held, IndexOk, PortsOk, Shape, Reset, Validates, Get16, Get32, TotalLen, FullHeaders;
    NextTable(host, t, es, n);
    WorldVerdict(host, At(host, t, es, n), es[n]);
  }

  /** An event moves the counter by at most one probe more than there are ports. */
  lemma StepCounter(host: Host, t: Table, e: Event)
    requires WellFormed(t) && t.nextNum + t.modNum + 1 < WRAP
    ensures Step(host, t, e).table.nextNum <= t.nextNum + t.modNum + 1
  {
    hide Step, IndexOk, PortsOk, InUse, ProbePort, Shape;
    var k := PortReuse.StepProbes(host, t, e);
  }

  /** In a run that starts with counter 0, the counter is far from wrapping for the first 65535 events. */
  lemma {:induction false} EarlyCounter(host: Host, t: Table, es: seq<Event>, n: nat)
    requires WellFormed(t) && n <= |es| && n < 0x1_0000 && t.nextNum == 0
    ensures At(host, t, es, n).nextNum <= n * 0x1_0000
    ensures CounterCovers(At(host, t, es, n).nextNum, t.modNum)
  {
    hide Step, IndexOk, PortsOk;
    if n > 0 {
      EarlyCounter(host, t, es, n - 1);
      PortReuse.RangeKept(host, t, es, n - 1);
      StepCounter(host, At(host, t, es, n - 1), es[n - 1]);
    }
  }

  /**
   Every new client is served: in any run from the empty table of at most 65536
   events, as long as fewer sessions than ports were created, every valid SYN of a
   client without a linked session opens a session on a free port and, if handled
   within ten seconds, is sent on from that port.
   */
  lemma NewClientsServed(host: Host, len: nat, minPort: uint16, maxPort: uint16, es: seq<Event>, n: nat)
    requires len > 0 && minPort <= maxPort && maxPort - minPort < 0xffff
    requires n < |es| && n < 0x1_0000 && es[n].ClientPacket? && Arrives(es[n])
    requires es[n].buf[HeaderLen(es[n].buf) + 13] as int / 2 % 2 == 1
    ensures var t := EmptyTable(len, minPort, maxPort);
            && WellFormed(t)
            && var u, v, o := At(host, t, es, n), At(host, t, es, n + 1), OutcomeOf(host, t, es, n);
               (forall id: nat :: !ClientOf(u, id, es[n].buf)) && |u.store| <= maxPort - minPort ==>
                 && Opens(u, es[n], Result(v, o)) && minPort <= v.store[|u.store|].serverPort <= maxPort
                 && (o.Forwarded? <==> es[n].checked <= es[n].added + 10)
  {
    hide Step, At, Held, IndexOk, PortsOk, Reset, Validates, CounterCovers, WireVerifies, Get16, Get32, TotalLen, FullHeaders;
    var t := EmptyTable(len, minPort, maxPort);
    EmptyTableInv(len, minPort, maxPort, 0);
    var u := At(host, t, es, n);
    PortReuse.RangeKept(host, t, es, n);
    EarlyCounter(host, t, es, n);
    NextTable(host, t, es, n);
    if (forall id: nat :: !ClientOf(u, id, es[n].buf)) && |u.store| <= maxPort - minPort {
      var p := FreeWhileFew(u);
      NewClient(host, u, es[n]);
    }
  }
}
