/** The main theorems, over every run of the translator. */
module NatTheorems {
  import opened Bytes
  import opened Headers
  import opened Rewriting
  import opened Sessions
  import opened TableLaws
  import opened Flags
  import opened Translation
  import opened RunLaws

  // ----- round trip -----

  /** What an accepted client packet becomes. */
  lemma ForwardedPacket(host: Host, t: Table, e: Event)
    requires WellFormed(t) && Step(host, t, e).outcome.Forwarded?
    ensures e.ClientPacket? && PacketOk(e.buf, e.len) && Validates(e.buf, e.len) && Framed(e.buf)
    ensures var r := Step(host, t, e);
            && r.outcome.id < |r.table.store|
            && var s := r.table.store[r.outcome.id];
               && s.clientIp == Addr(e.buf, Source) && s.clientPort == Port(e.buf, Source)
               && r.outcome.buf == Rewrite(e.buf, Source, e.serverIp, s.serverPort)
  {
    hide IndexOk, PortsOk, Locate, Rewrite, Reset, HeaderOf, Validates, ClientFlags, ReadingsOk, SweepIndex, HandleWorld;
    assert e.ClientPacket? by {
      if e.WorldPacket? {
        WorldOutcome(host, t, e);
      }
    }
    ValidatedIsFramed(e.buf, e.len);
    var h := HeaderOf(e.buf);
    var a := Locate(t, h.syn, Addr(e.buf, Source), Port(e.buf, Source), e.added);
    var s := a.table.store[a.id.value];
    assert SameIdentity(s, Touch(s, FromClient(h)));
  }

  lemma WorldOutcome(host: Host, t: Table, e: Event)
    requires WellFormed(t) && e.WorldPacket?
    ensures !Step(host, t, e).outcome.Forwarded?
  {
  }

  /** A world packet to the port of an unexpired session is delivered to that session's client. */
  lemma DeliveredPacket(host: Host, t: Table, e: Event, id: nat)
    requires e.WorldPacket? && Inv(t, e.checked) && PacketOk(e.buf, e.len) && Validates(e.buf, e.len) && Framed(e.buf)
    requires id < |t.store| && e.checked <= t.store[id].expire
    requires Port(e.buf, Destination) == t.store[id].serverPort
    ensures Step(host, t, e).outcome ==
            Delivered(Rewrite(e.buf, Destination, t.store[id].clientIp, t.store[id].clientPort), id, t.store[id].clientIp)
  {
    hide IndexOk, PortsOk, Covered, Find, Held, Rewrite, Reset, HeaderOf, Validates, WorldFlags, ReadingsOk, SweepIndex, HandleClient;
    UnexpiredFound(t, e.checked, id);
    assert Find(t, KeyOf(ByServer, t.store[id])) == Some(id);
  }

  /** A client packet from the client of an unexpired session leaves with that session's port, SYN or not. */
  lemma ForwardedAgain(host: Host, t: Table, e: Event, id: nat)
    requires e.ClientPacket? && Inv(t, e.checked) && PacketOk(e.buf, e.len) && Validates(e.buf, e.len) && Framed(e.buf)
    requires id < |t.store| && e.checked <= t.store[id].expire && e.added <= e.checked
    requires KeyOf(ByClient, t.store[id]) == ClientKey(Addr(e.buf, Source), Port(e.buf, Source))
    ensures Step(host, t, e).outcome == Forwarded(Rewrite(e.buf, Source, e.serverIp, t.store[id].serverPort), id)
  {
    hide IndexOk, PortsOk, Covered, Find, Held, Rewrite, Reset, HeaderOf, Validates, ClientFlags, ReadingsOk, SweepIndex, HandleWorld, Probe;
    UnexpiredFound(t, e.checked, id);
    assert Find(t, KeyOf(ByClient, t.store[id])) == Some(id);
  }

  /** The session that event `i` forwarded a packet for, as it stands before a later event. */
  lemma StillThere(host: Host, t: Table, now: int, es: seq<Event>, i: nat, j: nat) returns (id: nat)
    requires Inv(t, now) && IsRun(host, t, now, es) && i < j < |es| && OutcomeOf(host, t, es, i).Forwarded?
    ensures es[i].ClientPacket? && Framed(es[i].buf) && id == OutcomeOf(host, t, es, i).id
    ensures id < |At(host, t, es, i + 1).store| && id < |At(host, t, es, j).store|
    ensures Inv(At(host, t, es, j), Finish(es[j])) && Start(es[j]) <= Finish(es[j])
    ensures var s, out := At(host, t, es, j).store[id], OutcomeOf(host, t, es, i).buf;
            && SameIdentity(At(host, t, es, i + 1).store[id], s)
            && s.clientIp == Get32(es[i].buf, 12) && s.clientPort == Get16(es[i].buf, HeaderLen(es[i].buf))
            && Framed(out) && WireVerifies(out)
            && Get16(out, HeaderLen(out)) == s.serverPort && Get32(out, 12) == es[i].serverIp
  {
    hide IndexOk, PortsOk, Shape, Covered, At, Step, IsRun, Rewrite, Framed, Validates, Get16, Get32, HeaderLen, ChecksumsVerify, WireVerifies;
    id := OutcomeOf(host, t, es, i).id;
    NextTable(host, t, es, i);
    ForwardedPacket(host, At(host, t, es, i), es[i]);
    RunEvent(host, t, now, es, i);
    RunEvent(host, t, now, es, j);
    IdentityKept(host, t, es, i + 1, j, id);
    RewriteCorrect(es[i].buf, es[i].len, Source, es[i].serverIp, At(host, t, es, j).store[id].serverPort);
    RunInv(host, t, now, es, j);
    ClockInv(At(host, t, es, j), Clock(now, es, j), Finish(es[j]));
  }

  /** Packet `o` is packet `b` with only its destination and its checksums replaced. */
  ghost predicate Readdressed(o: seq<byte>, b: seq<byte>, ip: uint32, port: uint16)
    requires Framed(b)
  {
    var h := HeaderLen(b);
    && |o| == |b| && Framed(o) && HeaderLen(o) == h && WireVerifies(o)
    && Get32(o, 16) == ip && Get16(o, h + 2) == port
    && forall k | 0 <= k < |b| && !(10 <= k < 12) && !(16 <= k < 20) && !(h + 2 <= k < h + 4) && !(h + 16 <= k < h + 18) ::
         o[k] == b[k]
  }

  lemma DestinationReplaced(b: seq<byte>, ip: uint32, port: uint16)
    requires Framed(b)
    ensures Readdressed(Rewrite(b, Destination, ip, port), b, ip, port)
  {
    hide Rewrite, WireVerifies, ChecksumsVerify, HeaderLen, TotalLen, Validates, Get16, Get32;
    RewriteCorrect(b, 0, Destination, ip, port);
  }

  /**
   The round trip over whole runs. If event `i` forwards a client packet, then at
   any later event `j`, as long as the session is unexpired, every valid world
   packet sent to the source port that was put into the forwarded packet is
   delivered with exactly the client's address and port as its destination, with
   verifying checksums and nothing else changed.
   */
  lemma RoundTrip(host: Host, t: Table, now: int, es: seq<Event>, i: nat, j: nat)
    requires Inv(t, now) && IsRun(host, t, now, es) && i < j < |es| && OutcomeOf(host, t, es, i).Forwarded?
    requires es[j].WorldPacket? && es[j].len <= |es[j].buf| && Validates(es[j].buf, es[j].len)
    requires var out := OutcomeOf(host, t, es, i).buf;
             Framed(out) && Framed(es[j].buf) ==> Get16(es[j].buf, HeaderLen(es[j].buf) + 2) == Get16(out, HeaderLen(out))
    requires es[j].checked <= At(host, t, es, i + 1).store[OutcomeOf(host, t, es, i).id].expire
    ensures es[i].ClientPacket? && Framed(es[i].buf) && Framed(es[j].buf)
    ensures var o, ip, port := OutcomeOf(host, t, es, j), Get32(es[i].buf, 12), Get16(es[i].buf, HeaderLen(es[i].buf));
            && o.Delivered? && o.id == OutcomeOf(host, t, es, i).id && o.clientIp == ip
            && Readdressed(o.buf, es[j].buf, ip, port)
  {
    hide IndexOk, PortsOk, Shape, Covered, At, Step, IsRun, Rewrite, Framed, Validates, Get16, Get32, HeaderLen, Readdressed, WireVerifies;
    var v := At(host, t, es, j);
    var id := StillThere(host, t, now, es, i, j);
    RunEvent(host, t, now, es, j);
    NextTable(host, t, es, j);
    DeliveredPacket(host, v, es[j], id);
    DestinationReplaced(es[j].buf, v.store[id].clientIp, v.store[id].clientPort);
  }

  /** While a session is unexpired, every packet of its client leaves with the same server port. */
  lemma SamePort(host: Host, t: Table, now: int, es: seq<Event>, i: nat, j: nat)
    requires Inv(t, now) && IsRun(host, t, now, es) && i < j < |es| && OutcomeOf(host, t, es, i).Forwarded?
    requires es[j].ClientPacket? && es[j].len <= |es[j].buf| && Validates(es[j].buf, es[j].len)
    requires es[i].ClientPacket? && Framed(es[i].buf) && Framed(es[j].buf) ==>
               && Get32(es[j].buf, 12) == Get32(es[i].buf, 12)
               && Get16(es[j].buf, HeaderLen(es[j].buf)) == Get16(es[i].buf, HeaderLen(es[i].buf))
    requires es[j].checked <= At(host, t, es, i + 1).store[OutcomeOf(host, t, es, i).id].expire
    ensures var o, out := OutcomeOf(host, t, es, j), OutcomeOf(host, t, es, i).buf;
            && o.Forwarded? && o.id == OutcomeOf(host, t, es, i).id
            && Framed(out) && Framed(o.buf) && WireVerifies(o.buf)
            && Get16(o.buf, HeaderLen(o.buf)) == Get16(out, HeaderLen(out)) && Get32(o.buf, 12) == es[j].serverIp
  {
    hide IndexOk, PortsOk, Shape, Covered, At, Step, IsRun, Rewrite, Framed, Validates, Get16, Get32, HeaderLen, ChecksumsVerify, WireVerifies;
    var v := At(host, t, es, j);
    var id := StillThere(host, t, now, es, i, j);
    RunEvent(host, t, now, es, j);
    NextTable(host, t, es, j);
    ForwardedAgain(host, v, es[j], id);
    RewriteCorrect(es[j].buf, es[j].len, Source, es[j].serverIp, v.store[id].serverPort);
  }

  /** The first SYN that reaches an empty table is forwarded with the lowest port of the range. */
  lemma FirstSyn(host: Host, t: Table, minPort: uint16, maxPort: uint16, e: Event)
    requires t.len > 0 && minPort <= maxPort && maxPort - minPort < 0xffff && t == EmptyTable(t.len, minPort, maxPort)
    requires e.ClientPacket? && PacketOk(e.buf, e.len) && Validates(e.buf, e.len) && Framed(e.buf)
    requires e.buf[HeaderLen(e.buf) + 13] as int / 2 % 2 == 1
    requires e.added <= e.checked <= e.added + 10
    ensures WellFormed(t)
    ensures var r := Step(host, t, e);
            && r.outcome == Forwarded(Rewrite(e.buf, Source, e.serverIp, minPort), 0)
            && |r.table.store| == 1 && r.table.store[0].expire == e.added + 10
  {
    hide Rewrite, Reset, HeaderOf, Validates, ClientFlags, HandleWorld, ReadingsOk, IndexOk, PortsOk, Shape, EmptyTable, Add, Find;
    SynBit(e.buf);
    EmptyTableInv(t.len, minPort, maxPort, 0);
    FirstAdd(t, minPort, maxPort, Addr(e.buf, Source), Port(e.buf, Source), e.added);
    var s := NewSession(Addr(e.buf, Source), Port(e.buf, Source), minPort, e.added + TIMEOUT);
    assert SameIdentity(s, Touch(s, FromClient(HeaderOf(e.buf))));
  }

  lemma SynBit(b: seq<byte>)
    requires Framed(b)
    ensures HeaderOf(b).syn <==> b[HeaderLen(b) + 13] as int / 2 % 2 == 1
  {
  }

  lemma FirstAdd(t: Table, minPort: uint16, maxPort: uint16, ip: uint32, port: uint16, time: int)
    requires t.len > 0 && minPort <= maxPort && maxPort - minPort < 0xffff && t == EmptyTable(t.len, minPort, maxPort)
    ensures WellFormed(t)
    ensures var r := Add(t, ip, port, TIMEOUT, time);
            r.id == Some(0) && r.table.store == [NewSession(ip, port, minPort, time + TIMEOUT)]
  {
    hide Link;
    EmptyTableInv(t.len, minPort, maxPort, 0);
    assert Find(t, ClientKey(ip, port)).None? && Find(t, ServerKey(minPort)).None?;
    assert ProbePort(t, 0) == minPort;
    assert Link(t.(nextNum := 1), NewSession(ip, port, minPort, time + TIMEOUT)).store
        == [NewSession(ip, port, minPort, time + TIMEOUT)] by { LinkStore(t.(nextNum := 1), NewSession(ip, port, minPort, time + TIMEOUT)); }
  }

  lemma LinkStore(t: Table, s: Session)
    requires Shape(t)
    ensures Link(t, s).store == t.store + [s]
  {
  }

  /**
   A whole connection attempt from nothing: the first SYN and any world packet
   sent to the lowest port before the deadline form a run, and the answer goes
   back to the client.
   */
  lemma FirstConnection(host: Host, t: Table, minPort: uint16, maxPort: uint16, p: Event, w: Event)
    requires t.len > 0 && minPort <= maxPort && maxPort - minPort < 0xffff && t == EmptyTable(t.len, minPort, maxPort)
    requires p.ClientPacket? && PacketOk(p.buf, p.len) && Validates(p.buf, p.len) && Framed(p.buf)
    requires p.buf[HeaderLen(p.buf) + 13] as int / 2 % 2 == 1
    requires w.WorldPacket? && PacketOk(w.buf, w.len) && Validates(w.buf, w.len) && Framed(w.buf)
    requires Get16(w.buf, HeaderLen(w.buf) + 2) == minPort
    requires p.added <= p.checked <= w.checked <= p.added + 10
    ensures WellFormed(t) && IsRun(host, t, p.added, [p, w])
    ensures var o := OutcomeOf(host, t, [p, w], 0);
            && o.Forwarded? && Framed(o.buf) && WireVerifies(o.buf)
            && Get32(o.buf, 12) == p.serverIp && Get16(o.buf, HeaderLen(o.buf)) == minPort
    ensures var o, ip, port := OutcomeOf(host, t, [p, w], 1), Get32(p.buf, 12), Get16(p.buf, HeaderLen(p.buf));
            o.Delivered? && o.clientIp == ip && Readdressed(o.buf, w.buf, ip, port)
  {
    hide Step, Rewrite, HeaderOf, Validates, Framed, IndexOk, PortsOk, Shape, Covered, EmptyTable, Get16, Get32, HeaderLen, ChecksumsVerify, WireVerifies, Readdressed;
    EmptyTableInv(t.len, minPort, maxPort, p.added);
    FirstSyn(host, t, minPort, maxPort, p);
    RewriteCorrect(p.buf, p.len, Source, p.serverIp, minPort);
    NextTable(host, t, [p, w], 0);
    RoundTrip(host, t, p.added, [p, w], 0, 1);
  }

  lemma RunEvent(host: Host, t: Table, now: int, es: seq<Event>, n: nat)
    requires WellFormed(t) && IsRun(host, t, now, es) && n < |es|
    ensures Admissible(At(host, t, es, n), es[n]) && Clock(now, es, n) <= Start(es[n]) <= Finish(es[n])
    ensures (es[n].ClientPacket? || es[n].WorldPacket?) ==>
              && PacketOk(es[n].buf, es[n].len)
              && (Validates(es[n].buf, es[n].len) ==> FullHeaders(es[n].buf) && Framed(es[n].buf))
  {
  }

  // ----- deadlines -----

  /** A session created in a run was created by a client SYN, ten seconds before its deadline. */
  lemma {:induction false} CreatedBySyn(host: Host, t: Table, es: seq<Event>, n: nat, id: nat) returns (c: nat)
    requires WellFormed(t) && n <= |es| && |t.store| <= id < |At(host, t, es, n).store|
    ensures c < n && es[c].ClientPacket? && Framed(es[c].buf) && es[c].buf[HeaderLen(es[c].buf) + 13] as int / 2 % 2 == 1
    ensures At(host, t, es, n).store[id].expire == es[c].added + 10
  {
    hide Step, IndexOk, PortsOk, Shape, Framed, HeaderOf, Touched;
    var u := At(host, t, es, n - 1);
    StepStore(host, u, es[n - 1], id);
    if id < |u.store| {
      c := CreatedBySyn(host, t, es, n - 1, id);
      IdentityKept(host, t, es, n - 1, n, id);
    } else {
      c := n - 1;
      SynBit(es[c].buf);
    }
  }

  /** Deadline safety: a packet is accepted for a session only up to the session's fixed deadline. */
  lemma AcceptedInTime(host: Host, t: Table, es: seq<Event>, n: nat, id: nat)
    requires WellFormed(t) && n < |es| && Accepted(OutcomeOf(host, t, es, n), es[n], id).Some?
    ensures id < |At(host, t, es, n + 1).store|
    ensures Finish(es[n]) <= At(host, t, es, n + 1).store[id].expire
    ensures forall m | n + 1 <= m <= |es| :: id < |At(host, t, es, m).store|
                                            && At(host, t, es, m).store[id].expire == At(host, t, es, n + 1).store[id].expire
  {
    hide Step, IndexOk, PortsOk, Shape, At, Accepted;
    NextTable(host, t, es, n);
    StepStore(host, At(host, t, es, n), es[n], id);
    forall m | n + 1 <= m <= |es|
      ensures id < |At(host, t, es, m).store|
              && At(host, t, es, m).store[id].expire == At(host, t, es, n + 1).store[id].expire
    {
      IdentityKept(host, t, es, n + 1, m, id);
    }
  }

  /** After its deadline no event of a run changes any field of a session. */
  lemma {:induction false} FrozenAfterDeadline(host: Host, t: Table, now: int, es: seq<Event>, m: nat, n: nat, id: nat)
    requires WellFormed(t) && IsRun(host, t, now, es) && m <= n <= |es|
    requires id < |At(host, t, es, m).store| && At(host, t, es, m).store[id].expire < Clock(now, es, m)
    ensures id < |At(host, t, es, n).store| && At(host, t, es, n).store[id] == At(host, t, es, m).store[id]
  {
    hide Step, IndexOk, PortsOk, Shape, Accepted, Touch, At, IsRun;
    if m < n {
      FrozenAfterDeadline(host, t, now, es, m, n - 1, id);
      ClockMonotone(host, t, now, es, m, n - 1);
      NextTable(host, t, es, n - 1);
      StepStore(host, At(host, t, es, n - 1), es[n - 1], id);
      RunTimes(host, t, now, es, n - 1);
    }
  }

  // ----- the state machine over whole runs -----

  /**
   Handshake history over runs: a session created in the run and standing in
   state 3 has had accepted, in order, the opening client SYN, a world SYN+ACK
   above the recorded client number and a client ACK above the recorded server
   number.
   */
  lemma RunHandshake(host: Host, t: Table, now: int, es: seq<Event>, id: nat, n: nat) returns (j: nat, k: nat)
    requires WellFormed(t) && IsRun(host, t, now, es) && n <= |es|
    requires |t.store| <= id < |At(host, t, es, n).store|
    requires At(host, t, es, n).store[id].synState == 3
    ensures var s, ps := Fresh(At(host, t, es, n).store[id]), Touches(host, t, es, id, n);
            && 0 < j < k < |ps| && ps[0].FromClient? && ps[0].h.syn
            && AnswersSyn(s, ps, j) && CompletesHandshake(s, ps, k)
  {
    hide Step, IndexOk, PortsOk, Shape, At, Touches, IsRun, Trace, After;
    Projection(host, t, now, es, id, n);
    var s, ps := Fresh(At(host, t, es, n).store[id]), Touches(host, t, es, id, n);
    assert ps != [] by { TraceEmpty(s, ps); }
    var i;
    i, j, k := HandshakeHistory(s, ps);
  }

  lemma TraceEmpty(s: Session, ps: seq<Packet>)
    ensures ps == [] ==> Trace(s, ps) == s
  {
  }

  /** In every run the handshake state of a session created in it is 0, 2 or 3 and its FIN states are at most 2. */
  lemma RunLegal(host: Host, t: Table, now: int, es: seq<Event>, id: nat, n: nat)
    requires WellFormed(t) && IsRun(host, t, now, es) && n <= |es| && id < |At(host, t, es, n).store|
    requires id < |t.store| ==> Legal(t.store[id])
    ensures Legal(At(host, t, es, n).store[id])
  {
    hide Step, IndexOk, PortsOk, Shape, At, Touches, IsRun, Trace;
    Projection(host, t, now, es, id, n);
    TraceLegal(Origin(host, t, es, id, n), Touches(host, t, es, id, n));
  }

  /** The packet that takes a session over one event, if any. */
  lemma RunTouch(host: Host, t: Table, es: seq<Event>, id: nat, n: nat) returns (p: Option<Packet>)
    requires WellFormed(t) && n < |es| && id < |At(host, t, es, n).store|
    ensures id < |At(host, t, es, n + 1).store|
    ensures At(host, t, es, n + 1).store[id] == Touched(At(host, t, es, n).store[id], p)
  {
    hide Step, IndexOk, PortsOk, Shape, At, Touched, Accepted;
    NextTable(host, t, es, n);
    StepStore(host, At(host, t, es, n), es[n], id);
    p := Accepted(OutcomeOf(host, t, es, n), es[n], id);
  }

  /** In every run no state of a session ever moves back, and a FIN state moves by at most one at a time. */
  lemma {:induction false} RunForward(host: Host, t: Table, now: int, es: seq<Event>, id: nat, m: nat, n: nat)
    requires WellFormed(t) && IsRun(host, t, now, es) && m <= n <= |es| && id < |At(host, t, es, m).store|
    requires id < |t.store| ==> Legal(t.store[id])
    ensures id < |At(host, t, es, n).store|
    ensures var a, b := At(host, t, es, m).store[id], At(host, t, es, n).store[id];
            && Legal(a) && Legal(b)
            && a.synState <= b.synState && a.clientFin <= b.clientFin && a.serverFin <= b.serverFin
            && (n == m + 1 ==> Forward(a, b))
  {
    hide IndexOk, PortsOk, Shape, At, IsRun, Touch;
    RunLegal(host, t, now, es, id, m);
    if m < n {
      RunForward(host, t, now, es, id, m, n - 1);
      var p := RunTouch(host, t, es, id, n - 1);
      if p.Some? {
        TouchForward(At(host, t, es, n - 1).store[id], p.value);
      }
    }
  }

  /** In every run a FIN recorded past handshake state 0 keeps its number for the rest of the run. */
  lemma {:induction false} RunFinFrozen(host: Host, t: Table, now: int, es: seq<Event>, id: nat, m: nat, n: nat)
    requires WellFormed(t) && IsRun(host, t, now, es) && m <= n <= |es| && id < |At(host, t, es, m).store|
    requires id < |t.store| ==> Legal(t.store[id])
    requires At(host, t, es, m).store[id].synState >= 2
    ensures id < |At(host, t, es, n).store|
    ensures var a, b := At(host, t, es, m).store[id], At(host, t, es, n).store[id];
            && b.synState >= 2
            && (a.serverFin >= 1 ==> b.serverFin >= 1 && b.clientSeq == a.clientSeq)
            && (a.clientFin >= 1 ==> b.clientFin >= 1 && b.serverSeq == a.serverSeq)
  {
    hide IndexOk, PortsOk, Shape, At, IsRun, Touch, Trace;
    if m < n {
      RunFinFrozen(host, t, now, es, id, m, n - 1);
      RunLegal(host, t, now, es, id, n - 1);
      var p := RunTouch(host, t, es, id, n - 1);
      if p.Some? {
        TraceOne(At(host, t, es, n - 1).store[id], p.value);
        FinFrozen(At(host, t, es, n - 1).store[id], [p.value]);
      }
    }
  }

  /** FIN history over runs, client side. */
  lemma RunClientFin(host: Host, t: Table, now: int, es: seq<Event>, id: nat, n: nat) returns (i: nat, j: nat)
    requires WellFormed(t) && IsRun(host, t, now, es) && n <= |es|
    requires |t.store| <= id < |At(host, t, es, n).store| && At(host, t, es, n).store[id].serverFin == 2
    ensures var s, ps := Fresh(At(host, t, es, n).store[id]), Touches(host, t, es, id, n);
            && i < j < |ps| && RecordsClientFin(s, ps, i)
            && ps[j].FromWorld? && ps[j].h.ack && ps[j].h.ackNo > After(s, ps, j).clientSeq
            && (After(s, ps, i).synState >= 2 ==> After(s, ps, j).clientSeq == ps[i].h.seqNo)
  {
    hide Step, IndexOk, PortsOk, Shape, At, Touches, IsRun, Trace, After, RecordsClientFin;
    Projection(host, t, now, es, id, n);
    i, j := ClientFinHistory(Fresh(At(host, t, es, n).store[id]), Touches(host, t, es, id, n));
  }

  /** FIN history over runs, world side. */
  lemma RunServerFin(host: Host, t: Table, now: int, es: seq<Event>, id: nat, n: nat) returns (i: nat, j: nat)
    requires WellFormed(t) && IsRun(host, t, now, es) && n <= |es|
    requires |t.store| <= id < |At(host, t, es, n).store| && At(host, t, es, n).store[id].clientFin == 2
    ensures var s, ps := Fresh(At(host, t, es, n).store[id]), Touches(host, t, es, id, n);
            && i < j < |ps| && RecordsServerFin(s, ps, i)
            && ps[j].FromClient? && ps[j].h.ack && ps[j].h.ackNo > After(s, ps, j).serverSeq
            && (After(s, ps, i).synState >= 2 ==> After(s, ps, j).serverSeq == ps[i].h.seqNo)
  {
    hide Step, IndexOk, PortsOk, Shape, At, Touches, IsRun, Trace, After, RecordsServerFin;
    Projection(host, t, now, es, id, n);
    i, j := ServerFinHistory(Fresh(At(host, t, es, n).store[id]), Touches(host, t, es, id, n));
  }

  // ----- progress -----

  /** The packet of an event, if it is valid and comes from the client of `s` or goes to the port of `s`. */
  function Addressed(e: Event, s: Session): (p: Option<Packet>) {
    match e
    case ClientPacket(b, n, _, _, _) =>
      if PacketOk(b, n) && Validates(b, n) && Framed(b) && Addr(b, Source) == s.clientIp && Port(b, Source) == s.clientPort
      then Some(FromClient(HeaderOf(b))) else None
    case WorldPacket(b, n, _) =>
      if PacketOk(b, n) && Validates(b, n) && Framed(b) && Port(b, Destination) == s.serverPort
      then Some(FromWorld(HeaderOf(b))) else None
    case Sweeping(_, _, _, _) => None
  }

  /** The packets addressed to `s` among the events from `c` up to `n`, in order. */
  function Offered(es: seq<Event>, s: Session, c: nat, n: nat): (ps: seq<Packet>)
    requires n <= |es|
  {
    if n <= c then []
    else
      var p := Addressed(es[n - 1], s);
      Offered(es, s, c, n - 1) + if p.Some? then [p.value] else []
  }

  /** What a delivered packet was addressed to. */
  lemma DeliveredTo(host: Host, t: Table, e: Event)
    requires WellFormed(t) && Step(host, t, e).outcome.Delivered?
    ensures e.WorldPacket? && PacketOk(e.buf, e.len) && Validates(e.buf, e.len) && Framed(e.buf)
    ensures var id := Step(host, t, e).outcome.id;
            id < |t.store| && Port(e.buf, Destination) == t.store[id].serverPort
  {
    hide IndexOk, PortsOk, Shape, Find, Rewrite, Reset, HeaderOf, Validates, WorldFlags, ReadingsOk, SweepIndex, Locate, ClientFlags;
    if e.WorldPacket? && PacketOk(e.buf, e.len) && Validates(e.buf, e.len) {
      ValidatedIsFramed(e.buf, e.len);
    }
  }

  /** Before its deadline a session is sent exactly the packets addressed to it. */
  lemma AcceptedIffAddressed(host: Host, t: Table, e: Event, id: nat, s: Session)
    requires Inv(t, Finish(e)) && Admissible(t, e) && Start(e) <= Finish(e) <= s.expire
    requires id < |t.store| && SameIdentity(t.store[id], s)
    ensures Accepted(Step(host, t, e).outcome, e, id) == Addressed(e, s)
  {
    hide IndexOk, PortsOk, Shape, Covered, Step, Rewrite, HeaderOf, Validates, Framed, Addr, Port, ReadingsOk, PacketOk;
    var o := Step(host, t, e).outcome;
    if Addressed(e, s).Some? {
      if e.ClientPacket? {
        ForwardedAgain(host, t, e, id);
      } else {
        DeliveredPacket(host, t, e, id);
      }
    } else if o.Forwarded? && o.id == id {
      ForwardedPacket(host, t, e);
      StepStore(host, t, e, id);
    } else if o.Delivered? && o.id == id {
      DeliveredTo(host, t, e);
    }
  }

  /** The SYN that creates a session is accepted for it unless the session has already expired. */
  lemma CreatorAddressed(host: Host, t: Table, e: Event, s: Session)
    requires WellFormed(t) && |Step(host, t, e).table.store| > |t.store| && s == Step(host, t, e).table.store[|t.store|]
    requires Finish(e) <= s.expire
    ensures Accepted(Step(host, t, e).outcome, e, |t.store|).Some?
    ensures Accepted(Step(host, t, e).outcome, e, |t.store|) == Addressed(e, s)
  {
    hide IndexOk, PortsOk, Shape, Step, Rewrite, HeaderOf, Validates, Framed, Addr, Port, PacketOk, Touched;
    StepStore(host, t, e, |t.store|);
    ForwardedPacket(host, t, e);
  }

  /** Up to its deadline, the packets accepted for a session created at event `c` are those addressed to it. */
  lemma {:induction false} OfferedIsTouches(host: Host, t: Table, now: int, es: seq<Event>, id: nat, c: nat, n: nat)
    requires Inv(t, now) && IsRun(host, t, now, es) && c < n <= |es|
    requires |At(host, t, es, c).store| <= id < |At(host, t, es, c + 1).store|
    requires Clock(now, es, n) <= At(host, t, es, c + 1).store[id].expire
    ensures Touches(host, t, es, id, n) == Offered(es, At(host, t, es, c + 1).store[id], c, n)
  {
    hide IndexOk, PortsOk, Shape, Covered, At, Step, IsRun, Addressed, Accepted, Admissible;
    var s := At(host, t, es, c + 1).store[id];
    var u := At(host, t, es, n - 1);
    NextTable(host, t, es, n - 1);
    RunTimes(host, t, now, es, n - 1);
    if n == c + 1 {
      StepStore(host, u, es[c], id);
      NoTouches(host, t, es, id, c);
      CreatorAddressed(host, u, es[c], s);
    } else {
      OfferedIsTouches(host, t, now, es, id, c, n - 1);
      IdentityKept(host, t, es, c + 1, n - 1, id);
      RunInv(host, t, now, es, n - 1);
      ClockInv(u, Clock(now, es, n - 1), Finish(es[n - 1]));
      RunEvent(host, t, now, es, n - 1);
      AcceptedIffAddressed(host, u, es[n - 1], id, s);
    }
  }

  /**
   Progress over runs: if the valid packets that come from a session's client or
   go to its port, from the SYN that created it on and all before its deadline,
   form a complete connection, then whatever else happens in the run the session
   ends established and closed in both directions.
   */
  lemma RunProgress(host: Host, t: Table, now: int, es: seq<Event>, id: nat, c: nat, n: nat, m: Plan)
    requires Inv(t, now) && IsRun(host, t, now, es) && c < n <= |es|
    requires |At(host, t, es, c).store| <= id < |At(host, t, es, c + 1).store|
    requires Clock(now, es, n) <= At(host, t, es, c + 1).store[id].expire
    requires Complete(Offered(es, At(host, t, es, c + 1).store[id], c, n), m)
    ensures id < |At(host, t, es, n).store|
    ensures var s := At(host, t, es, n).store[id];
            s.synState == 3 && s.clientFin == 2 && s.serverFin == 2
  {
    hide Step, IndexOk, PortsOk, Shape, Covered, At, Touches, Offered, IsRun, Trace, Complete;
    OfferedIsTouches(host, t, now, es, id, c, n);
    IdentityKept(host, t, es, c + 1, n, id);
    if id < |t.store| {
      ProjectionNone(host, t, es, id);
      IdentityKept(host, t, es, 0, c, id);
    }
    Projection(host, t, now, es, id, n);
    Progress(Fresh(At(host, t, es, n).store[id]), Touches(host, t, es, id, n), m);
  }
}
