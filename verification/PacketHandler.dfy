/**
 The two packet handlers, working in place on the table, the sessions and the
 buffer. Each is one step of the translator as a state machine.
 */
module PacketHandler {
  import opened Bytes
  import opened Headers
  import opened Sessions
  import opened Flags
  import opened ProtocolHeaders
  import opened SessionLists
  import opened SessionTables
  import opened Translation
  import opened RunLaws

  /** The flags and numbers of the TCP header at `tcp`. */
  method ReadHeader(buffer: array<byte>, tcp: nat) returns (h: Header)
    requires Framed(buffer[..]) && tcp == HeaderLen(buffer[..])
    ensures h == HeaderOf(buffer[..])
  {
    var flags := buffer[tcp + 13] as int;
    h := Header(flags / 2 % 2 == 1, flags / 16 % 2 == 1, flags % 2 == 1, Load32(buffer, tcp + 4), Load32(buffer, tcp + 8));
  }

  /** The session of a client packet; a SYN may create one. */
  method LocateSession(table: SessionTable, clock: SystemClock, syn: bool, ip: uint32, port: uint16)
    returns (s: TcpSession?, ghost added: int, ghost id: Option<nat>)
    requires table.Valid() && clock !in table.Repr
    modifies table.Repr, clock
    ensures table.Valid() && fresh(table.Repr - old(table.Repr)) && WellFormed(old(table.st))
    ensures old(clock.now) <= added <= clock.now && old(table.sessions) <= table.sessions
    ensures Locate(old(table.st), syn, ip, port, added) == Added(table.st, id)
    ensures if id.None? then s == null else id.value < |table.sessions| && s == table.sessions[id.value]
  {
    hide SessionTable.Valid, IndexOk, PortsOk, Shape, Find, Sessions.Add;
    table.Sizes();
    added := clock.now;
    if syn {
      s, added := table.Add(ip, port, TIMEOUT, clock);
      id := Sessions.Add(old(table.st), ip, port, TIMEOUT, added).id;
    } else {
      s := table.GetByClient(ip, port);
      id := Find(table.st, ClientKey(ip, port));
    }
  }

  // ----- the handlers -----

  /** Event `e` takes table `t` to `r`: either the packet is sent on or `buf` is a reset of `size` bytes. */
  ghost predicate ClientStep(host: Host, t: Table, e: Event, r: Table, valid: bool, buf: seq<byte>, size: nat) {
    && WellFormed(t) && Step(host, t, e).table == r
    && var o := Step(host, t, e).outcome;
       if valid then o.Forwarded? && o.buf == buf else o == Refused(buf, size)
  }

  ghost predicate WorldStep(host: Host, t: Table, e: Event, r: Table, valid: bool, buf: seq<byte>, size: nat, ip: uint32) {
    && WellFormed(t) && Step(host, t, e).table == r
    && var o := Step(host, t, e).outcome;
       if valid then o.Delivered? && o.buf == buf && o.clientIp == ip else o == Refused(buf, size)
  }

  method HandleClientPacket(table: SessionTable, clock: SystemClock, host: Host, buffer: array<byte>, bufferLen: nat, serverIp: uint32)
    returns (valid: bool, rstSize: nat, ghost e: Event)
    requires table.Valid() && clock !in table.Repr && buffer !in table.Repr
    requires PacketOk(buffer[..], bufferLen)
    modifies table.Repr, clock, buffer
    ensures table.Valid() && fresh(table.Repr - old(table.Repr)) && old(table.sessions) <= table.sessions
    ensures e.ClientPacket? && e.buf == old(buffer[..]) && e.len == bufferLen && e.serverIp == serverIp
    ensures old(clock.now) <= e.added <= e.checked <= clock.now
    ensures ClientStep(host, old(table.st), e, table.st, valid, buffer[..], rstSize)
  {
    hide SessionTable.Valid, WellFormed, Locate, Rewrite, Reset, HeaderOf, Validates, ClientFlags, Step;
    table.Sizes();
    ghost var b, t := buffer[..], table.st;
    e := ClientPacket(b, bufferLen, serverIp, clock.now, clock.now);
    valid, rstSize := false, 0;
    var ok, tcp := ValidateIpTcp(buffer, bufferLen);
    if !ok {
      StepInvalid(host, t, e);
      rstSize := FillinReset(buffer, host);
      return;
    }
    ValidatedIsFramed(b, bufferLen);
    var h := ReadHeader(buffer, tcp);
    var s;
    ghost var added, id;
    s, added, id := LocateSession(table, clock, h.syn, Load32(buffer, 12), Load16(buffer, tcp));
    e := ClientPacket(b, bufferLen, serverIp, added, clock.now);
    if s == null {
      StepClient(host, t, e, Added(table.st, id));
      rstSize := FillinReset(buffer, host);
      return;
    }
    table.Owned(id.value);
    var now := clock.Time();
    e := ClientPacket(b, bufferLen, serverIp, added, now);
    StepClient(host, t, e, Added(table.st, id));
    if s.ExpiredAt(now) {
      rstSize := FillinReset(buffer, host);
      return;
    }
    table.TouchFromClient(s, h, id.value);
    ReplaceSrcIpPort(buffer, serverIp, s.ServerPort());
    valid := true;
  }

  method HandleWorldPacket(table: SessionTable, clock: SystemClock, host: Host, buffer: array<byte>, bufferLen: nat)
    returns (valid: bool, rstSize: nat, clientIp: uint32, ghost e: Event)
    requires table.Valid() && clock !in table.Repr && buffer !in table.Repr
    requires PacketOk(buffer[..], bufferLen)
    modifies table.Repr, clock, buffer
    ensures table.Valid() && fresh(table.Repr - old(table.Repr)) && old(table.sessions) <= table.sessions
    ensures e.WorldPacket? && e.buf == old(buffer[..]) && e.len == bufferLen
    ensures old(clock.now) <= e.checked <= clock.now
    ensures WorldStep(host, old(table.st), e, table.st, valid, buffer[..], rstSize, clientIp)
  {
    hide SessionTable.Valid, WellFormed, Find, Rewrite, Reset, HeaderOf, Validates, WorldFlags, Step;
    table.Sizes();
    ghost var b, t := buffer[..], table.st;
    e := WorldPacket(b, bufferLen, clock.now);
    valid, rstSize, clientIp := false, 0, 0;
    var ok, tcp := ValidateIpTcp(buffer, bufferLen);
    if !ok {
      StepInvalid(host, t, e);
      rstSize := FillinReset(buffer, host);
      return;
    }
    ValidatedIsFramed(b, bufferLen);
    var h := ReadHeader(buffer, tcp);
    var port := Load16(buffer, tcp + 2);
    ghost var id := Find(t, ServerKey(port));
    var s := table.GetByServer(port);
    if s == null {
      StepWorld(host, t, e, id);
      rstSize := FillinReset(buffer, host);
      return;
    }
    table.Owned(id.value);
    var now := clock.Time();
    e := WorldPacket(b, bufferLen, now);
    StepWorld(host, t, e, id);
    if s.ExpiredAt(now) {
      rstSize := FillinReset(buffer, host);
      return;
    }
    table.TouchFromWorld(s, h, id.value);
    clientIp := s.ClientIp();
    ReplaceDstIpPort(buffer, s.ClientIp(), s.ClientPort());
    valid := true;
  }
}
