/**
 The server as a whole: any list of requests handled one after the other on one
 table is a run of the translator, so every theorem about runs is about the heap
 code.
 */
module Server {
  import opened Bytes
  import opened Headers
  import opened Sessions
  import opened SessionLists
  import opened SessionTables
  import opened Translation
  import opened RunLaws
  import opened PacketHandler

  /** What reaches the server: a packet in a buffer of which `len` bytes may be used, or the call to sweep. */
  datatype Request =
    | FromTheClient(data: seq<byte>, len: nat, serverIp: uint32)
    | FromTheWorld(data: seq<byte>, len: nat)
    | CleanUp

  datatype Reply =
    | SendOut(buf: seq<byte>)
    | SendToClient(buf: seq<byte>, clientIp: uint32)
    | SendReset(buf: seq<byte>, size: nat)
    | Nothing

  predicate RequestOk(q: Request) {
    q.CleanUp? || PacketOk(q.data, q.len)
  }

  /** Event `e` is request `q` with the clock readings of its handling. */
  ghost predicate Carries(e: Event, q: Request) {
    match q
    case FromTheClient(data, len, ip) => e.ClientPacket? && e.buf == data && e.len == len && e.serverIp == ip
    case FromTheWorld(data, len) => e.WorldPacket? && e.buf == data && e.len == len
    case CleanUp => e.Sweeping? && Chronological(e.client, e.server)
  }

  function ReplyOf(o: Outcome): Reply {
    match o
    case Forwarded(buf, _) => SendOut(buf)
    case Delivered(buf, _, ip) => SendToClient(buf, ip)
    case Refused(buf, size) => SendReset(buf, size)
    case Silent => Nothing
  }

  /** What is sent for a request: the forwarded or delivered packet, or else the request's own 40-byte reset. */
  ghost predicate Replied(host: Host, q: Request, o: Outcome, reply: Reply) {
    match q
    case FromTheClient(data, _, _) =>
      if o.Forwarded? then reply == SendOut(o.buf) else |data| >= 40 && reply == SendReset(Reset(data, host), 40)
    case FromTheWorld(data, _) =>
      if o.Delivered? then reply == SendToClient(o.buf, o.clientIp) else |data| >= 40 && reply == SendReset(Reset(data, host), 40)
    case CleanUp => reply == Nothing
  }

  method Copy(data: seq<byte>) returns (buffer: array<byte>)
    ensures fresh(buffer) && buffer[..] == data
  {
    buffer := new byte[|data|](i requires 0 <= i < |data| => data[i]);
  }

  /** One step of the state machine, as the handlers see it. */
  ghost predicate Handled(host: Host, t: Table, e: Event, r: Table, reply: Reply) {
    && WellFormed(t) && Admissible(t, e) && Start(e) <= Finish(e)
    && Step(host, t, e).table == r && ReplyOf(Step(host, t, e).outcome) == reply
  }

  lemma HandledSweep(host: Host, t: Table, e: Event)
    requires WellFormed(t) && e.Sweeping? && Admissible(t, e) && e.from <= e.to
    ensures Handled(host, t, e, Sweep(t, e.client, e.server), Nothing)
  {
    hide IndexOk, PortsOk, Shape, SweepIndex, HandleClient, HandleWorld;
  }

  method Handle(table: SessionTable, clock: SystemClock, host: Host, q: Request) returns (reply: Reply, ghost e: Event)
    requires table.Valid() && clock !in table.Repr && RequestOk(q)
    modifies table.Repr, clock
    ensures table.Valid() && fresh(table.Repr - old(table.Repr)) && old(table.sessions) <= table.sessions
    ensures Carries(e, q) && Handled(host, old(table.st), e, table.st, reply)
    ensures old(clock.now) <= Start(e) && Finish(e) <= clock.now
  {
    hide SessionTable.Valid, WellFormed, Step, PacketOk, Chronological, ReadingsOk, Sweep;
    table.Sizes();
    match q
    case FromTheClient(data, len, ip) =>
      var buffer := Copy(data);
      var valid, size;
      valid, size, e := HandleClientPacket(table, clock, host, buffer, len, ip);
      reply := if valid then SendOut(buffer[..]) else SendReset(buffer[..], size);
    case FromTheWorld(data, len) =>
      var buffer := Copy(data);
      var valid, size, ip;
      valid, size, ip, e := HandleWorldPacket(table, clock, host, buffer, len);
      reply := if valid then SendToClient(buffer[..], ip) else SendReset(buffer[..], size);
    case CleanUp =>
      ghost var client, server;
      ghost var t := table.st;
      client, server := table.CleanExpired(clock);
      e := Sweeping(old(clock.now), clock.now, client, server);
      HandledSweep(host, t, e);
      reply := Nothing;
  }

  /**
   Serving any list of requests is a run: the events carry the requests in order
   and the table ends as the state machine says. A client packet that is forwarded
   is sent out, a world packet that is delivered is sent to the client it is
   delivered to, every other packet is answered with its own 40-byte reset, and a
   sweep sends nothing.
   */
  method Serve(table: SessionTable, clock: SystemClock, host: Host, requests: seq<Request>)
    returns (replies: seq<Reply>, ghost es: seq<Event>)
    requires table.Valid() && clock !in table.Repr
    requires forall i | 0 <= i < |requests| :: RequestOk(requests[i])
    modifies table.Repr, clock
    ensures table.Valid() && fresh(table.Repr - old(table.Repr)) && old(table.sessions) <= table.sessions
    ensures |es| == |requests| == |replies|
    ensures WellFormed(old(table.st)) && IsRun(host, old(table.st), old(clock.now), es)
    ensures table.st == At(host, old(table.st), es, |es|)
    ensures Clock(old(clock.now), es, |es|) <= clock.now
    ensures forall i | 0 <= i < |es| :: Carries(es[i], requests[i])
    ensures forall i | 0 <= i < |es| :: Replied(host, requests[i], OutcomeOf(host, old(table.st), es, i), replies[i])
  {
    hide SessionTable.Valid, WellFormed, Step, At, IsRun, OutcomeOf, RequestOk, Carries, ReplyOf, Admissible;
    table.Sizes();
    ghost var t, now := table.st, clock.now;
    replies, es := [], [];
    RunStart(host, t, now);
    for i := 0 to |requests|
      invariant table.Valid() && fresh(table.Repr - old(table.Repr)) && clock !in table.Repr
      invariant old(table.sessions) <= table.sessions
      invariant |es| == |replies| == i && WellFormed(t) && IsRun(host, t, now, es)
      invariant table.st == At(host, t, es, |es|) && Clock(now, es, |es|) <= clock.now
      invariant forall j | 0 <= j < i :: Carries(es[j], requests[j])
      invariant forall j | 0 <= j < i :: replies[j] == ReplyOf(OutcomeOf(host, t, es, j))
    {
      var reply;
      ghost var e;
      reply, e := Handle(table, clock, host, requests[i]);
      RunSnoc(host, t, now, es, e);
      replies, es := replies + [reply], es + [e];
    }
    hide Replied;
    forall i | 0 <= i < |es|
      ensures Replied(host, requests[i], OutcomeOf(host, t, es, i), replies[i])
    {
      RunReplied(host, t, now, es, i, requests[i]);
    }
  }

  lemma RunReplied(host: Host, t: Table, now: int, es: seq<Event>, i: nat, q: Request)
    requires WellFormed(t) && IsRun(host, t, now, es) && i < |es| && Carries(es[i], q) && RequestOk(q)
    ensures Replied(host, q, OutcomeOf(host, t, es, i), ReplyOf(OutcomeOf(host, t, es, i)))
  {
    hide WellFormed, Step, At, Reset, Chronological, ReadingsOk, Validates, FullHeaders;
    NextTable(host, t, es, i);
    OutcomeKind(host, At(host, t, es, i), es[i]);
  }

  lemma RunStart(host: Host, t: Table, now: int)
    requires WellFormed(t)
    ensures IsRun(host, t, now, []) && At(host, t, [], 0) == t
  {
  }
}
