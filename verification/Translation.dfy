/**
 The address translator as a state machine over packets. A run is any sequence of
 client packets, world packets and sweeps, each with its own clock readings.
 */
module Translation {
  import opened Bytes
  import opened Headers
  import opened Sessions
  import opened TableLaws
  import opened Flags

  /** Seconds after which a session created by a client SYN expires. */
  const TIMEOUT := 10

  datatype Event =
    | ClientPacket(buf: seq<byte>, len: nat, serverIp: uint32, added: int, checked: int)
    | WorldPacket(buf: seq<byte>, len: nat, checked: int)
    | Sweeping(from: int, to: int, client: seq<seq<int>>, server: seq<seq<int>>)

  datatype Outcome =
    | Forwarded(buf: seq<byte>, id: nat)
    | Delivered(buf: seq<byte>, id: nat, clientIp: uint32)
    | Refused(buf: seq<byte>, size: nat)
    | Silent

  datatype Result = Result(table: Table, outcome: Outcome)

  // ----- packets -----

  /** Room for a reset, and a packet that validates has no truncated header. */
  predicate PacketOk(b: seq<byte>, n: nat) {
    && |b| >= RESET_LEN && n <= |b|
    && (Validates(b, n) ==> FullHeaders(b))
  }

  function HeaderOf(b: seq<byte>): (h: Header)
    requires Framed(b)
  {
    var tcp := HeaderLen(b);
    var flags := b[tcp + 13] as int;
    Header(flags / 2 % 2 == 1, flags / 16 % 2 == 1, flags % 2 == 1, Get32(b, tcp + 4), Get32(b, tcp + 8))
  }

  // ----- one packet -----

  /** The session of a client packet: a SYN may create it. */
  ghost function Locate(t: Table, syn: bool, ip: uint32, port: uint16, time: int): (r: Added)
    requires WellFormed(t)
    ensures WellFormed(r.table) && t.store <= r.table.store
    ensures r.id.Some? ==> r.id.value < |r.table.store|
                           && KeyOf(ByClient, r.table.store[r.id.value]) == ClientKey(ip, port)
  {
    hide IndexOk, PortsOk, Probe;
    if syn then
      AddInv(t, ip, port, TIMEOUT, time, 0);
      Add(t, ip, port, TIMEOUT, time)
    else Added(t, Find(t, ClientKey(ip, port)))
  }

  ghost function HandleClient(host: Host, t: Table, b: seq<byte>, n: nat, serverIp: uint32, added: int, checked: int): (r: Result)
    requires WellFormed(t) && PacketOk(b, n)
    ensures WellFormed(r.table) && (r.outcome.Forwarded? || r.outcome.Delivered? ==> r.outcome.id < |r.table.store|)
  {
    hide IndexOk, PortsOk, Locate, ClientFlags, Rewrite, Reset;
    if !Validates(b, n) then Result(t, Refused(Reset(b, host), RESET_LEN))
    else
      var h := HeaderOf(b);
      var a := Locate(t, h.syn, Addr(b, Source), Port(b, Source), added);
      if a.id.None? || checked > a.table.store[a.id.value].expire then
        Result(a.table, Refused(Reset(b, host), RESET_LEN))
      else
        var s := a.table.store[a.id.value];
        assert SameIdentity(s, Touch(s, FromClient(h)));
        UpdateInv(a.table, a.id.value, ClientFlags(s, h), 0);
        Result(Update(a.table, a.id.value, ClientFlags(s, h)),
               Forwarded(Rewrite(b, Source, serverIp, s.serverPort), a.id.value))
  }

  ghost function HandleWorld(host: Host, t: Table, b: seq<byte>, n: nat, checked: int): (r: Result)
    requires WellFormed(t) && PacketOk(b, n)
    ensures WellFormed(r.table) && (r.outcome.Forwarded? || r.outcome.Delivered? ==> r.outcome.id < |r.table.store|)
  {
    hide IndexOk, PortsOk, Find, WorldFlags, Rewrite, Reset;
    if !Validates(b, n) then Result(t, Refused(Reset(b, host), RESET_LEN))
    else
      var h := HeaderOf(b);
      var id := Find(t, ServerKey(Port(b, Destination)));
      if id.None? || checked > t.store[id.value].expire then Result(t, Refused(Reset(b, host), RESET_LEN))
      else
        var s := t.store[id.value];
        assert SameIdentity(s, Touch(s, FromWorld(h)));
        UpdateInv(t, id.value, WorldFlags(s, h), 0);
        Result(Update(t, id.value, WorldFlags(s, h)),
               Delivered(Rewrite(b, Destination, s.clientIp, s.clientPort), id.value, s.clientIp))
  }

  // ----- runs -----

  ghost predicate Admissible(t: Table, e: Event) {
    match e
    case ClientPacket(b, n, _, _, _) => PacketOk(b, n)
    case WorldPacket(b, n, _) => PacketOk(b, n)
    case Sweeping(from, to, client, server) =>
      ReadingsOk(t.clientIndex, client, from, to) && ReadingsOk(t.serverIndex, server, from, to)
  }

  function Start(e: Event): int {
    match e
    case ClientPacket(_, _, _, added, _) => added
    case WorldPacket(_, _, checked) => checked
    case Sweeping(from, _, _, _) => from
  }

  function Finish(e: Event): int {
    match e
    case ClientPacket(_, _, _, _, checked) => checked
    case WorldPacket(_, _, checked) => checked
    case Sweeping(_, to, _, _) => to
  }

  /** One event; one that cannot happen in this state has no effect. */
  ghost function Step(host: Host, t: Table, e: Event): (r: Result)
    requires WellFormed(t)
    ensures WellFormed(r.table) && (r.outcome.Forwarded? || r.outcome.Delivered? ==> r.outcome.id < |r.table.store|)
  {
    hide IndexOk, PortsOk, HandleClient, HandleWorld, SweepIndex;
    if !Admissible(t, e) || Finish(e) < Start(e) then Result(t, Silent)
    else match e
      case ClientPacket(b, n, ip, added, checked) => HandleClient(host, t, b, n, ip, added, checked)
      case WorldPacket(b, n, checked) => HandleWorld(host, t, b, n, checked)
      case Sweeping(from, to, client, server) =>
        SweepInv(t, client, server, from, to);
        Result(Sweep(t, client, server), Silent)
  }

  /** The table after the first `n` events. */
  ghost function At(host: Host, t: Table, es: seq<Event>, n: nat): (r: Table)
    requires WellFormed(t) && n <= |es|
    ensures WellFormed(r)
  {
    if n == 0 then t else Step(host, At(host, t, es, n - 1), es[n - 1]).table
  }

  ghost function OutcomeOf(host: Host, t: Table, es: seq<Event>, n: nat): (o: Outcome)
    requires WellFormed(t) && n < |es|
  {
    Step(host, At(host, t, es, n), es[n]).outcome
  }

  /** The clock before event `n` of a run that starts at time `now`. */
  function Clock(now: int, es: seq<Event>, n: nat): int
    requires n <= |es|
  {
    if n == 0 then now else Finish(es[n - 1])
  }

  /** Every event can happen where it stands, and the clock never runs backwards. */
  ghost predicate IsRun(host: Host, t: Table, now: int, es: seq<Event>)
    requires WellFormed(t)
  {
    forall n | 0 <= n < |es| ::
      Admissible(At(host, t, es, n), es[n]) && Clock(now, es, n) <= Start(es[n]) <= Finish(es[n])
  }

  // ----- the session that an event touches -----

  /** The packet of an event, if the event was accepted for session `id`. */
  function Accepted(o: Outcome, e: Event, id: nat): (p: Option<Packet>) {
    match o
    case Forwarded(_, i) =>
      if i == id && e.ClientPacket? && Framed(e.buf) then Some(FromClient(HeaderOf(e.buf))) else None
    case Delivered(_, i, _) =>
      if i == id && e.WorldPacket? && Framed(e.buf) then Some(FromWorld(HeaderOf(e.buf))) else None
    case _ => None
  }

  /** The packets accepted for session `id` among the first `n` events, in order. */
  ghost function Touches(host: Host, t: Table, es: seq<Event>, id: nat, n: nat): (ps: seq<Packet>)
    requires WellFormed(t) && n <= |es|
  {
    if n == 0 then []
    else
      var p := Accepted(OutcomeOf(host, t, es, n - 1), es[n - 1], id);
      Touches(host, t, es, id, n - 1) + if p.Some? then [p.value] else []
  }
}
