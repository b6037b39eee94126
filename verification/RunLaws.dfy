/** What one event does, and what every run keeps. */
module RunLaws {
  import opened Bytes
  import opened Headers
  import opened Sessions
  import opened TableLaws
  import opened Flags
  import opened Translation

  /** The session as it was created. */
  function Fresh(s: Session): Session {
    NewSession(s.clientIp, s.clientPort, s.serverPort, s.expire)
  }

  function Touched(s: Session, p: Option<Packet>): (r: Session)
    ensures SameIdentity(s, r)
  {
    if p.Some? then Touch(s, p.value) else s
  }

  // ----- the cases of one event -----

  lemma StepInvalid(host: Host, t: Table, e: Event)
    requires WellFormed(t) && (e.ClientPacket? || e.WorldPacket?) && Start(e) <= Finish(e)
    requires PacketOk(e.buf, e.len) && !Validates(e.buf, e.len)
    ensures Step(host, t, e) == Result(t, Refused(Reset(e.buf, host), RESET_LEN))
  {
    hide IndexOk, PortsOk, Shape, Locate, Rewrite, Reset, HeaderOf, Find;
  }

  lemma StepClient(host: Host, t: Table, e: Event, a: Added)
    requires WellFormed(t) && e.ClientPacket? && Start(e) <= Finish(e)
    requires PacketOk(e.buf, e.len) && Validates(e.buf, e.len) && Framed(e.buf)
    requires a == Locate(t, HeaderOf(e.buf).syn, Addr(e.buf, Source), Port(e.buf, Source), e.added)
    requires a.id.Some? ==> a.id.value < |a.table.store|
    ensures Step(host, t, e) ==
            if a.id.None? || e.checked > a.table.store[a.id.value].expire
            then Result(a.table, Refused(Reset(e.buf, host), RESET_LEN))
            else Result(Update(a.table, a.id.value, ClientFlags(a.table.store[a.id.value], HeaderOf(e.buf))),
                        Forwarded(Rewrite(e.buf, Source, e.serverIp, a.table.store[a.id.value].serverPort), a.id.value))
  {
    hide IndexOk, PortsOk, Shape, Locate, Rewrite, Reset, HeaderOf, Validates, ClientFlags, Find;
  }

  lemma StepWorld(host: Host, t: Table, e: Event, id: Option<nat>)
    requires WellFormed(t) && e.WorldPacket?
    requires PacketOk(e.buf, e.len) && Validates(e.buf, e.len) && Framed(e.buf)
    requires id == Find(t, ServerKey(Port(e.buf, Destination)))
    requires id.Some? ==> id.value < |t.store|
    ensures Step(host, t, e) ==
            if id.None? || e.checked > t.store[id.value].expire then Result(t, Refused(Reset(e.buf, host), RESET_LEN))
            else Result(Update(t, id.value, WorldFlags(t.store[id.value], HeaderOf(e.buf))),
                        Delivered(Rewrite(e.buf, Destination, t.store[id.value].clientIp, t.store[id.value].clientPort),
                                  id.value, t.store[id.value].clientIp))
  {
    hide IndexOk, PortsOk, Shape, Rewrite, Reset, HeaderOf, Validates, WorldFlags, Find;
  }

  /** The outcomes that each kind of event can have; whatever is not sent on is answered with its own reset. */
  lemma OutcomeKind(host: Host, t: Table, e: Event)
    requires WellFormed(t) && Admissible(t, e) && Start(e) <= Finish(e)
    ensures var o := Step(host, t, e).outcome;
            match e
            case ClientPacket(b, n, _, _, _) => o.Forwarded? || (PacketOk(b, n) && o == Refused(Reset(b, host), 40))
            case WorldPacket(b, n, _) => o.Delivered? || (PacketOk(b, n) && o == Refused(Reset(b, host), 40))
            case Sweeping(_, _, _, _) => o.Silent?
  {
    hide IndexOk, PortsOk, Shape, Locate, Rewrite, Reset, HeaderOf, Validates, ClientFlags, WorldFlags, Find, SweepIndex, ReadingsOk;
  }

  // ----- one event -----

  lemma LocateStore(t: Table, syn: bool, ip: uint32, port: uint16, time: int)
    requires WellFormed(t)
    ensures var r := Locate(t, syn, ip, port, time);
            || r.table.store == t.store
            || (&& syn && r.id == Some(|t.store|) && |r.table.store| == |t.store| + 1 && t.store <= r.table.store
                && var s := r.table.store[|t.store|]; s == Fresh(s) && s.expire == time + TIMEOUT)
  {
  }

  lemma LocateInv(t: Table, syn: bool, ip: uint32, port: uint16, time: int, now: int)
    requires Inv(t, now)
    ensures Inv(Locate(t, syn, ip, port, time).table, now)
  {
    hide IndexOk, PortsOk, Find, Probe, Covered, Add;
    AddInv(t, ip, port, TIMEOUT, time, now);
  }

  /** What an event does to the store, told session by session. */
  ghost predicate StoreStep(t: Table, e: Event, r: Result, id: nat) {
    && |t.store| <= |r.table.store| <= |t.store| + 1
    && (id < |t.store| ==> r.table.store[id] == Touched(t.store[id], Accepted(r.outcome, e, id)))
    && (id == |t.store| < |r.table.store| ==> Created(r.table.store[id], e, Accepted(r.outcome, e, id)))
    && (id >= |r.table.store| ==> Accepted(r.outcome, e, id).None?)
    && (Accepted(r.outcome, e, id).Some? ==> id < |r.table.store| && Finish(e) <= r.table.store[id].expire)
  }

  /** Sessions are created only by client SYN packets, with a deadline fixed then. */
  ghost predicate Created(s: Session, e: Event, p: Option<Packet>) {
    && e.ClientPacket? && Framed(e.buf) && HeaderOf(e.buf).syn
    && s == Touched(Fresh(s), p) && s.expire == e.added + TIMEOUT
    && (if p.Some? then p.value == FromClient(HeaderOf(e.buf)) else s.expire < Finish(e))
  }

  lemma ClientStore(host: Host, t: Table, e: Event, id: nat)
    requires WellFormed(t) && e.ClientPacket? && PacketOk(e.buf, e.len)
    ensures StoreStep(t, e, HandleClient(host, t, e.buf, e.len, e.serverIp, e.added, e.checked), id)
  {
    hide IndexOk, PortsOk, Locate, Reset, Rewrite, HeaderOf, Validates, ClientFlags;
    if Validates(e.buf, e.len) {
      ValidatedIsFramed(e.buf, e.len);
      var h := HeaderOf(e.buf);
      LocateStore(t, h.syn, Addr(e.buf, Source), Port(e.buf, Source), e.added);
      var a := Locate(t, h.syn, Addr(e.buf, Source), Port(e.buf, Source), e.added);
      if a.id.Some? {
        assert SameIdentity(a.table.store[a.id.value], Touch(a.table.store[a.id.value], FromClient(h)));
      }
    }
  }

  lemma WorldStore(host: Host, t: Table, e: Event, id: nat)
    requires WellFormed(t) && e.WorldPacket? && PacketOk(e.buf, e.len)
    ensures StoreStep(t, e, HandleWorld(host, t, e.buf, e.len, e.checked), id)
  {
    hide IndexOk, PortsOk, Find, Reset, Rewrite, HeaderOf, Validates, WorldFlags;
    if Validates(e.buf, e.len) {
      ValidatedIsFramed(e.buf, e.len);
    }
  }

  lemma StepStore(host: Host, t: Table, e: Event, id: nat)
    requires WellFormed(t)
    ensures StoreStep(t, e, Step(host, t, e), id)
  {
    hide IndexOk, PortsOk, HandleClient, HandleWorld, SweepIndex, PacketOk, ReadingsOk, Touch, Created, Framed;
    if Admissible(t, e) {
      match e
      case ClientPacket(_, _, _, _, _) => ClientStore(host, t, e, id);
      case WorldPacket(_, _, _) => WorldStore(host, t, e, id);
      case Sweeping(_, _, _, _) =>
    }
  }

  lemma ClientInv(host: Host, t: Table, e: Event, now: int)
    requires Inv(t, now) && e.ClientPacket? && PacketOk(e.buf, e.len)
    ensures Inv(HandleClient(host, t, e.buf, e.len, e.serverIp, e.added, e.checked).table, now)
  {
    hide IndexOk, PortsOk, Covered, Locate, Reset, Rewrite, HeaderOf, Validates, ClientFlags;
    if Validates(e.buf, e.len) {
      ValidatedIsFramed(e.buf, e.len);
      var h := HeaderOf(e.buf);
      var a := Locate(t, h.syn, Addr(e.buf, Source), Port(e.buf, Source), e.added);
      LocateInv(t, h.syn, Addr(e.buf, Source), Port(e.buf, Source), e.added, now);
      if a.id.Some? {
        var s := a.table.store[a.id.value];
        assert SameIdentity(s, Touch(s, FromClient(h)));
        UpdateInv(a.table, a.id.value, ClientFlags(s, h), now);
      }
    }
  }

  lemma WorldInv(host: Host, t: Table, e: Event, now: int)
    requires Inv(t, now) && e.WorldPacket? && PacketOk(e.buf, e.len)
    ensures Inv(HandleWorld(host, t, e.buf, e.len, e.checked).table, now)
  {
    hide IndexOk, PortsOk, Covered, Find, Reset, Rewrite, HeaderOf, Validates, WorldFlags;
    if Validates(e.buf, e.len) {
      ValidatedIsFramed(e.buf, e.len);
      var h, id := HeaderOf(e.buf), Find(t, ServerKey(Port(e.buf, Destination)));
      if id.Some? {
        var s := t.store[id.value];
        assert SameIdentity(s, Touch(s, FromWorld(h)));
        UpdateInv(t, id.value, WorldFlags(s, h), now);
      }
    }
  }

  lemma StepInv(host: Host, t: Table, e: Event, now: int)
    requires Inv(t, now) && Admissible(t, e) && now <= Start(e) <= Finish(e)
    ensures Inv(Step(host, t, e).table, Finish(e))
  {
    hide IndexOk, PortsOk, HandleClient, HandleWorld, SweepIndex, PacketOk, ReadingsOk;
    match e
    case ClientPacket(_, _, _, _, _) =>
      ClientInv(host, t, e, now);
      ClockInv(Step(host, t, e).table, now, Finish(e));
    case WorldPacket(_, _, _) =>
      WorldInv(host, t, e, now);
      ClockInv(Step(host, t, e).table, now, Finish(e));
    case Sweeping(from, to, client, server) =>
      ClockInv(t, now, from);
      SweepInv(t, client, server, from, to);
  }

  // ----- every run -----

  lemma NextTable(host: Host, t: Table, es: seq<Event>, n: nat)
    requires WellFormed(t) && n < |es|
    ensures At(host, t, es, n + 1) == Step(host, At(host, t, es, n), es[n]).table
    ensures OutcomeOf(host, t, es, n) == Step(host, At(host, t, es, n), es[n]).outcome
  {
  }

  lemma RunTimes(host: Host, t: Table, now: int, es: seq<Event>, n: nat)
    requires WellFormed(t) && IsRun(host, t, now, es) && n < |es|
    ensures Clock(now, es, n) <= Start(es[n]) <= Finish(es[n]) == Clock(now, es, n + 1)
  {
  }

  lemma {:induction false} AtPrefix(host: Host, t: Table, es: seq<Event>, e: Event, n: nat)
    requires WellFormed(t) && n <= |es|
    ensures At(host, t, es + [e], n) == At(host, t, es, n)
  {
    hide Step, IndexOk, PortsOk, Shape;
    if n > 0 {
      AtPrefix(host, t, es, e, n - 1);
    }
  }

  /** A run may be continued by any event that can happen where it ends. */
  lemma RunSnoc(host: Host, t: Table, now: int, es: seq<Event>, e: Event)
    requires WellFormed(t) && IsRun(host, t, now, es)
    requires Admissible(At(host, t, es, |es|), e) && Clock(now, es, |es|) <= Start(e) <= Finish(e)
    ensures IsRun(host, t, now, es + [e])
    ensures At(host, t, es + [e], |es| + 1) == Step(host, At(host, t, es, |es|), e).table
    ensures OutcomeOf(host, t, es + [e], |es|) == Step(host, At(host, t, es, |es|), e).outcome
    ensures forall i | 0 <= i < |es| :: OutcomeOf(host, t, es + [e], i) == OutcomeOf(host, t, es, i)
  {
    hide Step, IndexOk, PortsOk, Shape, At, Admissible;
    NextTable(host, t, es + [e], |es|);
    forall n | 0 <= n <= |es|
      ensures At(host, t, es + [e], n) == At(host, t, es, n)
    {
      AtPrefix(host, t, es, e, n);
    }
    forall n | 0 <= n < |es|
      ensures Clock(now, es + [e], n) == Clock(now, es, n) && (es + [e])[n] == es[n]
    {
    }
  }

  /**
   The invariant of every run, with a clock that may move on inside a sweep:
   right buckets, distinct keys, distinct ports, and every unexpired session in
   both indexes.
   */
  lemma {:induction false} RunInv(host: Host, t: Table, now: int, es: seq<Event>, n: nat)
    requires Inv(t, now) && IsRun(host, t, now, es) && n <= |es|
    ensures Inv(At(host, t, es, n), Clock(now, es, n))
  {
    hide IndexOk, PortsOk, Covered, Step, Admissible;
    if n > 0 {
      RunInv(host, t, now, es, n - 1);
      StepInv(host, At(host, t, es, n - 1), es[n - 1], Clock(now, es, n - 1));
    }
  }

  /** Index agreement under a moving clock, spelled out for two sessions of a run. */
  lemma RunIndexesAgree(host: Host, t: Table, now: int, es: seq<Event>, n: nat, a: nat)
    requires Inv(t, now) && IsRun(host, t, now, es) && n <= |es|
    requires a < |At(host, t, es, n).store| && Clock(now, es, n) <= At(host, t, es, n).store[a].expire
    ensures Held(At(host, t, es, n), ByClient, a) && Held(At(host, t, es, n), ByServer, a)
    ensures forall x: Side :: Find(At(host, t, es, n), KeyOf(x, At(host, t, es, n).store[a])) == Some(a)
    ensures forall b: nat | b < |At(host, t, es, n).store| && b != a
                            && Clock(now, es, n) <= At(host, t, es, n).store[b].expire ::
              && At(host, t, es, n).store[a].serverPort != At(host, t, es, n).store[b].serverPort
              && KeyOf(ByClient, At(host, t, es, n).store[a]) != KeyOf(ByClient, At(host, t, es, n).store[b])
  {
    hide At, IsRun, Find, Held, IndexOk, Covered, PortsOk, Clock;
    var r, c := At(host, t, es, n), Clock(now, es, n);
    RunInv(host, t, now, es, n);
    UnexpiredFound(r, c, a);
    forall b: nat | b < |r.store| && b != a && c <= r.store[b].expire
      ensures r.store[a].serverPort != r.store[b].serverPort
      ensures KeyOf(ByClient, r.store[a]) != KeyOf(ByClient, r.store[b])
    {
      UnexpiredDistinct(r, c, a, b);
      assert KeyOf(ByServer, r.store[a]) != KeyOf(ByServer, r.store[b]);
    }
  }

  /** A session never changes ends, port or deadline. */
  lemma {:induction false} IdentityKept(host: Host, t: Table, es: seq<Event>, m: nat, n: nat, id: nat)
    requires WellFormed(t) && m <= n <= |es| && id < |At(host, t, es, m).store|
    ensures id < |At(host, t, es, n).store|
    ensures SameIdentity(At(host, t, es, m).store[id], At(host, t, es, n).store[id])
  {
    hide Step, WellFormed, Touched, Accepted;
    if m < n {
      IdentityKept(host, t, es, m, n - 1, id);
      StepStore(host, At(host, t, es, n - 1), es[n - 1], id);
    }
  }

  /** The clock of a run never runs backwards. */
  lemma {:induction false} ClockMonotone(host: Host, t: Table, now: int, es: seq<Event>, m: nat, n: nat)
    requires WellFormed(t) && IsRun(host, t, now, es) && m <= n <= |es|
    ensures Clock(now, es, m) <= Clock(now, es, n)
  {
    hide Step, WellFormed, Admissible;
    if m < n {
      ClockMonotone(host, t, now, es, m, n - 1);
      assert Clock(now, es, n - 1) <= Start(es[n - 1]);
    }
  }

  // ----- projection onto one session -----

  /** No packet is accepted for a session that does not exist. */
  lemma {:induction false} NoTouches(host: Host, t: Table, es: seq<Event>, id: nat, n: nat)
    requires WellFormed(t) && n <= |es| && id >= |At(host, t, es, n).store|
    ensures Touches(host, t, es, id, n) == []
  {
    hide Step, WellFormed, Touched, Accepted, Created;
    if n > 0 {
      StepStore(host, At(host, t, es, n - 1), es[n - 1], id);
      NoTouches(host, t, es, id, n - 1);
    }
  }

  /** How a session of the start state, or one created on the way, looks before its first packet. */
  ghost function Origin(host: Host, t: Table, es: seq<Event>, id: nat, n: nat): Session
    requires WellFormed(t) && n <= |es| && id < |At(host, t, es, n).store|
  {
    if id < |t.store| then t.store[id] else Fresh(At(host, t, es, n).store[id])
  }

  /** The first event of a session: it is fresh, and either touched by the SYN that created it or already expired. */
  lemma ProjectionStart(host: Host, t: Table, es: seq<Event>, id: nat, n: nat)
    requires WellFormed(t) && n < |es| && |At(host, t, es, n).store| <= id < |At(host, t, es, n + 1).store|
    ensures var s, ps := At(host, t, es, n + 1).store[id], Touches(host, t, es, id, n + 1);
            && s == Trace(Fresh(s), ps)
            && if ps == [] then s.expire < Finish(es[n]) else ps[0].FromClient? && ps[0].h.syn
  {
    hide Step, IndexOk, PortsOk, Shape, Touch, Accepted, HeaderOf, Framed;
    var p := Accepted(OutcomeOf(host, t, es, n), es[n], id);
    StepStore(host, At(host, t, es, n), es[n], id);
    NoTouches(host, t, es, id, n);
    var s := At(host, t, es, n + 1).store[id];
    if p.Some? {
      assert Touches(host, t, es, id, n + 1) == [p.value];
      TraceOne(Fresh(s), p.value);
    } else {
      assert Touches(host, t, es, id, n + 1) == [];
    }
  }

  /** One more event: the trace of an existing session grows by the packet accepted for it, if any. */
  lemma ProjectionStep(host: Host, t: Table, es: seq<Event>, id: nat, n: nat, s: Session)
    requires WellFormed(t) && n < |es| && id < |At(host, t, es, n).store|
    requires At(host, t, es, n).store[id] == Trace(s, Touches(host, t, es, id, n))
    ensures id < |At(host, t, es, n + 1).store|
    ensures At(host, t, es, n + 1).store[id] == Trace(s, Touches(host, t, es, id, n + 1))
    ensures Touches(host, t, es, id, n) <= Touches(host, t, es, id, n + 1)
    ensures Touches(host, t, es, id, n + 1) != Touches(host, t, es, id, n) ==>
              Finish(es[n]) <= At(host, t, es, n + 1).store[id].expire
  {
    hide Step, IndexOk, PortsOk, Shape, Touch, Accepted, HeaderOf, Framed;
    var before, p := Touches(host, t, es, id, n), Accepted(OutcomeOf(host, t, es, n), es[n], id);
    StepStore(host, At(host, t, es, n), es[n], id);
    if p.Some? {
      assert (before + [p.value])[..|before|] == before;
    } else {
      assert Touches(host, t, es, id, n + 1) == before;
    }
  }

  /**
   In any run each session goes through exactly the trace of the packets accepted
   for it; a session created in the run starts fresh, and its first accepted
   packet is a client SYN.
   */
  lemma {:induction false} Projection(host: Host, t: Table, now: int, es: seq<Event>, id: nat, n: nat)
    requires WellFormed(t) && IsRun(host, t, now, es) && n <= |es| && id < |At(host, t, es, n).store|
    ensures At(host, t, es, n).store[id] == Trace(Origin(host, t, es, id, n), Touches(host, t, es, id, n))
    ensures id >= |t.store| ==>
              var ps := Touches(host, t, es, id, n);
              if ps == [] then At(host, t, es, n).store[id].expire < Clock(now, es, n)
              else ps[0].FromClient? && ps[0].h.syn
  {
    hide IndexOk, PortsOk, Shape, Trace, Touches, At, IsRun;
    ProjectionNone(host, t, es, id);
    if n > 0 {
      RunTimes(host, t, now, es, n - 1);
      if id < |At(host, t, es, n - 1).store| {
        Projection(host, t, now, es, id, n - 1);
        ProjectionStep(host, t, es, id, n - 1, Origin(host, t, es, id, n - 1));
        IdentityKept(host, t, es, n - 1, n, id);
      } else {
        if id < |t.store| {
          IdentityKept(host, t, es, 0, n - 1, id);
        }
        ProjectionStart(host, t, es, id, n - 1);
      }
    }
  }

  lemma ProjectionNone(host: Host, t: Table, es: seq<Event>, id: nat)
    requires WellFormed(t)
    ensures Touches(host, t, es, id, 0) == [] && At(host, t, es, 0) == t
    ensures id < |t.store| ==> Trace(t.store[id], []) == t.store[id]
  {
  }
}
