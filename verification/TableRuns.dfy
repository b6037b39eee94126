/** Every run of table operations, with any timeouts: the invariant and the refinement. */
module TableRuns {
  import opened Bytes
  import opened Sessions
  import opened TableLaws
  import opened Refinement

  datatype Op =
    | AddOp(ip: uint32, port: uint16, timeout: int, time: int)
    | SweepOp(from: int, to: int, client: seq<seq<int>>, server: seq<seq<int>>)
    | UpdateOp(id: nat, session: Session, time: int)

  ghost predicate Possible(t: Table, op: Op) {
    match op
    case AddOp(_, _, _, _) => true
    case SweepOp(from, to, client, server) =>
      from <= to && ReadingsOk(t.clientIndex, client, from, to) && ReadingsOk(t.serverIndex, server, from, to)
    case UpdateOp(id, s, _) => id < |t.store| && SameIdentity(t.store[id], s)
  }

  function Begin(op: Op): int {
    match op
    case AddOp(_, _, _, time) => time
    case SweepOp(from, _, _, _) => from
    case UpdateOp(_, _, time) => time
  }

  function End(op: Op): int {
    if op.SweepOp? then op.to else Begin(op)
  }

  ghost function Apply(t: Table, op: Op): (r: Table)
    requires WellFormed(t)
    ensures WellFormed(r)
  {
    hide IndexOk, PortsOk, SweepIndex, Probe, Find;
    if !Possible(t, op) then t
    else match op
      case AddOp(ip, port, timeout, time) =>
        AddInv(t, ip, port, timeout, time, 0);
        Add(t, ip, port, timeout, time).table
      case SweepOp(from, to, client, server) =>
        SweepInv(t, client, server, from, to);
        Sweep(t, client, server)
      case UpdateOp(id, s, _) =>
        UpdateInv(t, id, s, 0);
        Update(t, id, s)
  }

  ghost function Reached(t: Table, ops: seq<Op>, n: nat): (r: Table)
    requires WellFormed(t) && n <= |ops|
    ensures WellFormed(r)
  {
    if n == 0 then t else Apply(Reached(t, ops, n - 1), ops[n - 1])
  }

  function Time(now: int, ops: seq<Op>, n: nat): int
    requires n <= |ops|
  {
    if n == 0 then now else End(ops[n - 1])
  }

  ghost predicate IsOpRun(t: Table, now: int, ops: seq<Op>)
    requires WellFormed(t)
  {
    forall n | 0 <= n < |ops| :: Possible(Reached(t, ops, n), ops[n]) && Time(now, ops, n) <= Begin(ops[n])
  }

  lemma ApplyInv(t: Table, op: Op, now: int)
    requires Inv(t, now) && Possible(t, op) && now <= Begin(op)
    ensures Inv(Apply(t, op), End(op))
  {
    hide IndexOk, PortsOk, SweepIndex, Probe, Find, ReadingsOk;
    match op
    case AddOp(ip, port, timeout, time) =>
      AddInv(t, ip, port, timeout, time, now);
      ClockInv(Apply(t, op), now, End(op));
    case SweepOp(from, to, client, server) =>
      ClockInv(t, now, from);
      SweepInv(t, client, server, from, to);
    case UpdateOp(id, s, _) =>
      UpdateInv(t, id, s, now);
      ClockInv(Apply(t, op), now, End(op));
  }

  /** Right buckets, distinct keys and ports, and unexpired sessions in both indexes, in every run. */
  lemma {:induction false} OpRunInv(t: Table, now: int, ops: seq<Op>, n: nat)
    requires Inv(t, now) && IsOpRun(t, now, ops) && n <= |ops|
    ensures Inv(Reached(t, ops, n), Time(now, ops, n))
  {
    hide Apply, IndexOk, PortsOk, Covered, Possible;
    if n > 0 {
      OpRunInv(t, now, ops, n - 1);
      ApplyInv(Reached(t, ops, n - 1), ops[n - 1], Time(now, ops, n - 1));
    }
  }

  /** One step of the refinement when a sweep sees a single clock value. */
  lemma ApplyRefines(t: Table, op: Op)
    requires WellFormed(t) && Agree(t) && (op.SweepOp? ==> op.from == op.to)
    ensures Agree(Apply(t, op))
    ensures op.UpdateOp? ==> Mapping(Apply(t, op)) == Mapping(t)
  {
    hide IndexOk, PortsOk, SweepIndex, Probe, Find, Mapping, Held, ReadingsOk;
    if Possible(t, op) {
      match op
      case AddOp(ip, port, timeout, time) => AddRefines(t, ip, port, timeout, time);
      case SweepOp(from, to, client, server) => SweepRefines(t, client, server, from);
      case UpdateOp(id, s, _) =>
        UpdateInv(t, id, s, 0);
        UpdatedMapping(t, id, s);
    }
  }

  lemma UpdatedMapping(t: Table, id: nat, s: Session)
    requires WellFormed(t) && id < |t.store| && SameIdentity(t.store[id], s)
    ensures WellFormed(Update(t, id, s)) && Mapping(Update(t, id, s)) == Mapping(t)
  {
    hide IndexOk, PortsOk, Find, Mapping, Held;
    var r := Update(t, id, s);
    UpdateInv(t, id, s, 0);
    forall k | k in Mapping(t)
      ensures k in Mapping(r) && Mapping(r)[k] == Mapping(t)[k]
    {
      var i := MappedHeld(t, k);
      HeldMapped(r, i);
    }
    forall k | k in Mapping(r)
      ensures k in Mapping(t)
    {
      var i := MappedHeld(r, k);
      HeldMapped(t, i);
    }
  }

  lemma {:induction false} OpRunAgree(t: Table, ops: seq<Op>, n: nat)
    requires WellFormed(t) && Agree(t) && n <= |ops|
    requires forall i | 0 <= i < n :: ops[i].SweepOp? ==> ops[i].from == ops[i].to
    ensures Agree(Reached(t, ops, n))
  {
    hide Apply, IndexOk, PortsOk, Agree;
    if n > 0 {
      OpRunAgree(t, ops, n - 1);
      ApplyRefines(Reached(t, ops, n - 1), ops[n - 1]);
    }
  }

  /** A bucket search with key `k` is lookup in the mapping, or in its inverse for a server port. */
  ghost predicate LooksUp(t: Table, k: Key)
    requires WellFormed(t)
  {
    var m, r := Mapping(t), Find(t, k);
    && (r.Some? <==> if k.ClientKey? then k in m else k.port in m.Values)
    && (r.Some? ==>
          var s := t.store[r.value];
          KeyOf(SideOf(k), s) == k && KeyOf(ByClient, s) in m && m[KeyOf(ByClient, s)] == s.serverPort)
  }

  /**
   Refinement: from the empty table, with one clock value per sweep, after every
   operation the two arrays hold the same sessions and represent one bijection
   between client keys and at most `modNum` ports of the range; a search of the
   client array is lookup in it and a search of the server array is lookup in its
   inverse.
   */
  lemma AlwaysBijection(len: nat, minPort: uint16, maxPort: uint16, ops: seq<Op>, n: nat)
    requires len > 0 && minPort <= maxPort && maxPort - minPort < 0xffff && n <= |ops|
    requires forall i | 0 <= i < n :: ops[i].SweepOp? ==> ops[i].from == ops[i].to
    ensures var t := EmptyTable(len, minPort, maxPort);
            WellFormed(t) && var m := Mapping(Reached(t, ops, n));
            && Agree(Reached(t, ops, n))
            && Injective(m) && |m| <= maxPort - minPort + 1
            && (forall k | k in m :: k.ClientKey? && minPort <= m[k] <= maxPort)
            && (forall ip, port :: LooksUp(Reached(t, ops, n), ClientKey(ip, port)))
            && (forall p :: LooksUp(Reached(t, ops, n), ServerKey(p)))
  {
    hide Reached, IndexOk, PortsOk, Agree, Mapping, Find;
    var t := EmptyTable(len, minPort, maxPort);
    EmptyMapping(len, minPort, maxPort);
    OpRunAgree(t, ops, n);
    SameRange(t, ops, n);
    MappingInjective(Reached(t, ops, n));
    MappingSize(Reached(t, ops, n));
    forall ip: uint32, port: uint16
      ensures LooksUp(Reached(t, ops, n), ClientKey(ip, port))
    {
      GetByClient(Reached(t, ops, n), ip, port);
    }
    forall p: uint16
      ensures LooksUp(Reached(t, ops, n), ServerKey(p))
    {
      GetByServer(Reached(t, ops, n), p);
    }
  }

  lemma {:induction false} SameRange(t: Table, ops: seq<Op>, n: nat)
    requires WellFormed(t) && n <= |ops|
    ensures Reached(t, ops, n).modNum == t.modNum && Reached(t, ops, n).minPort == t.minPort
  {
    hide IndexOk, PortsOk, SweepIndex, Probe, Find, ReadingsOk;
    if n > 0 {
      SameRange(t, ops, n - 1);
    }
  }
}
