/** How far apart two allocations of the same port are, in every run. */
module PortReuse {
  import opened Bytes
  import opened Headers
  import opened Sessions
  import opened Allocation
  import opened Flags
  import opened Translation

  /** The counter went from `a` to `b` by `k + 1` probes, whose ports were in use, the last one perhaps handed out. */
  ghost predicate Probes(t: Table, r: Table, k: nat)
    requires WellFormed(t)
  {
    && k <= t.modNum && r.nextNum == Counter(t.nextNum, k + 1)
    && (forall d | 0 <= d < k :: InUse(t, ProbePort(t, Counter(t.nextNum, d))))
    && (if |r.store| == |t.store| + 1 then r.store[|t.store|].serverPort == ProbePort(t, Counter(t.nextNum, k))
        else |r.store| == |t.store| && InUse(t, ProbePort(t, Counter(t.nextNum, k))))
  }

  lemma LocateProbes(t: Table, syn: bool, ip: uint32, port: uint16, time: int) returns (k: nat)
    requires WellFormed(t)
    ensures var r := Locate(t, syn, ip, port, time).table;
            && r.modNum == t.modNum && r.minPort == t.minPort
            && (r == t || Probes(t, r, k))
  {
    hide IndexOk, PortsOk, Find, Probe, InUse, Counter, ProbePort;
    k := ProbeStop(t, t.nextNum, 0);
  }

  /** Sessions keep their ports under an update, so an event probes what its search probes. */
  lemma StepProbes(host: Host, t: Table, e: Event) returns (k: nat)
    requires WellFormed(t)
    ensures var r := Step(host, t, e).table;
            && r.modNum == t.modNum && r.minPort == t.minPort
            && ((r.nextNum == t.nextNum && |r.store| == |t.store|) || Probes(t, r, k))
  {
    hide IndexOk, PortsOk, Find, Locate, InUse, Counter, ProbePort, Reset, Rewrite, HeaderOf, Validates, ClientFlags, WorldFlags, SweepIndex, ReadingsOk;
    k := 0;
    if e.ClientPacket? && PacketOk(e.buf, e.len) && Validates(e.buf, e.len) {
      ValidatedIsFramed(e.buf, e.len);
      var h := HeaderOf(e.buf);
      k := LocateProbes(t, h.syn, Addr(e.buf, Source), Port(e.buf, Source), e.added);
      var a := Locate(t, h.syn, Addr(e.buf, Source), Port(e.buf, Source), e.added);
      if a.id.Some? {
        assert SameIdentity(a.table.store[a.id.value], Touch(a.table.store[a.id.value], FromClient(h)));
      }
    }
  }

  /** Event `n` hands out port `p`. */
  ghost predicate Allocates(host: Host, t: Table, es: seq<Event>, n: nat, p: uint16)
    requires WellFormed(t) && n < |es|
  {
    var u, v := At(host, t, es, n), At(host, t, es, n + 1);
    |v.store| == |u.store| + 1 && v.store[|u.store|].serverPort == p
  }

  /** The port counter does not wrap between events `m` and `n`. */
  ghost predicate NoWrap(host: Host, t: Table, es: seq<Event>, m: nat, n: nat)
    requires WellFormed(t) && m <= n <= |es|
  {
    forall i | m <= i < n :: At(host, t, es, i).nextNum <= At(host, t, es, i + 1).nextNum
  }

  lemma {:induction false} RangeKept(host: Host, t: Table, es: seq<Event>, n: nat)
    requires WellFormed(t) && n <= |es|
    ensures At(host, t, es, n).modNum == t.modNum && At(host, t, es, n).minPort == t.minPort
  {
    hide Step, IndexOk, PortsOk, Shape, InUse, Counter, ProbePort;
    if n > 0 {
      RangeKept(host, t, es, n - 1);
      var k := StepProbes(host, At(host, t, es, n - 1), es[n - 1]);
    }
  }

  lemma {:induction false} CounterMonotone(host: Host, t: Table, es: seq<Event>, m: nat, n: nat)
    requires WellFormed(t) && m <= n <= |es| && NoWrap(host, t, es, m, n)
    ensures At(host, t, es, m).nextNum <= At(host, t, es, n).nextNum
  {
    hide At, IndexOk, PortsOk, Shape;
    if m < n {
      CounterMonotone(host, t, es, m, n - 1);
    }
  }

  /** A step that does not wrap moves the counter through consecutive values. */
  lemma NoWrapStep(n: uint32, k: nat)
    requires k <= 0xffff && n <= Counter(n, k + 1)
    ensures Counter(n, k + 1) == n + k + 1 && forall d | 0 <= d <= k :: Counter(n, d) == n + d
  {
  }

  /** An allocation leaves the counter one past a value with the residue of its port. */
  lemma AllocationCounter(host: Host, t: Table, es: seq<Event>, n: nat, p: uint16)
    requires WellFormed(t) && n < |es| && Allocates(host, t, es, n, p) && NoWrap(host, t, es, n, n + 1)
    ensures At(host, t, es, n).nextNum < At(host, t, es, n + 1).nextNum
    ensures ProbePort(t, At(host, t, es, n + 1).nextNum - 1) == p
  {
    hide Step, IndexOk, PortsOk, InUse, Counter;
    var u := At(host, t, es, n);
    RangeKept(host, t, es, n);
    var k := StepProbes(host, u, es[n]);
    assert At(host, t, es, n + 1) == Step(host, u, es[n]).table;
    NoWrapStep(u.nextNum, k);
  }

  /** The event at which the counter passed a given value. */
  lemma {:induction false} PassedAt(host: Host, t: Table, es: seq<Event>, m: nat, n: nat, c: nat) returns (i: nat)
    requires WellFormed(t) && m <= n <= |es|
    requires At(host, t, es, m).nextNum <= c < At(host, t, es, n).nextNum
    ensures m <= i < n && At(host, t, es, i).nextNum <= c < At(host, t, es, i + 1).nextNum
    decreases n
  {
    hide At, IndexOk, PortsOk, Shape;
    if c < At(host, t, es, n - 1).nextNum {
      i := PassedAt(host, t, es, m, n - 1, c);
    } else {
      i := n - 1;
    }
  }

  /** A counter value that was passed is a port that was found in use or handed out. */
  lemma PassedPort(host: Host, t: Table, es: seq<Event>, i: nat, c: uint32)
    requires WellFormed(t) && i < |es|
    requires At(host, t, es, i).nextNum <= c < At(host, t, es, i + 1).nextNum
    ensures InUse(At(host, t, es, i), ProbePort(t, c)) || Allocates(host, t, es, i, ProbePort(t, c))
  {
    hide Step, IndexOk, PortsOk, InUse, Counter;
    var u := At(host, t, es, i);
    RangeKept(host, t, es, i);
    var k := StepProbes(host, u, es[i]);
    assert At(host, t, es, i + 1) == Step(host, u, es[i]).table;
    NoWrapStep(u.nextNum, k);
    var d := c - u.nextNum;
    assert Counter(u.nextNum, d) == c;
  }

  /**
   Reuse distance: between two allocations of the same port, with no wrap of the
   counter, it advances by at least the size of the range, and every port of the
   range was in the meantime found in use or handed out.
   */
  lemma ReuseDistance(host: Host, t: Table, es: seq<Event>, i: nat, j: nat, p: uint16)
    requires WellFormed(t) && i < j < |es| && NoWrap(host, t, es, i, j + 1)
    requires Allocates(host, t, es, i, p) && Allocates(host, t, es, j, p)
    ensures At(host, t, es, j + 1).nextNum - At(host, t, es, i + 1).nextNum >= t.modNum
    ensures forall q: uint16 | InRange(t, q) :: SeenBetween(host, t, es, i, j, q)
  {
    hide At, IndexOk, PortsOk, Allocates, SeenBetween;
    AllocationCounter(host, t, es, i, p);
    AllocationCounter(host, t, es, j, p);
    CounterMonotone(host, t, es, i + 1, j);
    var a, b := At(host, t, es, i + 1).nextNum, At(host, t, es, j + 1).nextNum;
    PortOfResidue(t, a - 1, p);
    PortOfResidue(t, b - 1, p);
    SameResidueApart(a - 1, b - 1, t.modNum);
    forall q: uint16 | InRange(t, q)
      ensures SeenBetween(host, t, es, i, j, q)
    {
      SeenAfter(host, t, es, i, j, q);
    }
  }

  ghost predicate SeenBetween(host: Host, t: Table, es: seq<Event>, i: nat, j: nat, q: uint16)
    requires WellFormed(t) && j < |es|
  {
    exists m :: i < m <= j && (InUse(At(host, t, es, m), q) || Allocates(host, t, es, m, q))
  }

  lemma SeenAfter(host: Host, t: Table, es: seq<Event>, i: nat, j: nat, q: uint16)
    requires WellFormed(t) && i < j < |es| && InRange(t, q)
    requires At(host, t, es, j + 1).nextNum - At(host, t, es, i + 1).nextNum >= t.modNum
    ensures SeenBetween(host, t, es, i, j, q)
  {
    hide At, IndexOk, PortsOk, Allocates, InUse;
    var a := At(host, t, es, i + 1).nextNum;
    var d := NextWithResidue(a, t.modNum, q - t.minPort);
    PortOfResidue(t, a + d, q);
    var m := PassedAt(host, t, es, i + 1, j + 1, a + d);
    PassedPort(host, t, es, m, a + d);
  }
}
