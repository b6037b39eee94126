/**
 The round-robin port allocator: which ports a search examines, when it may
 report that none is left, and what it hands out.
 */
module Allocation {
  import opened Bytes
  import opened Sessions
  import opened TableLaws

  const WRAP := 0x1_0000_0000

  /** The counter after `k` probes. */
  function Counter(n: uint32, k: nat): (c: uint32) {
    (n as int + k) % WRAP
  }

  lemma CounterNext(n: uint32, k: nat)
    ensures Counter(Counter(n, 1), k) == Counter(n, k + 1)
  {
  }

  /** The search gives up exactly when all of its `modNum + 1` probes hit ports in use. */
  lemma {:induction false} ProbeNoneIff(t: Table, n: uint32, count: nat)
    requires WellFormed(t) && count <= t.modNum
    ensures Probe(t, n, count).port.None? <==>
            forall k | 0 <= k <= t.modNum - count :: InUse(t, ProbePort(t, Counter(n, k)))
    decreases t.modNum - count
  {
    hide IndexOk, InUse, ProbePort, Counter;
    var n' := Counter(n, 1);
    assert Counter(n, 0) == n && n' == (n + 1) % WRAP by { CounterBasics(n); }
    forall k: nat
      ensures Counter(n, k + 1) == Counter(n', k)
    {
      CounterNext(n, k);
    }
    if count < t.modNum {
      ProbeNoneIff(t, n', count + 1);
      if forall k | 0 <= k <= t.modNum - count - 1 :: InUse(t, ProbePort(t, Counter(n', k))) {
        forall k: int | 0 <= k <= t.modNum - count && InUse(t, ProbePort(t, n))
          ensures InUse(t, ProbePort(t, Counter(n, k)))
        {
          if k > 0 {
            assert Counter(n, (k - 1) + 1) == Counter(n', k - 1);
          }
        }
      }
      if k :| 0 <= k <= t.modNum - count - 1 && !InUse(t, ProbePort(t, Counter(n', k))) {
        assert Counter(n, k + 1) == Counter(n', k);
      }
    }
  }

  lemma CounterBasics(n: uint32)
    ensures Counter(n, 0) == n && Counter(n, 1) == (n + 1) % WRAP
  {
  }

  /** The counter stops just past the port that was handed out; the ports before it were in use. */
  lemma {:induction false} ProbeStop(t: Table, n: uint32, count: nat) returns (k: nat)
    requires WellFormed(t) && count <= t.modNum
    ensures k <= t.modNum - count && Probe(t, n, count).nextNum == Counter(n, k + 1)
    ensures forall j | 0 <= j < k :: InUse(t, ProbePort(t, Counter(n, j)))
    ensures var p := Probe(t, n, count).port;
            if p.Some? then p.value == ProbePort(t, Counter(n, k)) else k == t.modNum - count && InUse(t, ProbePort(t, Counter(n, k)))
    decreases t.modNum - count
  {
    hide IndexOk, InUse, ProbePort, Counter;
    CounterBasics(n);
    if !InUse(t, ProbePort(t, n)) || count == t.modNum {
      k := 0;
    } else {
      var n' := Counter(n, 1);
      k := ProbeStop(t, n', count + 1);
      forall j | 0 <= j <= k + 1
        ensures Counter(n', j) == Counter(n, j + 1)
      {
        CounterNext(n, j);
      }
      forall j | 0 <= j < k + 1
        ensures InUse(t, ProbePort(t, Counter(n, j)))
      {
        if j > 0 {
          assert Counter(n', j - 1) == Counter(n, j);
        }
      }
      k := k + 1;
    }
  }

  // ----- which residues a search examines -----

  ghost predicate Examined(n: uint32, m: nat, r: nat)
    requires m > 0
  {
    exists k :: 0 <= k <= m && Counter(n, k) % m == r
  }

  /**
   A search of `m + 1` probes examines all `m` residues exactly when the counter
   does not wrap within its first `m` probes, or wraps at once, or the wrap
   itself is nearly a multiple of `m`.
   */
  predicate CounterCovers(n: uint32, m: nat)
    requires m > 0
  {
    n + m <= WRAP || n == WRAP - 1 || WRAP % m <= 1
  }

  lemma Residue(m: nat, q: int, d: int)
    requires m > 0 && 0 <= d < m
    ensures (m * q + d) % m == d
  {
    var x := m * q + d;
    assert x == m * (x / m) + x % m;
    var e := q - x / m;
    assert m * e == x % m - d by {
      assert m * q - m * (x / m) == m * e;
    }
  }

  /** Some number in any `m` consecutive ones has residue `r`. */
  lemma NextWithResidue(n: int, m: nat, r: nat) returns (k: nat)
    requires m > 0 && r < m && n >= 0
    ensures k < m && (n + k) % m == r
  {
    var q, d := n / m, n % m;
    if d <= r {
      k := r - d;
      assert n + k == m * q + r;
      Residue(m, q, r);
    } else {
      k := r + m - d;
      assert n + k == m * (q + 1) + r;
      Residue(m, q + 1, r);
    }
  }

  lemma CounterValue(n: uint32, k: nat)
    requires n + k < 2 * WRAP
    ensures Counter(n, k) == if n + k < WRAP then n + k else n + k - WRAP
  {
  }

  /** A probe that shows a residue to be examined. */
  lemma Witness(n: uint32, m: nat, r: nat, k: nat)
    requires 0 < m && k <= m && Counter(n, k) % m == r
    ensures Examined(n, m, r)
  {
  }

  /** The wrap is one more than a multiple of `m`: the residue 0 is seen twice, no other is lost. */
  lemma CoversOneMore(n: uint32, m: nat, r: nat)
    requires 0 < m < WRAP && r < m && n + m > WRAP && WRAP % m == 1
    ensures Examined(n, m, r)
  {
    hide Counter, Examined;
    var q, before := WRAP / m, WRAP - n;
    if r <= m - before {
      CounterValue(n, before + r);
      Residue(m, 0, r);
      Witness(n, m, r, before + r);
    } else {
      var i := before - 1 - m + r;
      CounterValue(n, i);
      assert n + i == m * (q - 1) + r by { assert WRAP == m * q + 1; }
      Residue(m, q - 1, r);
      Witness(n, m, r, i);
    }
  }

  /** The wrap is a multiple of `m`: residues go on as if it had not happened. */
  lemma CoversMultiple(n: uint32, m: nat, r: nat)
    requires 0 < m < WRAP && r < m && WRAP % m == 0
    ensures Examined(n, m, r)
  {
    hide Counter, Examined;
    var k := NextWithResidue(n, m, r);
    CounterValue(n, k);
    if n + k >= WRAP {
      var j := n + k - WRAP;
      assert n + k == m * (WRAP / m) + j;
      Residue(m, WRAP / m, j);
      Residue(m, 0, j);
    }
    Witness(n, m, r, k);
  }

  lemma CoversAll(n: uint32, m: nat, r: nat)
    requires 0 < m < WRAP && r < m && CounterCovers(n, m)
    ensures Examined(n, m, r)
  {
    hide Counter, Examined;
    if n + m <= WRAP {
      var k := NextWithResidue(n, m, r);
      CounterValue(n, k);
      Witness(n, m, r, k);
    } else if n == WRAP - 1 {
      CounterValue(n, r + 1);
      Residue(m, 0, r);
      Witness(n, m, r, r + 1);
    } else if WRAP % m == 0 {
      CoversMultiple(n, m, r);
    } else {
      CoversOneMore(n, m, r);
    }
  }

  /** Otherwise one residue is never examined: the one just below the residues seen before the wrap. */
  lemma MissedResidue(n: uint32, m: nat) returns (r: nat)
    requires 0 < m < WRAP && !CounterCovers(n, m)
    ensures r < m && !Examined(n, m, r)
  {
    hide Counter;
    var q, w, before := WRAP / m, WRAP % m, WRAP - n;
    r := if w <= before then m + w - before - 1 else m - 1;
    forall k | 0 <= k <= m
      ensures Counter(n, k) % m != r
    {
      CounterValue(n, k);
      if k < before {
        var j := before - k;
        assert Counter(n, k) == WRAP - j == m * q + w - j;
        if j <= w {
          Residue(m, q, w - j);
        } else {
          assert m * q + w - j == m * (q - 1) + (m + w - j);
          Residue(m, q - 1, m + w - j);
        }
      } else {
        assert Counter(n, k) == k - before;
        Residue(m, 0, k - before);
      }
    }
  }

  lemma CoversIff(n: uint32, m: nat)
    requires 0 < m < WRAP
    ensures CounterCovers(n, m) <==> forall r: nat | r < m :: Examined(n, m, r)
  {
    if CounterCovers(n, m) {
      forall r: nat | r < m
        ensures Examined(n, m, r)
      {
        CoversAll(n, m, r);
      }
    } else {
      var r := MissedResidue(n, m);
    }
  }

  lemma SameResidueApart(a: nat, b: nat, m: nat)
    requires m > 0 && a < b && a % m == b % m
    ensures b - a >= m
  {
    var x, d, e := a / m, a % m, b - a;
    if e < m {
      assert b == m * x + (d + e) == m * (x + 1) + (d + e - m);
      if d + e < m {
        Residue(m, x, d + e);
      } else {
        Residue(m, x + 1, d + e - m);
      }
    }
  }

  // ----- buckets -----

  /**
   The buckets spread: ports less than a table length apart, and ports of one
   address less than a table length apart, never share a bucket, except across the
   wrap of the 32-bit sum.
   */
  lemma HashSpread(ip: uint32, p: uint16, q: uint16, len: nat)
    requires p < q < p + len
    ensures Hash(ServerKey(p), len) != Hash(ServerKey(q), len)
    ensures (ip + q < WRAP || WRAP <= ip + p) ==> Hash(ClientKey(ip, p), len) != Hash(ClientKey(ip, q), len)
    ensures ip + p == WRAP ==> Hash(ClientKey(ip, p), len) == 0
  {
    hide Hash;
    HashValue(ip, p, len);
    HashValue(ip, q, len);
    Apart(p, q, len);
    Apart(ip + p, ip + q, len);
    if WRAP <= ip + p {
      Apart(ip + p - WRAP, ip + q - WRAP, len);
    }
  }

  lemma Apart(a: nat, b: nat, m: nat)
    requires a < b < a + m
    ensures a % m != b % m
  {
    if a % m == b % m {
      SameResidueApart(a, b, m);
    }
  }

  lemma HashValue(ip: uint32, port: uint16, len: nat)
    requires len > 0
    ensures Hash(ServerKey(port), len) == port as int % len
    ensures ip + port < WRAP ==> Hash(ClientKey(ip, port), len) == (ip + port) % len
    ensures WRAP <= ip + port ==> Hash(ClientKey(ip, port), len) == (ip + port - WRAP) % len
    ensures ip + port == WRAP ==> Hash(ClientKey(ip, port), len) == 0
  {
    if ip + port < WRAP {
      assert (ip as int + port as int) % WRAP == ip + port;
    } else {
      assert (ip as int + port as int) % WRAP == ip + port - WRAP;
    }
  }

  // ----- allocation -----

  predicate InRange(t: Table, p: nat) {
    t.minPort <= p < t.minPort + t.modNum
  }

  lemma PortOfResidue(t: Table, n: uint32, p: uint16)
    requires Shape(t)
    ensures InRange(t, ProbePort(t, n))
    ensures ProbePort(t, n) == p <==> n % t.modNum == p - t.minPort
  {
  }

  lemma ExaminedInUse(t: Table, p: uint16)
    requires WellFormed(t) && Probe(t, t.nextNum, 0).port.None?
    requires InRange(t, p) && Examined(t.nextNum, t.modNum, p - t.minPort)
    ensures InUse(t, p)
  {
    ProbeNoneIff(t, t.nextNum, 0);
    hide IndexOk, InUse;
    var k :| 0 <= k <= t.modNum && Counter(t.nextNum, k) % t.modNum == p - t.minPort;
    PortOfResidue(t, Counter(t.nextNum, k), p);
  }

  /**
   Completeness: for a client without a session, while the counter covers the
   range, adding reports that no port is left exactly when every port of the
   range is in use.
   */
  lemma AddNoneIff(t: Table, ip: uint32, port: uint16, timeout: int, time: int)
    requires WellFormed(t) && Find(t, ClientKey(ip, port)).None?
    requires CounterCovers(t.nextNum, t.modNum)
    ensures Add(t, ip, port, timeout, time).id.None? <==> forall p: uint16 | InRange(t, p) :: InUse(t, p)
  {
    hide IndexOk, InUse, Find, PortsOk, Link;
    if Probe(t, t.nextNum, 0).port.None? {
      forall p: uint16 | InRange(t, p)
        ensures InUse(t, p)
      {
        CoversAll(t.nextNum, t.modNum, p - t.minPort);
        ExaminedInUse(t, p);
      }
    } else {
      ProbeSound(t, t.nextNum, 0);
    }
  }

  /** If a port that the search never examines is the only one free, adding fails. */
  lemma MissedPortNotOffered(t: Table, r: nat, ip: uint32, port: uint16, timeout: int, time: int)
    requires WellFormed(t) && Find(t, ClientKey(ip, port)).None?
    requires r < t.modNum && !Examined(t.nextNum, t.modNum, r)
    requires forall q: uint16 | InRange(t, q) && q != t.minPort + r :: InUse(t, q)
    ensures Add(t, ip, port, timeout, time).id.None?
  {
    hide IndexOk, InUse, Find, PortsOk, Link, Probe;
    ProbeNoneIff(t, t.nextNum, 0);
    forall k | 0 <= k <= t.modNum
      ensures InUse(t, ProbePort(t, Counter(t.nextNum, k)))
    {
      PortOfResidue(t, Counter(t.nextNum, k), t.minPort + r);
    }
  }

  // ----- a table with one free port -----

  /** The session that occupies port `q` in the tables below; its client address is the port number. */
  function Occupant(q: uint16): Session {
    NewSession(q, 0, q, 0)
  }

  /** Exactly the ports from `lo` up to `hi`, except `free`, are occupied, each by its own client. */
  ghost predicate OccupiedTo(t: Table, lo: nat, hi: nat, free: nat) {
    && WellFormed(t)
    && (forall id: nat | Held(t, ByServer, id) ::
          lo <= t.store[id].serverPort < hi && t.store[id].serverPort != free && t.store[id] == Occupant(t.store[id].serverPort))
    && (forall id: nat | Held(t, ByClient, id) :: t.store[id] == Occupant(t.store[id].serverPort) && t.store[id].serverPort < hi)
    && (forall q: uint16 | lo <= q < hi && q != free :: InUse(t, q))
  }

  /** One more occupied port. */
  lemma OccupyNext(t: Table, lo: nat, hi: uint16, free: nat)
    requires OccupiedTo(t, lo, hi, free) && lo == t.minPort && hi < t.minPort + t.modNum && lo <= hi != free
    ensures OccupiedTo(Link(t, Occupant(hi)), lo, hi + 1, free)
  {
    hide IndexOk, PortsOk, Held, Find, Link;
    var s := Occupant(hi);
    var r := Link(t, s);
    FindNone(t, KeyOf(ByClient, s));
    FindNone(t, KeyOf(ByServer, s));
    LinkInv(t, s, 0);
    LinkedStore(t, s);
    forall x: Side, id: nat
      ensures Held(r, x, id) <==> Held(t, x, id) || id == |t.store|
      ensures Held(t, x, id) ==> id < |t.store|
    {
      LinkHeld(t, s, x, id);
      HeldBound(t, x, id);
    }
    forall q: uint16 | lo <= q < hi + 1 && q != free
      ensures InUse(r, q)
    {
      if q == hi {
        FindIff(r, ServerKey(q), |t.store|);
      } else {
        assert InUse(t, q);
        var id := Find(t, ServerKey(q)).value;
        FindIff(t, ServerKey(q), id);
        FindIff(r, ServerKey(q), id);
      }
    }
  }

  lemma LinkedStore(t: Table, s: Session)
    requires Shape(t)
    ensures var r := Link(t, s);
            r.store == t.store + [s] && r.minPort == t.minPort && r.modNum == t.modNum && r.nextNum == t.nextNum && r.len == t.len
  {
  }

  lemma HeldBound(t: Table, x: Side, id: nat)
    requires Shape(t)
    ensures Held(t, x, id) ==> id < |t.store|
  {
  }

  /** A well-formed table, with any counter, whose only free port is `free`. */
  lemma {:induction false} OneFreePort(len: nat, minPort: uint16, m: uint16, n: uint32, free: nat, hi: nat) returns (t: Table)
    requires len > 0 && m > 0 && minPort <= hi <= minPort + m <= 0x1_0000
    ensures OccupiedTo(t, minPort, hi, free)
    ensures t.len == len && t.minPort == minPort && t.modNum == m && t.nextNum == n
  {
    hide IndexOk, PortsOk, Held, Find, Link, InUse;
    if hi == minPort {
      t := EmptyTable(len, minPort, minPort + m - 1).(nextNum := n);
      EmptyOccupied(t, len, minPort, m, n, free);
    } else {
      t := OneFreePort(len, minPort, m, n, free, hi - 1);
      if hi - 1 != free {
        OccupyNext(t, minPort, hi - 1, free);
        LinkedStore(t, Occupant(hi - 1));
        t := Link(t, Occupant(hi - 1));
      } else {
        OccupySkip(t, minPort, hi - 1);
      }
    }
  }

  lemma OccupySkip(t: Table, lo: nat, free: nat)
    requires OccupiedTo(t, lo, free, free)
    ensures OccupiedTo(t, lo, free + 1, free)
  {
    hide IndexOk, PortsOk, Held, Find, InUse;
  }

  lemma EmptyOccupied(t: Table, len: nat, minPort: uint16, m: uint16, n: uint32, free: nat)
    requires len > 0 && m > 0 && minPort + m <= 0x1_0000
    requires t == EmptyTable(len, minPort, minPort + m - 1).(nextNum := n)
    ensures OccupiedTo(t, minPort, minPort, free)
  {
  }

  /**
   The failure, for every bucket count, port range and counter that does not
   cover it: a well-formed table in which one port of the range is free, a client
   without a session, and adding still reports that no port is left.
   */
  lemma AddMisses(len: nat, minPort: uint16, m: uint16, n: uint32, timeout: int, time: int)
    returns (t: Table, p: uint16, ip: uint32, port: uint16)
    requires len > 0 && m > 0 && minPort + m <= 0x1_0000 && !CounterCovers(n, m)
    ensures WellFormed(t) && t.len == len && t.minPort == minPort && t.modNum == m && t.nextNum == n
    ensures InRange(t, p) && !InUse(t, p)
    ensures Find(t, ClientKey(ip, port)).None? && Add(t, ip, port, timeout, time).id.None?
  {
    hide IndexOk, PortsOk, Held, Find, Add, Examined;
    var r := MissedResidue(n, m);
    p, ip, port := minPort + r, 0x1_0000, 0;
    t := OneFreePort(len, minPort, m, n, p, minPort + m);
    FindNone(t, ServerKey(p));
    FindNone(t, ClientKey(ip, port));
    MissedPortNotOffered(t, r, ip, port, timeout, time);
  }

  /** Tables with these parameters and this counter. */
  ghost predicate Configured(t: Table, len: nat, minPort: uint16, m: uint16, n: uint32) {
    WellFormed(t) && t.len == len && t.minPort == minPort && t.modNum == m && t.nextNum == n
  }

  /** Adding reports that no port is left exactly when that is so. */
  ghost predicate Truthful(t: Table, ip: uint32, port: uint16, timeout: int, time: int)
    requires WellFormed(t)
  {
    Find(t, ClientKey(ip, port)).None? ==>
      (Add(t, ip, port, timeout, time).id.None? <==> forall p: uint16 | InRange(t, p) :: InUse(t, p))
  }

  /**
   Exactness: "null if and only if every port is in use" holds of every table
   with the given parameters and counter precisely when the counter covers the
   range.
   */
  lemma TruthfulIff(len: nat, minPort: uint16, m: uint16, n: uint32)
    requires len > 0 && m > 0 && minPort + m <= 0x1_0000
    ensures CounterCovers(n, m) <==>
            forall t, ip, port, timeout, time | Configured(t, len, minPort, m, n) :: Truthful(t, ip, port, timeout, time)
  {
    hide WellFormed, Find, Add, CounterCovers;
    if CounterCovers(n, m) {
      forall t, ip, port, timeout, time | Configured(t, len, minPort, m, n)
        ensures Truthful(t, ip, port, timeout, time)
      {
        if Find(t, ClientKey(ip, port)).None? {
          AddNoneIff(t, ip, port, timeout, time);
        }
      }
    } else {
      var t, p, ip, port := AddMisses(len, minPort, m, n, 0, 0);
      assert Configured(t, len, minPort, m, n) && !Truthful(t, ip, port, 0, 0);
    }
  }

  /** Soundness: a new session gets a port of the range that no session of the whole table has. */
  lemma AddSound(t: Table, ip: uint32, port: uint16, timeout: int, time: int)
    requires WellFormed(t) && Find(t, ClientKey(ip, port)).None?
    ensures var r := Add(t, ip, port, timeout, time);
            r.id.Some? ==>
              && r.id.value == |t.store| && |r.table.store| == |t.store| + 1
              && var s := r.table.store[|t.store|];
                 && s == NewSession(ip, port, s.serverPort, time + timeout)
                 && InRange(t, s.serverPort)
                 && forall id: nat | Held(t, ByServer, id) :: t.store[id].serverPort != s.serverPort
  {
    ProbeSound(t, t.nextNum, 0);
    var p := Probe(t, t.nextNum, 0).port;
    hide IndexOk, Held, Find, PortsOk, Probe;
    if p.Some? {
      FindNone(t, ServerKey(p.value));
    }
  }
}
