/**
 The simple thing that the two bucket arrays stand for: while the indexes agree
 they are one finite bijection between client keys and server ports.
 */
module Refinement {
  import opened Bytes
  import opened Sessions
  import opened TableLaws
  import opened Allocation

  /** The two indexes hold the same sessions. */
  ghost predicate Agree(t: Table)
    requires Shape(t)
  {
    forall id: nat :: Held(t, ByClient, id) <==> Held(t, ByServer, id)
  }

  /** The client keys of the sessions linked into the client buckets. */
  ghost function LinkedKeys(t: Table): (ks: set<Key>)
    requires Shape(t)
  {
    set id | 0 <= id < |t.store| && Held(t, ByClient, id) :: KeyOf(ByClient, t.store[id])
  }

  /** A linked session with the given client key. */
  ghost predicate IsHolder(t: Table, k: Key, id: nat)
    requires Shape(t)
  {
    Held(t, ByClient, id) && KeyOf(ByClient, t.store[id]) == k
  }

  /** The pairs of the sessions linked into the client buckets: client key and server port. */
  ghost function Mapping(t: Table): (m: map<Key, uint16>)
    requires WellFormed(t)
  {
    map k | k in LinkedKeys(t) :: Holder(t, k).serverPort
  }

  ghost function Holder(t: Table, k: Key): (s: Session)
    requires Shape(t) && k in LinkedKeys(t)
  {
    HolderExists(t, k);
    var id: nat :| IsHolder(t, k, id);
    t.store[id]
  }

  lemma HolderExists(t: Table, k: Key)
    requires Shape(t) && k in LinkedKeys(t)
    ensures exists id: nat :: IsHolder(t, k, id)
  {
    var id: nat :| id < |t.store| && Held(t, ByClient, id) && KeyOf(ByClient, t.store[id]) == k;
    assert IsHolder(t, k, id);
  }

  /** Distinct keys make the holder unique. */
  lemma HolderUnique(t: Table, k: Key, id: nat)
    requires WellFormed(t) && IsHolder(t, k, id)
    ensures k in LinkedKeys(t) && Holder(t, k) == t.store[id]
  {
    var other: nat :| IsHolder(t, k, other) && Holder(t, k) == t.store[other];
    FindIff(t, k, id);
    FindIff(t, k, other);
  }

  // ----- getters -----

  /** A held session contributes its pair. */
  lemma HeldMapped(t: Table, id: nat)
    requires WellFormed(t) && Held(t, ByClient, id)
    ensures id < |t.store|
    ensures var k := KeyOf(ByClient, t.store[id]);
            k in Mapping(t) && Mapping(t)[k] == t.store[id].serverPort
  {
    HolderUnique(t, KeyOf(ByClient, t.store[id]), id);
  }

  /** Every pair comes from a held session. */
  lemma MappedHeld(t: Table, k: Key) returns (id: nat)
    requires WellFormed(t) && k in Mapping(t)
    ensures id < |t.store| && Held(t, ByClient, id) && KeyOf(ByClient, t.store[id]) == k && Mapping(t)[k] == t.store[id].serverPort
    ensures Find(t, k) == Some(id) && k.ClientKey?
  {
    HolderExists(t, k);
    id :| IsHolder(t, k, id);
    HolderUnique(t, k, id);
    FindIff(t, k, id);
  }

  lemma HeldStored(t: Table, x: Side, id: nat)
    requires WellFormed(t) && Held(t, x, id)
    ensures id < |t.store| && Find(t, KeyOf(x, t.store[id])) == Some(id)
  {
    FindIff(t, KeyOf(x, t.store[id]), id);
  }

  /** Searching one bucket is lookup in the mapping, both ways. */
  lemma GetByClient(t: Table, ip: uint32, port: uint16)
    requires WellFormed(t)
    ensures var k := ClientKey(ip, port); var r := Find(t, k);
            && (r.Some? <==> k in Mapping(t))
            && (r.Some? ==> r.value < |t.store| && t.store[r.value].serverPort == Mapping(t)[k]
                            && KeyOf(ByClient, t.store[r.value]) == k)
  {
    hide IndexOk, PortsOk, Mapping, Find;
    var k := ClientKey(ip, port);
    if Find(t, k).Some? {
      FindIff(t, k, Find(t, k).value);
      HeldMapped(t, Find(t, k).value);
    }
    if k in Mapping(t) {
      var id := MappedHeld(t, k);
    }
  }

  /** Lookup by server port is lookup in the inverse of the mapping. */
  lemma GetByServer(t: Table, p: uint16)
    requires WellFormed(t) && Agree(t)
    ensures var r := Find(t, ServerKey(p));
            && (r.Some? <==> p in Mapping(t).Values)
            && (r.Some? ==> r.value < |t.store| && var k := KeyOf(ByClient, t.store[r.value]);
                            k in Mapping(t) && Mapping(t)[k] == p)
  {
    hide IndexOk, PortsOk, Mapping, Find;
    if Find(t, ServerKey(p)).Some? {
      var id := Find(t, ServerKey(p)).value;
      FindIff(t, ServerKey(p), id);
      HeldMapped(t, id);
    }
    if p in Mapping(t).Values {
      var k :| k in Mapping(t) && Mapping(t)[k] == p;
      var id := MappedHeld(t, k);
      FindIff(t, ServerKey(p), id);
    }
  }

  // ----- bijection and size -----

  ghost predicate Injective(m: map<Key, uint16>) {
    forall a, b | a in m && b in m && a != b :: m[a] != m[b]
  }

  lemma MappingInjective(t: Table)
    requires WellFormed(t) && Agree(t)
    ensures Injective(Mapping(t))
    ensures forall k | k in Mapping(t) :: k.ClientKey? && InRange(t, Mapping(t)[k])
  {
    hide IndexOk, Mapping, Find;
    var m := Mapping(t);
    forall a | a in m
      ensures a.ClientKey? && InRange(t, m[a])
      ensures forall b | b in m && a != b :: m[a] != m[b]
    {
      var i := MappedHeld(t, a);
      forall b | b in m && a != b
        ensures m[a] != m[b]
      {
        var j := MappedHeld(t, b);
        FindIff(t, ServerKey(m[a]), i);
        FindIff(t, ServerKey(m[a]), j);
      }
    }
  }

  lemma {:induction false} ValuesSize(m: map<Key, uint16>)
    requires Injective(m)
    ensures |m.Values| == |m|
  {
    if m.Keys == {} {
      assert m.Values == {};
    } else {
      var k :| k in m;
      var rest := m - {k};
      ValuesSize(rest);
      assert m.Keys == rest.Keys + {k};
      assert m.Values == rest.Values + {m[k]} by {
        forall v | v in m.Values
          ensures v in rest.Values + {m[k]}
        {
          var a :| a in m && m[a] == v;
          if a != k {
            assert a in rest;
          }
        }
      }
    }
  }

  predicate Within(p: uint16, lo: nat, n: nat) {
    lo <= p < lo + n
  }

  function Ports(lo: nat, n: nat): (r: set<uint16>) {
    set p: uint16 | Within(p, lo, n)
  }

  lemma {:induction false} PortsSize(lo: nat, n: nat)
    requires lo + n <= 0x1_0000
    ensures |Ports(lo, n)| == n
  {
    if n == 0 {
      assert Ports(lo, 0) == {};
    } else {
      PortsSize(lo, n - 1);
      assert Ports(lo, n) == Ports(lo, n - 1) + {lo + n - 1};
    }
  }

  lemma SubsetSize<T>(a: set<T>, b: set<T>)
    requires a <= b
    ensures |a| <= |b| && (|a| == |b| ==> a == b)
  {
    assert b == a + (b - a);
    assert |b| == |a| + |b - a|;
  }

  /** The bijection never exceeds the port range, and fills it exactly when every port is in use. */
  lemma MappingSize(t: Table)
    requires WellFormed(t) && Agree(t)
    ensures |Mapping(t)| <= t.modNum
    ensures |Mapping(t)| == t.modNum <==> forall p: uint16 | InRange(t, p) :: InUse(t, p)
  {
    hide IndexOk, PortsOk, Mapping, Find, Agree;
    var m, all := Mapping(t), Ports(t.minPort, t.modNum);
    MappingInjective(t);
    ValuesSize(m);
    PortsSize(t.minPort, t.modNum);
    SubsetSize(m.Values, all);
    forall p: uint16
      ensures InUse(t, p) <==> p in m.Values
    {
      GetByServer(t, p);
    }
    if forall p: uint16 | InRange(t, p) :: InUse(t, p) {
      assert m.Values == all;
    }
  }

  // ----- operations -----

  lemma EmptyMapping(len: nat, minPort: uint16, maxPort: uint16)
    requires len > 0 && minPort <= maxPort && maxPort - minPort < 0xffff
    ensures var t := EmptyTable(len, minPort, maxPort);
            WellFormed(t) && Agree(t) && Mapping(t) == map[]
  {
  }

  /** What adding does to the two indexes and the store. */
  lemma AddEffect(t: Table, ip: uint32, port: uint16, timeout: int, time: int)
    requires WellFormed(t)
    ensures var r := Add(t, ip, port, timeout, time);
            && WellFormed(r.table)
            && (r.table.store == t.store || (r.id == Some(|t.store|) && |r.table.store| == |t.store| + 1
                                             && t.store <= r.table.store
                                             && Find(t, ClientKey(ip, port)).None?))
            && forall x: Side, id: nat ::
                 Held(r.table, x, id) <==> Held(t, x, id) || (id == |t.store| < |r.table.store|)
  {
    hide IndexOk, PortsOk, Held, Find, Probe;
    AddInv(t, ip, port, timeout, time, 0);
    var p := Probe(t, t.nextNum, 0);
    CounterFrame(t, p.nextNum, 0);
    if Find(t, ClientKey(ip, port)).None? && p.port.Some? {
      var t' := t.(nextNum := p.nextNum);
      forall x: Side, id: nat
        ensures var r := Add(t, ip, port, timeout, time);
                Held(r.table, x, id) <==> Held(t, x, id) || (id == |t.store| < |r.table.store|)
      {
        LinkHeld(t', NewSession(ip, port, p.port.value, time + timeout), x, id);
      }
    } else {
      forall x: Side, id: nat
        ensures Held(t, x, id) ==> id < |t.store|
      {
        if Held(t, x, id) {
          HeldStored(t, x, id);
        }
      }
    }
  }

  /** Adding keeps agreement and extends the bijection by at most the one pair asked for. */
  lemma AddRefines(t: Table, ip: uint32, port: uint16, timeout: int, time: int)
    requires WellFormed(t) && Agree(t)
    ensures var k := ClientKey(ip, port); var r := Add(t, ip, port, timeout, time);
            && WellFormed(r.table) && Agree(r.table)
            && (if k in Mapping(t) || r.id.None?
                then Mapping(r.table) == Mapping(t)
                else r.id == Some(|t.store|) && |r.table.store| == |t.store| + 1
                     && var p := r.table.store[|t.store|].serverPort;
                        && p !in Mapping(t).Values
                        && Mapping(r.table) == Mapping(t)[k := p])
  {
    hide IndexOk, PortsOk, Held, Find, Probe, Mapping, Link;
    var k, r := ClientKey(ip, port), Add(t, ip, port, timeout, time);
    AddEffect(t, ip, port, timeout, time);
    GetByClient(t, ip, port);
    if Find(t, k).None? {
      AddSound(t, ip, port, timeout, time);
      if r.id.Some? {
        var p := r.table.store[|t.store|].serverPort;
        GetByServer(t, p);
        FindNone(t, ServerKey(p));
        AddedMapping(t, r.table, k);
      } else {
        SameHeldMapping(t, r.table);
      }
    }
  }

  /** While the indexes agree, no session linked on either side has the port of a new session. */
  lemma NewPortUnused(t: Table, ip: uint32, port: uint16, timeout: int, time: int)
    requires WellFormed(t) && Agree(t) && Find(t, ClientKey(ip, port)).None?
    ensures var r := Add(t, ip, port, timeout, time);
            r.id.Some? ==> |r.table.store| == |t.store| + 1
                           && forall x: Side, id: nat | Held(t, x, id) :: t.store[id].serverPort != r.table.store[|t.store|].serverPort
  {
    hide IndexOk, PortsOk, Held, Find, Add;
    AddSound(t, ip, port, timeout, time);
    forall x: Side, id: nat | Held(t, x, id)
      ensures Held(t, ByServer, id)
    {
      match x
      case ByClient => assert Held(t, ByClient, id);
      case ByServer =>
    }
  }

  /** Tables with the same held sessions stand for the same mapping. */
  lemma SameHeldMapping(t: Table, r: Table)
    requires WellFormed(t) && WellFormed(r) && r.store == t.store
    requires forall id: nat :: Held(r, ByClient, id) <==> Held(t, ByClient, id)
    ensures Mapping(r) == Mapping(t)
  {
    hide IndexOk, PortsOk, Find, Mapping, Held;
    forall k | k in Mapping(t)
      ensures k in Mapping(r) && Mapping(r)[k] == Mapping(t)[k]
    {
      var id := MappedHeld(t, k);
      HeldMapped(r, id);
    }
    forall k | k in Mapping(r)
      ensures k in Mapping(t)
    {
      var id := MappedHeld(r, k);
      HeldMapped(t, id);
    }
  }

  lemma AddedMapping(t: Table, r: Table, k: Key)
    requires WellFormed(t) && WellFormed(r) && k !in Mapping(t)
    requires t.store <= r.store && |r.store| == |t.store| + 1 && KeyOf(ByClient, r.store[|t.store|]) == k
    requires forall id: nat :: Held(r, ByClient, id) <==> Held(t, ByClient, id) || id == |t.store|
    ensures Mapping(r) == Mapping(t)[k := r.store[|t.store|].serverPort]
  {
    hide IndexOk, PortsOk, Find, Mapping, Held;
    var m := Mapping(t)[k := r.store[|t.store|].serverPort];
    forall a | a in m
      ensures a in Mapping(r) && Mapping(r)[a] == m[a]
    {
      if a == k {
        HeldMapped(r, |t.store|);
      } else {
        var id := MappedHeld(t, a);
        HeldStored(t, ByClient, id);
        HeldMapped(r, id);
      }
    }
    forall a | a in Mapping(r)
      ensures a in m
    {
      var id := MappedHeld(r, a);
      if id != |t.store| {
        HeldMapped(t, id);
      }
    }
  }

  /** With one clock value, a sweep restricts the bijection to the unexpired sessions. */
  lemma SweepRefines(t: Table, client: seq<seq<int>>, server: seq<seq<int>>, now: int)
    requires WellFormed(t) && Agree(t)
    requires ReadingsOk(t.clientIndex, client, now, now) && ReadingsOk(t.serverIndex, server, now, now)
    ensures var r := Sweep(t, client, server);
            && WellFormed(r) && Agree(r)
            && (forall k :: k in Mapping(r) <==>
                  k in Mapping(t) && Find(t, k).Some? && now <= t.store[Find(t, k).value].expire)
            && (forall k | k in Mapping(r) :: k in Mapping(t) && Mapping(r)[k] == Mapping(t)[k])
  {
    hide IndexOk, PortsOk, Find, Mapping, Held, SweepIndex;
    var r := Sweep(t, client, server);
    SweepInv(t, client, server, now, now);
    forall x: Side, id: nat
      ensures Held(r, x, id) <==> Held(t, x, id) && id < |t.store| && now <= t.store[id].expire
    {
      SweepHeld(t, x, client, server, now, now, id);
      if Held(t, x, id) {
        HeldStored(t, x, id);
      }
    }
    forall k
      ensures k in Mapping(r) ==> k in Mapping(t) && Find(t, k).Some?
                                  && now <= t.store[Find(t, k).value].expire && Mapping(r)[k] == Mapping(t)[k]
      ensures k in Mapping(t) && Find(t, k).Some? && now <= t.store[Find(t, k).value].expire ==> k in Mapping(r)
    {
      if k in Mapping(r) {
        var id := MappedHeld(r, k);
        HeldMapped(t, id);
        HeldStored(t, ByClient, id);
      }
      if k in Mapping(t) {
        var id := MappedHeld(t, k);
        if now <= t.store[id].expire {
          HeldMapped(r, id);
        }
      }
    }
  }

  // ----- a clock that moves on during a sweep -----

  /** Readings that jump from one value to another between two buckets. */
  ghost function Jump(b: Index, from: int, to: int, before: nat): (r: seq<seq<int>>)
    ensures |r| == |b|
    ensures forall i | 0 <= i < |b| :: |r[i]| == |b[i]| && forall v | v in r[i] :: v == if i < before then from else to
  {
    seq(|b|, i requires 0 <= i < |b| => seq(|b[i]|, _ => if i < before then from else to))
  }

  lemma JumpReadings(b: Index, from: int, to: int, before: nat)
    requires from <= to
    ensures ReadingsOk(b, Jump(b, from, to, before), from, to)
    ensures forall i, j | 0 <= i < |b| && 0 <= j < |b[i]| ::
              Jump(b, from, to, before)[i][j] == if i < before then from else to
  {
  }

  lemma JumpChronological(b: Index, d: Index, from: int, to: int, m: nat, n: nat)
    requires |b| == |d| && from <= to && n <= m <= n + 1
    ensures Chronological(Jump(b, from, to, m), Jump(d, from, to, n))
  {
    hide Jump;
    var client, server := Jump(b, from, to, m), Jump(d, from, to, n);
    forall i | 0 <= i < |b|
      ensures TailThenHead(client[i]) && TailThenHead(server[i])
    {
      assert forall k | 0 <= k < |client[i]| :: client[i][k] in client[i];
      assert forall k | 0 <= k < |server[i]| :: server[i][k] in server[i];
    }
  }

  /** A deadline inside the sweep's time window can split the indexes: some clock lets one side keep the session and not the other. */
  lemma SweepSplits(t: Table, from: int, to: int, id: nat) returns (client: seq<seq<int>>, server: seq<seq<int>>)
    requires WellFormed(t) && Held(t, ByClient, id) && Held(t, ByServer, id)
    requires from <= t.store[id].expire < to
    ensures ReadingsOk(t.clientIndex, client, from, to) && ReadingsOk(t.serverIndex, server, from, to)
    ensures Chronological(client, server)
    ensures Shape(Sweep(t, client, server))
    ensures Held(Sweep(t, client, server), ByClient, id) <==> !Held(Sweep(t, client, server), ByServer, id)
  {
    hide IndexOk, PortsOk, Held, Sweep, Chronological, Jump, Hash;
    HeldStored(t, ByClient, id);
    var c, s := Hash(KeyOf(ByClient, t.store[id]), t.len), Hash(KeyOf(ByServer, t.store[id]), t.len);
    var m, n := if c <= s then c + 1 else s + 1, if c <= s then c else s + 1;
    client, server := Jump(t.clientIndex, from, to, m), Jump(t.serverIndex, from, to, n);
    JumpReadings(t.clientIndex, from, to, m);
    JumpReadings(t.serverIndex, from, to, n);
    JumpChronological(t.clientIndex, t.serverIndex, from, to, m, n);
    SweptMember(t, ByClient, client, server, id);
    SweptMember(t, ByServer, client, server, id);
  }

  /** A bucket whose tests all read the same time keeps a member exactly if it is unexpired then. */
  lemma SweptMember(t: Table, x: Side, client: seq<seq<int>>, server: seq<seq<int>>, id: nat)
    requires WellFormed(t) && Held(t, x, id)
    requires |client| == t.len && forall i | 0 <= i < t.len :: |client[i]| == |t.clientIndex[i]|
    requires |server| == t.len && forall i | 0 <= i < t.len :: |server[i]| == |t.serverIndex[i]|
    requires var i := Hash(KeyOf(x, t.store[id]), t.len);
             var r := if x == ByClient then client[i] else server[i];
             forall j | 0 <= j < |r| :: r[j] == r[0]
    ensures Shape(Sweep(t, client, server))
    ensures var i := Hash(KeyOf(x, t.store[id]), t.len);
            var r := if x == ByClient then client[i] else server[i];
            |r| > 0 && (Held(Sweep(t, client, server), x, id) <==> r[0] <= t.store[id].expire)
  {
    hide PortsOk, Select, KeepMask, Hash;
    var i := Hash(KeyOf(x, t.store[id]), t.len);
    var r, ids := if x == ByClient then client[i] else server[i], IndexOf(t, x)[i];
    assert BucketOk(t.store, x, t.len, i, ids);
    assert forall j | 0 <= j < |ids| :: ids[j] < |t.store| && r[0] <= r[j] <= r[0];
    SelectKeeps(t.store, ids, r, id, r[0], r[0]);
  }

  /** Without such a deadline every clock leaves the indexes in agreement. */
  lemma SweepKeepsAgreement(t: Table, client: seq<seq<int>>, server: seq<seq<int>>, from: int, to: int)
    requires WellFormed(t) && Agree(t) && from <= to
    requires ReadingsOk(t.clientIndex, client, from, to) && ReadingsOk(t.serverIndex, server, from, to)
    requires forall id: nat | Held(t, ByClient, id) :: !(from <= t.store[id].expire < to)
    ensures Agree(Sweep(t, client, server))
  {
    hide IndexOk, PortsOk, SweepIndex;
    forall id: nat
      ensures Held(Sweep(t, client, server), ByClient, id) <==> Held(Sweep(t, client, server), ByServer, id)
    {
      SweepHeld(t, ByClient, client, server, from, to, id);
      SweepHeld(t, ByServer, client, server, from, to, id);
    }
  }

  /**
   Exactly when agreement survives a moving clock: a sweep between `from` and
   `to` leaves the indexes in agreement whatever the clock does in between, if
   and only if no linked session has its deadline in that window.
   */
  lemma AgreementIff(t: Table, from: int, to: int)
    requires WellFormed(t) && Agree(t) && from <= to
    ensures (forall id: nat | Held(t, ByClient, id) :: !(from <= t.store[id].expire < to)) <==>
            forall client, server | ReadingsOk(t.clientIndex, client, from, to) && ReadingsOk(t.serverIndex, server, from, to)
                                    && Chronological(client, server) :: Agree(Sweep(t, client, server))
  {
    hide IndexOk, PortsOk, SweepIndex, Chronological;
    if forall id: nat | Held(t, ByClient, id) :: !(from <= t.store[id].expire < to) {
      forall client, server | ReadingsOk(t.clientIndex, client, from, to) && ReadingsOk(t.serverIndex, server, from, to)
                              && Chronological(client, server)
        ensures Agree(Sweep(t, client, server))
      {
        SweepKeepsAgreement(t, client, server, from, to);
      }
    } else {
      var id: nat :| Held(t, ByClient, id) && from <= t.store[id].expire < to;
      var client, server := SweepSplits(t, from, to, id);
      assert !Agree(Sweep(t, client, server));
    }
  }
}
