/**
 The session table as a value: every session ever created, and two arrays of
 buckets that hold sessions by number, one keyed by client address and port, one
 keyed by server port.
 */
module Sessions {
  import opened Bytes

  datatype Option<+T> = None | Some(value: T)

  datatype Session = Session(
    clientIp: uint32, clientPort: uint16, serverPort: uint16,
    clientSeq: uint32, serverSeq: uint32,
    synState: nat, clientFin: nat, serverFin: nat,
    expire: int)

  datatype Side = ByClient | ByServer

  datatype Key = ClientKey(ip: uint32, port: uint16) | ServerKey(port: uint16)

  function SideOf(k: Key): Side {
    if k.ClientKey? then ByClient else ByServer
  }

  function KeyOf(x: Side, s: Session): Key {
    match x
    case ByClient => ClientKey(s.clientIp, s.clientPort)
    case ByServer => ServerKey(s.serverPort)
  }

  /** Bucket number; the client sum wraps at 32 bits before the remainder is taken. */
  function Hash(k: Key, len: nat): (i: nat)
    requires len > 0
    ensures i < len
  {
    match k
    case ClientKey(ip, port) => (ip as int + port as int) % 0x1_0000_0000 % len
    case ServerKey(port) => port as int % len
  }

  type Index = seq<seq<nat>>

  datatype Table = Table(
    len: nat, minPort: uint16, modNum: uint16, nextNum: uint32,
    clientIndex: Index, serverIndex: Index,
    store: seq<Session>)

  function IndexOf(t: Table, x: Side): Index {
    if x == ByClient then t.clientIndex else t.serverIndex
  }

  // ----- well-formed tables -----

  predicate Shape(t: Table) {
    && t.len > 0 && t.modNum > 0 && t.minPort + t.modNum <= 0x1_0000
    && |t.clientIndex| == t.len && |t.serverIndex| == t.len
  }

  /** Members exist, hash to this bucket, and have different keys. */
  ghost predicate BucketOk(store: seq<Session>, x: Side, len: nat, i: nat, ids: seq<nat>)
    requires len > 0
  {
    && (forall j | 0 <= j < |ids| :: ids[j] < |store| && Hash(KeyOf(x, store[ids[j]]), len) == i)
    && (forall j, k | 0 <= j < k < |ids| :: KeyOf(x, store[ids[j]]) != KeyOf(x, store[ids[k]]))
  }

  ghost predicate IndexOk(t: Table, x: Side)
    requires Shape(t)
  {
    forall i | 0 <= i < t.len :: BucketOk(t.store, x, t.len, i, IndexOf(t, x)[i])
  }

  predicate PortsOk(t: Table) {
    forall id | 0 <= id < |t.store| :: t.minPort <= t.store[id].serverPort < t.minPort + t.modNum
  }

  function Bucket(t: Table, x: Side, id: nat): (ids: seq<nat>)
    requires Shape(t) && id < |t.store|
  {
    IndexOf(t, x)[Hash(KeyOf(x, t.store[id]), t.len)]
  }

  /** Session `id` is linked into the index of side `x`. */
  predicate Held(t: Table, x: Side, id: nat)
    requires Shape(t)
  {
    id < |t.store| && id in Bucket(t, x, id)
  }

  /** Every session that is not expired at time `now` is in both indexes. */
  ghost predicate Covered(t: Table, now: int)
    requires Shape(t)
  {
    forall id | 0 <= id < |t.store| && now <= t.store[id].expire :: Held(t, ByClient, id) && Held(t, ByServer, id)
  }

  /** What every operation keeps, whatever the clock reads. */
  ghost predicate WellFormed(t: Table) {
    Shape(t) && IndexOk(t, ByClient) && IndexOk(t, ByServer) && PortsOk(t)
  }

  /** The invariant of every run, at a clock that reads `now`. */
  ghost predicate Inv(t: Table, now: int) {
    WellFormed(t) && Covered(t, now)
  }

  // ----- the empty table -----

  function EmptyTable(len: nat, minPort: uint16, maxPort: uint16): (t: Table)
    requires len > 0 && minPort <= maxPort && maxPort - minPort < 0xffff
  {
    Table(len, minPort, maxPort - minPort + 1, 0, seq(len, i => []), seq(len, i => []), [])
  }

  lemma EmptyTableInv(len: nat, minPort: uint16, maxPort: uint16, now: int)
    requires len > 0 && minPort <= maxPort && maxPort - minPort < 0xffff
    ensures Inv(EmptyTable(len, minPort, maxPort), now)
  {
  }

  // ----- searching -----

  /** The first member of a bucket with the given key. */
  function Search(store: seq<Session>, ids: seq<nat>, k: Key): (r: Option<nat>)
    requires forall j | 0 <= j < |ids| :: ids[j] < |store|
    ensures r.Some? ==> r.value in ids && KeyOf(SideOf(k), store[r.value]) == k
    ensures r.None? ==> forall j | 0 <= j < |ids| :: KeyOf(SideOf(k), store[ids[j]]) != k
  {
    if ids == [] then None
    else if KeyOf(SideOf(k), store[ids[0]]) == k then Some(ids[0])
    else Search(store, ids[1..], k)
  }

  ghost function Find(t: Table, k: Key): (r: Option<nat>)
    requires WellFormed(t)
    ensures r.Some? ==> r.value < |t.store| && KeyOf(SideOf(k), t.store[r.value]) == k
  {
    var i := Hash(k, t.len);
    assert BucketOk(t.store, SideOf(k), t.len, i, IndexOf(t, SideOf(k))[i]);
    Search(t.store, IndexOf(t, SideOf(k))[i], k)
  }

  /** Searching one bucket finds a session exactly when the whole index holds it. */
  lemma FindIff(t: Table, k: Key, id: nat)
    requires WellFormed(t)
    ensures Find(t, k) == Some(id) <==> Held(t, SideOf(k), id) && KeyOf(SideOf(k), t.store[id]) == k
  {
  }

  lemma FindNone(t: Table, k: Key)
    requires WellFormed(t)
    ensures Find(t, k).None? <==> forall id: nat | Held(t, SideOf(k), id) :: KeyOf(SideOf(k), t.store[id]) != k
  {
  }

  ghost predicate InUse(t: Table, port: uint16)
    requires WellFormed(t)
  {
    Find(t, ServerKey(port)).Some?
  }

  // ----- adding -----

  datatype Probed = Probed(port: Option<uint16>, nextNum: uint32)

  function ProbePort(t: Table, n: uint32): (p: uint16)
    requires Shape(t)
  {
    n % t.modNum + t.minPort
  }

  /** The probe loop, with `count` probes already failed and the counter at `n`. */
  ghost function Probe(t: Table, n: uint32, count: nat): (r: Probed)
    requires WellFormed(t) && count <= t.modNum
    decreases t.modNum - count
  {
    var n' := (n + 1) % 0x1_0000_0000;
    if !InUse(t, ProbePort(t, n)) then Probed(Some(ProbePort(t, n)), n')
    else if count + 1 > t.modNum then Probed(None, n')
    else Probe(t, n', count + 1)
  }

  datatype Added = Added(table: Table, id: Option<nat>)

  function NewSession(ip: uint32, port: uint16, serverPort: uint16, expire: int): Session {
    Session(ip, port, serverPort, 0, 0, 0, 0, 0, expire)
  }

  function Insert(b: Index, i: nat, id: nat): Index
    requires i < |b|
  {
    b[i := b[i] + [id]]
  }

  /** A new session, linked at the end of its two buckets. */
  function Link(t: Table, s: Session): (r: Table)
    requires Shape(t)
  {
    var id := |t.store|;
    t.(store := t.store + [s],
       clientIndex := Insert(t.clientIndex, Hash(KeyOf(ByClient, s), t.len), id),
       serverIndex := Insert(t.serverIndex, Hash(KeyOf(ByServer, s), t.len), id))
  }

  ghost function Add(t: Table, ip: uint32, port: uint16, timeout: int, time: int): (r: Added)
    requires WellFormed(t)
  {
    var found := Find(t, ClientKey(ip, port));
    if found.Some? then Added(t, found)
    else
      var p := Probe(t, t.nextNum, 0);
      var t' := t.(nextNum := p.nextNum);
      if p.port.None? then Added(t', None)
      else Added(Link(t', NewSession(ip, port, p.port.value, time + timeout)), Some(|t.store|))
  }

  // ----- sweeping -----

  /** The elements whose mask bit is set, in order. */
  function Select<T>(s: seq<T>, mask: seq<bool>): (r: seq<T>)
    requires |mask| == |s|
  {
    if s == [] then []
    else
      var n := |s| - 1;
      Select(s[..n], mask[..n]) + if mask[n] then [s[n]] else []
  }

  function KeepMask(store: seq<Session>, ids: seq<nat>, readings: seq<int>): (m: seq<bool>)
    requires |readings| == |ids| && forall j | 0 <= j < |ids| :: ids[j] < |store|
    ensures |m| == |ids|
  {
    seq(|ids|, j requires 0 <= j < |ids| => readings[j] <= store[ids[j]].expire)
  }

  /** One clock reading for each member of each bucket, all between `from` and `to`. */
  ghost predicate ReadingsOk(b: Index, readings: seq<seq<int>>, from: int, to: int) {
    && |readings| == |b|
    && forall i | 0 <= i < |b| ::
         |readings[i]| == |b[i]| && forall j | 0 <= j < |b[i]| :: from <= readings[i][j] <= to
  }

  /** The order in which a sweep reads the clock: bucket by bucket, client side before server side, head last. */
  ghost predicate Chronological(client: seq<seq<int>>, server: seq<seq<int>>) {
    && |client| == |server|
    && (forall i | 0 <= i < |client| :: TailThenHead(client[i]) && TailThenHead(server[i]))
    && (forall i, a, b | 0 <= i < |client| && a in client[i] && b in server[i] :: a <= b)
    && (forall i, j, a, b | 0 <= i < j < |client| && a in client[i] + server[i] && b in client[j] + server[j] :: a <= b)
  }

  ghost predicate TailThenHead(r: seq<int>) {
    && (forall j, k | 1 <= j < k < |r| :: r[j] <= r[k])
    && (forall k | 1 <= k < |r| :: r[k] <= r[0])
  }

  ghost function SweepIndex(t: Table, x: Side, readings: seq<seq<int>>): (r: Index)
    requires WellFormed(t)
    requires |readings| == t.len && forall i | 0 <= i < t.len :: |readings[i]| == |IndexOf(t, x)[i]|
    ensures |r| == t.len
  {
    seq(t.len, i requires 0 <= i < t.len =>
      assert BucketOk(t.store, x, t.len, i, IndexOf(t, x)[i]);
      Select(IndexOf(t, x)[i], KeepMask(t.store, IndexOf(t, x)[i], readings[i])))
  }

  ghost function Sweep(t: Table, client: seq<seq<int>>, server: seq<seq<int>>): (r: Table)
    requires WellFormed(t)
    requires |client| == t.len && forall i | 0 <= i < t.len :: |client[i]| == |t.clientIndex[i]|
    requires |server| == t.len && forall i | 0 <= i < t.len :: |server[i]| == |t.serverIndex[i]|
  {
    t.(clientIndex := SweepIndex(t, ByClient, client), serverIndex := SweepIndex(t, ByServer, server))
  }

  // ----- updating a session in place -----

  /** What a packet may never change: the ends, the port and the deadline. */
  predicate SameIdentity(a: Session, b: Session) {
    && a.clientIp == b.clientIp && a.clientPort == b.clientPort
    && a.serverPort == b.serverPort && a.expire == b.expire
  }

  function Update(t: Table, id: nat, s: Session): (r: Table)
    requires id < |t.store|
  {
    t.(store := t.store[id := s])
  }
}
