/**
 The session hash table on the heap: two arrays of bucket lists that share the
 session objects. The ghost field `st` is the table as a value; `Valid` ties it
 to the heap, and every method says what it does to it.
 */
module SessionTables {
  import opened Bytes
  import opened Sessions
  import opened TableLaws
  import opened Flags
  import opened SessionLists

  ghost predicate ContentsAre(contents: seq<TcpSession>, sessions: seq<TcpSession>, ids: seq<nat>) {
    && |contents| == |ids|
    && forall j | 0 <= j < |ids| :: ids[j] < |sessions| && contents[j] == sessions[ids[j]]
  }

  /** Bucket list `l` is slot `i` of side `x` and holds the sessions numbered `ids`. */
  ghost predicate Holds(l: SessionList, x: Side, i: nat, sessions: seq<TcpSession>, ids: seq<nat>)
    reads l, l.repr
  {
    l.side == x && l.slot == i && l.Valid() && ContentsAre(l.contents, sessions, ids)
  }

  lemma ContentsGrow(contents: seq<TcpSession>, sessions: seq<TcpSession>, ids: seq<nat>, s: TcpSession)
    requires ContentsAre(contents, sessions, ids)
    ensures ContentsAre(contents, sessions + [s], ids)
    ensures ContentsAre(contents + [s], sessions + [s], ids + [|sessions|])
  {
  }

  lemma {:induction false} ContentsSelect(contents: seq<TcpSession>, sessions: seq<TcpSession>, ids: seq<nat>, mask: seq<bool>)
    requires ContentsAre(contents, sessions, ids) && |mask| == |ids|
    ensures ContentsAre(Select(contents, mask), sessions, Select(ids, mask))
  {
    if ids != [] {
      var n := |ids| - 1;
      ContentsSelect(contents[..n], sessions, ids[..n], mask[..n]);
    }
  }

  class SessionTable {
    const minPort: uint16
    const modNum: uint16
    var nextNum: uint32
    const clientLists: seq<SessionList>
    const serverLists: seq<SessionList>
    ghost var st: Table
    ghost var sessions: seq<TcpSession>
    ghost var Repr: set<object>

    ghost predicate Scalars()
      reads this
    {
      && st.len == |clientLists| == |serverLists|
      && st.minPort == minPort && st.modNum == modNum && st.nextNum == nextNum
    }

    ghost predicate SessionsOk()
      reads this, Repr
    {
      && |sessions| == |st.store|
      && forall k | 0 <= k < |sessions| ::
           sessions[k] in Repr && sessions[k].live && sessions[k].id == k && sessions[k].Value() == st.store[k]
    }

    ghost predicate ListsOk(lists: seq<SessionList>, x: Side, index: Index)
      reads this, Repr
    {
      && |lists| == |index|
      && (forall i | 0 <= i < |lists| :: lists[i] in Repr && lists[i].repr <= Repr)
      && forall i | 0 <= i < |lists| :: Holds(lists[i], x, i, sessions, index[i])
    }

    ghost predicate Valid()
      reads this, Repr
      ensures Valid() ==> this in Repr
    {
      && this in Repr
      && Scalars() && WellFormed(st) && SessionsOk()
      && ListsOk(clientLists, ByClient, st.clientIndex)
      && ListsOk(serverLists, ByServer, st.serverIndex)
    }

    // ----- searching -----

    ghost function ListOf(x: Side, i: nat): SessionList
      requires i < |clientLists| && i < |serverLists|
    {
      if x == ByClient then clientLists[i] else serverLists[i]
    }

    lemma Sizes()
      requires Valid()
      ensures WellFormed(st) && Shape(st) && st.len == |clientLists| == |serverLists| > 0 && |sessions| == |st.store|
      ensures st.minPort == minPort && st.modNum == modNum > 0 && st.nextNum == nextNum && minPort + modNum <= 0x1_0000
    {
    }

    /** What a search of one slot may rely on. */
    lemma Slot(x: Side, i: nat)
      requires Valid() && i < |clientLists|
      ensures |clientLists| == |serverLists|
      ensures var l := ListOf(x, i);
              && l.Valid()
              && forall j | 0 <= j < |l.contents| :: l.contents[j].live
    {
    }

    /** A search of one list, told in session numbers. */
    lemma Found(k: Key, at: nat)
      requires Valid() && Hash(k, st.len) < |clientLists| && |clientLists| == |serverLists|
      requires var l := ListOf(SideOf(k), Hash(k, st.len));
               && at <= |l.contents|
               && (forall j | 0 <= j < at :: KeyOf(SideOf(k), l.contents[j].Value()) != k)
               && (at < |l.contents| ==> KeyOf(SideOf(k), l.contents[at].Value()) == k)
      ensures var r := Find(st, k);
              var l := ListOf(SideOf(k), Hash(k, st.len));
              if at == |l.contents| then r == None
              else r.Some? && r.value < |sessions| && l.contents[at] == sessions[r.value]
    {
    }

    method GetByClient(ip: uint32, port: uint16) returns (s: TcpSession?)
      requires Valid()
      ensures var r := Find(st, ClientKey(ip, port));
              if r.None? then s == null else r.value < |sessions| && s == sessions[r.value]
    {
      hide Valid, WellFormed, Find, SessionList.Valid;
      Sizes();
      var i := (ip as int + port as int) % 0x1_0000_0000 % |clientLists|;
      Slot(ByClient, i);
      ghost var at;
      s, at := clientLists[i].SearchByClient(ip, port);
      Found(ClientKey(ip, port), at);
    }

    method GetByServer(port: uint16) returns (s: TcpSession?)
      requires Valid()
      ensures var r := Find(st, ServerKey(port));
              if r.None? then s == null else r.value < |sessions| && s == sessions[r.value]
    {
      hide Valid, WellFormed, Find, SessionList.Valid;
      Sizes();
      var i := port as int % |serverLists|;
      Slot(ByServer, i);
      ghost var at;
      s, at := serverLists[i].SearchByServer(port);
      Found(ServerKey(port), at);
    }

    // ----- creating -----

    static method NewLists(n: nat, ghost x: Side) returns (lists: seq<SessionList>, ghost all: set<object>)
      ensures |lists| == n && fresh(all)
      ensures forall i | 0 <= i < n :: lists[i] in all && lists[i].repr == {} && Holds(lists[i], x, i, [], [])
    {
      lists, all := [], {};
      for i := 0 to n
        invariant |lists| == i && fresh(all)
        invariant forall j | 0 <= j < i :: lists[j] in all && lists[j].repr == {} && Holds(lists[j], x, j, [], [])
      {
        var l := new SessionList(x, i);
        lists, all := lists + [l], all + {l};
      }
    }

    constructor (numEntry: nat, minPort: uint16, maxPort: uint16)
      requires numEntry > 0 && minPort <= maxPort && maxPort - minPort < 0xffff
      ensures Valid() && fresh(Repr)
      ensures st == EmptyTable(numEntry, minPort, maxPort) && sessions == []
    {
      hide WellFormed, SessionList.Valid, ContentsAre, EmptyTable, Holds;
      EmptyFields(numEntry, minPort, maxPort);
      EmptyTableInv(numEntry, minPort, maxPort, 0);
      var client, server;
      ghost var c, s;
      client, c := NewLists(numEntry, ByClient);
      server, s := NewLists(numEntry, ByServer);
      this.minPort, this.modNum, this.nextNum := minPort, maxPort - minPort + 1, 0;
      this.clientLists, this.serverLists := client, server;
      st, sessions, Repr := EmptyTable(numEntry, minPort, maxPort), [], {this} + c + s;
      new;
      assert ListsOk(clientLists, ByClient, st.clientIndex);
      assert ListsOk(serverLists, ByServer, st.serverIndex);
    }

    // ----- allocating a port -----

    /** Count one probe. */
    method Advance()
      requires Valid()
      modifies this`nextNum, this`st
      ensures Valid() && st == old(st).(nextNum := (old(nextNum) + 1) % 0x1_0000_0000)
    {
      hide IndexOk, PortsOk, Covered, Shape, Holds;
      CounterFrame(st, (nextNum as int + 1) % 0x1_0000_0000, 0);
      nextNum := (nextNum as int + 1) % 0x1_0000_0000;
      st := st.(nextNum := nextNum);
    }

    /** The probe loop; a failed search has counted one probe more than there are ports. */
    method FindPort() returns (found: bool, port: uint16)
      requires Valid()
      modifies this`nextNum, this`st
      ensures Valid()
      ensures var r := Probe(old(st), old(st).nextNum, 0);
              && st == old(st).(nextNum := r.nextNum)
              && r.port == if found then Some(port) else None
    {
      hide Valid, IndexOk, PortsOk, Shape, Find;
      Sizes();
      ghost var t := st;
      var count := 0;
      while true
        invariant Valid() && WellFormed(st) && WellFormed(t) && count <= t.modNum == modNum && t.minPort == minPort
        invariant st == t.(nextNum := nextNum) && modNum > 0 && minPort + modNum <= 0x1_0000
        invariant Probe(t, nextNum, count) == Probe(t, t.nextNum, 0)
        decreases t.modNum - count
      {
        port := nextNum % modNum + minPort;
        ghost var n := nextNum;
        Advance();
        Sizes();
        CounterFrame(t, nextNum, 0);
        var s := GetByServer(port);
        if s == null {
          return true, port;
        }
        count := count + 1;
        if count > modNum {
          return false, port;
        }
      }
    }

    // ----- adding -----

    /** The heap part of linking: two lists grow by one node, all others stay as they were. */
    method InsertBoth(s: TcpSession, hc: nat, hs: nat) returns (ghost added: set<object>)
      requires Valid() && hc < |clientLists| && hs < |serverLists|
      modifies clientLists[hc], clientLists[hc].repr, serverLists[hs], serverLists[hs].repr
      ensures |clientLists| == |serverLists| == |st.clientIndex| == |st.serverIndex|
      ensures forall i | 0 <= i < |clientLists| ::
                && Holds(clientLists[i], ByClient, i, sessions + [s], Insert(st.clientIndex, hc, |sessions|)[i])
                && Holds(serverLists[i], ByServer, i, sessions + [s], Insert(st.serverIndex, hs, |sessions|)[i])
      ensures forall i | 0 <= i < |clientLists| :: clientLists[i].repr <= Repr + added && serverLists[i].repr <= Repr + added
      ensures fresh(added)
    {
      hide Valid, SessionList.Valid, ContentsAre;
      Tags();
      ghost var all := sessions;
      clientLists[hc].Insert(s);
      serverLists[hs].Insert(s);
      added := clientLists[hc].repr - old(clientLists[hc].repr) + (serverLists[hs].repr - old(serverLists[hs].repr));
      forall i | 0 <= i < |clientLists|
        ensures Holds(clientLists[i], ByClient, i, all + [s], Insert(st.clientIndex, hc, |all|)[i])
        ensures Holds(serverLists[i], ByServer, i, all + [s], Insert(st.serverIndex, hs, |all|)[i])
      {
        ContentsGrow(old(clientLists[i].contents), all, st.clientIndex[i], s);
        ContentsGrow(old(serverLists[i].contents), all, st.serverIndex[i], s);
      }
    }

    /** The ghost part of linking: the lists already hold the new session. */
    ghost method Bind(s: TcpSession, added: set<object>)
      requires this in Repr && s.live && s.id == |sessions| && Scalars() && SessionsOk()
      requires WellFormed(st) && WellFormed(Link(st, s.Value()))
      requires var t := Link(st, s.Value());
               |clientLists| == |serverLists| == |t.clientIndex| == |t.serverIndex|
               && forall i | 0 <= i < |clientLists| ::
                    && Holds(clientLists[i], ByClient, i, sessions + [s], t.clientIndex[i])
                    && Holds(serverLists[i], ByServer, i, sessions + [s], t.serverIndex[i])
                    && clientLists[i] in Repr && clientLists[i].repr <= Repr + added
                    && serverLists[i] in Repr && serverLists[i].repr <= Repr + added
      modifies this`sessions, this`st, this`Repr
      ensures Valid() && Repr == old(Repr) + {s} + added
      ensures st == Link(old(st), s.Value()) && sessions == old(sessions) + [s]
    {
      hide IndexOk, PortsOk, SessionList.Valid, ContentsAre, Holds, Link;
      LinkFields(st, s.Value());
      sessions, st, Repr := sessions + [s], Link(st, s.Value()), Repr + {s} + added;
      assert SessionsOk();
    }

    /** Link a new session at the end of its bucket on each side. */
    method LinkNew(s: TcpSession)
      requires Valid() && s.live && s.id == |sessions| && s !in Repr
      requires Find(st, KeyOf(ByClient, s.Value())).None? && Find(st, KeyOf(ByServer, s.Value())).None?
      requires minPort <= s.serverPort < minPort + modNum
      modifies Repr
      ensures Valid() && fresh(Repr - old(Repr) - {s})
      ensures st == Link(old(st), s.Value()) && sessions == old(sessions) + [s]
      ensures s.live && s.Value() == old(s.Value())
    {
      hide WellFormed, Find, SessionList.Valid, ContentsAre, Holds, Link, Insert;
      Sizes();
      LinkFields(st, s.Value());
      LinkInv(st, s.Value(), 0);
      var hc := (s.ClientIp() as int + s.ClientPort() as int) % 0x1_0000_0000 % |clientLists|;
      var hs := s.ServerPort() as int % |serverLists|;
      ghost var added := InsertBoth(s, hc, hs);
      Bind(s, added);
    }

    /** No list is in two slots. */
    lemma Tags()
      requires Valid()
      ensures |clientLists| == |serverLists| == |st.clientIndex| == |st.serverIndex|
      ensures forall i | 0 <= i < |clientLists| ::
                && Holds(clientLists[i], ByClient, i, sessions, st.clientIndex[i])
                && Holds(serverLists[i], ByServer, i, sessions, st.serverIndex[i])
                && clientLists[i].repr <= Repr && serverLists[i].repr <= Repr
    {
    }

    /** Find or create the session of a client; null when no port is left. */
    method Add(ip: uint32, port: uint16, timeout: int, clock: SystemClock) returns (s: TcpSession?, ghost time: int)
      requires Valid() && clock !in Repr
      modifies Repr, clock
      ensures Valid() && fresh(Repr - old(Repr))
      ensures old(clock.now) <= time <= clock.now && old(sessions) <= sessions
      ensures var r := Sessions.Add(old(st), ip, port, timeout, time);
              && st == r.table
              && (if r.id.None? then s == null else r.id.value < |sessions| && s == sessions[r.id.value])
    {
      hide Valid, WellFormed, Find, Probe, Link;
      Sizes();
      time := clock.now;
      s := GetByClient(ip, port);
      if s != null {
        return;
      }
      ghost var t := st;
      var found, serverPort := FindPort();
      Sizes();
      CounterFrame(t, st.nextNum, 0);
      ProbeSound(t, t.nextNum, 0);
      if !found {
        return null, time;
      }
      var now := clock.Time();
      time := now;
      s := new TcpSession(ip, port, serverPort, now + timeout, |sessions|);
      LinkNew(s);
      Sizes();
    }

    // ----- sweeping -----

    /** Sweep one slot of one side; every other slot of either side stays as it was. */
    method SweepSlot(ghost x: Side, l: SessionList, clock: SystemClock, ghost store: seq<Session>, ghost ids: seq<nat>)
      returns (ghost readings: seq<int>)
      requires Holds(l, x, l.slot, sessions, ids) && |sessions| == |store|
      requires forall k | 0 <= k < |sessions| :: sessions[k].live && sessions[k].expire == store[k].expire
      modifies l, l.repr, clock
      ensures |readings| == |ids| && forall j | 0 <= j < |ids| :: ids[j] < |store| && old(clock.now) <= readings[j] <= clock.now
      ensures old(clock.now) <= clock.now && l.repr == old(l.repr)
      ensures TailThenHead(readings)
      ensures Holds(l, x, l.slot, sessions, Select(ids, KeepMask(store, ids, readings)))
      ensures forall n | n in old(l.nodes) :: n.live <==> n in l.nodes
      ensures forall m: SessionList | m != l && old(allocated(m)) && old(m.Valid()) ::
                m.Valid() && m.contents == old(m.contents) && m.repr == old(m.repr)
    {
      hide SessionList.Valid, Select;
      ghost var keep;
      ghost var was := l.contents;
      readings, keep := l.DeleteExpired(clock);
      assert keep == KeepMask(store, ids, readings);
      ContentsSelect(was, sessions, ids, keep);
    }

    /** Slots hold the buckets `client` and `server`; sessions are as the table says. */
    ghost predicate During(t: Table, client: Index, server: Index)
      reads this, Repr
    {
      && st == t && Scalars() && SessionsOk()
      && ListsOk(clientLists, ByClient, client) && ListsOk(serverLists, ByServer, server)
    }

    /** One turn of the sweep: slot `i` of the client side, then slot `i` of the server side. */
    method SweepPair(i: nat, clock: SystemClock, ghost client: Index, ghost server: Index)
      returns (ghost r: seq<int>, ghost q: seq<int>)
      requires During(st, client, server) && clock !in Repr && i < |clientLists|
      modifies Repr - {this}, clock
      ensures |client| == |server| == |clientLists| && |sessions| == |st.store|
      ensures |r| == |client[i]| && forall j | 0 <= j < |r| :: client[i][j] < |st.store| && old(clock.now) <= r[j] <= clock.now
      ensures |q| == |server[i]| && forall j | 0 <= j < |q| :: server[i][j] < |st.store| && old(clock.now) <= q[j] <= clock.now
      ensures old(clock.now) <= clock.now
      ensures TailThenHead(r) && TailThenHead(q) && forall a, b | a in r && b in q :: a <= b
      ensures forall n | n in old(clientLists[i].nodes) :: n.live <==> n in clientLists[i].nodes
      ensures forall n | n in old(serverLists[i].nodes) :: n.live <==> n in serverLists[i].nodes
      ensures forall j | 0 <= j < |clientLists| ::
                clientLists[j].repr == old(clientLists[j].repr) && serverLists[j].repr == old(serverLists[j].repr)
      ensures During(old(st), client[i := Select(client[i], KeepMask(st.store, client[i], r))],
                     server[i := Select(server[i], KeepMask(st.store, server[i], q))])
    {
      hide SessionList.Valid, ContentsAre, Select, KeepMask;
      assert Holds(clientLists[i], ByClient, i, sessions, client[i]);
      assert Holds(serverLists[i], ByServer, i, sessions, server[i]);
      clientLists[i].Members();
      r := SweepSlot(ByClient, clientLists[i], clock, st.store, client[i]);
      q := SweepSlot(ByServer, serverLists[i], clock, st.store, server[i]);
      clientLists[i].Members();
    }

    /** The sweep of the whole table, with the clock reading of every test. */
    method CleanExpired(clock: SystemClock) returns (ghost client: seq<seq<int>>, ghost server: seq<seq<int>>)
      requires Valid() && clock !in Repr
      modifies Repr, clock
      ensures Valid() && Repr == old(Repr) && sessions == old(sessions)
      ensures old(clock.now) <= clock.now
      ensures ReadingsOk(old(st).clientIndex, client, old(clock.now), clock.now)
      ensures ReadingsOk(old(st).serverIndex, server, old(clock.now), clock.now)
      ensures Chronological(client, server)
      ensures st == Sweep(old(st), client, server)
      ensures |clientLists| == |serverLists|
      ensures forall i, n | 0 <= i < |clientLists| && n in old(clientLists[i].nodes) :: n.live <==> n in clientLists[i].nodes
      ensures forall i, n | 0 <= i < |serverLists| && n in old(serverLists[i].nodes) :: n.live <==> n in serverLists[i].nodes
    {
      hide SessionList.Valid, Holds, IndexOk, PortsOk, Select, KeepMask, SweepIndex, ListsOk, SessionsOk, SweptPart, ReadingsOk, Chronological, TailThenHead;
      LinkedNodes();
      ghost var t, ci, si, from := st, st.clientIndex, st.serverIndex, clock.now;
      client, server := [], [];
      SweptNone(t, ByClient, from);
      SweptNone(t, ByServer, from);
      ChronologicalNone();
      for i := 0 to |clientLists|
        invariant During(t, ci, si) && WellFormed(t) && clock !in Repr && this in Repr
        invariant Repr == old(Repr) && sessions == old(sessions) && from <= clock.now
        invariant SweptPart(t, ByClient, client, ci, i, from, clock.now)
        invariant SweptPart(t, ByServer, server, si, i, from, clock.now)
        invariant Chronological(client, server)
        invariant forall j | 0 <= j < |clientLists| :: clientLists[j].repr == old(clientLists[j].repr)
        invariant forall j | 0 <= j < |serverLists| :: serverLists[j].repr == old(serverLists[j].repr)
      {
        ghost var before := clock.now;
        ghost var r, q := SweepPair(i, clock, ci, si);
        SweptMore(t, ByClient, client, ci, i, from, before, clock.now, r);
        SweptMore(t, ByServer, server, si, i, from, before, clock.now, q);
        ChronologicalMore(t, client, ci, server, si, i, from, before, r, q);
        ci := ci[i := Select(ci[i], KeepMask(t.store, ci[i], r))];
        si := si[i := Select(si[i], KeepMask(t.store, si[i], q))];
        client, server := client + [r], server + [q];
      }
      SweptAll(t, ByClient, client, ci, from, clock.now);
      SweptAll(t, ByServer, server, si, from, clock.now);
      SweepInv(t, client, server, from, clock.now);
      Rebase(Sweep(t, client, server));
      LinkedNodes();
    }

    /** The nodes that were ever linked into a slot are live exactly while they are linked. */
    lemma LinkedNodes()
      requires Valid()
      ensures |clientLists| == |serverLists|
      ensures forall i, n | 0 <= i < |clientLists| && n in clientLists[i].nodes :: n in clientLists[i].repr
      ensures forall i, n | 0 <= i < |serverLists| && n in serverLists[i].nodes :: n in serverLists[i].repr
      ensures forall i, n | 0 <= i < |clientLists| && n in clientLists[i].repr :: n.live <==> n in clientLists[i].nodes
      ensures forall i, n | 0 <= i < |serverLists| && n in serverLists[i].repr :: n.live <==> n in serverLists[i].nodes
    {
      hide IndexOk, PortsOk, Shape, SessionsOk, SessionList.Valid, ContentsAre;
      forall i | 0 <= i < |clientLists|
        ensures clientLists[i].Valid() && serverLists[i].Valid()
      {
        assert Holds(clientLists[i], ByClient, i, sessions, st.clientIndex[i]);
        assert Holds(serverLists[i], ByServer, i, sessions, st.serverIndex[i]);
      }
      forall i | 0 <= i < |clientLists|
        ensures forall n | n in clientLists[i].nodes :: n in clientLists[i].repr
        ensures forall n | n in serverLists[i].nodes :: n in serverLists[i].repr
        ensures forall n | n in clientLists[i].repr :: n.live <==> n in clientLists[i].nodes
        ensures forall n | n in serverLists[i].repr :: n.live <==> n in serverLists[i].nodes
      {
        clientLists[i].Members();
        serverLists[i].Members();
      }
    }

    /** The ghost part of sweeping: the lists already hold what `t` says. */
    ghost method Rebase(t: Table)
      requires this in Repr && During(st, t.clientIndex, t.serverIndex) && WellFormed(t)
      requires t == st.(clientIndex := t.clientIndex, serverIndex := t.serverIndex)
      modifies this`st
      ensures Valid() && st == t
    {
      hide IndexOk, PortsOk, Shape, Holds;
      st := t;
    }

    // ----- updating a session in place -----

    /** The table as a value follows a session that a handler is about to change. */
    lemma Owned(id: nat)
      requires Valid() && id < |sessions|
      ensures |sessions| == |st.store| && WellFormed(st)
      ensures sessions[id] in Repr && sessions[id].live && sessions[id].Value() == st.store[id]
    {
    }

    method TouchFromClient(s: TcpSession, h: Header, ghost id: nat)
      requires Valid() && id < |sessions| && s == sessions[id]
      modifies s, this`st
      ensures Valid() && |sessions| == |old(st).store| && st == Update(old(st), id, ClientFlags(old(st).store[id], h))
      ensures s.live && SameIdentity(old(s.Value()), s.Value())
    {
      hide IndexOk, PortsOk, Shape, Holds, ClientFlags;
      ghost var was := st.store[id];
      assert SameIdentity(was, Touch(was, FromClient(h)));
      UpdateInv(st, id, ClientFlags(was, h), 0);
      s.ReceiveFromClient(h);
      st := Update(st, id, ClientFlags(was, h));
    }

    method TouchFromWorld(s: TcpSession, h: Header, ghost id: nat)
      requires Valid() && id < |sessions| && s == sessions[id]
      modifies s, this`st
      ensures Valid() && |sessions| == |old(st).store| && st == Update(old(st), id, WorldFlags(old(st).store[id], h))
      ensures s.live && SameIdentity(old(s.Value()), s.Value())
    {
      hide IndexOk, PortsOk, Shape, Holds, WorldFlags;
      ghost var was := st.store[id];
      assert SameIdentity(was, Touch(was, FromWorld(h)));
      UpdateInv(st, id, WorldFlags(was, h), 0);
      s.ReceiveFromWorld(h);
      st := Update(st, id, WorldFlags(was, h));
    }

    // ----- teardown -----

    /** A session is freed with its server bucket; the first `i` buckets are gone. */
    ghost predicate SessionsLeft(i: nat)
      reads this, Repr
    {
      && Shape(st) && |sessions| == |st.store|
      && forall k | 0 <= k < |sessions| ::
           && sessions[k] in Repr && sessions[k].id == k
           && (sessions[k].live <==> !(Held(st, ByServer, k) && Hash(KeyOf(ByServer, st.store[k]), st.len) < i))
    }

    /** The slots from `i` on are intact. */
    ghost predicate SlotsLeft(i: nat)
      reads this, Repr
    {
      && Scalars() && WellFormed(st)
      && (forall j | 0 <= j < st.len :: clientLists[j] in Repr && clientLists[j].repr <= Repr)
      && (forall j | 0 <= j < st.len :: serverLists[j] in Repr && serverLists[j].repr <= Repr)
      && (forall j | i <= j < st.len :: Holds(clientLists[j], ByClient, j, sessions, st.clientIndex[j]))
      && (forall j | i <= j < st.len :: Holds(serverLists[j], ByServer, j, sessions, st.serverIndex[j]))
    }

    /** The sessions of a server bucket are still there, and no two of its nodes share one. */
    lemma ServerBucketLeft(i: nat)
      requires SlotsLeft(i) && SessionsLeft(i) && i < st.len
      ensures Distinct(serverLists[i].contents)
      ensures forall j | 0 <= j < |serverLists[i].contents| ::
                serverLists[i].contents[j].live && serverLists[i].contents[j] in Repr
      ensures forall k | 0 <= k < |sessions| ::
                sessions[k] in serverLists[i].contents <==>
                Held(st, ByServer, k) && Hash(KeyOf(ByServer, st.store[k]), st.len) == i
    {
      hide IndexOk, PortsOk, Hash, SessionList.Valid;
      var l, ids := serverLists[i], st.serverIndex[i];
      BucketMembers(st, ByServer, i);
      assert Holds(l, ByServer, i, sessions, ids);
      forall j | 0 <= j < |ids|
        ensures l.contents[j].id == ids[j] && l.contents[j].live
      {
      }
      forall k | 0 <= k < |sessions|
        ensures sessions[k] in l.contents <==> k in ids
      {
        if k in ids {
          var j :| 0 <= j < |ids| && ids[j] == k;
          assert l.contents[j] == sessions[k];
        }
      }
    }

    method DeleteSlot(i: nat)
      requires SlotsLeft(i) && SessionsLeft(i) && i < |clientLists|
      modifies Repr - {this}
      ensures SlotsLeft(i + 1) && SessionsLeft(i + 1)
      ensures forall n | n in old(clientLists[i].nodes) || n in old(serverLists[i].nodes) :: !n.live
      ensures forall n: ListNode | old(allocated(n)) && !old(n.live) :: !n.live
      ensures forall l: SessionList | old(allocated(l)) :: l.nodes == old(l.nodes)
    {
      hide IndexOk, PortsOk, Shape, SessionList.Valid, ContentsAre, Hash, Distinct, Held;
      SlotNodes(i);
      ServerBucketLeft(i);
      clientLists[i].DeleteAll(false);
      serverLists[i].DeleteAll(true);
      assert SlotsLeft(i + 1);
      assert forall k | 0 <= k < |sessions| ::
          sessions[k].live <==> old(sessions[k].live) && sessions[k] !in serverLists[i].contents;
    }

    lemma SlotNodes(i: nat)
      requires SlotsLeft(i) && i < |clientLists|
      ensures |clientLists| == |serverLists| == st.len
      ensures forall n | n in clientLists[i].nodes :: n in Repr
      ensures forall n | n in serverLists[i].nodes :: n in Repr
      ensures clientLists[i].Valid() && serverLists[i].Valid()
    {
    }

    /**
     Teardown: every node of both sides is freed, and exactly the sessions that the
     server index holds, each once; nothing freed is read again.
     */
    method DeleteTable()
      requires Valid()
      modifies Repr
      ensures st == old(st) && sessions == old(sessions) && |sessions| == |st.store| && Shape(st)
      ensures |clientLists| == |serverLists|
      ensures forall i, n | 0 <= i < |clientLists| && n in old(clientLists[i].nodes) :: !n.live
      ensures forall i, n | 0 <= i < |serverLists| && n in old(serverLists[i].nodes) :: !n.live
      ensures forall k | 0 <= k < |sessions| :: sessions[k].live <==> !Held(st, ByServer, k)
      ensures (forall k | 0 <= k < |sessions| && Held(st, ByClient, k) :: !sessions[k].live) <==>
              (forall k | 0 <= k < |sessions| && Held(st, ByClient, k) :: Held(st, ByServer, k))
    {
      hide IndexOk, PortsOk, SessionList.Valid, ContentsAre, Holds;
      for i := 0 to |clientLists|
        invariant SlotsLeft(i) && SessionsLeft(i) && unchanged(this)
        invariant forall j | 0 <= j < |clientLists| :: clientLists[j].nodes == old(clientLists[j].nodes)
        invariant forall j | 0 <= j < |serverLists| :: serverLists[j].nodes == old(serverLists[j].nodes)
        invariant forall j, n | 0 <= j < i && n in old(clientLists[j].nodes) :: !n.live
        invariant forall j, n | 0 <= j < i && n in old(serverLists[j].nodes) :: !n.live
      {
        DeleteSlot(i);
      }
    }
  }

  /** The first `i` buckets of a side have been swept with the given readings, the others are as before. */
  ghost predicate SweptPart(t: Table, x: Side, readings: seq<seq<int>>, index: Index, i: nat, from: int, to: int)
    requires WellFormed(t)
  {
    && |index| == t.len && |readings| == i <= t.len
    && (forall j | 0 <= j < i ::
          && |readings[j]| == |IndexOf(t, x)[j]|
          && (forall k | 0 <= k < |readings[j]| :: IndexOf(t, x)[j][k] < |t.store| && from <= readings[j][k] <= to)
          && index[j] == Select(IndexOf(t, x)[j], KeepMask(t.store, IndexOf(t, x)[j], readings[j])))
    && (forall j | i <= j < t.len :: index[j] == IndexOf(t, x)[j])
  }

  lemma SweptNone(t: Table, x: Side, from: int)
    requires WellFormed(t)
    ensures SweptPart(t, x, [], IndexOf(t, x), 0, from, from)
  {
  }

  lemma SweptMore(t: Table, x: Side, readings: seq<seq<int>>, index: Index, i: nat, from: int, to: int, later: int, r: seq<int>)
    requires WellFormed(t) && i < t.len && SweptPart(t, x, readings, index, i, from, to) && from <= to <= later
    requires |index| == t.len && |r| == |index[i]|
    requires forall k | 0 <= k < |r| :: index[i][k] < |t.store| && to <= r[k] <= later
    ensures SweptPart(t, x, readings + [r], index[i := Select(index[i], KeepMask(t.store, index[i], r))], i + 1, from, later)
  {
  }

  lemma ChronologicalNone()
    ensures Chronological([], [])
  {
  }

  /** One more pair of buckets, read after all the others. */
  lemma ChronologicalMore(t: Table, client: seq<seq<int>>, ci: Index, server: seq<seq<int>>, si: Index,
                          i: nat, from: int, to: int, r: seq<int>, q: seq<int>)
    requires WellFormed(t) && Chronological(client, server)
    requires SweptPart(t, ByClient, client, ci, i, from, to) && SweptPart(t, ByServer, server, si, i, from, to)
    requires (forall k | 0 <= k < |r| :: to <= r[k]) && (forall k | 0 <= k < |q| :: to <= q[k])
    requires TailThenHead(r) && TailThenHead(q) && forall a, b | a in r && b in q :: a <= b
    ensures Chronological(client + [r], server + [q])
  {
    hide IndexOk, PortsOk, Shape, Select, KeepMask, TailThenHead;
    forall j, a | 0 <= j < i && a in client[j] + server[j]
      ensures a <= to
    {
    }
  }

  lemma SweptAll(t: Table, x: Side, readings: seq<seq<int>>, index: Index, from: int, to: int)
    requires WellFormed(t) && SweptPart(t, x, readings, index, t.len, from, to)
    ensures ReadingsOk(IndexOf(t, x), readings, from, to)
    ensures index == SweepIndex(t, x, readings)
  {
  }

  lemma EmptyFields(len: nat, minPort: uint16, maxPort: uint16)
    requires len > 0 && minPort <= maxPort && maxPort - minPort < 0xffff
    ensures var t := EmptyTable(len, minPort, maxPort);
            && t.len == len == |t.clientIndex| == |t.serverIndex| && t.store == []
            && t.minPort == minPort && t.modNum == maxPort - minPort + 1 && t.nextNum == 0
            && forall i | 0 <= i < len :: t.clientIndex[i] == [] && t.serverIndex[i] == []
  {
  }

  lemma LinkFields(t: Table, s: Session)
    requires Shape(t)
    ensures var r := Link(t, s);
            && r.len == t.len && r.minPort == t.minPort && r.modNum == t.modNum && r.nextNum == t.nextNum
            && r.store == t.store + [s]
            && r.clientIndex == Insert(t.clientIndex, Hash(KeyOf(ByClient, s), t.len), |t.store|)
            && r.serverIndex == Insert(t.serverIndex, Hash(KeyOf(ByServer, s), t.len), |t.store|)
            && |r.clientIndex| == |r.serverIndex| == t.len
  {
  }

  lemma BucketMembers(t: Table, x: Side, i: nat)
    requires WellFormed(t) && i < t.len
    ensures BucketOk(t.store, x, t.len, i, IndexOf(t, x)[i])
  {
  }
}
