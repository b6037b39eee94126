/**
 Sessions, list nodes and bucket lists on the heap. `live` marks memory that has
 not been freed: every read of a field goes through a member that requires it.
 */
module SessionLists {
  import opened Bytes
  import opened Sessions
  import opened TableLaws
  import opened Flags

  /** The system clock: each reading may be later than the one before, never earlier. */
  class SystemClock {
    var now: int
    var calls: nat
    const advance: nat -> nat

    constructor (start: int, advance: nat -> nat)
      ensures now == start
    {
      this.now, this.calls, this.advance := start, 0, advance;
    }

    method Time() returns (t: int)
      modifies this
      ensures old(now) <= t == now
    {
      now := now + advance(calls);
      calls := calls + 1;
      t := now;
    }
  }

  class TcpSession {
    var clientIp: uint32
    var clientPort: uint16
    var serverPort: uint16
    var clientSeq: uint32
    var serverSeq: uint32
    var synState: nat
    var clientFin: nat
    var serverFin: nat
    var expire: int
    ghost const id: nat
    ghost var live: bool

    constructor (ip: uint32, port: uint16, serverPort: uint16, expire: int, ghost id: nat)
      ensures Value() == NewSession(ip, port, serverPort, expire) && live && this.id == id
    {
      this.clientIp, this.clientPort, this.serverPort, this.expire := ip, port, serverPort, expire;
      this.clientSeq, this.serverSeq, this.synState, this.clientFin, this.serverFin := 0, 0, 0, 0, 0;
      this.id, this.live := id, true;
    }

    ghost function Value(): Session
      reads this
    {
      Session(clientIp, clientPort, serverPort, clientSeq, serverSeq, synState, clientFin, serverFin, expire)
    }

    function ClientIp(): uint32
      requires live
      reads this
    {
      clientIp
    }

    function ClientPort(): uint16
      requires live
      reads this
    {
      clientPort
    }

    function ServerPort(): uint16
      requires live
      reads this
    {
      serverPort
    }

    predicate HasClient(ip: uint32, port: uint16)
      requires live
      reads this
    {
      clientIp == ip && clientPort == port
    }

    predicate HasPort(port: uint16)
      requires live
      reads this
    {
      serverPort == port
    }

    predicate ExpiredAt(t: int)
      requires live
      reads this
    {
      t > expire
    }

    /** The flag handling of a packet from the client. */
    method ReceiveFromClient(h: Header)
      requires live
      modifies this
      ensures live && Value() == ClientFlags(old(Value()), h)
    {
      if h.syn && synState == 0 {
        clientSeq := h.seqNo;
      } else {
        if h.ack && h.ackNo > serverSeq {
          if synState == 2 {
            synState := 3;
          } else if clientFin == 1 {
            clientFin := 2;
          }
        }
        if h.fin {
          if serverFin == 0 {
            serverFin := 1;
            clientSeq := h.seqNo;
          }
        }
      }
    }

    /** The flag handling of a packet from the world. */
    method ReceiveFromWorld(h: Header)
      requires live
      modifies this
      ensures live && Value() == WorldFlags(old(Value()), h)
    {
      if h.syn && synState == 0 && h.ack && h.ackNo > clientSeq {
        synState := 2;
        serverSeq := h.seqNo;
      } else {
        if h.ack && serverFin == 1 && h.ackNo > clientSeq {
          serverFin := 2;
        }
        if h.fin && clientFin == 0 {
          clientFin := 1;
          serverSeq := h.seqNo;
        }
      }
    }

    method Free()
      requires live
      modifies this`live
      ensures !live
    {
      live := false;
    }
  }

  class ListNode {
    var session: TcpSession
    var next: ListNode?
    ghost const owner: SessionList
    ghost var live: bool

    constructor (session: TcpSession, ghost owner: SessionList)
      ensures this.session == session && next == null && this.owner == owner && live
    {
      this.session, this.next, this.owner, this.live := session, null, owner, true;
    }

    function Next(): ListNode?
      requires live
      reads this
    {
      next
    }

    function Held(): TcpSession
      requires live
      reads this
    {
      session
    }

    method Free()
      requires live
      modifies this`live
      ensures !live
    {
      live := false;
    }
  }

  /** A sequence with one position taken out. */
  function Without<T>(s: seq<T>, k: nat): (r: seq<T>)
    requires k < |s|
    ensures |r| == |s| - 1
    ensures forall i | 0 <= i < k :: r[i] == s[i]
    ensures forall i | k <= i < |s| - 1 :: r[i] == s[i + 1]
  {
    s[..k] + s[k + 1..]
  }

  ghost predicate Distinct<T>(s: seq<T>) {
    forall i, j | 0 <= i < j < |s| :: s[i] != s[j]
  }

  lemma DistinctWithout<T>(s: seq<T>, k: nat)
    requires Distinct(s) && k < |s|
    ensures Distinct(Without(s, k))
    ensures forall i | 0 <= i < |s| - 1 :: Without(s, k)[i] != s[k]
  {
  }

  lemma WithoutMember<T>(s: seq<T>, k: nat)
    requires Distinct(s) && k < |s|
    ensures forall x | x in s && x != s[k] :: x in Without(s, k)
    ensures s[k] !in Without(s, k)
  {
    forall x | x in s && x != s[k]
      ensures x in Without(s, k)
    {
      var i :| 0 <= i < |s| && s[i] == x;
      assert Without(s, k)[if i < k then i else i - 1] == x;
    }
  }

  lemma DistinctAt<T>(s: seq<T>, k: nat)
    requires Distinct(s) && k < |s|
    ensures forall i | 0 <= i < |s| && i != k :: s[i] != s[k]
  {
  }

  lemma DistinctSnoc<T>(s: seq<T>, x: T)
    requires Distinct(s) && x !in s
    ensures Distinct(s + [x])
  {
  }

  /** A chain whose tail has been swept up to position `i`, with one verdict for each member passed. */
  ghost function SweptTo<T>(all: seq<T>, i: nat, keep: seq<bool>): (r: seq<T>)
    requires 1 <= i <= |all| && |keep| == i - 1
  {
    [all[0]] + Select(all[1..i], keep) + all[i..]
  }

  /** The position of the last member passed that was kept. */
  ghost function LastKept<T>(all: seq<T>, i: nat, keep: seq<bool>): (k: nat)
    requires 1 <= i <= |all| && |keep| == i - 1
  {
    |Select(all[1..i], keep)|
  }

  lemma SweptStart<T>(all: seq<T>)
    requires |all| > 0
    ensures SweptTo(all, 1, []) == all && LastKept(all, 1, []) == 0
  {
  }

  lemma SweptNext<T>(all: seq<T>, i: nat, keep: seq<bool>, verdict: bool)
    requires 1 <= i < |all| && |keep| == i - 1
    ensures var s, k := SweptTo(all, i, keep), LastKept(all, i, keep);
            && |s| == k + 1 + |all| - i && s[k + 1] == all[i]
            && SweptTo(all, i + 1, keep + [verdict]) == (if verdict then s else Without(s, k + 1))
            && LastKept(all, i + 1, keep + [verdict]) == if verdict then k + 1 else k
  {
    hide Select;
    assert all[1..i + 1] == all[1..i] + [all[i]];
    SelectSnoc(all[1..i], keep, all[i], verdict);
    assert all[i..] == [all[i]] + all[i + 1..];
  }

  lemma SweptEnd<T>(all: seq<T>, i: nat, keep: seq<bool>)
    requires 1 <= i <= |all| && |keep| == i - 1
    ensures |SweptTo(all, i, keep)| == LastKept(all, i, keep) + 1 + |all| - i
    ensures i == |all| ==> SweptTo(all, i, keep) == [all[0]] + Select(all[1..], keep)
  {
    assert all[1..|all|] == all[1..];
  }

  /** Each member after the first has been tested at its reading, in order, with this verdict. */
  ghost predicate Judged(expire: seq<int>, readings: seq<int>, keep: seq<bool>, from: int, to: int) {
    && |readings| == |keep| < |expire|
    && (forall j | 0 <= j < |readings| :: from <= readings[j] <= to && (keep[j] <==> readings[j] <= expire[j + 1]))
    && (forall j, k | 0 <= j < k < |readings| :: readings[j] <= readings[k])
  }

  ghost function Deadlines(s: seq<TcpSession>): (r: seq<int>)
    reads s
    ensures |r| == |s| && forall j | 0 <= j < |s| :: r[j] == s[j].expire
  {
    seq(|s|, j requires 0 <= j < |s| reads s => s[j].expire)
  }

  lemma JudgedNone(expire: seq<int>, from: int)
    requires |expire| > 0
    ensures Judged(expire, [], [], from, from)
  {
  }

  lemma JudgedFacts(expire: seq<int>, readings: seq<int>, keep: seq<bool>, from: int, to: int)
    requires Judged(expire, readings, keep, from, to)
    ensures |readings| == |keep| < |expire|
    ensures forall j | 0 <= j < |readings| :: from <= readings[j] <= to && (keep[j] <==> readings[j] <= expire[j + 1])
    ensures forall j, k | 0 <= j < k < |readings| :: readings[j] <= readings[k]
  {
  }

  lemma JudgedMore(expire: seq<int>, readings: seq<int>, keep: seq<bool>, from: int, to: int, t: int)
    requires Judged(expire, readings, keep, from, to) && |keep| + 1 < |expire| && to <= t && from <= t
    ensures Judged(expire, readings + [t], keep + [t <= expire[|keep| + 1]], from, t)
  {
  }

  /** The node at a position of a chain, or null past its end. */
  ghost function NodeAt(nodes: seq<ListNode>, i: nat): ListNode? {
    if i < |nodes| then nodes[i] else null
  }

  lemma NodeIs(nodes: seq<ListNode>, i: nat)
    ensures NodeAt(nodes, i) == if i < |nodes| then nodes[i] else null
  {
  }

  lemma NodeSnoc(nodes: seq<ListNode>, x: ListNode)
    ensures forall i: nat :: NodeAt(nodes + [x], i) == if i == |nodes| then x else NodeAt(nodes, i)
  {
  }

  lemma NodeWithout(nodes: seq<ListNode>, k: nat)
    requires k < |nodes|
    ensures forall i: nat :: NodeAt(Without(nodes, k), i) == NodeAt(nodes, if i < k then i else i + 1)
  {
  }

  /** One slot of a bucket array: the head pointer and the chain behind it. */
  class SessionList {
    var head: ListNode?
    ghost var nodes: seq<ListNode>
    ghost var contents: seq<TcpSession>
    ghost var repr: set<ListNode>
    ghost const side: Side
    ghost const slot: nat

    constructor (ghost side: Side, ghost slot: nat)
      ensures Valid() && contents == [] && repr == {} && this.side == side && this.slot == slot
    {
      head, nodes, contents, repr := null, [], [], {};
      this.side, this.slot := side, slot;
    }

    ghost predicate Valid()
      reads this, repr
    {
      && (forall n | n in repr :: n.owner == this)
      && head == NodeAt(nodes, 0)
      && |contents| == |nodes|
      && (forall i | 0 <= i < |nodes| ::
            && nodes[i] in repr && nodes[i].live && nodes[i].session == contents[i]
            && nodes[i].next == NodeAt(nodes, i + 1))
      && Distinct(nodes)
      && (forall n | n in repr :: n.live ==> n in nodes)
    }

    /** What validity says about one position. */
    lemma ChainAt(k: nat)
      requires Valid()
      ensures |nodes| == |contents| && head == if |nodes| > 0 then nodes[0] else null
      ensures k < |nodes| ==> nodes[k].live && nodes[k].session == contents[k]
                              && nodes[k].next == if k + 1 < |nodes| then nodes[k + 1] else null
    {
    }

    /** Of the nodes ever linked into this list, the live ones are those still linked. */
    lemma Members()
      requires Valid()
      ensures forall n | n in nodes :: n in repr && n.live
      ensures forall n | n in repr && n.live :: n in nodes
    {
    }

    lemma Owners()
      requires Valid()
      ensures forall n | n in repr :: n.owner == this
    {
    }

    lemma Links()
      requires Valid()
      ensures Distinct(nodes) && |contents| == |nodes| && head == NodeAt(nodes, 0)
      ensures forall i | 0 <= i < |nodes| ::
                && nodes[i] in repr && nodes[i].live && nodes[i].session == contents[i]
                && nodes[i].next == NodeAt(nodes, i + 1)
    {
    }

    /** Walk to the end of a chain that is not empty. */
    method Last() returns (last: ListNode)
      requires Valid() && head != null
      ensures |nodes| > 0 && last == nodes[|nodes| - 1]
    {
      hide Distinct, NodeAt;
      last := head;
      ghost var k := 0;
      NodeIs(nodes, 0);
      NodeIs(nodes, 1);
      while last.Next() != null
        invariant 0 <= k < |nodes| && last == nodes[k]
        invariant NodeAt(nodes, k + 1) == if k + 1 < |nodes| then nodes[k + 1] else null
        decreases |nodes| - k
      {
        last := last.Next();
        k := k + 1;
        NodeIs(nodes, k + 1);
      }
    }

    /** Append at the end of the chain. */
    method Insert(session: TcpSession)
      requires Valid()
      modifies this, repr
      ensures Valid() && contents == old(contents) + [session]
      ensures |nodes| == |old(nodes)| + 1 && old(nodes) <= nodes
      ensures fresh(nodes[|old(nodes)|]) && repr == old(repr) + {nodes[|old(nodes)|]}
      ensures forall m: SessionList | m != this && old(allocated(m)) && old(m.Valid()) ::
                m.Valid() && m.contents == old(m.contents) && m.repr == old(m.repr)
    {
      hide Distinct, NodeAt;
      var added := new ListNode(session, this);
      DistinctSnoc(nodes, added);
      NodeSnoc(nodes, added);
      NodeIs(nodes, 0);
      NodeIs(nodes, |nodes|);
      NodeIs(nodes, |nodes| + 1);
      if head == null {
        head := added;
      } else {
        var last := Last();
        DistinctAt(nodes, |nodes| - 1);
        last.next := added;
      }
      repr := repr + {added};
      nodes := nodes + [added];
      contents := contents + [session];
    }

    /** The first session with this client, at position `k`. */
    method SearchByClient(ip: uint32, port: uint16) returns (s: TcpSession?, ghost k: nat)
      requires Valid() && forall i | 0 <= i < |contents| :: contents[i].live
      ensures k <= |contents| && forall i | 0 <= i < k :: !contents[i].HasClient(ip, port)
      ensures s == null <==> k == |contents|
      ensures s != null ==> s == contents[k] && s.HasClient(ip, port)
    {
      hide Distinct, NodeAt;
      var node := head;
      k := 0;
      NodeIs(nodes, 0);
      while node != null
        invariant k <= |nodes| && node == if k < |nodes| then nodes[k] else null
        invariant forall i | 0 <= i < k :: !contents[i].HasClient(ip, port)
        decreases |nodes| - k
      {
        if node.Held().HasClient(ip, port) {
          return node.Held(), k;
        }
        node := node.Next();
        k := k + 1;
        NodeIs(nodes, k);
      }
      return null, k;
    }

    /** The first session with this server port, at position `k`. */
    method SearchByServer(port: uint16) returns (s: TcpSession?, ghost k: nat)
      requires Valid() && forall i | 0 <= i < |contents| :: contents[i].live
      ensures k <= |contents| && forall i | 0 <= i < k :: !contents[i].HasPort(port)
      ensures s == null <==> k == |contents|
      ensures s != null ==> s == contents[k] && s.HasPort(port)
    {
      hide Distinct, NodeAt;
      var node := head;
      k := 0;
      NodeIs(nodes, 0);
      while node != null
        invariant k <= |nodes| && node == if k < |nodes| then nodes[k] else null
        invariant forall i | 0 <= i < k :: !contents[i].HasPort(port)
        decreases |nodes| - k
      {
        if node.Held().HasPort(port) {
          return node.Held(), k;
        }
        node := node.Next();
        k := k + 1;
        NodeIs(nodes, k);
      }
      return null, k;
    }

    /** Unlink and free the node after `current`, which stands at position `k`. */
    method UnlinkNext(current: ListNode, ghost k: nat)
      requires Valid() && k + 1 < |nodes| && current == nodes[k]
      modifies this, repr
      ensures Valid() && |nodes| == |old(nodes)| - 1 && k < |nodes| && nodes[k] == current
      ensures contents == Without(old(contents), k + 1) && repr == old(repr)
      ensures forall n | n in old(nodes) :: n.live <==> n in nodes
    {
      hide Without, Distinct, NodeAt;
      DistinctAt(nodes, k);
      DistinctWithout(nodes, k + 1);
      WithoutMember(nodes, k + 1);
      NodeWithout(nodes, k + 1);
      NodeIs(nodes, k + 1);
      var gone := current.Next();
      current.next := gone.Next();
      gone.Free();
      nodes := Without(nodes, k + 1);
      contents := Without(contents, k + 1);
    }

    /** Unlink and free the first node. */
    method UnlinkHead()
      requires Valid() && |nodes| > 0
      modifies this, repr
      ensures Valid() && contents == old(contents)[1..] && repr == old(repr)
      ensures forall n | n in old(nodes) :: n.live <==> n in nodes
    {
      hide NodeAt;
      NodeIs(nodes, 0);
      assert nodes[1..] == Without(nodes, 0);
      WithoutMember(nodes, 0);
      NodeWithout(nodes, 0);
      var gone := head;
      head := gone.Next();
      nodes := nodes[1..];
      contents := contents[1..];
      gone.Free();
    }

    /**
     The sweep of one bucket: the tail is tested first, the head last. `readings`
     has the clock reading of each test and `keep` its verdict; the survivors keep
     their order.
     */
    method DeleteExpired(clock: SystemClock) returns (ghost readings: seq<int>, ghost keep: seq<bool>)
      requires Valid() && forall i | 0 <= i < |contents| :: contents[i].live
      modifies this, repr, clock
      ensures Valid() && repr == old(repr)
      ensures old(clock.now) <= clock.now
      ensures |readings| == |old(contents)| && |keep| == |old(contents)|
      ensures forall j | 0 <= j < |readings| ::
                old(clock.now) <= readings[j] <= clock.now
                && (keep[j] <==> readings[j] <= old(contents)[j].expire)
      ensures TailThenHead(readings)
      ensures contents == Select(old(contents), keep)
      ensures forall n | n in old(nodes) :: n.live <==> n in nodes
      ensures forall m: SessionList | m != this && old(allocated(m)) && old(m.Valid()) ::
                m.Valid() && m.contents == old(m.contents) && m.repr == old(m.repr)
    {
      hide Valid, Select;
      forall m: SessionList | allocated(m) && m.Valid()
        ensures forall n | n in m.repr :: n.owner == m
      {
        m.Owners();
      }
      ChainAt(0);
      Members();
      if head == null {
        readings, keep := [], [];
        SelectNone(contents);
        return;
      }
      readings, keep := DeleteExpiredTail(clock);
      ChainAt(0);
      var t := clock.Time();
      ChainAt(0);
      var expired := head.Held().ExpiredAt(t);
      assert contents[1..] == Select(old(contents)[1..], keep);
      if expired {
        UnlinkHead();
      }
      Members();
      SelectCons(old(contents), keep, !expired);
      readings, keep := [t] + readings, [!expired] + keep;
    }

    method DeleteExpiredTail(clock: SystemClock) returns (ghost readings: seq<int>, ghost keep: seq<bool>)
      requires Valid() && |nodes| > 0 && forall i | 0 <= i < |contents| :: contents[i].live
      modifies this, repr, clock
      ensures Valid() && repr == old(repr)
      ensures old(clock.now) <= clock.now
      ensures |readings| == |old(contents)| - 1 == |keep|
      ensures forall j | 0 <= j < |readings| ::
                old(clock.now) <= readings[j] <= clock.now
                && (keep[j] <==> readings[j] <= old(contents)[j + 1].expire)
      ensures forall j, k | 0 <= j < k < |readings| :: readings[j] <= readings[k]
      ensures contents == [old(contents)[0]] + Select(old(contents)[1..], keep)
    {
      hide Valid, SweptTo, LastKept, Select, Without, NodeAt, Judged, Deadlines;
      ghost var all, i, from := contents, 1, clock.now;
      ghost var expire := Deadlines(all);
      ChainAt(0);
      var current := head;
      readings, keep := [], [];
      ghost var k := 0;
      SweptStart(all);
      JudgedNone(expire, from);
      while current.Next() != null
        invariant Valid() && repr == old(repr) && k < |nodes| && current == nodes[k] && current.live
        invariant current.next == if k + 1 < |nodes| then nodes[k + 1] else null
        invariant forall j | 0 <= j < |all| :: all[j].live && all[j].expire == expire[j]
        invariant 1 <= i <= |all| == |expire| && |readings| == |keep| == i - 1 && from <= clock.now
        invariant Judged(expire, readings, keep, from, clock.now)
        invariant contents == SweptTo(all, i, keep) && k == LastKept(all, i, keep)
        invariant |nodes| == k + 1 + |all| - i && |contents| == |nodes|
        decreases |all| - i
      {
        ghost var before := clock.now;
        var t := clock.Time();
        JudgedMore(expire, readings, keep, from, before, t);
        ChainAt(k + 1);
        SweptNext(all, i, keep, false);
        SweptNext(all, i, keep, true);
        var expired := current.Next().Held().ExpiredAt(t);
        if expired {
          UnlinkNext(current, k);
        } else {
          current := current.Next();
          k := k + 1;
        }
        ChainAt(k);
        readings, keep, i := readings + [t], keep + [!expired], i + 1;
      }
      SweptEnd(all, i, keep);
      JudgedFacts(expire, readings, keep, from, clock.now);
    }

    /** Free every node, and with `removeSession` the sessions too, each exactly once. */
    method DeleteAll(removeSession: bool)
      requires Valid()
      requires removeSession ==> forall i | 0 <= i < |contents| :: contents[i].live
      requires removeSession ==> Distinct(contents)
      modifies nodes`live
      modifies if removeSession then set s | s in contents else {}
      ensures forall n | n in nodes :: !n.live
      ensures removeSession ==> forall s | s in contents :: !s.live
      ensures forall m: SessionList | m != this && old(allocated(m)) && old(m.Valid()) :: m.Valid()
      ensures forall n: ListNode | old(allocated(n)) && !old(n.live) :: !n.live
    {
      hide Valid, Distinct, NodeAt;
      forall m: SessionList | allocated(m) && m.Valid()
        ensures forall n | n in m.repr :: n.owner == m
      {
        m.Owners();
      }
      Links();
      var node := head;
      ghost var k := 0;
      NodeIs(nodes, 0);
      while node != null
        invariant k <= |nodes| && node == if k < |nodes| then nodes[k] else null
        invariant forall i | 0 <= i < k :: !nodes[i].live
        invariant forall i | k <= i < |nodes| :: nodes[i].live
        invariant removeSession ==> forall i | 0 <= i < k :: !contents[i].live
        invariant removeSession ==> forall i | k <= i < |contents| :: contents[i].live
        decreases |nodes| - k
      {
        DistinctAt(nodes, k);
        if removeSession {
          DistinctAt(contents, k);
        }
        var gone := node;
        node := node.Next();
        if removeSession {
          gone.Held().Free();
        }
        gone.Free();
        k := k + 1;
        NodeIs(nodes, k);
      }
    }
  }
}
