/**
 What add, sweep and in-place update keep: buckets stay well-formed, keys stay
 distinct, and no unexpired session leaves either index.
 */
module TableLaws {
  import opened Bytes
  import opened Sessions

  // ----- buckets -----

  lemma BucketGrow(store: seq<Session>, s: Session, x: Side, len: nat, i: nat, ids: seq<nat>)
    requires len > 0 && BucketOk(store, x, len, i, ids)
    ensures BucketOk(store + [s], x, len, i, ids)
  {
  }

  lemma BucketAppend(store: seq<Session>, s: Session, x: Side, len: nat, ids: seq<nat>)
    requires len > 0 && BucketOk(store, x, len, Hash(KeyOf(x, s), len), ids)
    requires forall j | 0 <= j < |ids| :: KeyOf(x, store[ids[j]]) != KeyOf(x, s)
    ensures BucketOk(store + [s], x, len, Hash(KeyOf(x, s), len), ids + [|store|])
  {
  }

  lemma SelectSnoc<T>(s: seq<T>, mask: seq<bool>, x: T, b: bool)
    requires |mask| == |s|
    ensures Select(s + [x], mask + [b]) == Select(s, mask) + if b then [x] else []
  {
  }

  lemma SelectNone<T>(s: seq<T>)
    requires s == []
    ensures Select(s, []) == s
  {
  }

  lemma {:induction false} SelectCons<T>(s: seq<T>, keep: seq<bool>, first: bool)
    requires |s| == |keep| + 1
    ensures Select(s, [first] + keep) == (if first then [s[0]] else []) + Select(s[1..], keep)
  {
    var n, mask := |s| - 1, [first] + keep;
    if n == 0 {
      assert s[..0] == [] && mask[..0] == [];
    } else {
      assert mask[..n] == [first] + keep[..n - 1];
      assert s[..n][1..] == s[1..][..n - 1];
      SelectCons(s[..n], keep[..n - 1], first);
    }
  }

  /** Selected positions, in increasing order, with the elements they hold. */
  lemma {:induction false} SelectAt<T>(s: seq<T>, mask: seq<bool>) returns (at: seq<nat>)
    requires |mask| == |s|
    ensures |at| == |Select(s, mask)|
    ensures forall j | 0 <= j < |at| :: at[j] < |s| && mask[at[j]] && Select(s, mask)[j] == s[at[j]]
    ensures forall j, k | 0 <= j < k < |at| :: at[j] < at[k]
    ensures forall i | 0 <= i < |s| && mask[i] :: i in at
  {
    hide Select;
    if s == [] {
      SelectNone(s);
      at := [];
    } else {
      var n := |s| - 1;
      assert s == s[..n] + [s[n]] && mask == mask[..n] + [mask[n]];
      SelectSnoc(s[..n], mask[..n], s[n], mask[n]);
      at := SelectAt(s[..n], mask[..n]);
      if mask[n] {
        at := at + [n];
        assert at[|at| - 1] == n;
      }
      forall i | 0 <= i < |s| && mask[i]
        ensures i in at
      {
        if i < n {
          assert mask[..n][i];
        }
      }
    }
  }

  lemma BucketSelect(store: seq<Session>, x: Side, len: nat, i: nat, ids: seq<nat>, mask: seq<bool>)
    requires len > 0 && BucketOk(store, x, len, i, ids) && |mask| == |ids|
    ensures BucketOk(store, x, len, i, Select(ids, mask))
  {
    var at := SelectAt(ids, mask);
  }

  // ----- adding -----

  /** A probe that succeeds stops at a port of the range that the whole server index lacks. */
  lemma {:induction false} ProbeSound(t: Table, n: uint32, count: nat)
    requires WellFormed(t) && count <= t.modNum
    ensures var p := Probe(t, n, count).port;
            p.Some? ==> t.minPort <= p.value < t.minPort + t.modNum && !InUse(t, p.value)
    decreases t.modNum - count
  {
    hide IndexOk, InUse;
    if InUse(t, ProbePort(t, n)) && count + 1 <= t.modNum {
      ProbeSound(t, (n + 1) % 0x1_0000_0000, count + 1);
    }
  }

  /** Linking a session whose key is new keeps an index well-formed. */
  lemma LinkIndexOk(t: Table, s: Session, x: Side)
    requires WellFormed(t) && Find(t, KeyOf(x, s)).None?
    ensures Shape(Link(t, s)) && IndexOk(Link(t, s), x)
  {
    var r, h := Link(t, s), Hash(KeyOf(x, s), t.len);
    forall i | 0 <= i < t.len
      ensures BucketOk(r.store, x, t.len, i, IndexOf(r, x)[i])
    {
      var ids := IndexOf(t, x)[i];
      assert BucketOk(t.store, x, t.len, i, ids);
      if i == h {
        BucketAppend(t.store, s, x, t.len, ids);
      } else {
        BucketGrow(t.store, s, x, t.len, i, ids);
      }
    }
  }

  /** The index gains exactly the new session. */
  lemma LinkHeld(t: Table, s: Session, x: Side, id: nat)
    requires WellFormed(t)
    ensures Shape(Link(t, s))
    ensures Held(Link(t, s), x, id) <==> Held(t, x, id) || id == |t.store|
  {
  }

  lemma LinkInv(t: Table, s: Session, now: int)
    requires WellFormed(t)
    requires Find(t, KeyOf(ByClient, s)).None? && Find(t, KeyOf(ByServer, s)).None?
    requires t.minPort <= s.serverPort < t.minPort + t.modNum
    ensures WellFormed(Link(t, s)) && (Covered(t, now) ==> Covered(Link(t, s), now))
  {
    LinkIndexOk(t, s, ByClient);
    LinkIndexOk(t, s, ByServer);
    hide IndexOk, Held;
    forall id: nat | id < |t.store| + 1
      ensures Held(Link(t, s), ByClient, id) <==> Held(t, ByClient, id) || id == |t.store|
      ensures Held(Link(t, s), ByServer, id) <==> Held(t, ByServer, id) || id == |t.store|
    {
      LinkHeld(t, s, ByClient, id);
      LinkHeld(t, s, ByServer, id);
    }
  }

  /** Moving the port counter changes nothing that is looked up. */
  lemma CounterFrame(t: Table, n: uint32, now: int)
    requires WellFormed(t)
    ensures WellFormed(t.(nextNum := n)) && (Covered(t, now) ==> Covered(t.(nextNum := n), now))
    ensures forall k: Key :: Find(t.(nextNum := n), k) == Find(t, k)
    ensures forall x: Side, id: nat :: Held(t.(nextNum := n), x, id) <==> Held(t, x, id)
  {
    var r := t.(nextNum := n);
    assert forall x: Side :: IndexOf(r, x) == IndexOf(t, x);
  }

  lemma AddInv(t: Table, ip: uint32, port: uint16, timeout: int, time: int, now: int)
    requires WellFormed(t)
    ensures var r := Add(t, ip, port, timeout, time).table;
            WellFormed(r) && (Covered(t, now) ==> Covered(r, now))
  {
    hide IndexOk, Covered, PortsOk, Held, Find, Probe, Link;
    var p := Probe(t, t.nextNum, 0);
    ProbeSound(t, t.nextNum, 0);
    CounterFrame(t, p.nextNum, now);
    if Find(t, ClientKey(ip, port)).None? && p.port.Some? {
      LinkInv(t.(nextNum := p.nextNum), NewSession(ip, port, p.port.value, time + timeout), now);
    }
  }

  // ----- sweeping -----

  lemma SweepIndexOk(t: Table, x: Side, readings: seq<seq<int>>)
    requires WellFormed(t)
    requires |readings| == t.len && forall i | 0 <= i < t.len :: |readings[i]| == |IndexOf(t, x)[i]|
    ensures forall i | 0 <= i < t.len :: BucketOk(t.store, x, t.len, i, SweepIndex(t, x, readings)[i])
  {
    forall i | 0 <= i < t.len
      ensures BucketOk(t.store, x, t.len, i, SweepIndex(t, x, readings)[i])
    {
      var ids := IndexOf(t, x)[i];
      assert BucketOk(t.store, x, t.len, i, ids);
      BucketSelect(t.store, x, t.len, i, ids, KeepMask(t.store, ids, readings[i]));
    }
  }

  /** A member of a swept bucket was unexpired when it was tested, and conversely. */
  lemma SelectKeeps(store: seq<Session>, ids: seq<nat>, readings: seq<int>, id: nat, from: int, to: int)
    requires |readings| == |ids| && forall j | 0 <= j < |ids| :: ids[j] < |store| && from <= readings[j] <= to
    requires id < |store|
    ensures id in Select(ids, KeepMask(store, ids, readings)) ==> id in ids && from <= store[id].expire
    ensures id in ids && to <= store[id].expire ==> id in Select(ids, KeepMask(store, ids, readings))
  {
    var mask := KeepMask(store, ids, readings);
    var at := SelectAt(ids, mask);
    var r := Select(ids, mask);
    if id in r {
      var j :| 0 <= j < |r| && r[j] == id;
      assert mask[at[j]];
    }
    if id in ids && to <= store[id].expire {
      var i :| 0 <= i < |ids| && ids[i] == id;
      assert mask[i];
      var j :| 0 <= j < |at| && at[j] == i;
      assert r[j] == id;
    }
  }

  /** The members of a bucket that are not expired at time `now`, in order. */
  function Unexpired(store: seq<Session>, ids: seq<nat>, now: int): (r: seq<nat>)
    requires forall j | 0 <= j < |ids| :: ids[j] < |store|
  {
    if ids == [] then []
    else (if now <= store[ids[0]].expire then [ids[0]] else []) + Unexpired(store, ids[1..], now)
  }

  /** With one clock value the in-place sweep of a bucket is the filter of its unexpired members. */
  lemma {:induction false} SweepIsFilter(store: seq<Session>, ids: seq<nat>, readings: seq<int>, now: int)
    requires |readings| == |ids| && forall j | 0 <= j < |ids| :: ids[j] < |store| && readings[j] == now
    ensures Select(ids, KeepMask(store, ids, readings)) == Unexpired(store, ids, now)
  {
    if ids != [] {
      var mask := KeepMask(store, ids, readings);
      assert mask == [mask[0]] + mask[1..] && mask[1..] == KeepMask(store, ids[1..], readings[1..]);
      SelectCons(ids, mask[1..], mask[0]);
      SweepIsFilter(store, ids[1..], readings[1..], now);
    }
  }

  /**
   With a clock that moves on during the sweep, the survivors are an ordered
   sublist without any member expired at the start and with every member
   unexpired at the end.
   */
  lemma SweepIsSublist(store: seq<Session>, ids: seq<nat>, readings: seq<int>, from: int, to: int) returns (at: seq<nat>)
    requires |readings| == |ids| && forall j | 0 <= j < |ids| :: ids[j] < |store| && from <= readings[j] <= to
    ensures var r := Select(ids, KeepMask(store, ids, readings));
            && |at| == |r| && (forall j, k | 0 <= j < k < |at| :: at[j] < at[k])
            && (forall j | 0 <= j < |at| :: at[j] < |ids| && r[j] == ids[at[j]] && from <= store[r[j]].expire)
            && (forall i | 0 <= i < |ids| && to <= store[ids[i]].expire :: i in at)
  {
    hide Select;
    at := SelectAt(ids, KeepMask(store, ids, readings));
  }

  /** A sweep drops nothing unexpired at its end and keeps nothing expired at its start. */
  lemma SweepHeld(t: Table, x: Side, client: seq<seq<int>>, server: seq<seq<int>>, from: int, to: int, id: nat)
    requires WellFormed(t)
    requires ReadingsOk(t.clientIndex, client, from, to) && ReadingsOk(t.serverIndex, server, from, to)
    ensures Shape(Sweep(t, client, server))
    ensures Held(Sweep(t, client, server), x, id) ==> Held(t, x, id) && from <= t.store[id].expire
    ensures Held(t, x, id) && to <= t.store[id].expire ==> Held(Sweep(t, client, server), x, id)
  {
    if id < |t.store| {
      var i := Hash(KeyOf(x, t.store[id]), t.len);
      var ids := IndexOf(t, x)[i];
      assert BucketOk(t.store, x, t.len, i, ids);
      SelectKeeps(t.store, ids, if x == ByClient then client[i] else server[i], id, from, to);
    }
  }

  lemma SweepInv(t: Table, client: seq<seq<int>>, server: seq<seq<int>>, from: int, to: int)
    requires WellFormed(t) && from <= to
    requires ReadingsOk(t.clientIndex, client, from, to) && ReadingsOk(t.serverIndex, server, from, to)
    ensures var r := Sweep(t, client, server);
            WellFormed(r) && (Covered(t, from) ==> Covered(r, to))
  {
    hide Held, BucketOk, SweepIndex;
    SweepIndexOk(t, ByClient, client);
    SweepIndexOk(t, ByServer, server);
    forall id: nat | id < |t.store| && to <= t.store[id].expire && Covered(t, from)
      ensures Held(Sweep(t, client, server), ByClient, id) && Held(Sweep(t, client, server), ByServer, id)
    {
      SweepHeld(t, ByClient, client, server, from, to, id);
      SweepHeld(t, ByServer, client, server, from, to, id);
    }
  }

  // ----- updating -----

  lemma UpdateInv(t: Table, id: nat, s: Session, now: int)
    requires WellFormed(t) && id < |t.store| && SameIdentity(t.store[id], s)
    ensures WellFormed(Update(t, id, s)) && (Covered(t, now) ==> Covered(Update(t, id, s), now))
    ensures forall x: Side, i: nat :: Held(Update(t, id, s), x, i) <==> Held(t, x, i)
  {
    var r := Update(t, id, s);
    assert forall i, x: Side | 0 <= i < |t.store| :: KeyOf(x, r.store[i]) == KeyOf(x, t.store[i]);
    forall x: Side, i | 0 <= i < t.len
      ensures BucketOk(r.store, x, t.len, i, IndexOf(r, x)[i])
    {
      assert BucketOk(t.store, x, t.len, i, IndexOf(t, x)[i]);
    }
  }

  lemma ClockInv(t: Table, now: int, later: int)
    requires Inv(t, now) && now <= later
    ensures Inv(t, later)
  {
  }

  // ----- what the invariant says about sessions -----

  /** Two sessions that are both unexpired never share a server port, nor a client key. */
  lemma UnexpiredDistinct(t: Table, now: int, a: nat, b: nat)
    requires Inv(t, now) && a < |t.store| && b < |t.store| && a != b
    requires now <= t.store[a].expire && now <= t.store[b].expire
    ensures forall x: Side :: KeyOf(x, t.store[a]) != KeyOf(x, t.store[b])
  {
    forall x: Side
      ensures KeyOf(x, t.store[a]) != KeyOf(x, t.store[b])
    {
      FindIff(t, KeyOf(x, t.store[a]), a);
      FindIff(t, KeyOf(x, t.store[a]), b);
    }
  }

  /** An unexpired session is in one index exactly when it is in the other, and lookup by either key finds it. */
  lemma UnexpiredFound(t: Table, now: int, id: nat)
    requires Inv(t, now) && id < |t.store| && now <= t.store[id].expire
    ensures forall x: Side :: Held(t, x, id) && Find(t, KeyOf(x, t.store[id])) == Some(id)
  {
    forall x: Side
      ensures Held(t, x, id) && Find(t, KeyOf(x, t.store[id])) == Some(id)
    {
      FindIff(t, KeyOf(x, t.store[id]), id);
    }
  }
}
