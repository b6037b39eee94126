/**
 The state machine of one session: what an accepted packet does to the handshake
 state, the two FIN states and the two recorded sequence numbers, and what that
 means over whole traces of accepted packets.
 */
module Flags {
  import opened Bytes
  import opened Sessions

  datatype Header = Header(syn: bool, ack: bool, fin: bool, seqNo: uint32, ackNo: uint32)

  datatype Packet = FromClient(h: Header) | FromWorld(h: Header)

  function ClientFlags(s: Session, h: Header): (r: Session) {
    if h.syn && s.synState == 0 then s.(clientSeq := h.seqNo)
    else
      var s1 :=
        if h.ack && h.ackNo > s.serverSeq then
          if s.synState == 2 then s.(synState := 3)
          else if s.clientFin == 1 then s.(clientFin := 2)
          else s
        else s;
      if h.fin && s1.serverFin == 0 then s1.(serverFin := 1, clientSeq := h.seqNo) else s1
  }

  function WorldFlags(s: Session, h: Header): (r: Session) {
    if h.syn && s.synState == 0 && h.ack && h.ackNo > s.clientSeq then s.(synState := 2, serverSeq := h.seqNo)
    else
      var s1 := if h.ack && s.serverFin == 1 && h.ackNo > s.clientSeq then s.(serverFin := 2) else s;
      if h.fin && s1.clientFin == 0 then s1.(clientFin := 1, serverSeq := h.seqNo) else s1
  }

  function Touch(s: Session, p: Packet): (r: Session)
    ensures SameIdentity(s, r)
  {
    match p
    case FromClient(h) => ClientFlags(s, h)
    case FromWorld(h) => WorldFlags(s, h)
  }

  /** The session after the packets `ps`, in order. */
  function Trace(s: Session, ps: seq<Packet>): (r: Session)
    ensures SameIdentity(s, r)
  {
    if ps == [] then s else Touch(Trace(s, ps[..|ps| - 1]), ps[|ps| - 1])
  }

  /** The session after the first `n` packets. */
  function After(s: Session, ps: seq<Packet>, n: nat): (r: Session)
    requires n <= |ps|
  {
    Trace(s, ps[..n])
  }

  lemma AfterNext(s: Session, ps: seq<Packet>, n: nat)
    requires n < |ps|
    ensures After(s, ps, n + 1) == Touch(After(s, ps, n), ps[n])
    ensures After(s, ps, |ps|) == Trace(s, ps) && After(s, ps, 0) == s
  {
    assert ps[..n + 1][..n] == ps[..n];
    assert ps[..|ps|] == ps;
  }

  lemma {:induction false} TraceConcat(s: Session, a: seq<Packet>, b: seq<Packet>)
    ensures Trace(s, a + b) == Trace(Trace(s, a), b)
  {
    if b == [] {
      assert a + b == a;
    } else {
      var n := |b| - 1;
      assert (a + b)[..|a + b| - 1] == a + b[..n];
      TraceConcat(s, a, b[..n]);
    }
  }

  lemma TraceOne(s: Session, p: Packet)
    ensures Trace(s, [p]) == Touch(s, p)
  {
  }

  // ----- one packet, field by field -----

  /** What exactly moves each field of a session when a client packet is accepted; the rest stays. */
  lemma ClientEffect(s: Session, h: Header)
    requires Legal(s)
    ensures var r := Touch(s, FromClient(h)); var opening := h.syn && s.synState == 0; var acks := h.ack && h.ackNo > s.serverSeq;
            && (r.synState != s.synState <==> s.synState == 2 && acks) && (r.synState != s.synState ==> r.synState == 3)
            && (r.clientFin != s.clientFin <==> s.clientFin == 1 && s.synState != 2 && acks && !opening)
            && (r.clientFin != s.clientFin ==> r.clientFin == 2)
            && (r.serverFin != s.serverFin <==> s.serverFin == 0 && h.fin && !opening) && (r.serverFin != s.serverFin ==> r.serverFin == 1)
            && r.clientSeq == (if opening || (s.serverFin == 0 && h.fin) then h.seqNo else s.clientSeq)
            && r.serverSeq == s.serverSeq && SameIdentity(s, r)
  {
  }

  /** The same for world packets. */
  lemma WorldEffect(s: Session, h: Header)
    requires Legal(s)
    ensures var r := Touch(s, FromWorld(h)); var acks := h.ack && h.ackNo > s.clientSeq; var answer := h.syn && s.synState == 0 && acks;
            && (r.synState != s.synState <==> answer) && (r.synState != s.synState ==> r.synState == 2)
            && (r.serverFin != s.serverFin <==> s.serverFin == 1 && acks && !answer) && (r.serverFin != s.serverFin ==> r.serverFin == 2)
            && (r.clientFin != s.clientFin <==> s.clientFin == 0 && h.fin && !answer) && (r.clientFin != s.clientFin ==> r.clientFin == 1)
            && r.serverSeq == (if answer || (s.clientFin == 0 && h.fin) then h.seqNo else s.serverSeq)
            && r.clientSeq == s.clientSeq && SameIdentity(s, r)
  {
  }

  /** A FIN+ACK of the client that itself completes the handshake does both at once. */
  lemma FinCompletesHandshake(s: Session, h: Header)
    requires s.synState == 2 && s.serverFin == 0 && h.ack && h.fin && h.ackNo > s.serverSeq
    ensures Touch(s, FromClient(h)) == s.(synState := 3, serverFin := 1, clientSeq := h.seqNo)
  {
  }

  /** Packets that a side repeats after its FIN was recorded, acknowledging nothing new. */
  ghost predicate Repeats(s: Session, p: Packet) {
    if p.FromClient? then s.serverFin >= 1 && (p.h.ack ==> p.h.ackNo <= s.serverSeq)
    else s.clientFin >= 1 && (p.h.ack ==> p.h.ackNo <= s.clientSeq)
  }

  /** Retransmitted FINs: past state 0, any number of repeated packets from either side leaves the session as it was. */
  lemma {:induction false} Retransmitted(s: Session, ps: seq<Packet>)
    requires s.synState != 0 && (forall n | 0 <= n < |ps| :: Repeats(s, ps[n]))
    ensures Trace(s, ps) == s
  {
    if ps != [] {
      Retransmitted(s, ps[..|ps| - 1]);
      assert Repeats(s, ps[|ps| - 1]);
    }
  }

  /** The acknowledgement that follows retransmitted FINs closes exactly the side whose recorded FIN it exceeds. */
  lemma AckAfterRetransmission(s: Session, ps: seq<Packet>, a: Packet)
    requires s.synState == 3 && (forall n | 0 <= n < |ps| :: Repeats(s, ps[n])) && a.h.ack && !a.h.fin
    ensures a.FromWorld? && s.serverFin == 1 ==>
              Trace(s, ps + [a]) == if a.h.ackNo > s.clientSeq then s.(serverFin := 2) else s
    ensures a.FromClient? && s.clientFin == 1 ==>
              Trace(s, ps + [a]) == if a.h.ackNo > s.serverSeq then s.(clientFin := 2) else s
  {
    hide Trace, Repeats;
    Retransmitted(s, ps);
    TraceConcat(s, ps, [a]);
    TraceOne(s, a);
  }

  // ----- shape of every trace -----

  ghost predicate Legal(s: Session) {
    && (s.synState == 0 || s.synState == 2 || s.synState == 3)
    && s.clientFin <= 2 && s.serverFin <= 2
  }

  /** One step never moves a state back, and moves a FIN state by at most one. */
  ghost predicate Forward(a: Session, b: Session) {
    && Legal(b) && a.synState <= b.synState
    && a.clientFin <= b.clientFin <= a.clientFin + 1
    && a.serverFin <= b.serverFin <= a.serverFin + 1
  }

  lemma TouchForward(s: Session, p: Packet)
    requires Legal(s)
    ensures Forward(s, Touch(s, p))
  {
  }

  /** States never decrease along a trace, and handshake states are 0, 2 or 3. */
  lemma {:induction false} TraceForward(s: Session, ps: seq<Packet>, m: nat, n: nat)
    requires Legal(s) && m <= n <= |ps|
    ensures var a, b := After(s, ps, m), After(s, ps, n);
            && Legal(a) && Legal(b) && a.synState <= b.synState
            && a.clientFin <= b.clientFin && a.serverFin <= b.serverFin
            && (n == m + 1 ==> Forward(a, b))
    decreases n
  {
    hide Touch;
    if n > 0 {
      AfterNext(s, ps, n - 1);
      TraceForward(s, ps, if m < n then m else n - 1, n - 1);
      TouchForward(After(s, ps, n - 1), ps[n - 1]);
    }
  }

  lemma {:induction false} TraceLegal(s: Session, ps: seq<Packet>)
    requires Legal(s)
    ensures Legal(Trace(s, ps))
  {
    if ps != [] {
      TraceLegal(s, ps[..|ps| - 1]);
    }
  }

  // ----- the handshake -----

  /** Packet `j` is the world's SYN+ACK that moves the session from state 0 to state 2. */
  ghost predicate AnswersSyn(s: Session, ps: seq<Packet>, j: nat) {
    && j < |ps| && ps[j].FromWorld? && ps[j].h.syn && ps[j].h.ack
    && After(s, ps, j).synState == 0 && ps[j].h.ackNo > After(s, ps, j).clientSeq
    && After(s, ps, j + 1).serverSeq == ps[j].h.seqNo
  }

  /** Packet `k` is the client's ACK that moves the session from state 2 to state 3. */
  ghost predicate CompletesHandshake(s: Session, ps: seq<Packet>, k: nat) {
    && k < |ps| && ps[k].FromClient? && ps[k].h.ack
    && After(s, ps, k).synState == 2 && ps[k].h.ackNo > After(s, ps, k).serverSeq
  }

  lemma {:induction false} ReachedTwo(s: Session, ps: seq<Packet>, n: nat) returns (j: nat)
    requires s.synState == 0 && Legal(s) && n <= |ps| && After(s, ps, n).synState >= 2
    ensures j < n && AnswersSyn(s, ps, j)
  {
    hide ClientFlags, WorldFlags;
    AfterNext(s, ps, n - 1);
    TraceForward(s, ps, n - 1, n);
    if After(s, ps, n - 1).synState >= 2 {
      j := ReachedTwo(s, ps, n - 1);
    } else {
      j := n - 1;
      TouchSyn(After(s, ps, j), ps[j]);
    }
  }

  /** The only packets that move the handshake state. */
  lemma TouchSyn(s: Session, p: Packet)
    requires Legal(s) && Touch(s, p).synState != s.synState
    ensures s.synState == 0 ==> p.FromWorld? && p.h.syn && p.h.ack && p.h.ackNo > s.clientSeq
                                && Touch(s, p).serverSeq == p.h.seqNo && Touch(s, p).synState == 2
    ensures s.synState != 0 ==> p.FromClient? && p.h.ack && p.h.ackNo > s.serverSeq && s.synState == 2
  {
  }

  lemma {:induction false} ReachedThree(s: Session, ps: seq<Packet>, n: nat) returns (k: nat)
    requires s.synState == 0 && Legal(s) && n <= |ps| && After(s, ps, n).synState == 3
    ensures k < n && CompletesHandshake(s, ps, k)
  {
    hide ClientFlags, WorldFlags;
    AfterNext(s, ps, n - 1);
    TraceForward(s, ps, n - 1, n);
    if After(s, ps, n - 1).synState == 3 {
      k := ReachedThree(s, ps, n - 1);
    } else {
      k := n - 1;
      TouchSyn(After(s, ps, k), ps[k]);
    }
  }

  /** The recorded client number is that of an earlier client SYN or FIN. */
  lemma {:induction false} ClientNumberOrigin(s: Session, ps: seq<Packet>, n: nat) returns (i: nat)
    requires n <= |ps| && n > 0
    requires ps[0].FromClient? && ps[0].h.syn && s.synState == 0
    ensures i < n && ps[i].FromClient? && (ps[i].h.syn || ps[i].h.fin) && ps[i].h.seqNo == After(s, ps, n).clientSeq
  {
    AfterNext(s, ps, n - 1);
    if n > 1 && After(s, ps, n).clientSeq == After(s, ps, n - 1).clientSeq {
      i := ClientNumberOrigin(s, ps, n - 1);
    } else {
      i := n - 1;
    }
  }

  /**
   Handshake history: a session that was opened by a client SYN and stands in
   state 3 has seen, in this order, that SYN, a world SYN+ACK whose
   acknowledgement exceeds the then recorded client number (the number of an
   earlier client SYN or FIN), and a client ACK that exceeds the then recorded
   server number.
   */
  lemma HandshakeHistory(s: Session, ps: seq<Packet>) returns (i: nat, j: nat, k: nat)
    requires s.synState == 0 && Legal(s) && Trace(s, ps).synState == 3
    requires ps != [] ==> ps[0].FromClient? && ps[0].h.syn
    ensures i < j < k < |ps|
    ensures ps[i].FromClient? && (ps[i].h.syn || ps[i].h.fin) && ps[i].h.seqNo == After(s, ps, j).clientSeq
    ensures AnswersSyn(s, ps, j)
    ensures CompletesHandshake(s, ps, k)
  {
    hide ClientFlags, WorldFlags;
    if ps != [] {
      AfterNext(s, ps, 0);
    }
    k := ReachedThree(s, ps, |ps|);
    j := ReachedTwo(s, ps, k);
    i := ClientNumberOrigin(s, ps, j);
  }

  // ----- FIN tracking -----

  /** Past state 0, a recorded client FIN keeps its number and a recorded server FIN keeps its own. */
  lemma {:induction false} FinFrozen(s: Session, ps: seq<Packet>)
    requires Legal(s) && s.synState >= 2
    ensures var r := Trace(s, ps);
            && Legal(r) && r.synState >= 2
            && (s.serverFin >= 1 ==> r.serverFin >= 1 && r.clientSeq == s.clientSeq)
            && (s.clientFin >= 1 ==> r.clientFin >= 1 && r.serverSeq == s.serverSeq)
  {
    if ps != [] {
      FinFrozen(s, ps[..|ps| - 1]);
    }
  }

  /** A FIN recorded before any SYN+ACK can lose its number: freezing needs exactly a handshake state past 0. */
  lemma ClientFinFrozenIff(s: Session)
    requires Legal(s) && s.serverFin >= 1
    ensures s.synState != 0 <==> forall ps: seq<Packet> :: Trace(s, ps).clientSeq == s.clientSeq
  {
    if s.synState != 0 {
      forall ps: seq<Packet>
        ensures Trace(s, ps).clientSeq == s.clientSeq
      {
        FinFrozen(s, ps);
      }
    } else {
      var n := if s.clientSeq == 0 then 1 else 0;
      var p := FromClient(Header(true, false, false, n, 0));
      TraceOne(s, p);
      assert Trace(s, [p]).clientSeq != s.clientSeq;
    }
  }

  lemma ServerFinFrozenIff(s: Session)
    requires Legal(s) && s.clientFin >= 1
    ensures s.synState != 0 <==> forall ps: seq<Packet> :: Trace(s, ps).serverSeq == s.serverSeq
  {
    if s.synState != 0 {
      forall ps: seq<Packet>
        ensures Trace(s, ps).serverSeq == s.serverSeq
      {
        FinFrozen(s, ps);
      }
    } else {
      var n := if s.serverSeq == 0 then 1 else 0;
      var p, q := FromClient(Header(true, false, false, 0, 0)), FromWorld(Header(true, true, false, n, 1));
      TraceOne(s, p);
      TraceOne(Touch(s, p), q);
      TraceConcat(s, [p], [q]);
      assert Trace(s, [p] + [q]).serverSeq != s.serverSeq;
    }
  }

  /** Packet `i` is the client FIN that is recorded. */
  ghost predicate RecordsClientFin(s: Session, ps: seq<Packet>, i: nat) {
    && i < |ps| && ps[i].FromClient? && ps[i].h.fin
    && After(s, ps, i).serverFin == 0 && After(s, ps, i + 1).serverFin == 1
    && After(s, ps, i + 1).clientSeq == ps[i].h.seqNo
  }

  ghost predicate RecordsServerFin(s: Session, ps: seq<Packet>, i: nat) {
    && i < |ps| && ps[i].FromWorld? && ps[i].h.fin
    && After(s, ps, i).clientFin == 0 && After(s, ps, i + 1).clientFin == 1
    && After(s, ps, i + 1).serverSeq == ps[i].h.seqNo
  }

  lemma {:induction false} ClientFinOrigin(s: Session, ps: seq<Packet>, n: nat) returns (i: nat)
    requires Legal(s) && s.serverFin == 0 && n <= |ps| && After(s, ps, n).serverFin >= 1
    ensures i < n && RecordsClientFin(s, ps, i)
  {
    AfterNext(s, ps, n - 1);
    TraceForward(s, ps, n - 1, n);
    if After(s, ps, n - 1).serverFin >= 1 {
      i := ClientFinOrigin(s, ps, n - 1);
    } else {
      i := n - 1;
    }
  }

  lemma {:induction false} ServerFinOrigin(s: Session, ps: seq<Packet>, n: nat) returns (i: nat)
    requires Legal(s) && s.clientFin == 0 && n <= |ps| && After(s, ps, n).clientFin >= 1
    ensures i < n && RecordsServerFin(s, ps, i)
  {
    AfterNext(s, ps, n - 1);
    TraceForward(s, ps, n - 1, n);
    if After(s, ps, n - 1).clientFin >= 1 {
      i := ServerFinOrigin(s, ps, n - 1);
    } else {
      i := n - 1;
    }
  }

  lemma {:induction false} ClientFinAcked(s: Session, ps: seq<Packet>, n: nat) returns (j: nat)
    requires Legal(s) && s.serverFin == 0 && n <= |ps| && After(s, ps, n).serverFin == 2
    ensures j < n && ps[j].FromWorld? && ps[j].h.ack && After(s, ps, j).serverFin == 1
    ensures ps[j].h.ackNo > After(s, ps, j).clientSeq
  {
    AfterNext(s, ps, n - 1);
    TraceForward(s, ps, n - 1, n);
    if After(s, ps, n - 1).serverFin == 2 {
      j := ClientFinAcked(s, ps, n - 1);
    } else {
      j := n - 1;
    }
  }

  lemma {:induction false} ServerFinAcked(s: Session, ps: seq<Packet>, n: nat) returns (j: nat)
    requires Legal(s) && s.clientFin == 0 && n <= |ps| && After(s, ps, n).clientFin == 2
    ensures j < n && ps[j].FromClient? && ps[j].h.ack && After(s, ps, j).clientFin == 1
    ensures ps[j].h.ackNo > After(s, ps, j).serverSeq
  {
    AfterNext(s, ps, n - 1);
    TraceForward(s, ps, n - 1, n);
    if After(s, ps, n - 1).clientFin == 2 {
      j := ServerFinAcked(s, ps, n - 1);
    } else {
      j := n - 1;
    }
  }

  /** The session at two points of a trace: the later one is a continuation of the earlier. */
  lemma AfterContinues(s: Session, ps: seq<Packet>, m: nat, n: nat)
    requires m <= n <= |ps|
    ensures After(s, ps, n) == Trace(After(s, ps, m), ps[m..n])
  {
    assert ps[..n] == ps[..m] + ps[m..n];
    TraceConcat(s, ps[..m], ps[m..n]);
  }

  /**
   FIN history, client side: the state 2 that follows a client FIN was reached by
   a client FIN and a later world ACK above the number then recorded, which is
   the FIN's own number if the handshake had passed state 0 when it came.
   */
  lemma ClientFinHistory(s: Session, ps: seq<Packet>) returns (i: nat, j: nat)
    requires Legal(s) && s.serverFin == 0 && Trace(s, ps).serverFin == 2
    ensures i < j < |ps| && RecordsClientFin(s, ps, i)
    ensures ps[j].FromWorld? && ps[j].h.ack && ps[j].h.ackNo > After(s, ps, j).clientSeq
    ensures After(s, ps, i).synState >= 2 ==> After(s, ps, j).clientSeq == ps[i].h.seqNo
  {
    hide ClientFlags, WorldFlags;
    if ps != [] {
      AfterNext(s, ps, 0);
    }
    j := ClientFinAcked(s, ps, |ps|);
    i := ClientFinOrigin(s, ps, j);
    if After(s, ps, i).synState >= 2 {
      TraceForward(s, ps, i, i + 1);
      AfterContinues(s, ps, i + 1, j);
      FinFrozen(After(s, ps, i + 1), ps[i + 1..j]);
    }
  }

  /** FIN history, world side. */
  lemma ServerFinHistory(s: Session, ps: seq<Packet>) returns (i: nat, j: nat)
    requires Legal(s) && s.clientFin == 0 && Trace(s, ps).clientFin == 2
    ensures i < j < |ps| && RecordsServerFin(s, ps, i)
    ensures ps[j].FromClient? && ps[j].h.ack && ps[j].h.ackNo > After(s, ps, j).serverSeq
    ensures After(s, ps, i).synState >= 2 ==> After(s, ps, j).serverSeq == ps[i].h.seqNo
  {
    hide ClientFlags, WorldFlags;
    if ps != [] {
      AfterNext(s, ps, 0);
    }
    j := ServerFinAcked(s, ps, |ps|);
    i := ServerFinOrigin(s, ps, j);
    if After(s, ps, i).synState >= 2 {
      TraceForward(s, ps, i, i + 1);
      AfterContinues(s, ps, i + 1, j);
      FinFrozen(After(s, ps, i + 1), ps[i + 1..j]);
    }
  }

  // ----- progress -----

  /** Where the milestones of a full connection lie in a trace. */
  datatype Plan = Plan(syn: nat, synAck: nat, ack: nat, clientFin: nat, clientFinAck: nat, serverFin: nat, serverFinAck: nat)

  /**
   A complete connection: SYN, SYN+ACK, ACK, then both FINs in either order, each
   later acknowledged from the other side (perhaps by the other FIN), with any
   other packets between them that carry neither SYN nor FIN.
   */
  ghost predicate Complete(ps: seq<Packet>, m: Plan) {
    && m.syn < m.synAck < m.ack < |ps|
    && m.ack < m.clientFin < m.clientFinAck < |ps|
    && m.ack < m.serverFin < m.serverFinAck < |ps|
    && ps[m.syn].FromClient? && ps[m.synAck].FromWorld? && ps[m.ack].FromClient?
    && ps[m.clientFin].FromClient? && ps[m.serverFin].FromWorld?
    && ps[m.clientFinAck].FromWorld? && ps[m.serverFinAck].FromClient?
    && (forall n | 0 <= n < |ps| :: ps[n].h.syn <==> n == m.syn || n == m.synAck)
    && (forall n | 0 <= n < |ps| :: ps[n].h.fin <==> n == m.clientFin || n == m.serverFin)
    && ps[m.synAck].h.ack && ps[m.synAck].h.ackNo > ps[m.syn].h.seqNo
    && ps[m.ack].h.ack && ps[m.ack].h.ackNo > ps[m.synAck].h.seqNo
    && ps[m.clientFinAck].h.ack && ps[m.clientFinAck].h.ackNo > ps[m.clientFin].h.seqNo
    && ps[m.serverFinAck].h.ack && ps[m.serverFinAck].h.ackNo > ps[m.serverFin].h.seqNo
  }

  /** What is known of the session after `n` packets of a complete connection. */
  ghost predicate Milestone(s: Session, ps: seq<Packet>, m: Plan, n: nat)
    requires Complete(ps, m)
  {
    && Legal(s)
    && (s.synState == 0 <==> n <= m.synAck) && (n > m.ack ==> s.synState == 3)
    && (m.syn < n <= m.clientFin ==> s.clientSeq == ps[m.syn].h.seqNo)
    && (m.synAck < n <= m.serverFin ==> s.serverSeq == ps[m.synAck].h.seqNo)
    && (s.serverFin == 0 <==> n <= m.clientFin) && (n > m.clientFinAck ==> s.serverFin == 2)
    && (n > m.clientFin ==> s.clientSeq == ps[m.clientFin].h.seqNo)
    && (s.clientFin == 0 <==> n <= m.serverFin) && (n > m.serverFinAck ==> s.clientFin == 2)
    && (n > m.serverFin ==> s.serverSeq == ps[m.serverFin].h.seqNo)
  }

  lemma MilestoneStep(s: Session, ps: seq<Packet>, m: Plan, n: nat)
    requires Complete(ps, m) && n < |ps| && Milestone(s, ps, m, n)
    ensures Milestone(Touch(s, ps[n]), ps, m, n + 1)
  {
  }

  lemma {:induction false} MilestoneReached(s: Session, ps: seq<Packet>, m: Plan, n: nat)
    requires Complete(ps, m) && n <= |ps|
    requires s.synState == 0 && s.clientFin == 0 && s.serverFin == 0
    ensures Milestone(After(s, ps, n), ps, m, n)
  {
    hide Touch, Complete;
    if n > 0 {
      MilestoneReached(s, ps, m, n - 1);
      AfterNext(s, ps, n - 1);
      MilestoneStep(After(s, ps, n - 1), ps, m, n - 1);
    }
  }

  /** Progress: every complete connection ends established and closed in both directions. */
  lemma Progress(s: Session, ps: seq<Packet>, m: Plan)
    requires Complete(ps, m)
    requires s.synState == 0 && s.clientFin == 0 && s.serverFin == 0
    ensures var r := Trace(s, ps);
            r.synState == 3 && r.clientFin == 2 && r.serverFin == 2
  {
    MilestoneReached(s, ps, m, |ps|);
    AfterNext(s, ps, 0);
  }
}
