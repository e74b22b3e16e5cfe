/** The retransmission queue of a TCP socket (sections 3.8.1 and 3.10.7.4 of RFC 9293; kernel/net/tcp.c).
    The socket has 32-bit sequence numbers; the values behind it have the true, unbounded ones. */
module Tcp {
  import opened Tiny

  const RING := 16
  const MAX_LEN := 1400
  const MAX_RETRIES := 3
  const WRAP := 0x1_0000_0000

  /** A queued segment (struct tcp_tx_seg). */
  datatype Seg = Seg(seqno: nat, data: seq<byte>, retries: nat)
  {
    function End(): nat { seqno + |data| }

    function Out(): Packet { Packet(seqno, data) }

    function Low(): Seg { this.(seqno := seqno % WRAP) }
  }

  /** A data segment as it goes out. */
  datatype Packet = Packet(seqno: nat, data: seq<byte>)
  {
    function End(): nat { seqno + |data| }

    function Low(): Packet { this.(seqno := seqno % WRAP) }
  }

  /** The queue oldest first, `snd_nxt`, `snd_una`, and everything ever sent. */
  datatype Tx = Tx(q: seq<Seg>, nxt: nat, una: nat, sent: seq<Packet>)

  // ----- what holds -----

  /** Entry `i` lies before what follows it, has been sent once and then `retries` times, and no newer
      entry was sent more often. */
  predicate EntryOk(t: Tx, i: nat)
  {
    i < |t.q| ==>
      && 0 < |t.q[i].data| <= MAX_LEN && t.q[i].retries <= MAX_RETRIES
      && t.q[i].End() <= (if i + 1 < |t.q| then t.q[i + 1].seqno else t.nxt)
      && (i + 1 < |t.q| ==> t.q[i + 1].retries <= t.q[i].retries)
      && multiset(t.sent)[t.q[i].Out()] == 1 + t.q[i].retries
  }

  /** No packet is newer than `snd_nxt`, and none went out more often than once and MAX_RETRIES times. */
  predicate PacketOk(t: Tx, p: Packet)
  {
    multiset(t.sent)[p] > 0 ==> p.data != [] && p.seqno + |p.data| <= t.nxt && multiset(t.sent)[p] <= 1 + MAX_RETRIES
  }

  ghost predicate Inv(t: Tx)
  {
    && |t.q| <= RING
    && (forall i: nat {:trigger EntryOk(t, i)} :: EntryOk(t, i))
    && (forall p: Packet {:trigger PacketOk(t, p)} :: PacketOk(t, p))
  }

  /** The entries follow one another without overlap. */
  lemma {:induction false} InOrder(t: Tx, i: nat, j: nat)
    requires Inv(t) && i < j < |t.q|
    ensures t.q[i].End() <= t.q[j].seqno && t.q[j].End() <= t.nxt && t.q[j].retries <= t.q[i].retries
    decreases |t.q| - i
  {
    assert EntryOk(t, i) && EntryOk(t, j) && EntryOk(t, |t.q| - 1);
    if i + 1 < j { assert EntryOk(t, i + 1); InOrder(t, i + 1, j); }
    if j + 1 < |t.q| { InOrder(t, j, |t.q| - 1); }
  }

  // ----- sending -----

  /** tcp_send_data: the segment goes out, and into the queue if there is room. */
  function Sent(t: Tx, data: seq<byte>): Tx
  {
    var d := if |data| > MAX_LEN then data[..MAX_LEN] else data;
    if d == [] then t else
    Tx(if |t.q| < RING then t.q + [Seg(t.nxt, d, 0)] else t.q, t.nxt + |d|, t.una, t.sent + [Packet(t.nxt, d)])
  }

  lemma SentKeeps(t: Tx, data: seq<byte>)
    requires Inv(t)
    ensures Inv(Sent(t, data))
  {
    var d := if |data| > MAX_LEN then data[..MAX_LEN] else data;
    if d != [] {
      var t', p := Sent(t, data), Packet(t.nxt, d);
      assert PacketOk(t, p);
      forall i: nat
        ensures EntryOk(t', i)
      {
        assert EntryOk(t, i);
        if i < |t.q| {
          if i + 1 < |t.q| { InOrder(t, i, |t.q| - 1); }
        }
      }
      forall x: Packet
        ensures PacketOk(t', x)
      {
        assert PacketOk(t, x);
      }
    }
  }

  // ----- acknowledging -----

  /** The entries not fully acknowledged by `una`. */
  function Unacked(q: seq<Seg>, una: nat): seq<Seg>
  {
    if q == [] then [] else (if q[0].End() <= una then [] else [q[0]]) + Unacked(q[1..], una)
  }

  /** The queue as the source drops from its front: it compares 32-bit numbers without regard to wrap-around. */
  function Drained(q: seq<Seg>, una: nat): seq<Seg>
  {
    if q == [] || q[0].End() % WRAP > una % WRAP then q else Drained(q[1..], una)
  }

  /** The source on an acknowledgement of everything before `ack`, of which it sees the low 32 bits. It does not
      look at `snd_nxt`. */
  function Acked(t: Tx, ack: nat): Tx
  {
    var una := if ack % WRAP > t.una % WRAP then ack else t.una;
    t.(una := una, q := Drained(t.q, una))
  }

  /** What section 3.10.7.4 of RFC 9293 asks for: an acknowledgement of something new that was sent takes
      what it acknowledges off the queue, any other one changes nothing. */
  function Accepted(t: Tx, ack: nat): Tx
  {
    if t.una < ack <= t.nxt then t.(una := ack, q := Unacked(t.q, ack)) else t
  }

  ghost predicate Ascending(q: seq<Seg>)
  {
    forall i, j :: 0 <= i < j < |q| ==> q[i].End() < q[j].End()
  }

  lemma {:induction false} NoneAcked(q: seq<Seg>, una: nat)
    requires forall i :: 0 <= i < |q| ==> q[i].End() > una
    ensures Unacked(q, una) == q
  {
    if q != [] { NoneAcked(q[1..], una); }
  }

  /** True numbers less than 2^32 apart compare alike in 32 bits if and only if no wrap is between them. */
  lemma WrapAgrees(a: nat, b: nat)
    requires a < b + WRAP && b < a + WRAP
    ensures (a % WRAP <= b % WRAP <==> a <= b) <==> a / WRAP == b / WRAP
  {
  }

  /** No wrap lies between `una` and an entry it is compared with: those it acknowledges, and the next. */
  predicate SameLap(q: seq<Seg>, una: nat)
  {
    q != [] ==> q[0].End() / WRAP == una / WRAP && (q[0].End() <= una ==> SameLap(q[1..], una))
  }

  ghost predicate Near(q: seq<Seg>, una: nat)
  {
    forall i :: 0 <= i < |q| ==> q[i].End() < una + WRAP && una < q[i].End() + WRAP
  }

  lemma {:induction false} Shorter(q: seq<Seg>, una: nat)
    ensures |Drained(q, una)| <= |q| && |Unacked(q, una)| <= |q|
  {
    if q != [] { Shorter(q[1..], una); }
  }

  /** Dropping from the front leaves exactly the entries not fully acknowledged if and only if no wrap comes
      between. */
  lemma {:induction false} DrainExact(q: seq<Seg>, una: nat)
    requires Ascending(q) && Near(q, una)
    ensures Drained(q, una) == Unacked(q, una) <==> SameLap(q, una)
  {
    if q != [] {
      WrapAgrees(q[0].End(), una);
      Shorter(q[1..], una);
      if q[0].End() <= una {
        DrainExact(q[1..], una);
      } else {
        NoneAcked(q, una);
      }
    }
  }

  lemma Ascends(t: Tx)
    requires Inv(t)
    ensures Ascending(t.q)
  {
    forall i: nat, j: nat | i < j < |t.q|
      ensures t.q[i].End() < t.q[j].End()
    {
      InOrder(t, i, j);
      assert EntryOk(t, j);
    }
  }

  lemma FrontKeeps(t: Tx)
    requires Inv(t) && t.q != []
    ensures Inv(t.(q := t.q[1..]))
  {
    var t' := t.(q := t.q[1..]);
    forall i: nat
      ensures EntryOk(t', i)
    {
      assert EntryOk(t, i + 1);
    }
    forall x: Packet
      ensures PacketOk(t', x)
    {
      assert PacketOk(t, x);
    }
  }

  lemma {:induction false} DrainKeeps(t: Tx, una: nat)
    requires Inv(t)
    ensures Inv(t.(q := Drained(t.q, una)))
    decreases |t.q|
  {
    if t.q != [] && t.q[0].End() % WRAP <= una % WRAP {
      FrontKeeps(t);
      DrainKeeps(t.(q := t.q[1..]), una);
    }
  }

  // ----- retransmitting -----

  function Outs(q: seq<Seg>): seq<Packet>
  {
    seq(|q|, i requires 0 <= i < |q| => q[i].Out())
  }

  function Older(q: seq<Seg>): (r: seq<Seg>)
    ensures |r| == |q|
  {
    seq(|q|, i requires 0 <= i < |q| => q[i].(retries := q[i].retries + 1))
  }

  /** The whole queue goes out again, in order, with its own sequence numbers and bytes. */
  function Resent(t: Tx): Tx
  {
    t.(q := Older(t.q), sent := t.sent + Outs(t.q))
  }

  /** A resend is refused, and the socket reset, when the oldest entry has used up its retries. */
  predicate Exhausted(t: Tx)
  {
    t.q != [] && t.q[0].retries >= MAX_RETRIES
  }

  lemma {:induction false} OutsTimes(q: seq<Seg>, p: Packet)
    requires forall i, j :: 0 <= i < j < |q| ==> q[i].seqno < q[j].seqno
    ensures multiset(Outs(q))[p] == if exists i :: 0 <= i < |q| && q[i].Out() == p then 1 else 0
  {
    if q != [] {
      var n := |q| - 1;
      OutsTimes(q[..n], p);
      assert Outs(q) == Outs(q[..n]) + [q[n].Out()];
      if i :| 0 <= i < n && q[i].Out() == p { assert q[..n][i] == q[i]; }
      if q[n].Out() == p {
        forall i | 0 <= i < n
          ensures q[..n][i].Out() != p
        {
          assert q[i].seqno < q[n].seqno;
        }
      }
    }
  }

  lemma SeqnosAscend(t: Tx)
    requires Inv(t)
    ensures forall i, j :: 0 <= i < j < |t.q| ==> t.q[i].seqno < t.q[j].seqno
  {
    forall i: nat, j: nat | i < j < |t.q|
      ensures t.q[i].seqno < t.q[j].seqno
    {
      InOrder(t, i, j);
      assert EntryOk(t, i);
    }
  }

  lemma ResentKeeps(t: Tx)
    requires Inv(t) && !Exhausted(t)
    ensures Inv(Resent(t))
  {
    var t' := Resent(t);
    SeqnosAscend(t);
    forall i: nat
      ensures EntryOk(t', i)
    {
      assert EntryOk(t, i);
      if i < |t.q| {
        OutsTimes(t.q, t.q[i].Out());
        if i > 0 { InOrder(t, 0, i); }
      }
    }
    forall p: Packet
      ensures PacketOk(t', p)
    {
      assert PacketOk(t, p);
      OutsTimes(t.q, p);
      if i: nat :| i < |t.q| && t.q[i].Out() == p {
        assert EntryOk(t, i);
        if i > 0 { InOrder(t, 0, i); }
      }
    }
  }

  /** Whatever number comes in, and however it compares, the queue stays in order. */
  lemma AckKeeps(t: Tx, ack: nat)
    requires Inv(t)
    ensures Inv(Acked(t, ack))
  {
    var una := if ack % WRAP > t.una % WRAP then ack else t.una;
    DrainKeeps(t, una);
    var d := t.(q := Drained(t.q, una));
    var t' := Acked(t, ack);
    forall i: nat
      ensures EntryOk(t', i)
    {
      assert EntryOk(d, i);
    }
    forall p: Packet
      ensures PacketOk(t', p)
    {
      assert PacketOk(d, p);
    }
  }

  // ----- acknowledging as specified -----

  /** `snd_una` is not past `snd_nxt`, and every entry ends past `snd_una`. */
  ghost predicate Settled(t: Tx)
  {
    t.una <= t.nxt && forall i :: 0 <= i < |t.q| ==> t.q[i].End() > t.una
  }

  /** The numbers in play, true ones of 32-bit ones, are less than 2^32 apart. */
  predicate InWindow(t: Tx, ack: nat)
  {
    t.nxt < t.una + WRAP && ack < t.una + WRAP && t.una < ack + WRAP
  }

  /** `ack` is beyond what was sent exactly if a wrap hides it, and no wrap is between the numbers compared
      after that. */
  predicate Handled(t: Tx, ack: nat)
  {
    && (ack > t.nxt <==> ack / WRAP != t.una / WRAP)
    && SameLap(t.q, if t.una < ack <= t.nxt then ack else t.una)
  }

  /** The source does as the standard says if and only if that holds. */
  lemma AckExact(t: Tx, ack: nat)
    requires Inv(t) && Settled(t) && InWindow(t, ack)
    ensures Acked(t, ack) == Accepted(t, ack) <==> Handled(t, ack)
  {
    Ascends(t);
    AllBelow(t);
    WrapAgrees(ack, t.una);
    var una := if t.una < ack <= t.nxt then ack else t.una;
    DrainExact(t.q, una);
    NoneAcked(t.q, t.una);
  }

  lemma AllBelow(t: Tx)
    requires Inv(t)
    ensures forall i :: 0 <= i < |t.q| ==> t.q[i].End() <= t.nxt
  {
    forall i: nat | i < |t.q|
      ensures t.q[i].End() <= t.nxt
    {
      assert EntryOk(t, i);
      if i + 1 < |t.q| { InOrder(t, i, i + 1); assert EntryOk(t, i + 1); }
    }
  }

  /** `snd_una` stays at most `snd_nxt` if and only if no more than was sent is acknowledged, or a wrap hides
      it. */
  lemma UnaExact(t: Tx, ack: nat)
    requires t.una <= t.nxt && InWindow(t, ack)
    ensures Acked(t, ack).una <= Acked(t, ack).nxt <==> ack <= t.nxt || ack / WRAP != t.una / WRAP
  {
    WrapAgrees(ack, t.una);
  }

  /** A segment across the wrap is dropped by an acknowledgement of none of its bytes. */
  lemma WrapLoses(b: byte, c: byte)
    ensures var g := Seg(WRAP - 1, [b, c], 0); var t := Tx([g], g.End(), WRAP - 1, [g.Out()]);
            Accepted(t, WRAP - 1).q == [g] && Acked(t, WRAP - 1).q == []
  {
    var g := Seg(WRAP - 1, [b, c], 0);
    assert [g][1..] == [] && g.End() == WRAP + 1;
    assert Drained([g], WRAP - 1) == Drained([], WRAP - 1);
  }

  /** Without any wrap: 5000 is acknowledged when 100 is next, then byte 100 is sent, and an acknowledgement of
      everything before it, 100, drops it. As specified it stays. */
  lemma UnsentLoses(b: byte)
    ensures var t := Tx([], 100, 100, []);
            && Acked(t, 5000).una == 5000 && Acked(t, 5000).nxt == 100
            && Acked(Sent(Acked(t, 5000), [b]), 100).q == []
            && Accepted(Sent(Accepted(t, 5000), [b]), 100).q == [Seg(100, [b], 0)]
  {
    var g := Seg(100, [b], 0);
    assert [g][1..] == [] && [] + [g] == [g];
    assert Drained([g], 5000) == Drained([], 5000);
  }

  // ----- nothing unacknowledged is lost -----

  /** A packet that ends past `snd_una` is queued. */
  ghost predicate BackedAt(t: Tx, p: Packet)
  {
    p in t.sent && p.End() > t.una ==> exists i :: 0 <= i < |t.q| && t.q[i].Out() == p
  }

  /** Whatever was sent and not fully acknowledged is in the queue. */
  ghost predicate Backed(t: Tx)
  {
    forall p: Packet {:trigger BackedAt(t, p)} :: BackedAt(t, p)
  }

  /** Sending keeps that if and only if there is nothing to send or the ring has room. */
  lemma SentExact(t: Tx, data: seq<byte>)
    requires Inv(t) && Backed(t) && t.una <= t.nxt
    ensures Backed(Sent(t, data)) <==> data == [] || |t.q| < RING
  {
    var d := if |data| > MAX_LEN then data[..MAX_LEN] else data;
    var t', x := Sent(t, data), Packet(t.nxt, d);
    if data != [] && |t.q| >= RING {
      assert x in t'.sent;
      AllBelow(t);
      assert !BackedAt(t', x);
    } else if data != [] {
      forall p: Packet
        ensures BackedAt(t', p)
      {
        assert BackedAt(t, p);
        if p == x {
          assert t'.q[|t.q|].Out() == p;
        } else if i :| 0 <= i < |t.q| && t.q[i].Out() == p {
          assert t'.q[i].Out() == p;
        }
      }
    }
  }

  lemma SentSettled(t: Tx, data: seq<byte>)
    requires Settled(t)
    ensures Settled(Sent(t, data))
  {
  }

  lemma {:induction false} UnackedHas(q: seq<Seg>, una: nat, i: nat)
    requires i < |q| && q[i].End() > una
    ensures exists j :: 0 <= j < |Unacked(q, una)| && Unacked(q, una)[j] == q[i]
  {
    var r := Unacked(q[1..], una);
    var h := if q[0].End() <= una then [] else [q[0]];
    assert Unacked(q, una) == h + r;
    if i == 0 {
      assert (h + r)[0] == q[0];
    } else {
      UnackedHas(q[1..], una, i - 1);
      var j :| 0 <= j < |r| && r[j] == q[1..][i - 1];
      assert (h + r)[|h| + j] == q[i];
    }
  }

  lemma {:induction false} UnackedAll(q: seq<Seg>, una: nat)
    ensures forall j :: 0 <= j < |Unacked(q, una)| ==> Unacked(q, una)[j].End() > una
  {
    if q != [] { UnackedAll(q[1..], una); }
  }

  /** So does an acknowledgement as specified. */
  lemma AcceptedBacked(t: Tx, ack: nat)
    requires Backed(t) && Settled(t)
    ensures Backed(Accepted(t, ack)) && Settled(Accepted(t, ack))
  {
    var t' := Accepted(t, ack);
    if t.una < ack <= t.nxt {
      UnackedAll(t.q, ack);
      forall p: Packet
        ensures BackedAt(t', p)
      {
        assert BackedAt(t, p);
        if i :| 0 <= i < |t.q| && t.q[i].Out() == p {
          if p.End() > ack {
            UnackedHas(t.q, ack, i);
            var j :| 0 <= j < |t'.q| && t'.q[j] == t.q[i];
            assert t'.q[j].Out() == p;
          }
        }
      }
    }
  }

  lemma ResentBacked(t: Tx)
    requires Backed(t) && Settled(t)
    ensures Backed(Resent(t)) && Settled(Resent(t))
  {
    var t' := Resent(t);
    forall p: Packet
      ensures BackedAt(t', p)
    {
      assert BackedAt(t, p);
      if i :| 0 <= i < |t.q| && t.q[i].Out() == p {
        assert t'.q[i].Out() == p;
      } else {
        assert forall i :: 0 <= i < |Outs(t.q)| ==> Outs(t.q)[i] == t.q[i].Out();
      }
    }
  }

  /** While nothing is lost, a retransmission sends every packet not fully acknowledged once more. */
  lemma ResendsAll(t: Tx, p: Packet)
    requires Inv(t) && Backed(t) && p in t.sent && p.End() > t.una
    ensures multiset(Resent(t).sent)[p] == multiset(t.sent)[p] + 1
  {
    assert BackedAt(t, p);
    SeqnosAscend(t);
    OutsTimes(t.q, p);
  }

  /** A send that finds room, an acknowledgement that is handled, or a retransmission. */
  ghost predicate Clean(t: Tx, t': Tx)
  {
    || (exists data :: t' == Sent(t, data) && (data == [] || |t.q| < RING))
    || (exists ack :: t' == Acked(t, ack) && InWindow(t, ack) && Handled(t, ack))
    || (!Exhausted(t) && t' == Resent(t))
  }

  lemma CleanKeeps(t: Tx, t': Tx)
    requires Inv(t) && Backed(t) && Settled(t) && Clean(t, t')
    ensures Inv(t') && Backed(t') && Settled(t')
  {
    hide Inv, Backed, Settled, Sent, Acked, Resent, Accepted, Handled, InWindow;
    if data :| t' == Sent(t, data) && (data == [] || |t.q| < RING) {
      SentKeeps(t, data);
      SettledUna(t);
      SentExact(t, data);
      SentSettled(t, data);
    } else if ack :| t' == Acked(t, ack) && InWindow(t, ack) && Handled(t, ack) {
      AckKeeps(t, ack);
      AckExact(t, ack);
      AcceptedBacked(t, ack);
    } else {
      ResentKeeps(t);
      ResentBacked(t);
    }
  }

  lemma SettledUna(t: Tx)
    requires Settled(t)
    ensures t.una <= t.nxt
  {
  }

  /** Over every run of such steps from a fresh socket, whatever is unacknowledged is queued. */
  lemma {:induction false} RunBacked(run: seq<Tx>, iss: nat, k: nat)
    requires |run| > 0 && run[0] == Tx([], iss, iss, []) && k < |run|
    requires forall i :: 0 <= i < |run| - 1 ==> Clean(run[i], run[i + 1])
    ensures Inv(run[k]) && Backed(run[k]) && Settled(run[k])
  {
    if k > 0 {
      RunBacked(run, iss, k - 1);
      CleanKeeps(run[k - 1], run[k]);
    } else {
      assert forall p: Packet :: PacketOk(run[0], p) && BackedAt(run[0], p);
      assert forall i: nat :: EntryOk(run[0], i);
    }
  }

  /** Sixteen bytes sent one by one and none acknowledged. */
  function FullRing(b: byte): Tx
  {
    var q := seq(RING, (i: nat) => Seg(i, [b], 0));
    Tx(q, RING, 0, Outs(q))
  }

  /** The seventeenth goes out and is not queued. */
  lemma FullLoses(b: byte)
    ensures Inv(FullRing(b)) && Backed(FullRing(b)) && Settled(FullRing(b))
    ensures var t := Sent(FullRing(b), [b]); t.sent[RING] == Packet(RING, [b]) && t.una == 0 && t.q == FullRing(b).q
    ensures !Backed(Sent(FullRing(b), [b]))
  {
    var t := FullRing(b);
    forall p: Packet
      ensures PacketOk(t, p) && BackedAt(t, p)
    {
      OutsTimes(t.q, p);
      if p in t.sent {
        var i :| 0 <= i < |t.sent| && t.sent[i] == p;
        assert t.q[i].Out() == p;
      }
    }
    forall i: nat
      ensures EntryOk(t, i)
    {
      if i < |t.q| { OutsTimes(t.q, t.q[i].Out()); }
    }
    SentExact(t, [b]);
  }

  ghost predicate Step(t: Tx, t': Tx)
  {
    (exists data :: t' == Sent(t, data)) || (exists ack :: t' == Acked(t, ack)) || (!Exhausted(t) && t' == Resent(t))
  }

  lemma {:induction false} RunKeeps(run: seq<Tx>, k: nat)
    requires |run| > 0 && Inv(run[0]) && k < |run| && forall i :: 0 <= i < |run| - 1 ==> Step(run[i], run[i + 1])
    ensures Inv(run[k])
  {
    if k > 0 {
      RunKeeps(run, k - 1);
      StepKeeps(run[k - 1], run[k]);
    }
  }

  /** Over every run of sends, acknowledgements and resends from a fresh socket no segment goes out more
      than four times. */
  lemma AtMostFour(run: seq<Tx>, iss: nat, k: nat, p: Packet)
    requires |run| > 0 && run[0] == Tx([], iss, iss, []) && k < |run| &&
             forall i :: 0 <= i < |run| - 1 ==> Step(run[i], run[i + 1])
    ensures multiset(run[k].sent)[p] <= 4
  {
    RunKeeps(run, k);
    assert PacketOk(run[k], p);
  }

  lemma StepKeeps(t: Tx, t': Tx)
    requires Inv(t) && Step(t, t')
    ensures Inv(t')
  {
    hide Inv, Sent, Acked, Resent;
    if data :| t' == Sent(t, data) {
      SentKeeps(t, data);
    } else if ack :| t' == Acked(t, ack) {
      AckKeeps(t, ack);
    } else {
      ResentKeeps(t);
    }
  }

  lemma DrainStep(q: seq<Seg>, una: nat)
    ensures q == [] ==> Drained(q, una) == []
    ensures q != [] ==> Drained(q, una) == if q[0].End() % WRAP <= una % WRAP then Drained(q[1..], una) else q
  {
  }

  // ----- the ring -----

  predicate SlotAt(ring: seq<Seg>, head: nat, q: seq<Seg>, i: nat)
  {
    i < |q| ==> |ring| == RING && ring[Tail(head, i)] == q[i].Low()
  }

  ghost predicate Holds(ring: seq<Seg>, head: nat, q: seq<Seg>)
  {
    |ring| == RING && |q| <= RING && head < RING &&
      forall i: nat {:trigger SlotAt(ring, head, q, i)} :: SlotAt(ring, head, q, i)
  }

  function Next(i: nat): nat
  {
    (i + 1) % RING
  }

  /** The slot `n` entries past the head. */
  function Tail(head: nat, n: nat): (r: nat)
    ensures r < RING
  {
    (head + n) % RING
  }

  lemma Fresh(head: nat, n: nat, i: nat)
    requires head < RING && n < RING && i < n
    ensures Tail(head, i) != Tail(head, n)
  {
  }

  lemma ModAdd(a: nat, b: nat)
    ensures (a % RING + b) % RING == (a + b) % RING
  {
    var k, y := a / RING, a % RING + b;
    var m, r := y / RING, y % RING;
    assert a + b == RING * (k + m) + r;
  }

  lemma TailNext(head: nat, n: nat)
    ensures Next(Tail(head, n)) == Tail(head, n + 1) && Tail(Next(head), n) == Tail(head, n + 1)
  {
    ModAdd(head + n, 1);
    ModAdd(head + 1, n);
  }

  lemma Push(ring: seq<Seg>, head: nat, q: seq<Seg>, x: Seg)
    requires Holds(ring, head, q) && |q| < RING
    ensures Tail(head, |q|) < |ring| && Holds(ring[Tail(head, |q|) := x.Low()], head, q + [x]) &&
            Next(Tail(head, |q|)) == Tail(head, |q| + 1)
  {
    TailNext(head, |q|);
    hide Tail, Next;
    var ring', q' := ring[Tail(head, |q|) := x.Low()], q + [x];
    forall i: nat
      ensures SlotAt(ring', head, q', i)
    {
      assert SlotAt(ring, head, q, i);
      if i < |q| { Fresh(head, |q|, i); }
    }
  }

  lemma Pop(ring: seq<Seg>, head: nat, q: seq<Seg>)
    requires Holds(ring, head, q) && q != []
    ensures head < |ring| && ring[head] == q[0].Low() && Holds(ring, Next(head), q[1..]) &&
            Tail(Next(head), |q| - 1) == Tail(head, |q|)
  {
    assert SlotAt(ring, head, q, 0);
    assert Tail(head, 0) == head && Next(head) < RING;
    TailNext(head, |q| - 1);
    hide Tail, Next;
    var h, r := Next(head), q[1..];
    forall i: nat
      ensures SlotAt(ring, h, r, i)
    {
      assert SlotAt(ring, head, q, i + 1);
      TailNext(head, i);
    }
  }

  lemma Replace(ring: seq<Seg>, head: nat, q: seq<Seg>, k: nat, x: Seg)
    requires Holds(ring, head, q) && k < |q|
    ensures Tail(head, k) < |ring| && ring[Tail(head, k)] == q[k].Low() &&
            Holds(ring[Tail(head, k) := x.Low()], head, q[k := x])
  {
    hide Tail;
    assert SlotAt(ring, head, q, k);
    var ring', q' := ring[Tail(head, k) := x.Low()], q[k := x];
    forall i: nat
      ensures SlotAt(ring', head, q', i)
    {
      assert SlotAt(ring, head, q, i);
      if i < k { Fresh(head, k, i); } else if k < i < |q| { Fresh(head, i, k); }
    }
  }

  /** Packets as they look on the wire, with 32-bit numbers. */
  function Lows(ps: seq<Packet>): (r: seq<Packet>)
    ensures |r| == |ps|
  {
    seq(|ps|, i requires 0 <= i < |ps| => ps[i].Low())
  }

  lemma LowsMore(ps: seq<Packet>, p: Packet)
    ensures Lows(ps + [p]) == Lows(ps) + [p.Low()]
  {
  }

  lemma WrapAdd(a: nat, n: nat)
    ensures (a % WRAP + n) % WRAP == (a + n) % WRAP
  {
    var k, y := a / WRAP, a % WRAP + n;
    var m, r := y / WRAP, y % WRAP;
    assert a + n == WRAP * (k + m) + r;
  }

  /** The transmit part of struct helix_tcp_sock, in the established state. */
  /** Entry `i` of the ring, counted from the oldest, is on the wire after `wire`. */
  ghost predicate AgainAt(ring: seq<Seg>, head: nat, wire: seq<Packet>, wire': seq<Packet>, i: nat)
    requires |ring| == RING && |wire| + i < |wire'|
  {
    wire'[|wire| + i] == Packet(ring[(head + i) % RING].seqno, ring[(head + i) % RING].data)
  }

  /** Every entry of the ring, from the oldest on, is on the wire once more. */
  ghost predicate OnceMore(ring: seq<Seg>, head: nat, count: nat, wire: seq<Packet>, wire': seq<Packet>)
  {
    && |ring| == RING && |wire'| == |wire| + count && wire <= wire'
    && forall i: nat {:trigger AgainAt(ring, head, wire, wire', i)} :: i < count ==> AgainAt(ring, head, wire, wire', i)
  }

  lemma SentAgain(ring: seq<Seg>, head: nat, t: Tx, wire: seq<Packet>, wire': seq<Packet>)
    requires Holds(ring, head, t.q) && wire == Lows(t.sent) && wire' == Lows(t.sent + Outs(t.q))
    ensures OnceMore(ring, head, |t.q|, wire, wire')
  {
    forall i: nat | i < |t.q|
      ensures AgainAt(ring, head, wire, wire', i)
    {
      assert SlotAt(ring, head, t.q, i);
    }
  }

  lemma OldestRetries(ring: seq<Seg>, head: nat, t: Tx)
    requires Holds(ring, head, t.q) && t.q != []
    ensures head < |ring| && (Exhausted(t) <==> ring[head].retries >= MAX_RETRIES)
  {
    assert SlotAt(ring, head, t.q, 0);
  }

  class Socket {
    const ring: array<Seg>
    var head: nat
    var tail: nat
    var count: nat
    var nxt: nat         // snd_nxt
    var una: nat         // snd_una
    var up: bool         // not reset
    var wire: seq<Packet> // what tcp_send_segment has put out
    ghost var t: Tx

    ghost predicate Valid()
      reads this, ring
    {
      && count == |t.q| && nxt == t.nxt % WRAP && una == t.una % WRAP && tail == Tail(head, count)
      && wire == Lows(t.sent)
      && Holds(ring[..], head, t.q) && Inv(t)
    }

    constructor (iss: nat)
      ensures Valid() && fresh(ring) && up && t == Tx([], iss, iss, [])
    {
      ring := new Seg[RING](_ => Seg(0, [], 0));
      head, tail, count, nxt, una, up, wire := 0, 0, 0, iss % WRAP, iss % WRAP, true, [];
      t := Tx([], iss, iss, []);
    }

    /** tcp_send_data: what is sent is queued too exactly if the ring has room. */
    method Send(data: seq<byte>)
      requires Valid() && up
      modifies this, ring
      ensures Valid() && up && t == Sent(old(t), data)
      ensures Backed(old(t)) && old(t).una <= old(t).nxt ==> (Backed(t) <==> data == [] || |old(t).q| < RING)
      ensures var n := if |data| < MAX_LEN then |data| else MAX_LEN;
              && nxt == (old(nxt) + n) % WRAP && una == old(una)
              && wire == old(wire) + if n == 0 then [] else [Packet(old(nxt), data[..n])]
    {
      SentKeeps(t, data);
      if Backed(t) && t.una <= t.nxt { SentExact(t, data); }
      hide Backed;
      hide Inv, Holds, Next, Tail;
      if |data| == 0 { assert wire + [] == wire; return; }
      var d := if |data| > MAX_LEN then data[..MAX_LEN] else data;
      assert d == data[..|d|];
      if count < RING {
        Push(ring[..], head, t.q, Seg(t.nxt, d, 0));
        ring[tail] := Seg(nxt, d, 0);
        tail := Next(tail);
        count := count + 1;
      }
      LowsMore(t.sent, Packet(t.nxt, d));
      WrapAdd(t.nxt, |d|);
      t := Sent(t, data);
      wire := wire + [Packet(nxt, d)];
      nxt := (nxt + |d|) % WRAP;
    }

    /** The acknowledgement part of tcp_input, of the number `low` that stands for `ack`: what the standard
        says exactly if it is handled. */
    method Ack(low: nat, ghost ack: nat)
      requires Valid() && up && low == ack % WRAP
      modifies this, ring
      ensures Valid() && up && t == Acked(old(t), ack)
      ensures Settled(old(t)) && InWindow(old(t), ack) ==> (t == Accepted(old(t), ack) <==> Handled(old(t), ack))
    {
      AckKeeps(t, ack);
      if Settled(t) && InWindow(t, ack) { AckExact(t, ack); }
      hide Inv, Holds, Next, Tail, Unacked, Drained, Settled, Handled, Accepted;
      if low > una { una := low; }
      Drain(t.q, Acked(t, ack).una);
      t := Acked(t, ack);
    }

    /** The loop that drops acknowledged entries from the front of the ring. */
    method Drain(ghost q0: seq<Seg>, ghost u: nat)
      requires count == |q0| && tail == Tail(head, count) && Holds(ring[..], head, q0) && una == u % WRAP
      modifies `head, `count
      ensures count == |Drained(q0, u)| && tail == Tail(head, count) && Holds(ring[..], head, Drained(q0, u))
    {
      hide Holds, Next, Tail, Drained;
      ghost var q := q0;
      DrainStep(q, u);
      while count > 0
        invariant count == |q| && tail == Tail(head, count) && Holds(ring[..], head, q) &&
                  Drained(q, u) == Drained(q0, u)
        invariant q == [] ==> Drained(q, u) == []
        decreases count
      {
        Pop(ring[..], head, q);
        DrainStep(q, u);
        DrainStep(q[1..], u);
        WrapAdd(q[0].seqno, |q[0].data|);
        if (ring[head].seqno + |ring[head].data|) % WRAP > una { break; }
        head := Next(head);
        count := count - 1;
        q := q[1..];
      }
    }

    /** tcp_retransmit for one socket whose timer has run out: the whole queue again, a full ring
        included, or a reset when the oldest entry has used up its retries. */
    method Retransmit()
      requires Valid() && up && count > 0
      modifies this, ring
      ensures up <==> !Exhausted(old(t))
      ensures up ==> Valid() && t == Resent(old(t))
      ensures !up ==> t == old(t) && wire == old(wire)
      ensures old(head) < RING && (up <==> old(ring[head].retries) < MAX_RETRIES)
      ensures up ==> nxt == old(nxt) && una == old(una) && count == old(count)
      ensures up ==> OnceMore(old(ring[..]), old(head), old(count), old(wire), wire)
    {
      hide OnceMore;
      OldestRetries(ring[..], head, t);
      ghost var t0 := t;
      ghost var q := t.q;
      var k := 0;
      while k < count
        invariant 0 <= k <= count == |q| && t == t0 && up && head == old(head) && tail == Tail(head, count)
        invariant nxt == t.nxt % WRAP && una == t.una % WRAP
        invariant Holds(ring[..], head, q) && |q| == |t0.q| && wire == Lows(t0.sent + Outs(t0.q)[..k])
        invariant forall i :: 0 <= i < k ==> q[i] == Older(t0.q)[i]
        invariant forall i :: k <= i < |q| ==> q[i] == t0.q[i]
        invariant k > 0 ==> !Exhausted(t0)
      {
        assert EntryOk(t0, k);
        if k > 0 { InOrder(t0, 0, k); }
        Replace(ring[..], head, q, k, q[k].(retries := q[k].retries + 1));
        var idx := Tail(head, k);
        ring[idx] := ring[idx].(retries := ring[idx].retries + 1);
        q := q[k := q[k].(retries := q[k].retries + 1)];
        if ring[idx].retries > MAX_RETRIES {
          up := false;
          return;
        }
        wire := wire + [Packet(ring[idx].seqno, ring[idx].data)];
        LowsMore(t0.sent + Outs(t0.q)[..k], t0.q[k].Out());
        assert t0.sent + Outs(t0.q)[..k + 1] == t0.sent + Outs(t0.q)[..k] + [t0.q[k].Out()];
        k := k + 1;
      }
      assert q == Older(t0.q);
      ResentKeeps(t0);
      t := Resent(t0);
      assert Outs(t0.q)[..k] == Outs(t0.q);
      SentAgain(old(ring[..]), head, t0, old(wire), wire);
    }
  }
}
