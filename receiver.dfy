/**
 * The client's receive loop. Every DATA packet is acknowledged with
 * ACK(seq), its payload is stored under its sequence number (overwriting an
 * earlier copy) and then the buffer is drained in order from
 * expectedSeq: each stored payload found there is popped and delivered and
 * expectedSeq moves on. The ghost `delivered` is the stream handed to the
 * application; `arrivals` records every (seq, payload) that came in.
 */
module Receiver {
  import opened Codec
  import opened Channel
  import opened Ranges

  /** A drain's outcome: the payloads delivered, the buffer left, the next expected number. */
  datatype Drained = Drained(out: seq<Datagram>, rest: map<int, Datagram>, next: int)

  /** Pops buffered payloads in order from e while the next one is present. */
  function Drain(m: map<int, Datagram>, e: int): Drained
    decreases |m.Keys|
  {
    if e in m then
      var d := Drain(m - {e}, e + 1);
      Drained([m[e]] + d.out, d.rest, d.next)
    else Drained([], m, e)
  }

  /**
   * A drain delivers m[e], m[e+1], ... up to the first gap, which becomes
   * the next expected number, and leaves every other entry buffered.
   */
  lemma {:induction false} DrainSpec(m: map<int, Datagram>, e: int)
    ensures var r := Drain(m, e);
      && e <= r.next && r.next == e + |r.out|
      && r.next !in r.rest
      && (forall k :: e <= k < r.next ==> k in m && r.out[k - e] == m[k])
      && (forall k :: k in r.rest <==> k in m && !(e <= k < r.next))
      && (forall k :: k in r.rest ==> r.rest[k] == m[k])
    decreases |m.Keys|
  {
    if e in m {
      var m' := m - {e};
      DrainSpec(m', e + 1);
      var d := Drain(m', e + 1);
      var r := Drain(m, e);
      assert r.out == [m[e]] + d.out;
      forall k | e <= k < r.next
        ensures k in m && r.out[k - e] == m[k]
      {
        if k > e {
          assert r.out[k - e] == d.out[k - (e + 1)];
          assert k in m' && m'[k] == m[k];
        }
      }
    } else {
      assert Drain(m, e) == Drained([], m, e);
    }
  }

  /** The effect of one DATA packet on (buffer, expected): store, then drain. */
  function Accept(m: map<int, Datagram>, e: int, s: int, payload: Datagram): Drained {
    Drain(m[s := payload], e)
  }

  /** The effect of a whole series of DATA arrivals, in arrival order. */
  function AcceptAll(m: map<int, Datagram>, e: int, arrivals: seq<(byte, Datagram)>): (r: Drained)
    decreases |arrivals|
  {
    if arrivals == [] then Drained([], m, e)
    else
      var d := Accept(m, e, arrivals[0].0, arrivals[0].1);
      var rest := AcceptAll(d.rest, d.next, arrivals[1..]);
      Drained(d.out + rest.out, rest.rest, rest.next)
  }

  /**
   * Over any series of arrivals, starting from a buffer that does not hold
   * e: delivery is the in-order stream from e (the payload delivered for k
   * was buffered under k or arrived with sequence number k), the new
   * expected number is not buffered, and every sequence number that was
   * buffered or arrived is either delivered or still buffered.
   */
  lemma {:induction false} AcceptAllInOrder(m: map<int, Datagram>, e: int, arrivals: seq<(byte, Datagram)>)
    requires e !in m
    ensures var r := AcceptAll(m, e, arrivals);
      && e <= r.next && r.next == e + |r.out|
      && r.next !in r.rest
      && (forall k :: e <= k < r.next ==> (k in m && r.out[k - e] == m[k]) || (k, r.out[k - e]) in Pairs(arrivals))
      && (forall k :: k in m ==> k < r.next || k in r.rest)
      && (forall i :: 0 <= i < |arrivals| ==> arrivals[i].0 < r.next || arrivals[i].0 in r.rest)
    decreases |arrivals|
  {
    if arrivals != [] {
      var s, p := arrivals[0].0, arrivals[0].1;
      var d := Accept(m, e, s, p);
      DrainSpec(m[s := p], e);
      var tail := arrivals[1..];
      AcceptAllInOrder(d.rest, d.next, tail);
      var rest := AcceptAll(d.rest, d.next, tail);
      var r := AcceptAll(m, e, arrivals);
      assert r.out == d.out + rest.out;
      assert (s as int, p) in Pairs(arrivals);
      forall i | 0 <= i < |arrivals|
        ensures arrivals[i].0 < r.next || arrivals[i].0 in r.rest
      {
        if i > 0 {
          assert arrivals[i] == tail[i - 1];
        }
      }
      forall k | e <= k < r.next
        ensures (k in m && r.out[k - e] == m[k]) || (k, r.out[k - e]) in Pairs(arrivals)
      {
        if k < d.next {
          assert r.out[k - e] == d.out[k - e];
          assert k in m[s := p] && d.out[k - e] == m[s := p][k];
          if k != s as int {
            assert k in m && d.out[k - e] == m[k];
          }
        } else {
          assert r.out[k - e] == rest.out[k - d.next];
          if (k, rest.out[k - d.next]) in Pairs(tail) {
            var i' :| 0 <= i' < |tail| && (tail[i'].0 as int, tail[i'].1) == (k, rest.out[k - d.next]);
            assert arrivals[i' + 1] == tail[i'];
          } else {
            assert k in d.rest && rest.out[k - d.next] == d.rest[k];
          }
        }
      }
    }
  }

  /** The (seq, payload) pairs of a series of arrivals. */
  ghost function Pairs(arrivals: seq<(byte, Datagram)>): set<(int, Datagram)> {
    set i | 0 <= i < |arrivals| :: (arrivals[i].0 as int, arrivals[i].1)
  }

  /** The sequence numbers of a series of arrivals. */
  ghost function Seqs(arrivals: seq<(byte, Datagram)>): set<int> {
    set i | 0 <= i < |arrivals| :: arrivals[i].0 as int
  }

  /**
   * Starting from an empty buffer, if every sequence number 0..n-1 arrives
   * at least once and nothing else arrives, in any order and with any
   * duplicates, exactly n payloads are delivered, the one for j being one
   * that arrived with sequence number j.
   */
  lemma AllArrivedAllDelivered(n: nat, arrivals: seq<(byte, Datagram)>)
    requires forall i :: 0 <= i < |arrivals| ==> arrivals[i].0 < n
    requires forall k :: 0 <= k < n ==> k in Seqs(arrivals)
    ensures var r := AcceptAll(map[], 0, arrivals);
      && r.next == n && |r.out| == n
      && forall j :: 0 <= j < n ==> (j, r.out[j]) in Pairs(arrivals)
  {
    AcceptAllInOrder(map[], 0, arrivals);
    var r := AcceptAll(map[], 0, arrivals);
    AcceptAllBounded(map[], 0, arrivals, n);
    assert r.next !in Seqs(arrivals);
    forall j | 0 <= j < n
      ensures (j, r.out[j]) in Pairs(arrivals)
    {
      assert 0 <= j < r.next;
      var empty: map<int, Datagram> := map[];
      assert j !in empty;
    }
  }

  /** With every buffered and arriving sequence number below n, and e <= n, drains never pass n. */
  lemma {:induction false} AcceptAllBounded(m: map<int, Datagram>, e: int, arrivals: seq<(byte, Datagram)>, n: int)
    requires e <= n
    requires forall k :: k in m ==> k < n
    requires forall i :: 0 <= i < |arrivals| ==> arrivals[i].0 < n
    ensures AcceptAll(m, e, arrivals).next <= n
    decreases |arrivals|
  {
    if arrivals != [] {
      var m' := m[arrivals[0].0 := arrivals[0].1];
      var d := Accept(m, e, arrivals[0].0, arrivals[0].1);
      DrainSpec(m', e);
      if d.next > e {
        assert d.next - 1 in m';
      }
      assert forall k :: k in d.rest ==> k in m';
      AcceptAllBounded(d.rest, d.next, arrivals[1..], n);
    }
  }

  datatype Step = DataHandled | FinArrived | Ignored | Crashed

  class ReorderBuffer {
    const errRate: int

    /** received_packets */
    var received: map<int, Datagram>
    /** expected_seq_num */
    var expected: int
    /** seq_num: the sequence number of the last DATA packet, unset before the first */
    var lastSeq: Option<int>

    ghost var delivered: seq<Datagram>
    ghost var arrivals: set<(int, Datagram)>
    ghost var outbox: seq<Datagram>

    /**
     * The j-th payload delivered arrived with sequence number j, so delivery
     * is in sequence order with each number once; expected is the count
     * delivered and is never itself buffered; every buffered payload arrived
     * under its key.
     */
    ghost predicate Valid()
      reads this
    {
      && expected == |delivered|
      && expected !in received
      && (forall j :: 0 <= j < |delivered| ==> (j, delivered[j]) in arrivals)
      && (forall k :: k in received ==> (k, received[k]) in arrivals)
      && (lastSeq.Some? ==> IsByte(lastSeq.value))
    }

    constructor (errRate: int)
      ensures Valid() && this.errRate == errRate
      ensures received == map[] && expected == 0 && lastSeq == None
      ensures delivered == [] && arrivals == {} && outbox == []
    {
      this.errRate := errRate;
      received, expected, lastSeq := map[], 0, None;
      delivered, arrivals, outbox := [], {}, [];
    }

    /**
     * The drain loop: while expected is buffered, pop it, deliver it and
     * move expected on.
     */
    method DrainInOrder()
      requires expected == |delivered|
      requires forall j :: 0 <= j < |delivered| ==> (j, delivered[j]) in arrivals
      requires forall k :: k in received ==> (k, received[k]) in arrivals
      requires lastSeq.Some? ==> IsByte(lastSeq.value)
      modifies this`received, this`expected, this`delivered
      ensures Valid()
      ensures var d := Drain(old(received), old(expected));
        delivered == old(delivered) + d.out && received == d.rest && expected == d.next
    {
      ghost var target := Drain(received, expected);
      ghost var start := delivered;
      while expected in received
        invariant delivered + Drain(received, expected).out == start + target.out
        invariant Drain(received, expected).rest == target.rest
        invariant Drain(received, expected).next == target.next
        invariant expected == |delivered|
        invariant forall j :: 0 <= j < |delivered| ==> (j, delivered[j]) in arrivals
        invariant forall k :: k in received ==> (k, received[k]) in arrivals
        decreases |received.Keys|
      {
        var next := received[expected];
        ghost var later := Drain(received - {expected}, expected + 1);
        assert Drain(received, expected) == Drained([next] + later.out, later.rest, later.next);
        received := received - {expected};
        delivered := delivered + [next];
        expected := expected + 1;
      }
    }

    /**
     * One datagram of the receive loop. A DATA packet is acknowledged,
     * stored and drained; a FIN is reported for the close (see Teardown);
     * other types are ignored; a datagram too short for the bytes read
     * raises IndexError.
     */
    method OnDatagram(data: Datagram, draw: int) returns (step: Step)
      requires Valid()
      modifies this`received, this`expected, this`lastSeq, this`delivered, this`arrivals, this`outbox
      ensures Valid()
      ensures old(expected) <= expected
      ensures step == Crashed <==> |data| == 0 || (data[0] == DATA && |data| < 3)
      ensures step == DataHandled <==> |data| >= 3 && data[0] == DATA
      ensures step == FinArrived <==> |data| > 0 && data[0] == FIN
      ensures step != DataHandled ==>
        && received == old(received) && expected == old(expected) && lastSeq == old(lastSeq)
        && delivered == old(delivered) && arrivals == old(arrivals) && outbox == old(outbox)
      ensures step == DataHandled ==>
        var d := Accept(old(received), old(expected), data[2], From(data, 3));
        && lastSeq == Some(data[2] as int)
        && outbox == old(outbox) + Transmit([ACK, data[2]], errRate, draw)
        && arrivals == old(arrivals) + {(data[2] as int, From(data, 3))}
        && delivered == old(delivered) + d.out
        && received == d.rest && expected == d.next
      ensures step == DataHandled && data[2] < old(expected) ==>
        delivered == old(delivered) && expected == old(expected)
    {
      if |data| == 0 {
        return Crashed;
      }
      if data[0] == DATA {
        if |data| < 3 {
          return Crashed;
        }
        var s := data[2];
        var payload := data[3..];
        received := received[s := payload];
        arrivals := arrivals + {(s as int, payload)};
        lastSeq := Some(s);
        var ackPacket := CreatePacket(ACK, s, []).value;
        assert ackPacket == [ACK, s] + [];
        assert ackPacket == [ACK, s];
        outbox := outbox + Transmit(ackPacket, errRate, draw);
        DrainInOrder();
        return DataHandled;
      }
      if data[0] == FIN {
        return FinArrived;
      }
      return Ignored;
    }
  }
}
