/**
 * The sender's Selective-Repeat window. The shared state is base (the
 * oldest sequence number not yet known delivered), nextSeq and the window
 * map from sequence number to (acked, timestamp). Each of the three
 * activities that hold the lock (the initial burst, one retransmission
 * pass, one ACK) is one atomic method. The clock is an integer number of
 * milliseconds passed in as `now`, and the drop draw for each sequence
 * number is passed in as `draw`. Datagrams that reach the wire are recorded
 * in the ghost outbox.
 */
module Sender {
  import opened Codec
  import opened Channel
  import opened Ranges

  /** The 0.1 s retransmission timeout, in milliseconds. */
  const RetransmitTimeout := 100

  /** A window entry: whether its line was acknowledged, and when it was last sent. */
  datatype Slot = Slot(acked: bool, sentAt: int)

  /**
   * Every line's sequence number and length fit the one-byte header fields
   * of create_data_packet.
   */
  predicate FitsProtocol(lines: seq<Datagram>) {
    |lines| <= 256 && forall i :: 0 <= i < |lines| ==> |lines[i]| < 256
  }

  /** The DATA packet that carries line i: [2, len, i] ++ line. */
  function DataPacket(lines: seq<Datagram>, i: int): (d: Datagram)
    requires FitsProtocol(lines) && 0 <= i < |lines|
    ensures ByteAt(d, 0) == Some(DATA) && ByteAt(d, 1) == Some(|lines[i]|)
    ensures ByteAt(d, 2) == Some(i) && From(d, 3) == lines[i]
  {
    var d := CreateDataPacket(DATA, |lines[i]|, i, lines[i]).value;
    assert d[3..] == lines[i];
    d
  }

  /** An unacknowledged slot whose last transmission is older than the timeout. */
  predicate Stale(w: map<int, Slot>, i: int, now: int) {
    i in w && !w[i].acked && now - w[i].sentAt > RetransmitTimeout
  }

  /** A pass sends line i when it has no slot yet or its slot is stale. */
  predicate NeedsSend(w: map<int, Slot>, i: int, now: int) {
    i !in w || Stale(w, i, now)
  }

  /**
   * The datagrams a pass over lo..hi-1 puts on the wire, in ascending order
   * of sequence number: for each one that needs sending, its DATA packet if
   * the drop draw lets it through.
   */
  ghost function Burst(lines: seq<Datagram>, errRate: int, draw: int -> int, w: map<int, Slot>,
                       now: int, lo: int, hi: int): seq<Datagram>
    requires FitsProtocol(lines) && 0 <= lo && hi <= |lines|
    decreases hi - lo
  {
    if hi <= lo then []
    else
      var last := if NeedsSend(w, hi - 1, now) then Transmit(DataPacket(lines, hi - 1), errRate, draw(hi - 1)) else [];
      Burst(lines, errRate, draw, w, now, lo, hi - 1) + last
  }

  /**
   * The window after a pass over lo..hi-1: every sequence number in the
   * range that needed sending has a fresh unacknowledged slot stamped now,
   * and every other slot is as it was.
   */
  function Refreshed(w: map<int, Slot>, lo: int, hi: int, now: int): map<int, Slot>
    decreases hi - lo
  {
    if hi <= lo then w
    else
      var r := Refreshed(w, lo, hi - 1, now);
      if NeedsSend(w, hi - 1, now) then r[hi - 1 := Slot(false, now)] else r
  }

  /** What a pass leaves in each slot: a fresh stamp where sending was needed, the old slot elsewhere. */
  lemma {:induction false} RefreshedSlots(w: map<int, Slot>, lo: int, hi: int, now: int)
    ensures forall k :: k in Refreshed(w, lo, hi, now) <==> k in w || lo <= k < hi
    ensures forall k :: k in Refreshed(w, lo, hi, now) ==>
      Refreshed(w, lo, hi, now)[k] == if lo <= k < hi && NeedsSend(w, k, now) then Slot(false, now) else w[k]
    decreases hi - lo
  {
    if lo < hi {
      RefreshedSlots(w, lo, hi - 1, now);
    }
  }

  /** window[s] = (True, window[s][1]) when s is a key; otherwise the same window. */
  function MarkAcked(w: map<int, Slot>, s: int): (r: map<int, Slot>)
    ensures r.Keys == w.Keys
    ensures forall k :: k in r ==> r[k] == if k == s then Slot(true, w[k].sentAt) else w[k]
  {
    if s in w then w[s := Slot(true, w[s].sentAt)] else w
  }

  /** The slots not yet acknowledged. */
  function Unacked(w: map<int, Slot>): (r: map<int, Slot>)
    ensures forall k :: k in r <==> k in w && !w[k].acked
    ensures forall k :: k in r ==> r[k] == w[k]
  {
    map k | k in w && !w[k].acked :: w[k]
  }

  /** The keys of the unacknowledged slots, collected as filtered_keys is. */
  method UnackedKeys(w: map<int, Slot>) returns (keys: set<int>)
    ensures forall k :: k in keys <==> k in w && !w[k].acked
  {
    keys := {};
    var todo := w.Keys;
    while todo != {}
      invariant todo <= w.Keys
      invariant forall k :: k in keys <==> k in w && k !in todo && !w[k].acked
      decreases todo
    {
      Inhabited(todo);
      var k :| k in todo;
      if !w[k].acked {
        keys := keys + {k};
      }
      todo := todo - {k};
    }
  }

  /** min() of a non-empty set of sequence numbers. */
  method Smallest(keys: set<int>) returns (low: int)
    requires keys != {}
    ensures low in keys
    ensures forall k :: k in keys ==> low <= k
  {
    Inhabited(keys);
    low :| low in keys;
    var todo := keys - {low};
    while todo != {}
      invariant todo <= keys && low in keys
      invariant forall k :: k in keys && k !in todo ==> low <= k
      decreases todo
    {
      Inhabited(todo);
      var k :| k in todo;
      if k < low {
        low := k;
      }
      todo := todo - {k};
    }
  }

  /** Two windows with the same keys and the same slots are the same window. */
  lemma SameSlots(a: map<int, Slot>, b: map<int, Slot>)
    requires forall k :: k in a <==> k in b
    requires forall k :: k in a ==> a[k] == b[k]
    ensures a == b
  {
    assert forall k :: k in a <==> k in b;
    assert forall k :: k in a ==> a[k] == b[k];
  }

  /** A window without keys is the empty window. */
  lemma NoSlots(w: map<int, Slot>)
    ensures (forall k :: k !in w) ==> w == map[]
  {
    assert (forall k :: k !in w) ==> w == map[];
  }

  /** A window whose keys lie in base..nextSeq-1, with nextSeq <= base + size, holds at most size slots. */
  lemma WindowOccupancy(w: map<int, Slot>, base: int, nextSeq: int, size: int)
    requires base <= nextSeq <= base + size
    requires forall k :: k in w ==> base <= k < nextSeq
    ensures |w| <= size
  {
    SubsetOfRangeSize(w.Keys, base, nextSeq);
    assert |w| == |w.Keys|;
  }

  class SenderWindow {
    /** The file's lines, each sent as the payload of one DATA packet. */
    const lines: seq<Datagram>
    const windowSize: int
    const errRate: int

    var base: int
    var nextSeq: int
    var window: map<int, Slot>
    ghost var outbox: seq<Datagram>

    /** min(base + window_size, len(lines)): one past the last sequence number a pass covers. */
    function Bound(): int
      reads this
    {
      Min(base + windowSize, |lines|)
    }

    /**
     * The window invariant: base <= nextSeq <= min(base + window_size, n),
     * and every slot lies in base..nextSeq-1.
     */
    ghost predicate Valid()
      reads this
    {
      && FitsProtocol(lines) && windowSize > 0
      && 0 <= base <= nextSeq <= Bound()
      && forall k :: k in window ==> base <= k < nextSeq
    }

    /** The per-session globals as the server starts a transfer. */
    constructor (lines: seq<Datagram>, windowSize: int, errRate: int)
      requires FitsProtocol(lines) && windowSize > 0
      ensures Valid()
      ensures this.lines == lines && this.windowSize == windowSize && this.errRate == errRate
      ensures base == 0 && nextSeq == 0 && window == map[] && outbox == []
    {
      this.lines := lines;
      this.windowSize := windowSize;
      this.errRate := errRate;
      base, nextSeq, window := 0, 0, map[];
      outbox := [];
    }

    /**
     * The first burst: every line from base up to the bound is sent and
     * gets a fresh unacknowledged slot stamped now.
     */
    method InitialTransmit(now: int, draw: int -> int)
      requires Valid()
      modifies this`nextSeq, this`window, this`outbox
      ensures Valid() && base == old(base)
      ensures nextSeq == Bound()
      ensures forall k :: k in window <==> base <= k < nextSeq
      ensures forall k :: k in window ==> window[k] == Slot(false, now)
      ensures |window| <= windowSize
      ensures outbox == old(outbox) + Burst(lines, errRate, draw, map[], now, base, nextSeq)
    {
      var hi := Min(base + windowSize, |lines|);
      var i := base;
      while i < hi
        invariant base <= i <= hi
        invariant forall k :: k in window ==> base <= k < hi
        invariant forall k :: base <= k < i ==> k in window && window[k] == Slot(false, now)
        invariant outbox == old(outbox) + Burst(lines, errRate, draw, map[], now, base, i)
      {
        var packet := DataPacket(lines, i);
        outbox := outbox + Transmit(packet, errRate, draw(i));
        window := window[i := Slot(false, now)];
        i := i + 1;
      }
      nextSeq := hi;
      WindowOccupancy(window, base, nextSeq, windowSize);
    }

    /**
     * One retransmission pass over base up to the bound: a stale slot is
     * resent and restamped, a missing slot is sent for the first time and
     * created, every other slot is left as it was.
     */
    method RetransmitPass(now: int, draw: int -> int)
      requires Valid()
      modifies this`nextSeq, this`window, this`outbox
      ensures Valid() && base == old(base)
      ensures nextSeq == Bound()
      ensures window == Refreshed(old(window), base, nextSeq, now)
      ensures forall k :: k in window <==> base <= k < nextSeq
      ensures forall k :: k in window ==>
        window[k] == if NeedsSend(old(window), k, now) then Slot(false, now) else old(window)[k]
      ensures |window| <= windowSize
      ensures outbox == old(outbox) + Burst(lines, errRate, draw, old(window), now, base, nextSeq)
    {
      var hi := Min(base + windowSize, |lines|);
      assert forall k :: k in window ==> base <= k < hi;
      var i := base;
      while i < hi
        invariant base <= i <= hi
        invariant window == Refreshed(old(window), base, i, now)
        invariant outbox == old(outbox) + Burst(lines, errRate, draw, old(window), now, base, i)
      {
        RefreshedSlots(old(window), base, i, now);
        SendIfNeeded(i, now, draw);
        i := i + 1;
      }
      RefreshedSlots(old(window), base, hi, now);
      nextSeq := hi;
      WindowOccupancy(window, base, nextSeq, windowSize);
    }

    /**
     * The body of the pass for sequence number i: resend a stale slot, or
     * send a line that has no slot yet, restamping it either way.
     */
    method SendIfNeeded(i: int, now: int, draw: int -> int)
      requires FitsProtocol(lines) && 0 <= i < |lines|
      modifies this`window, this`outbox
      ensures window == if NeedsSend(old(window), i, now) then old(window)[i := Slot(false, now)] else old(window)
      ensures outbox == old(outbox)
        + if NeedsSend(old(window), i, now) then Transmit(DataPacket(lines, i), errRate, draw(i)) else []
    {
      if i in window && !window[i].acked && now - window[i].sentAt > RetransmitTimeout {
        var packet := DataPacket(lines, i);
        outbox := outbox + Transmit(packet, errRate, draw(i));
        window := window[i := Slot(false, now)];
      }
      if i !in window {
        var packet := DataPacket(lines, i);
        outbox := outbox + Transmit(packet, errRate, draw(i));
        window := window[i := Slot(false, now)];
      }
    }

    /**
     * The slide after an ACK for base: base moves to the oldest slot still
     * unacknowledged, or to nextSeq when there is none (which is len(lines)
     * once every line has been sent), and every acknowledged slot is purged.
     */
    method SlideBase()
      requires Valid()
      modifies this`base, this`window
      ensures Valid() && nextSeq == old(nextSeq)
      ensures old(base) <= base
      ensures window == Unacked(old(window))
      ensures window != map[] ==> base in window && forall k :: k in window ==> base <= k
      ensures window == map[] ==> base == nextSeq
    {
      ghost var marked := window;
      var filtered := UnackedKeys(window);
      if filtered != {} {
        base := Smallest(filtered);
        assert base in marked && !marked[base].acked;
      } else if nextSeq != |lines| {
        base := nextSeq;
      } else if nextSeq == |lines| {
        base := |lines|;
      }
      var trueKeys := window.Keys - filtered;
      while trueKeys != {}
        modifies this`window
        invariant forall k :: k in trueKeys ==> k in marked && k !in filtered
        invariant forall k :: k in window <==> k in filtered || k in trueKeys
        invariant forall k :: k in window ==> window[k] == marked[k]
        decreases trueKeys
      {
        Inhabited(trueKeys);
        var key :| key in trueKeys;
        window := window - {key};
        trueKeys := trueKeys - {key};
      }
      SameSlots(window, Unacked(marked));
      if filtered != {} {
        assert base in window;
      } else {
        assert forall k :: k !in window;
        NoSlots(window);
      }
    }

    /**
     * One iteration of the ACK loop with the datagram read (None on a socket
     * timeout). Returns false when the datagram is too short for the bytes
     * read, where IndexError ends the ACK activity. An ACK marks its slot; an
     * ACK for base also slides base to the oldest unacknowledged slot (or to
     * nextSeq when there is none) and purges every acknowledged slot.
     */
    method HandleAck(reply: Option<Datagram>) returns (alive: bool)
      requires Valid()
      modifies this`base, this`window
      ensures Valid() && nextSeq == old(nextSeq)
      ensures alive <==> reply.None? || (|reply.value| > 0 && (reply.value[0] != ACK || |reply.value| >= 2))
      ensures old(base) <= base
      ensures !IsAck(reply) ==> base == old(base) && window == old(window)
      ensures IsAck(reply) && reply.value[1] != old(base) ==>
        base == old(base) && window == MarkAcked(old(window), reply.value[1])
      ensures IsAck(reply) && reply.value[1] == old(base) ==>
        && window == Unacked(MarkAcked(old(window), old(base)))
        && (window != map[] ==> base in window && forall k :: k in window ==> base <= k)
        && (window == map[] ==> base == nextSeq)
      ensures |window| <= windowSize
    {
      alive := true;
      if reply.None? {
        WindowOccupancy(window, base, nextSeq, windowSize);
        return;
      }
      var ack := reply.value;
      if |ack| == 0 || (ack[0] == ACK && |ack| < 2) {
        alive := false;
        WindowOccupancy(window, base, nextSeq, windowSize);
        return;
      }
      if ack[0] == ACK {
        var s := ack[1];
        if s in window {
          window := window[s := Slot(true, window[s].sentAt)];
        }
        if s == base {
          SlideBase();
        }
      }
      WindowOccupancy(window, base, nextSeq, windowSize);
    }
  }

  /** A datagram the ACK loop acts on: at least two bytes, byte 0 equal to 1. */
  predicate IsAck(reply: Option<Datagram>) {
    reply.Some? && |reply.value| >= 2 && reply.value[0] == ACK
  }

  /**
   * Five lines and a window of four, ACKs for 1 and 3 arrived before the
   * ACK for 0. The ACK for 0 leaves only slot 2, so base moves to 2 (the
   * oldest line still unacknowledged) and slots 0, 1 and 3 are purged; a
   * pass 50 ms later keeps slot 2 and sends 3 again as a new line, with 4.
   */
  lemma SelectiveSlideExample()
    ensures var w := map[0 := Slot(false, 0), 1 := Slot(true, 0), 2 := Slot(false, 0), 3 := Slot(true, 0)];
      var slid := Unacked(MarkAcked(w, 0));
      && (forall k :: k in slid <==> k == 2)
      && slid[2] == Slot(false, 0)
      && (forall k :: k in Refreshed(slid, 2, 5, 50) <==> 2 <= k < 5)
      && Refreshed(slid, 2, 5, 50)[2] == Slot(false, 0)
      && Refreshed(slid, 2, 5, 50)[3] == Slot(false, 50)
      && Refreshed(slid, 2, 5, 50)[4] == Slot(false, 50)
  {
    var w := map[0 := Slot(false, 0), 1 := Slot(true, 0), 2 := Slot(false, 0), 3 := Slot(true, 0)];
    var slid := Unacked(MarkAcked(w, 0));
    assert forall k :: k in slid <==> k == 2;
    RefreshedSlots(slid, 2, 5, 50);
  }
}
