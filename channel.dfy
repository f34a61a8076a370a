/**
 * The simulated lossy channel: unreliableSend draws an integer uniformly
 * from 0..100 and hands the packet to the socket only when the configured
 * error rate is strictly below the draw. The draw is a parameter here.
 */
module Channel {
  import opened Codec
  import opened Ranges

  /** randint(0, 100) is inclusive at both ends. */
  const MaxDraw := 100

  /** The drop decision of unreliableSend. */
  predicate Forwarded(errRate: int, draw: int) {
    errRate < draw
  }

  /** What one unreliableSend puts on the wire: the packet, or nothing. */
  function Transmit(packet: Datagram, errRate: int, draw: int): (wire: seq<Datagram>)
    ensures |wire| <= 1
    ensures wire == [packet] <==> Forwarded(errRate, draw)
    ensures wire == [] <==> !Forwarded(errRate, draw)
  {
    if Forwarded(errRate, draw) then [packet] else []
  }

  /** The draws among 0..100 for which a packet goes out. */
  function DeliveringDraws(errRate: int): (ds: set<int>)
    ensures forall d :: d in ds <==> 0 <= d <= MaxDraw && errRate < d
  {
    set d | d in Range(0, MaxDraw + 1) && Forwarded(errRate, d)
  }

  /**
   * Out of the 101 equally likely draws, exactly 100 - errRate deliver when
   * errRate is in 0..100: a rate of 100 or more never sends, and a rate of 0
   * still drops the packet on draw 0.
   */
  lemma DeliveringDrawCount(errRate: int)
    ensures |DeliveringDraws(errRate)| ==
      if errRate >= MaxDraw then 0 else if errRate < 0 then MaxDraw + 1 else MaxDraw - errRate
  {
    var lo := if errRate < 0 then 0 else errRate + 1;
    assert DeliveringDraws(errRate) == Range(lo, MaxDraw + 1);
    RangeSize(lo, MaxDraw + 1);
  }

  /** Even with error rate 0 the drop decision can discard a packet. */
  lemma ZeroRateMayDrop()
    ensures exists draw :: 0 <= draw <= MaxDraw && !Forwarded(0, draw)
  {
    assert !Forwarded(0, 0);
  }
}
