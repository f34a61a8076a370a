/**
 * Connection close. The server, once every line is acknowledged, sends
 * FIN(base), expects ACK(base) and then FIN(base + 1), and answers the
 * latter with ACK(base + 1). The client, on a FIN, sends ACK(s + 1) and
 * FIN(s + 2) where s is the sequence number of the last DATA packet it
 * received (the FIN's own sequence byte is never read), and then closes
 * only on a reply whose byte 0 is 3, although the server's last packet is
 * an ACK (type 1). All these packets go through the lossy
 * channel with the session's error rate.
 */
module Teardown {
  import opened Codec
  import opened Channel

  /**
   * Completed: the close ran to its end. Aborted: a timeout or an
   * unexpected reply made that side close its socket early. Resumed: the
   * client goes back to its receive loop. Crashed: an uncaught exception
   * (struct.error, IndexError, or the unset last sequence number).
   */
  datatype Ending = Completed | Aborted | Resumed | Crashed

  datatype Close = Close(sent: seq<Datagram>, ending: Ending)

  /** The server's first test: an ACK for the FIN's own sequence number (server.py line 148). */
  predicate AcksFin(reply: Datagram, base: int)
    requires |reply| >= 2 || (|reply| >= 1 && reply[0] != ACK)
  {
    reply[0] == ACK && reply[1] == base
  }

  /** The server's second test: the client's FIN numbered base + 1 (server.py line 152). */
  predicate IsPeerFin(reply: Datagram, base: int)
    requires |reply| >= 2 || (|reply| >= 1 && reply[0] != FIN)
  {
    reply[0] == FIN && reply[1] == base + 1
  }

  /** Bytes 0 and 1 can be read without IndexError, given the short-circuit on byte 0. */
  predicate Readable(reply: Datagram, packetType: byte) {
    |reply| >= 2 || (|reply| == 1 && reply[0] != packetType)
  }

  /** The server's close, after the transfer loop has seen base == len(lines). */
  function ServerClose(base: int, errRate: int, finDraw: int, ackReply: Option<Datagram>,
                       finReply: Option<Datagram>, lastDraw: int): (r: Close)
    ensures r.ending != Resumed
    ensures r.ending == Completed <==>
      && IsByte(base)
      && ackReply.Some? && |ackReply.value| >= 2 && ackReply.value[0] == ACK && ackReply.value[1] == base
      && finReply.Some? && |finReply.value| >= 2 && finReply.value[0] == FIN && finReply.value[1] == base + 1
    ensures !IsByte(base) ==> r == Close([], Crashed)
    ensures r.ending == Completed ==>
      r.sent == Transmit([FIN, base], errRate, finDraw) + Transmit([ACK, base + 1], errRate, lastDraw)
    ensures r.ending != Completed && IsByte(base) ==> r.sent == Transmit([FIN, base], errRate, finDraw)
  {
    match CreatePacket(FIN, base, [])
    case StructError => Close([], Crashed)
    case Ok(fin) =>
      assert fin == [FIN, base] + []; assert fin == [FIN, base];
      var sent := Transmit(fin, errRate, finDraw);
      match ackReply
      case None => Close(sent, Aborted)
      case Some(ack) =>
        if !Readable(ack, ACK) then Close(sent, Crashed)
        else if !AcksFin(ack, base) then Close(sent, Aborted)
        else match finReply
          case None => Close(sent, Aborted)
          case Some(fin2) =>
            if !Readable(fin2, FIN) then Close(sent, Crashed)
            else if !IsPeerFin(fin2, base) then Close(sent, Aborted)
            else
              var finalAck := CreatePacket(ACK, base + 1, []).value;
              assert finalAck == [ACK, base + 1] + []; assert finalAck == [ACK, base + 1];
              Close(sent + Transmit(finalAck, errRate, lastDraw), Completed)
  }

  /**
   * The client's FIN branch; lastSeq is None when no DATA packet has arrived
   * yet. closeType is the packet type the client's last test accepts as the
   * end of the close: FIN as written, ACK as intended (see FinalAckNeverClosesClient).
   */
  function ClientClose(lastSeq: Option<int>, errRate: int, ackDraw: int, finDraw: int, reply: Option<Datagram>,
                       closeType: byte): (r: Close)
    ensures r.ending == Crashed <==>
      lastSeq.None? || !IsByte(lastSeq.value + 1) || !IsByte(lastSeq.value + 2) || reply == Some([])
    ensures r.ending == Completed <==> r.ending != Crashed && reply.Some? && reply.value[0] == closeType
    ensures r.ending == Aborted <==> r.ending != Crashed && reply.None?
    ensures lastSeq.Some? && IsByte(lastSeq.value + 1) && IsByte(lastSeq.value + 2) ==>
      r.sent == Transmit([ACK, lastSeq.value + 1], errRate, ackDraw) + Transmit([FIN, lastSeq.value + 2], errRate, finDraw)
    ensures lastSeq.None? || !IsByte(lastSeq.value + 2) ==> r.sent == []
  {
    match lastSeq
    case None => Close([], Crashed)
    case Some(s) =>
      match (CreatePacket(ACK, s + 1, []), CreatePacket(FIN, s + 2, []))
      case (Ok(finAck), Ok(fin)) =>
        assert finAck == [ACK, s + 1] + [] && fin == [FIN, s + 2] + [];
        assert finAck == [ACK, s + 1] && fin == [FIN, s + 2];
        var sent := Transmit(finAck, errRate, ackDraw) + Transmit(fin, errRate, finDraw);
        (match reply
         case None => Close(sent, Aborted)
         case Some(d) =>
           if |d| == 0 then Close(sent, Crashed)
           else if d[0] == closeType then Close(sent, Completed)
           else Close(sent, Resumed))
      case _ => Close([], Crashed)
  }

  /**
   * The client's two replies pass the server's two tests exactly when the
   * last DATA packet the client saw carried base - 1; any other last
   * sequence number ends the server's close early.
   */
  lemma {:induction false} ClientRepliesMatchServer(base: int, lastSeq: int, errRate: int, ackDraw: int, finDraw: int,
                                                    serverFinDraw: int, lastDraw: int, reply: Option<Datagram>)
    requires 0 <= lastSeq <= 253 && IsByte(base)
    requires Forwarded(errRate, ackDraw) && Forwarded(errRate, finDraw)
    ensures var c := ClientClose(Some(lastSeq), errRate, ackDraw, finDraw, reply, FIN);
      && c.sent == [[ACK, lastSeq + 1], [FIN, lastSeq + 2]]
      && (ServerClose(base, errRate, serverFinDraw, Some(c.sent[0]), Some(c.sent[1]), lastDraw).ending == Completed
          <==> lastSeq == base - 1)
  {
  }

  /**
   * The server's last packet of a completed close is an ACK (type 1), while
   * the client closes only on type 3: fed that packet, the client never
   * completes its close and goes back to its receive loop instead.
   */
  lemma {:induction false} FinalAckNeverClosesClient(base: int, errRate: int, finDraw: int, ackReply: Option<Datagram>,
                                                     finReply: Option<Datagram>, lastDraw: int,
                                                     lastSeq: int, ackDraw: int, clientFinDraw: int)
    requires ServerClose(base, errRate, finDraw, ackReply, finReply, lastDraw).ending == Completed
    requires Forwarded(errRate, lastDraw)
    requires 0 <= lastSeq <= 253
    ensures var s := ServerClose(base, errRate, finDraw, ackReply, finReply, lastDraw);
      && s.sent[|s.sent| - 1] == [ACK, base + 1]
      && ClientClose(Some(lastSeq), errRate, ackDraw, clientFinDraw, Some(s.sent[|s.sent| - 1]), FIN).ending == Resumed
  {
    var s := ServerClose(base, errRate, finDraw, ackReply, finReply, lastDraw);
    assert s.sent[|s.sent| - 1] == [ACK, base + 1];
  }

  /**
   * With the close test the client's own message announces (a final ACK,
   * type 1), the server's last packet of a completed close, once it gets
   * through, completes the client's close too.
   */
  lemma {:induction false} FinalAckClosesIntendedClient(base: int, errRate: int, finDraw: int, ackReply: Option<Datagram>,
                                                        finReply: Option<Datagram>, lastDraw: int,
                                                        lastSeq: int, ackDraw: int, clientFinDraw: int)
    requires ServerClose(base, errRate, finDraw, ackReply, finReply, lastDraw).ending == Completed
    requires Forwarded(errRate, lastDraw)
    requires 0 <= lastSeq <= 253
    ensures var s := ServerClose(base, errRate, finDraw, ackReply, finReply, lastDraw);
      ClientClose(Some(lastSeq), errRate, ackDraw, clientFinDraw, Some(s.sent[|s.sent| - 1]), ACK).ending == Completed
  {
    var s := ServerClose(base, errRate, finDraw, ackReply, finReply, lastDraw);
    assert s.sent[|s.sent| - 1] == [ACK, base + 1];
  }
}
