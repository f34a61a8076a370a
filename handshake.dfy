/**
 * Connection set-up. The client sends [0, 0] ++ filename; the server accepts
 * when byte 0 is 0 and the bytes from index 2 on spell the file it serves,
 * answers with ACK(0), and takes any further datagram as the third leg. The
 * client echoes an ACK reply back unchanged. Both sides send these packets
 * through the lossy channel with error rate 0. A timeout is an absent
 * datagram (None); an empty datagram makes `data[0]` raise IndexError, which
 * neither side catches.
 */
module Handshake {
  import opened Codec
  import opened Channel

  datatype Phase = Established | Rejected | TimedOut | Crashed

  /** What one side put on the wire during set-up, and how set-up ended. */
  datatype Exchange = Exchange(sent: seq<Datagram>, phase: Phase)

  /** The server's test of a handshake request (server.py line 34); byte 1 is never read. */
  predicate RequestMatches(request: Datagram, filename: Datagram)
    requires |request| > 0
  {
    request[0] == HANDSHAKE && From(request, 2) == filename
  }

  /** The ACK(0) the server answers an accepted request with. */
  function HandshakeAck(): (d: Datagram)
    ensures d == [ACK, 0]
  {
    CreatePacket(ACK, 0, []).value
  }

  /** The server's side of set-up. */
  function ServerHandshake(filename: Datagram, request: Option<Datagram>, ackDraw: int, confirm: Option<Datagram>): (r: Exchange)
    ensures r.phase == Crashed <==> request == Some([])
    ensures r.phase == Established <==>
      request.Some? && |request.value| > 0 && RequestMatches(request.value, filename) && confirm.Some?
    ensures r.phase == Rejected <==>
      request.Some? && |request.value| > 0 && !RequestMatches(request.value, filename)
    ensures r.phase == TimedOut <==>
      request.None? || (|request.value| > 0 && RequestMatches(request.value, filename) && confirm.None?)
    ensures r.phase in {Rejected, Crashed} || request.None? ==> r.sent == []
    ensures r.phase in {Established, TimedOut} && request.Some? ==> r.sent == Transmit([ACK, 0], 0, ackDraw)
  {
    match request
    case None => Exchange([], TimedOut)
    case Some(data) =>
      if |data| == 0 then Exchange([], Crashed)
      else if RequestMatches(data, filename) then
        var sent := Transmit(HandshakeAck(), 0, ackDraw);
        if confirm.Some? then Exchange(sent, Established) else Exchange(sent, TimedOut)
      else Exchange([], Rejected)
  }

  /** The client's handshake request [0, 0] ++ filename. */
  function HandshakeRequest(filename: Datagram): (d: Datagram)
    ensures |d| == 2 + |filename| && d[0] == HANDSHAKE && d[1] == 0 && d[2..] == filename
  {
    CreatePacket(HANDSHAKE, 0, filename).value
  }

  /** The client's side of set-up (initiate_handshake). */
  function ClientHandshake(filename: Datagram, requestDraw: int, reply: Option<Datagram>, echoDraw: int): (r: Exchange)
    ensures r.phase == Established <==> reply.Some? && |reply.value| > 0 && reply.value[0] == ACK
    ensures r.phase == Crashed <==> reply == Some([])
    ensures r.phase == TimedOut <==> reply.None?
    ensures r.phase == Established ==>
      r.sent == Transmit(HandshakeRequest(filename), 0, requestDraw) + Transmit(reply.value, 0, echoDraw)
    ensures r.phase != Established ==> r.sent == Transmit(HandshakeRequest(filename), 0, requestDraw)
  {
    var sent := Transmit(HandshakeRequest(filename), 0, requestDraw);
    match reply
    case None => Exchange(sent, TimedOut)
    case Some(data) =>
      if |data| == 0 then Exchange(sent, Crashed)
      else if data[0] == ACK then Exchange(sent + Transmit(data, 0, echoDraw), Established)
      else Exchange(sent, Rejected)
  }

  /** The server ignores byte 1 of the request: changing it never changes the outcome. */
  lemma RequestByteOneIgnored(filename: Datagram, request: Datagram, b: byte, ackDraw: int, confirm: Option<Datagram>)
    requires |request| >= 2
    ensures ServerHandshake(filename, Some(request[1 := b]), ackDraw, confirm)
         == ServerHandshake(filename, Some(request), ackDraw, confirm)
  {
    assert From(request[1 := b], 2) == From(request, 2);
  }

  /** A client request is accepted by a server exactly when both name the same file. */
  lemma RequestAcceptedIffSameFile(clientFile: Datagram, serverFile: Datagram)
    ensures RequestMatches(HandshakeRequest(clientFile), serverFile) <==> clientFile == serverFile
  {
    assert From(HandshakeRequest(clientFile), 2) == clientFile;
  }

  /**
   * A request for a file other than the one served is rejected and the server
   * sends nothing at all, so in particular no DATA packet.
   */
  lemma NameMismatchSendsNothing(clientFile: Datagram, serverFile: Datagram, ackDraw: int, confirm: Option<Datagram>)
    requires clientFile != serverFile
    ensures ServerHandshake(serverFile, Some(HandshakeRequest(clientFile)), ackDraw, confirm) == Exchange([], Rejected)
  {
    RequestAcceptedIffSameFile(clientFile, serverFile);
  }

  /**
   * With matching names and every draw delivering, the three legs line up:
   * the client's request is accepted, the server's ACK(0) establishes the
   * client, and the client's echo of it establishes the server.
   */
  lemma HandshakeCompletes(filename: Datagram, requestDraw: int, ackDraw: int, echoDraw: int)
    requires Forwarded(0, requestDraw) && Forwarded(0, ackDraw) && Forwarded(0, echoDraw)
    ensures var server0 := ServerHandshake(filename, Some(HandshakeRequest(filename)), ackDraw, None);
      var client := ClientHandshake(filename, requestDraw, Some(server0.sent[0]), echoDraw);
      && client.phase == Established
      && client.sent == [HandshakeRequest(filename), HandshakeAck()]
      && ServerHandshake(filename, Some(client.sent[0]), ackDraw, Some(client.sent[1])).phase == Established
  {
    RequestAcceptedIffSameFile(filename, filename);
  }
}
