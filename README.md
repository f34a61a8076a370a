# Selective-Repeat ARQ file transfer over UDP, modelled in Dafny

The system is a client and a server that move a text file, line by line,
over UDP. A simulated lossy channel sits in front of every send: a packet
goes out only when the error rate is strictly below a draw from 0..100.

- **Packets.** Each packet has one-byte header fields, packed with
  `struct.pack("!BB")` or `struct.pack("!BBB")`. They are decoded by
  indexing `data[0]`, `data[1]`, `data[2]` and slicing `data[3:]`.
- **Handshake.** The client sends `[0, 0] ++ filename`. The server checks
  byte 0 and the name, and answers `ACK(0)`. The client echoes that ACK
  back.
- **Sending.** The server streams lines with a Selective-Repeat window. Its
  state is `base`, `next_seq_num` and a window map from sequence number to
  `(acked, timestamp)`. Three activities change this state under one lock:
  - the initial burst;
  - periodic retransmission passes;
  - the ACK loop.
- **Receiving.** The client acknowledges every DATA packet and buffers its
  payload under its sequence number. It then delivers buffered payloads in
  order from `expected_seq_num`.
- **Close.** The close is a FIN/ACK/FIN/ACK exchange:
  1. The server sends `FIN(base)` and waits for `ACK(base)`.
  2. The server then waits for `FIN(base + 1)` and answers it with
     `ACK(base + 1)`.
  3. The client answers a FIN with `ACK(s + 1)` and `FIN(s + 2)`, where `s`
     is the last DATA sequence number it saw.

The model has seven modules, one per file:

- `Ranges`: integer ranges and their sizes.
- `Codec`: building packets, reading header bytes, and the round trips
  between the two.
- `Channel`: the drop decision.
- `Handshake`: both sides of set-up as functions of the datagrams each side
  receives.
- `Sender`: the class `SenderWindow`. It has one atomic method per locked
  block and a ghost outbox of the datagrams that reached the wire.
- `Receiver`: the class `ReorderBuffer`. Its ghost state holds the delivered
  stream and the arrivals. Pure functions `Drain` and `AcceptAll` specify
  it.
- `Teardown`: both sides of the close.

Payloads are byte sequences. A timeout is an absent datagram (`None`). A
`struct.error` is the `StructError` case of `Result`. An uncaught
`IndexError` on a datagram too short for the bytes read is an explicit
`Crashed` outcome.

Where the code and the design description disagree, the model follows the
code:

- **An error rate of 0 does not guarantee delivery.** The description says
  it does. In the code, a draw of 0 still drops the packet (server.py:15).
  So the handshake ACK at server.py:37 can be lost. See
  `Channel.ZeroRateMayDrop` and `Channel.DeliveringDrawCount`.
- **The slide jumps past acknowledged slots.** The description's
  selective-slide example says that the ACK for 0 moves `base` to 1 when
  ACKs for 1 and 3 are already in. The code instead moves `base` to the
  smallest unacknowledged key, which is 2. It also purges the acknowledged
  slot 3 above the new base, and a later pass sends 3 again as a new line.
  See `Sender.SelectiveSlideExample`.
- **The client does not finish the close.** The description says both ends
  complete the four-message close. The client, however, completes only on a
  type-3 packet, and the server's last packet is type 1 (see Findings).

## Model

| member | source | states |
|---|---|---|
| Codec.PackBytes | server.py:19 | packing succeeds iff every field is in 0..255, and then yields exactly those bytes in order |
| Codec.CreatePacket | server.py:18-19 | the result is `[type, seq] ++ payload`; it is a struct.error iff type or seq is outside 0..255 (client.py:12-13 is the same function) |
| Codec.CreateDataPacket | server.py:21-22 | the result is `[type, len, seq] ++ payload`; it is a struct.error iff a header field is outside 0..255 |
| Codec.ByteAt | client.py:49-52 | `data[i]` is defined iff `i < len(data)`, and then it is that byte |
| Codec.From | client.py:53 | `data[i:]` is the suffix from `i`, or empty past the end |
| Codec.PacketRoundTrip | client.py:12-13 | reading bytes 0 and 1 and the slice from 2 of a built packet gives back type, seq and payload |
| Codec.DataPacketRoundTrip | server.py:21-22 | reading bytes 0, 1 and 2 and the slice from 3 of a built DATA packet gives back its four inputs |
| Channel.Transmit | server.py:14-16 | the wire gets the packet iff `errRate < draw`, and nothing otherwise |
| Channel.DeliveringDraws | server.py:15 | the delivering draws are exactly those in 0..100 above the error rate |
| Channel.DeliveringDrawCount | server.py:15 | the number of delivering draws is `100 - errRate` for a rate in 0..100, none at 100 or more, and all 101 below 0 |
| Channel.ZeroRateMayDrop | server.py:37 | some draw drops a packet sent with error rate 0 |
| Handshake.HandshakeAck | server.py:35 | the server's handshake answer is `[1, 0]` |
| Handshake.ServerHandshake | server.py:30-53 | established iff a request arrives whose byte 0 is 0 and whose bytes from 2 are the file name, and a confirmation follows; rejected iff a non-empty request fails the test, and nothing is sent then; timed out when either datagram is missing; crashes on an empty request; the only packet sent is ACK(0) through the channel |
| Handshake.HandshakeRequest | client.py:23 | the request is `[0, 0] ++ filename` |
| Handshake.ClientHandshake | client.py:22-39 | established iff a reply arrives whose byte 0 is 1, and then the reply is echoed unchanged; timed out without a reply; crashes on an empty reply; the request always goes out through the channel with rate 0 |
| Handshake.RequestByteOneIgnored | server.py:34 | changing byte 1 of a request never changes the server's handshake outcome or what it sends |
| Handshake.RequestAcceptedIffSameFile | server.py:34 | the client's request passes the server's test iff both name the same file |
| Handshake.NameMismatchSendsNothing | server.py:46-49 | on a different file name the server sends nothing and ends rejected |
| Handshake.HandshakeCompletes | server.py:34-41 | when no draw drops a packet, both sides end established and exchange exactly request, ACK(0) and echo |
| Sender.DataPacket | server.py:72-73 | the DATA packet for line `i` reads back as type 2, the line's length, `i` and the line |
| Sender.RefreshedSlots | server.py:69-81 | after a pass over lo..hi-1, every number in the range has a slot; a slot that was missing or stale is `(False, now)`; every other slot is unchanged |
| Sender.MarkAcked | server.py:107-108 | an ACK sets only slot `s` to acknowledged and keeps its timestamp; the keys are unchanged |
| Sender.Unacked | server.py:110-120 | the window after a slide holds exactly the unacknowledged slots, unchanged |
| Sender.UnackedKeys | server.py:110 | `filtered_keys` is exactly the set of keys whose slot is unacknowledged |
| Sender.Smallest | server.py:111-112 | `min` returns a member of the set that is no larger than any other member |
| Sender.WindowOccupancy | server.py:69 | slots confined to base..nextSeq-1, with `nextSeq <= base + window_size`, number at most `window_size` |
| Sender.SenderWindow.constructor | server.py:9-11 | the transfer starts with base 0, next_seq_num 0 and an empty window, and the window invariant holds |
| Sender.SenderWindow.InitialTransmit | server.py:87-96 | the window holds exactly the keys base..min(base+window_size, n)-1, all `(False, now)`; next_seq_num is that bound; base is unchanged; the outbox gains each DATA packet the channel forwards, in order |
| Sender.SenderWindow.RetransmitPass | server.py:64-82 | missing and stale slots in the range are sent and restamped, and the other slots are unchanged; afterwards every key in the range is present and next_seq_num is the bound; base is unchanged and at most window_size slots are live |
| Sender.SenderWindow.SendIfNeeded | server.py:69-81 | one iteration of the pass: a stale or missing slot is sent and set to `(False, now)`, and otherwise nothing changes |
| Sender.SenderWindow.SlideBase | server.py:109-120 | base moves to the smallest unacknowledged key, or to next_seq_num when none is left, and never backwards; the window keeps exactly the unacknowledged slots; the invariant is kept |
| Sender.SenderWindow.HandleAck | server.py:98-124 | a non-ACK or a timeout changes nothing; an ACK for `s != base` only marks slot `s`; an ACK for base marks it and then slides; base never decreases and the invariant and `\|window\| <= window_size` are kept; the loop dies iff the datagram is too short for the bytes read |
| Sender.SelectiveSlideExample | server.py:104-120 | window {0,1,2,3} with 1 and 3 acknowledged: the ACK for 0 leaves only slot 2, and the next pass keeps 2 and sends 3 and 4 fresh |
| Receiver.DrainSpec | client.py:57-59 | a drain delivers the buffered payloads for e, e+1, … up to the first gap; the gap becomes the new expected number and is not buffered; every other entry stays buffered unchanged |
| Receiver.AcceptAllInOrder | client.py:51-59 | over any arrival order, the payload delivered for k was buffered or arrived with sequence number k; delivery is consecutive from the start; every arrived number is delivered or still buffered |
| Receiver.AllArrivedAllDelivered | client.py:46-59 | if every number 0..n-1 arrives at least once, in any order and with duplicates, and nothing else arrives, exactly n payloads are delivered, the j-th one arriving with number j |
| Receiver.AcceptAllBounded | client.py:57-59 | with all buffered and arriving numbers below n, the expected number never passes n |
| Receiver.ReorderBuffer.constructor | client.py:43-44 | the buffer starts empty with expected number 0 and nothing delivered |
| Receiver.ReorderBuffer.DrainInOrder | client.py:57-59 | the loop delivers exactly what `Drain` specifies; afterwards expected is not a key and delivery stays in sequence order |
| Receiver.ReorderBuffer.OnDatagram | client.py:47-61 | a DATA packet stores `data[3:]` under `data[2]` (overwriting), sends `ACK(data[2])` through the channel even for duplicates, and drains; a late duplicate below expected delivers nothing; FIN and other types change nothing; a too-short datagram crashes; expected never decreases |
| Teardown.ServerClose | server.py:141-170 | the close completes iff the first reply is `[1, base]` and the second `[3, base+1]`; only then is `ACK(base+1)` sent after `FIN(base)`; any other case sends only the FIN |
| Teardown.ClientClose | client.py:61-83 | the client sends `ACK(s+1)` then `FIN(s+2)` for the last DATA number `s`; it crashes without one or when a field overflows; it completes iff the reply has the close type; it aborts on a timeout |
| Teardown.ClientRepliesMatchServer | client.py:63-64 | the client's two packets pass the server's two tests iff the last DATA number was base - 1 |
| Teardown.FinalAckNeverClosesClient | client.py:70-73 | the server's last packet is `[1, base+1]`, and the client as written does not complete on it |
| Teardown.FinalAckClosesIntendedClient | client.py:70-73 | with the close test on type 1, the server's final ACK completes the client's close |

## Left out

- Sockets, `sendto`/`recvfrom`, `settimeout` and `close` are not modelled. Each received datagram is a parameter, and `None` stands for a timeout.
- The 1024-byte `recvfrom` truncation is not modelled. A DATA packet is at most 258 bytes and is never cut; a handshake request for a file name longer than 1022 bytes would be.
- Threads, the lock, the polling `time.sleep` and the unlocked reads of `base` in the loop conditions (server.py:66, 100, 135) are not modelled. Each locked block is one atomic method.
- `random.randint` and `time.time()` are not modelled. Draws and an integer millisecond clock are parameters, and one `now` serves a whole locked block.
- Reading the file, `print`, and the `__main__` blocks with `input()` are I/O and are not modelled.
- UTF-8 `encode`/`decode` is not modelled: payloads are bytes.
- Sender.DataPacket: the length byte is the line's byte length. server.py:73 passes `len(data)` in characters, and the two agree only for ASCII lines.
- Sender.SenderWindow: a file of more than 256 lines, or a line of 256 bytes or more, makes `struct.error` end the sending thread. This case is a precondition (`FitsProtocol`), not a modelled crash. A positive window size is also a precondition.
- The client's use of its closed socket after a failed handshake (client.py:41) is not modelled.
- The whole receive loop of the client, with the eventual timeout that ends it after a `Resumed` close, is not modelled. Only single steps and whole arrival series are modelled.
- A retransmission counter is not modelled, because the code keeps none.

## Findings

| source | as written | input that shows it | evidently intended | confidence | as-written member | corrected member |
|---|---|---|---|---|---|---|
| client.py:71 | the client's closing wait ends successfully only on a packet whose byte 0 is 3 | a completed server close whose last packet is `[1, base+1]` (server.py:154), forwarded to the client | the client's own message names this packet the final ACK, so a type-1 packet should end the close | not executed | Teardown.FinalAckNeverClosesClient | Teardown.FinalAckClosesIntendedClient |
