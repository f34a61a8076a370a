/**
 * The wire format: every header field is one unsigned byte packed with
 * Python's struct module in network order ("!B" per field) and followed by
 * the raw payload. Decoding is done at the call sites by indexing single
 * bytes and slicing off the tail, which ByteAt and From model.
 */
module Codec {

  type byte = x: int | 0 <= x < 256

  /** A datagram is the byte string handed to or taken from the socket. */
  type Datagram = seq<byte>

  datatype Option<T> = None | Some(value: T)

  /** struct.pack either returns the packed bytes or raises struct.error. */
  datatype Result<T> = Ok(value: T) | StructError

  /** Packet type codes of byte 0. */
  const HANDSHAKE := 0
  const ACK := 1
  const DATA := 2
  const FIN := 3

  predicate IsByte(x: int) {
    0 <= x < 256
  }

  /**
   * struct.pack with one "B" per field: fails unless every field fits in a
   * byte, and otherwise yields one byte per field, in order.
   */
  function PackBytes(fields: seq<int>): (r: Result<Datagram>)
    ensures r.Ok? <==> forall i :: 0 <= i < |fields| ==> IsByte(fields[i])
    ensures r.Ok? ==> |r.value| == |fields| && forall i :: 0 <= i < |fields| ==> r.value[i] == fields[i]
  {
    if fields == [] then Ok([])
    else if !IsByte(fields[0]) then StructError
    else match PackBytes(fields[1..])
      case Ok(rest) => Ok([fields[0] as byte] + rest)
      case StructError => StructError
  }

  /** create_packet(t, s, payload): a two-byte header [t, s], then the payload. */
  function CreatePacket(packetType: int, seqNum: int, payload: Datagram): (r: Result<Datagram>)
    ensures r.Ok? <==> IsByte(packetType) && IsByte(seqNum)
    ensures r.Ok? ==> r.value == [packetType, seqNum] + payload
  {
    var fields := [packetType, seqNum];
    assert fields[0] == packetType && fields[1] == seqNum;
    match PackBytes(fields)
    case Ok(header) => Ok(header + payload)
    case StructError => StructError
  }

  /** create_data_packet(t, len, s, payload): a three-byte header [t, len, s], then the payload. */
  function CreateDataPacket(packetType: int, dataLen: int, seqNum: int, payload: Datagram): (r: Result<Datagram>)
    ensures r.Ok? <==> IsByte(packetType) && IsByte(dataLen) && IsByte(seqNum)
    ensures r.Ok? ==> r.value == [packetType, dataLen, seqNum] + payload
  {
    var fields := [packetType, dataLen, seqNum];
    assert fields[0] == packetType && fields[1] == dataLen && fields[2] == seqNum;
    match PackBytes(fields)
    case Ok(header) => Ok(header + payload)
    case StructError => StructError
  }

  /** data[i]: the byte at index i, or None where Python raises IndexError. */
  function ByteAt(d: Datagram, i: nat): (r: Option<byte>)
    ensures r.Some? <==> i < |d|
    ensures r.Some? ==> r.value == d[i]
  {
    if i < |d| then Some(d[i]) else None
  }

  /** data[i:]: a Python slice never fails; past the end it is empty. */
  function From(d: Datagram, i: nat): (r: Datagram)
    ensures i <= |d| ==> r == d[i..]
    ensures i > |d| ==> r == []
    ensures |r| == if i <= |d| then |d| - i else 0
  {
    if i <= |d| then d[i..] else []
  }

  /** Reading back a control packet by indexing gives its fields and payload. */
  lemma PacketRoundTrip(packetType: byte, seqNum: byte, payload: Datagram)
    ensures CreatePacket(packetType, seqNum, payload).Ok?
    ensures var d := CreatePacket(packetType, seqNum, payload).value;
      ByteAt(d, 0) == Some(packetType) && ByteAt(d, 1) == Some(seqNum) && From(d, 2) == payload
  {
  }

  /** Reading back a DATA packet by indexing gives its type, length byte, sequence number and payload. */
  lemma DataPacketRoundTrip(packetType: byte, dataLen: byte, seqNum: byte, payload: Datagram)
    ensures CreateDataPacket(packetType, dataLen, seqNum, payload).Ok?
    ensures var d := CreateDataPacket(packetType, dataLen, seqNum, payload).value;
      ByteAt(d, 0) == Some(packetType) && ByteAt(d, 1) == Some(dataLen)
      && ByteAt(d, 2) == Some(seqNum) && From(d, 3) == payload
  {
  }
}
