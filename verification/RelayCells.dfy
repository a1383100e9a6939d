/** The inner relay cell and its authenticated acknowledgement body (`_proto/relay.py`). */
module RelayCells {
  import opened Bytes

  const CELL_PAYLOAD_LEN := 509
  const RELAY_HEADER_LEN := 11
  const RELAY_PAYLOAD_LEN := 498

  const RELAY_DATA: byte := 2
  const RELAY_SENDME: byte := 5
  const RELAY_EXTEND2: byte := 14
  const RELAY_EXTENDED2: byte := 15

  const ZERO_DIGEST: bytes := [0, 0, 0, 0]

  /** What the application means by a cell; the rest of a cell is framing. */
  datatype Message = Message(command: byte, streamId: u16, data: bytes)

  datatype RelayCell = RelayCell(
    command: byte, streamId: u16, data: bytes,
    recognized: u16, digest: bytes, padding: bytes)
  {
    function Meaning(): Message {
      Message(command, streamId, data)
    }

    /** The shape construction gives every cell whose data fits. */
    predicate WellFormed() {
      && |data| <= RELAY_PAYLOAD_LEN
      && |digest| == 4
      && |padding| == RELAY_PAYLOAD_LEN - |data|
    }
  }

  datatype CellError = DataTooLong | LengthExceedsPayload(length: u16)

  /** Construction with its one-time padding; `random` stands for the operating system's bytes. */
  function NewCell(command: byte, streamId: u16, data: bytes, recognized: u16, digest: bytes,
                   padding: bytes, random: nat -> bytes): (c: RelayCell)
    requires forall n :: |random(n)| == n
    requires |digest| == 4
    ensures c.Meaning() == Message(command, streamId, data) && c.recognized == recognized && c.digest == digest
    ensures padding != [] ==> c.padding == padding
    ensures padding == [] && |data| <= RELAY_PAYLOAD_LEN ==>
              c.WellFormed() && forall i :: 0 <= i < |c.padding| && i < 4 ==> c.padding[i] == 0
  {
    var padLen := CELL_PAYLOAD_LEN - RELAY_HEADER_LEN - |data|;
    RelayCell(command, streamId, data, recognized, digest,
              if padding != [] then padding
              else if padLen > 4 then ZERO_DIGEST + random(padLen - 4)
              else Zeros(if padLen > 0 then padLen else 0))
  }

  function LJust(b: bytes, n: nat): bytes {
    if |b| >= n then b else b + Zeros(n - |b|)
  }

  function Header(c: RelayCell): bytes {
    [c.command] + PackU16(c.recognized) + PackU16(c.streamId) + c.digest
  }

  function Pack(c: RelayCell): Result<bytes, CellError> {
    if |c.data| > RELAY_PAYLOAD_LEN then Err(DataTooLong)
    else Ok(LJust(Header(c) + PackU16(|c.data|) + c.data + c.padding, CELL_PAYLOAD_LEN))
  }

  /** The packed form of a cell that is known to pack. */
  function Wire(c: RelayCell): (b: bytes)
    requires c.WellFormed()
    ensures Pack(c) == Ok(b)
    ensures |b| == CELL_PAYLOAD_LEN
  {
    Pack(c).value
  }

  function DigestInput(c: RelayCell): Result<bytes, CellError> {
    Pack(c.(digest := ZERO_DIGEST))
  }

  /** A received body with its digest field zeroed. */
  function ZeroDigest(body: bytes): bytes
    requires |body| == CELL_PAYLOAD_LEN
  {
    body[..5] + ZERO_DIGEST + body[9..]
  }

  function Parse(body: bytes): Result<RelayCell, CellError>
    requires |body| == CELL_PAYLOAD_LEN
  {
    var length := UnpackU16(body[9..11]);
    if length > RELAY_PAYLOAD_LEN then Err(LengthExceedsPayload(length))
    else Ok(RelayCell(body[0], UnpackU16(body[3..5]), body[11..11 + length],
                      UnpackU16(body[1..3]), body[5..9], body[11 + length..]))
  }

  /** Where each field of a packed cell lies. */
  lemma WireLayout(c: RelayCell)
    requires c.WellFormed()
    ensures Wire(c)[0] == c.command
    ensures Wire(c)[1..3] == PackU16(c.recognized)
    ensures Wire(c)[3..5] == PackU16(c.streamId)
    ensures Wire(c)[5..9] == c.digest
    ensures Wire(c)[9..11] == PackU16(|c.data|)
    ensures Wire(c)[11..11 + |c.data|] == c.data
    ensures Wire(c)[11 + |c.data|..] == c.padding
  {
  }

  /** Parsing a packed cell gives the cell back, padding included. */
  lemma ParseWire(c: RelayCell)
    requires c.WellFormed()
    ensures Parse(Wire(c)) == Ok(c)
  {
    WireLayout(c);
    U16RoundTrip(c.recognized, [0, 0]);
    U16RoundTrip(c.streamId, [0, 0]);
    U16RoundTrip(|c.data|, [0, 0]);
  }

  /** Parsing accepts exactly the bodies whose declared length fits, and packing undoes it. */
  lemma WireParse(body: bytes)
    requires |body| == CELL_PAYLOAD_LEN
    ensures Parse(body).Ok? <==> UnpackU16(body[9..11]) <= RELAY_PAYLOAD_LEN
    ensures Parse(body).Ok? ==> Parse(body).value.WellFormed() && Wire(Parse(body).value) == body
  {
    if Parse(body).Ok? {
      var c := Parse(body).value;
      U16RoundTrip(0, body[1..3]);
      U16RoundTrip(0, body[3..5]);
      U16RoundTrip(0, body[9..11]);
      WireLayout(c);
      assert Wire(c) == [c.command] + Wire(c)[1..3] + Wire(c)[3..5] + Wire(c)[5..9] + Wire(c)[9..11]
                        + Wire(c)[11..11 + |c.data|] + Wire(c)[11 + |c.data|..];
      assert body == [body[0]] + body[1..3] + body[3..5] + body[5..9] + body[9..11]
                     + body[11..11 + |c.data|] + body[11 + |c.data|..];
    }
  }

  /** The digest a sender feeds is the one a receiver recomputes from the bytes it got. */
  lemma ZeroedWireIsDigestInput(c: RelayCell)
    requires c.WellFormed()
    ensures DigestInput(c) == Ok(ZeroDigest(Wire(c)))
  {
    var z := c.(digest := ZERO_DIGEST);
    assert Wire(z) == ZeroDigest(Wire(c));
  }

  // --- the authenticated SENDME body ------------------------------------------

  const SENDME_DIGEST_LEN := 20

  datatype SendmeError = WrongDigestLength | TooShort | UnsupportedVersion(version: byte) | MalformedBody

  function SendmeBody(digest: bytes): Result<bytes, SendmeError> {
    if |digest| != SENDME_DIGEST_LEN then Err(WrongDigestLength)
    else Ok([1] + PackU16(|digest|) + digest)
  }

  function ParseSendme(body: bytes): Result<bytes, SendmeError> {
    if |body| < 3 then Err(TooShort)
    else if body[0] != 1 then Err(UnsupportedVersion(body[0]))
    else
      var dataLen := UnpackU16(body[1..3]);
      if dataLen < SENDME_DIGEST_LEN || |body| < 3 + dataLen then Err(MalformedBody)
      else Ok(body[3..3 + SENDME_DIGEST_LEN])
  }

  /** A packed acknowledgement reads back, whatever follows it; and whatever is read back has 20 bytes. */
  lemma SendmeRoundTrip(digest: bytes, tail: bytes, body: bytes)
    ensures |digest| == SENDME_DIGEST_LEN ==>
              SendmeBody(digest).Ok? && ParseSendme(SendmeBody(digest).value + tail) == Ok(digest)
    ensures |digest| != SENDME_DIGEST_LEN ==> SendmeBody(digest).Err?
    ensures ParseSendme(body).Ok? ==> |ParseSendme(body).value| == SENDME_DIGEST_LEN
  {
    if |digest| == SENDME_DIGEST_LEN {
      var b := SendmeBody(digest).value + tail;
      assert b[1..3] == PackU16(20);
      U16RoundTrip(20, [0, 0]);
      assert b[3..23] == digest;
    }
  }

  /** An acknowledgement body, byte by byte: version 1, the length of what follows, and at least 20 bytes of it. */
  predicate WellFormedSendme(body: bytes) {
    |body| >= 23 && body[0] == 1
    && var high: int := body[1];
       20 <= 256 * high + body[2] <= |body| - 3
  }

  lemma SendmeFormat(body: bytes)
    ensures ParseSendme(body).Ok? <==> WellFormedSendme(body)
    ensures ParseSendme(body).Ok? ==> ParseSendme(body).value == body[3..23]
  {
    if |body| >= 3 {
      assert body[1..3] == [body[1], body[2]];
    }
  }
}
