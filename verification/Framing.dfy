/**
 * Cells on the wire (`_proto/cells.py`): a header, then either a length and that many bytes, or 509 bytes.
 * Standard: tor-spec, section 3.
 */
module Framing {
  import opened Bytes
  import RelayCells

  const CELL_PAYLOAD_LEN := RelayCells.CELL_PAYLOAD_LEN
  const VERSIONS := 7

  datatype RawCell = RawCell(circId: int, command: int, payload: bytes)

  datatype Fault = Closed

  function CircIdLen(linkVersion: int): nat {
    if linkVersion >= 4 then 4 else 2
  }

  predicate IsVariable(command: int) {
    command >= 128 || command == VERSIONS
  }

  /** A VERSIONS cell is exchanged before there is a version, and is always framed with two bytes. */
  function PackWidth(command: int, linkVersion: int): nat {
    if command == VERSIONS then 2 else CircIdLen(linkVersion)
  }

  predicate Fits(n: int, width: nat) {
    0 <= n < if width == 2 then 0x1_0000 else 0x1_0000_0000
  }

  function PackCircId(n: int, width: nat): (b: bytes)
    requires (width == 2 || width == 4) && Fits(n, width)
    ensures |b| == width
  {
    if width == 2 then PackU16(n) else PackU16(n / 0x1_0000) + PackU16(n % 0x1_0000)
  }

  function CircIdOf(b: bytes): (n: int)
    requires |b| == 2 || |b| == 4
    ensures Fits(n, |b|)
  {
    if |b| == 2 then UnpackU16(b)
    else
      var high: int := UnpackU16(b[..2]);
      0x1_0000 * high + UnpackU16(b[2..])
  }

  lemma CircIdRoundTrip(n: int, width: nat, b: bytes)
    requires (width == 2 || width == 4) && Fits(n, width) && |b| == width
    ensures CircIdOf(PackCircId(n, width)) == n
    ensures PackCircId(CircIdOf(b), width) == b
  {
    if width == 2 {
      U16RoundTrip(n, b);
    } else {
      var packed := PackCircId(n, 4);
      assert packed[..2] == PackU16(n / 0x1_0000) && packed[2..] == PackU16(n % 0x1_0000);
      U16RoundTrip(n / 0x1_0000, b[..2]);
      U16RoundTrip(n % 0x1_0000, b[2..]);
      var high: int, low: int := UnpackU16(b[..2]), UnpackU16(b[2..]);
      assert (0x1_0000 * high + low) / 0x1_0000 == high && (0x1_0000 * high + low) % 0x1_0000 == low;
      assert b == b[..2] + b[2..];
    }
  }

  /** The conditions under which `pack` raises nothing. */
  predicate Packable(cell: RawCell, linkVersion: int) {
    && Fits(cell.circId, PackWidth(cell.command, linkVersion))
    && 0 <= cell.command < 256
    && |cell.payload| <= if IsVariable(cell.command) then 0xffff else CELL_PAYLOAD_LEN
  }

  function Body(cell: RawCell): bytes
    requires |cell.payload| <= if IsVariable(cell.command) then 0xffff else CELL_PAYLOAD_LEN
  {
    if IsVariable(cell.command) then PackU16(|cell.payload|) + cell.payload
    else cell.payload + Zeros(CELL_PAYLOAD_LEN - |cell.payload|)
  }

  function Pack(cell: RawCell, linkVersion: int): Option<bytes> {
    if !Packable(cell, linkVersion) then None
    else Some(PackCircId(cell.circId, PackWidth(cell.command, linkVersion)) + [cell.command] + Body(cell))
  }

  // --- reading ---------------------------------------------------------------------------

  /** The payload at the front of `data`, and what follows it. */
  function ReadBody(command: int, data: bytes): Option<(bytes, bytes)> {
    if IsVariable(command) then
      if |data| < 2 then None
      else
        var length := UnpackU16(data[..2]);
        if |data| < 2 + length then None else Some((data[2..2 + length], data[2 + length..]))
    else if |data| < CELL_PAYLOAD_LEN then None
    else Some((data[..CELL_PAYLOAD_LEN], data[CELL_PAYLOAD_LEN..]))
  }

  /** The cell at the front of `data`, and what follows it; None if `data` ends within it. */
  function Read(data: bytes, linkVersion: int): Option<(RawCell, bytes)> {
    var width := CircIdLen(linkVersion);
    if |data| < width + 1 then None
    else
      match ReadBody(data[width], data[width + 1..])
      case None => None
      case Some((payload, rest)) => Some((RawCell(CircIdOf(data[..width]), data[width], payload), rest))
  }

  /** The receiving end of a transport: `pos` bytes of the stream have been read. */
  class Transport {
    const stream: bytes
    var pos: nat

    ghost predicate Valid()
      reads this
    {
      pos <= |stream|
    }

    ghost function Remaining(): bytes
      reads this
      requires Valid()
    {
      stream[pos..]
    }

    constructor (stream: bytes)
      ensures Valid() && this.stream == stream && Remaining() == stream
    {
      this.stream, pos := stream, 0;
    }

    /** Exactly `n` bytes, or a failure once the peer has closed. */
    method RecvExact(n: nat) returns (r: Result<bytes, Fault>)
      requires Valid()
      modifies this`pos
      ensures Valid()
      ensures r.Ok? <==> n <= |old(Remaining())|
      ensures r.Ok? ==> r.value == old(Remaining())[..n] && Remaining() == old(Remaining())[n..]
    {
      if n > |stream| - pos {
        pos := |stream|;
        return Err(Closed);
      }
      assert stream[pos..][..n] == stream[pos..pos + n];
      r := Ok(stream[pos..pos + n]);
      pos := pos + n;
    }
  }

  method ReadCell(transport: Transport, linkVersion: int) returns (r: Result<RawCell, Fault>)
    requires transport.Valid()
    modifies transport`pos
    ensures transport.Valid()
    ensures match Read(old(transport.Remaining()), linkVersion)
            case None => r.Err?
            case Some((cell, rest)) => r == Ok(cell) && transport.Remaining() == rest
  {
    hide ReadBody;
    ghost var data := transport.Remaining();
    var width := CircIdLen(linkVersion);
    var header := transport.RecvExact(width + 1);
    if header.Err? {
      return Err(Closed);
    }
    assert header.value[..width] == data[..width];
    var payload := ReadPayload(transport, header.value[width]);
    if payload.Err? {
      return Err(Closed);
    }
    return Ok(RawCell(CircIdOf(header.value[..width]), header.value[width], payload.value));
  }

  /** What follows the header. */
  method ReadPayload(transport: Transport, command: int) returns (r: Result<bytes, Fault>)
    requires transport.Valid()
    modifies transport`pos
    ensures transport.Valid()
    ensures match ReadBody(command, old(transport.Remaining()))
            case None => r.Err?
            case Some((payload, rest)) => r == Ok(payload) && transport.Remaining() == rest
  {
    if !IsVariable(command) {
      r := transport.RecvExact(CELL_PAYLOAD_LEN);
      return;
    }
    ghost var data := transport.Remaining();
    var length := transport.RecvExact(2);
    if length.Err? {
      return Err(Closed);
    }
    var n := UnpackU16(length.value);
    DropTwice(data, 2, n);
    if n == 0 {
      return Ok([]);
    }
    r := transport.RecvExact(n);
  }

  lemma DropTwice(data: bytes, m: nat, n: nat)
    requires m <= |data|
    ensures m + n <= |data| ==> data[m..][..n] == data[m..m + n] && data[m..][n..] == data[m + n..]
    ensures data[m..m] == []
  {
  }

  // --- self-delimiting -------------------------------------------------------------------

  /** What a reader sees of a cell: fixed payloads arrive padded. */
  function Padded(cell: RawCell): RawCell {
    if IsVariable(cell.command) || |cell.payload| > CELL_PAYLOAD_LEN then cell
    else cell.(payload := cell.payload + Zeros(CELL_PAYLOAD_LEN - |cell.payload|))
  }

  /** Both sides frame the cell with the same circuit id width. */
  predicate SameWidth(cell: RawCell, linkVersion: int) {
    cell.command != VERSIONS || linkVersion < 4
  }

  lemma BodyRoundTrip(cell: RawCell, tail: bytes)
    requires |cell.payload| <= if IsVariable(cell.command) then 0xffff else CELL_PAYLOAD_LEN
    ensures ReadBody(cell.command, Body(cell) + tail) == Some((Padded(cell).payload, tail))
  {
    var data := Body(cell) + tail;
    if IsVariable(cell.command) {
      var n := |cell.payload|;
      U16RoundTrip(n, PackU16(n));
      assert data[..2] == PackU16(n);
      assert data[2..2 + n] == cell.payload && data[2 + n..] == tail;
    } else {
      assert data[..CELL_PAYLOAD_LEN] == Body(cell) && data[CELL_PAYLOAD_LEN..] == tail;
    }
  }

  /** Whatever follows a packed cell, reading takes exactly the cell and leaves the rest. */
  lemma ReadAfterPack(cell: RawCell, linkVersion: int, tail: bytes)
    requires Packable(cell, linkVersion) && SameWidth(cell, linkVersion)
    ensures Read(Pack(cell, linkVersion).value + tail, linkVersion) == Some((Padded(cell), tail))
  {
    hide PackCircId, CircIdOf, Body, ReadBody, Padded;
    var width := CircIdLen(linkVersion);
    var id := PackCircId(cell.circId, width);
    var data := Pack(cell, linkVersion).value + tail;
    assert data == id + [cell.command] + Body(cell) + tail;
    assert data[..width] == id && data[width] == cell.command && data[width + 1..] == Body(cell) + tail;
    CircIdRoundTrip(cell.circId, width, id);
    BodyRoundTrip(cell, tail);
    PaddedHeader(cell);
  }

  lemma PaddedHeader(cell: RawCell)
    ensures Padded(cell).circId == cell.circId && Padded(cell).command == cell.command
  {
  }

  /** Conversely, packing a cell that was read gives back the very bytes it was read from. */
  lemma PackAfterRead(data: bytes, linkVersion: int)
    requires Read(data, linkVersion).Some? && SameWidth(Read(data, linkVersion).value.0, linkVersion)
    ensures var (cell, rest) := Read(data, linkVersion).value;
            Pack(cell, linkVersion).Some? && data == Pack(cell, linkVersion).value + rest
  {
    hide PackCircId, CircIdOf;
    var (cell, rest) := Read(data, linkVersion).value;
    var width := CircIdLen(linkVersion);
    CircIdRoundTrip(0, width, data[..width]);
    var body := data[width + 1..];
    assert data == data[..width] + [data[width]] + body;
    BodyIsPrefix(cell, body, rest);
  }

  lemma BodyIsPrefix(cell: RawCell, body: bytes, rest: bytes)
    requires ReadBody(cell.command, body) == Some((cell.payload, rest))
    ensures |cell.payload| <= if IsVariable(cell.command) then 0xffff else CELL_PAYLOAD_LEN
    ensures body == Body(cell) + rest
  {
    if IsVariable(cell.command) {
      U16RoundTrip(0, body[..2]);
      assert body == body[..2] + body[2..2 + |cell.payload|] + body[2 + |cell.payload|..];
    } else {
      assert Zeros(0) == [] && cell.payload + [] == cell.payload;
    }
  }

  /**
   * A packed cell is read back exactly when both sides use the same width: from version 4 on, a VERSIONS cell never
   * comes back as itself.
   */
  lemma ReadBackIffSameWidth(cell: RawCell, linkVersion: int)
    requires Packable(cell, linkVersion)
    ensures Read(Pack(cell, linkVersion).value, linkVersion) == Some((Padded(cell), []))
        <==> SameWidth(cell, linkVersion)
  {
    var data := Pack(cell, linkVersion).value;
    if SameWidth(cell, linkVersion) {
      ReadAfterPack(cell, linkVersion, []);
      assert data + [] == data;
    } else if Read(data, linkVersion).Some? {
      VersionsMisread(cell, data);
    }
  }

  lemma VersionsMisread(cell: RawCell, data: bytes)
    requires cell.command == VERSIONS && Fits(cell.circId, 2) && |data| >= 4
    requires data[..2] == PackU16(cell.circId) && data[2] == VERSIONS
    ensures CircIdOf(data[..4]) != cell.circId
  {
    var id := data[..4];
    assert id[..2] == PackU16(cell.circId) && id[2..][0] == data[2];
    U16RoundTrip(cell.circId, id[..2]);
    var low: int := UnpackU16(id[2..]);
    assert low >= 256 * VERSIONS;
    assert CircIdOf(id) == 0x1_0000 * cell.circId + low;
  }

  // --- the bytes themselves --------------------------------------------------------------

  /** `data` starts with a circuit id of `width` bytes, the command, and the payload in the form the command has. */
  predicate LaidOut(data: bytes, width: nat, cell: RawCell, payloadEnd: nat) {
    && (width == 2 || width == 4) && width < payloadEnd <= |data|
    && Number(data[..width]) == cell.circId
    && data[width] == cell.command
    && if cell.command >= 128 || cell.command == 7 then
         && payloadEnd == width + 3 + |cell.payload|
         && |cell.payload| == Number(data[width + 1..width + 3])
         && data[width + 3..payloadEnd] == cell.payload
       else
         && payloadEnd == width + 1 + 509 && |cell.payload| <= 509
         && data[width + 1..width + 1 + |cell.payload|] == cell.payload
         && forall i :: width + 1 + |cell.payload| <= i < payloadEnd ==> data[i] == 0
  }

  lemma CircIdIsNumber(b: bytes)
    requires |b| == 2 || |b| == 4
    ensures Number(b) == CircIdOf(b)
  {
    TwoBytes(b[..2]);
    if |b| == 4 {
      assert b[..3][..2] == b[..2] && b[..3][2] == b[2];
      assert b[2..] == [b[2], b[3]];
    } else {
      assert b[..2] == b;
    }
  }

  /**
   * A packed cell, byte by byte. Packing fails exactly where a field has no room: the command one byte, the circuit id
   * two bytes or four, the payload 509 bytes or what a two-byte length can count.
   */
  lemma PackedLayout(cell: RawCell, linkVersion: int)
    ensures var width := if linkVersion >= 4 && cell.command != 7 then 4 else 2;
            && (Pack(cell, linkVersion).Some? <==>
                  && 0 <= cell.command <= 255 && 0 <= cell.circId < (if width == 2 then 65536 else 4294967296)
                  && |cell.payload| <= if cell.command >= 128 || cell.command == 7 then 65535 else 509)
            && (Pack(cell, linkVersion).Some? ==>
                  var data := Pack(cell, linkVersion).value; LaidOut(data, width, cell, |data|))
  {
    hide LaidOut;
    if Packable(cell, linkVersion) {
      PackedIsLaidOut(cell, linkVersion);
    }
  }

  lemma PackedIsLaidOut(cell: RawCell, linkVersion: int)
    requires Packable(cell, linkVersion)
    ensures var data := Pack(cell, linkVersion).value;
            LaidOut(data, PackWidth(cell.command, linkVersion), cell, |data|)
  {
    hide CircIdOf, PackCircId, Body, Number;
    var width := PackWidth(cell.command, linkVersion);
    var id, data := PackCircId(cell.circId, width), Pack(cell, linkVersion).value;
    CircIdRoundTrip(cell.circId, width, id);
    CircIdIsNumber(id);
    assert data == id + [cell.command] + Body(cell);
    assert data[..width] == id && data[width] == cell.command && data[width + 1..] == Body(cell);
    BodyLayout(cell, data, width);
    if IsVariable(cell.command) {
      assert data[width + 3..|data|] == data[width + 3..];
    }
  }

  lemma BodyLayout(cell: RawCell, data: bytes, width: nat)
    requires |cell.payload| <= if IsVariable(cell.command) then 0xffff else CELL_PAYLOAD_LEN
    requires width < |data| && data[width + 1..] == Body(cell)
    ensures if cell.command >= 128 || cell.command == 7 then
              && |data| == width + 3 + |cell.payload|
              && |cell.payload| == Number(data[width + 1..width + 3])
              && data[width + 3..] == cell.payload
            else
              && |data| == width + 1 + 509
              && data[width + 1..width + 1 + |cell.payload|] == cell.payload
              && forall i :: width + 1 + |cell.payload| <= i < |data| ==> data[i] == 0
  {
    var body := Body(cell);
    assert forall i :: 0 <= i < |body| ==> data[width + 1 + i] == body[i];
    if IsVariable(cell.command) {
      var n := PackU16(|cell.payload|);
      U16RoundTrip(|cell.payload|, n);
      TwoBytes(n);
      assert data[width + 1..width + 3] == n;
      assert data[width + 3..] == body[2..] == cell.payload;
    } else {
      assert data[width + 1..width + 1 + |cell.payload|] == body[..|cell.payload|] == cell.payload;
      forall i | width + 1 + |cell.payload| <= i < |data| ensures data[i] == 0 {
        assert data[i] == body[i - width - 1];
      }
    }
  }

  lemma Within(data: bytes, k: nat, i: nat, j: nat)
    requires i <= j && k + j <= |data|
    ensures data[k..][i..j] == data[k + i..k + j] && data[k..][j..] == data[k + j..]
  {
  }

  /** A payload is read exactly when all of it is there. */
  lemma BodyRead(command: int, data: bytes)
    ensures if command >= 128 || command == 7 then
              && (ReadBody(command, data).Some? <==> |data| >= 2 && Number(data[..2]) <= |data| - 2)
              && (ReadBody(command, data).Some? ==>
                    var (payload, rest) := ReadBody(command, data).value;
                    |payload| == Number(data[..2]) && payload == data[2..2 + |payload|]
                    && rest == data[2 + |payload|..])
            else
              && (ReadBody(command, data).Some? <==> |data| >= 509)
              && (|data| >= 509 ==> ReadBody(command, data) == Some((data[..509], data[509..])))
  {
    if |data| >= 2 {
      TwoBytes(data[..2]);
    }
    hide Number;
  }

  /** A cell is read exactly when all of it is there, and is then what its bytes say; the rest is left. */
  lemma ReadLayout(data: bytes, linkVersion: int)
    ensures var width := if linkVersion >= 4 then 4 else 2;
            && (Read(data, linkVersion).Some? <==>
                  && width < |data|
                  && if data[width] >= 128 || data[width] == 7 then
                       width + 3 <= |data| && Number(data[width + 1..width + 3]) <= |data| - width - 3
                     else |data| >= width + 510)
            && (Read(data, linkVersion).Some? ==>
                  var (cell, rest) := Read(data, linkVersion).value;
                  LaidOut(data, width, cell, |data| - |rest|) && rest == data[|data| - |rest|..]
                  && (cell.command < 128 && cell.command != 7 ==> |cell.payload| == 509))
  {
    hide CircIdOf, ReadBody, Number;
    var width := CircIdLen(linkVersion);
    if |data| > width {
      var body := data[width + 1..];
      CircIdIsNumber(data[..width]);
      BodyRead(data[width], body);
      if |body| >= 2 {
        assert body[..2] == data[width + 1..width + 3];
      }
      if ReadBody(data[width], body).Some? {
        var (payload, rest) := ReadBody(data[width], body).value;
        if data[width] >= 128 || data[width] == 7 {
          Within(data, width + 1, 2, 2 + |payload|);
        } else {
          Within(data, width + 1, 0, 509);
        }
      }
    }
  }

  // --- a stream of cells -----------------------------------------------------------------

  function PackAll(cells: seq<RawCell>, linkVersion: int): bytes
    requires forall c :: c in cells ==> Packable(c, linkVersion)
  {
    if cells == [] then [] else Pack(cells[0], linkVersion).value + PackAll(cells[1..], linkVersion)
  }

  function PaddedAll(cells: seq<RawCell>): seq<RawCell> {
    if cells == [] then [] else [Padded(cells[0])] + PaddedAll(cells[1..])
  }

  /** The cells that repeated reading finds, and the bytes left when no more can be read. */
  function ReadAll(data: bytes, linkVersion: int): (seq<RawCell>, bytes)
    decreases |data|
  {
    match Read(data, linkVersion)
    case None => ([], data)
    case Some((cell, rest)) =>
      assert |rest| < |data| by { ReadConsumes(data, linkVersion); }
      var (cells, left) := ReadAll(rest, linkVersion);
      ([cell] + cells, left)
  }

  lemma ReadConsumes(data: bytes, linkVersion: int)
    requires Read(data, linkVersion).Some?
    ensures |Read(data, linkVersion).value.1| < |data|
  {
  }

  /** Repeated reading of any packed cells returns them, in order, and uses every byte. */
  lemma {:induction false} ReadAllOfPackAll(cells: seq<RawCell>, linkVersion: int)
    requires forall c :: c in cells ==> Packable(c, linkVersion) && SameWidth(c, linkVersion)
    ensures ReadAll(PackAll(cells, linkVersion), linkVersion) == (PaddedAll(cells), [])
  {
    hide Read, Pack, Padded, Packable;
    if cells == [] {
      NothingToRead(linkVersion);
    } else {
      assert cells[0] in cells && forall c :: c in cells[1..] ==> c in cells;
      ReadAfterPack(cells[0], linkVersion, PackAll(cells[1..], linkVersion));
      ReadAllOfPackAll(cells[1..], linkVersion);
    }
  }

  lemma NothingToRead(linkVersion: int)
    ensures Read([], linkVersion) == None
  {
  }
}
