/**
 * Per-hop relay cryptography (`_proto/relay_crypto.py`).
 *
 * A hash context is the bytes it has absorbed, so copying it is free and its digest is an unknown function of
 * those bytes. A cipher context is a position in an unknown keystream. Both unknown functions are parameters.
 */
module RelayCryptos {
  import opened Bytes
  import opened RelayCells
  import opened Sequences

  /** A digest; SHA-1 gives 20 bytes and SHA3-256 gives 32. */
  type Digest = d: bytes | |d| >= 20 witness Zeros(20)

  /** One direction of one hop: its hash and its keystream. */
  datatype Profile = Profile(hash: bytes -> Digest, stream: nat -> byte)

  /** Where one end of a direction stands: keystream position and absorbed bytes. */
  datatype Ctx = Ctx(position: nat, history: bytes)

  datatype Recognition = NotMine | Mine(cell: RelayCell) | Malformed(error: CellError)

  /** XOR with the keystream starting at `position`. */
  function Crypt(p: Profile, position: nat, body: bytes): (r: bytes)
    ensures |r| == |body|
  {
    seq(|body|, i requires 0 <= i < |body| => Xor(body[i], p.stream(position + i)))
  }

  /** The two ends of a direction undo each other when they stand at the same position. */
  lemma CryptCancels(p: Profile, position: nat, body: bytes)
    ensures Crypt(p, position, Crypt(p, position, body)) == body
  {
    var twice := Crypt(p, position, Crypt(p, position, body));
    forall i | 0 <= i < |body| ensures twice[i] == body[i] {
      XorCancels(body[i], p.stream(position + i));
    }
  }

  /** Which keystream bytes are used: byte `i` of a body meets the byte `position + i` of the stream, and no other. */
  lemma CryptBytes(p: Profile, position: nat, body: bytes)
    ensures forall i :: 0 <= i < |body| ==> Xor(Crypt(p, position, body)[i], body[i]) == p.stream(position + i)
  {
    var r := Crypt(p, position, body);
    forall i | 0 <= i < |body| ensures Xor(r[i], body[i]) == p.stream(position + i) {
      XorRecovers(body[i], p.stream(position + i));
    }
  }

  /** A context is continuous: encrypting in two calls is encrypting in one. */
  lemma CryptAppend(p: Profile, position: nat, a: bytes, b: bytes)
    ensures Crypt(p, position, a + b) == Crypt(p, position, a) + Crypt(p, position + |a|, b)
  {
    forall i | 0 <= i < |a + b|
      ensures Crypt(p, position, a + b)[i] == (Crypt(p, position, a) + Crypt(p, position + |a|, b))[i]
    {
    }
  }

  /** The results of a context that starts at `position` and is handed the bodies one after the other. */
  function CryptEach(p: Profile, position: nat, bodies: seq<bytes>): seq<bytes>
    decreases |bodies|
  {
    if bodies == [] then []
    else [Crypt(p, position, bodies[0])] + CryptEach(p, position + |bodies[0]|, bodies[1..])
  }

  /** However a stream of bytes is cut into calls, it is encrypted under one unbroken stretch of the keystream. */
  lemma {:induction false} OneKeystream(p: Profile, position: nat, bodies: seq<bytes>)
    ensures Flatten(CryptEach(p, position, bodies)) == Crypt(p, position, Flatten(bodies))
    decreases |bodies|
  {
    hide Crypt;
    if bodies == [] {
      assert |Crypt(p, position, Flatten(bodies))| == 0;
    } else {
      OneKeystream(p, position + |bodies[0]|, bodies[1..]);
      CryptAppend(p, position, bodies[0], Flatten(bodies[1..]));
    }
  }

  /** The bytes a well-formed cell feeds to the running digest. */
  function Absorbed(cell: RelayCell): bytes
    requires cell.WellFormed()
  {
    Wire(cell.(digest := ZERO_DIGEST))
  }

  function Stamped(p: Profile, history: bytes, cell: RelayCell): (c: RelayCell)
    requires cell.WellFormed()
    ensures c.WellFormed() && c.Meaning() == cell.Meaning() && c.recognized == cell.recognized
    ensures Absorbed(c) == Absorbed(cell)
  {
    cell.(digest := p.hash(history + Absorbed(cell))[..4])
  }

  predicate Matches(p: Profile, history: bytes, body: bytes)
    requires |body| == CELL_PAYLOAD_LEN
  {
    body[1..3] == [0, 0] && p.hash(history + ZeroDigest(body))[..4] == body[5..9]
  }

  function Recognized(p: Profile, history: bytes, body: bytes): Recognition
    requires |body| == CELL_PAYLOAD_LEN
  {
    if !Matches(p, history, body) then NotMine
    else match Parse(body)
         case Ok(cell) => Mine(cell)
         case Err(e) => Malformed(e)
  }

  /** A cell stamped at one end is recognized, unchanged, by an end that has absorbed the same bytes. */
  lemma StampedIsRecognized(p: Profile, history: bytes, cell: RelayCell)
    requires cell.WellFormed() && cell.recognized == 0
    ensures var stamped := Stamped(p, history, cell);
            && Recognized(p, history, Wire(stamped)) == Mine(stamped)
            && ZeroDigest(Wire(stamped)) == Absorbed(cell)
  {
    var stamped := Stamped(p, history, cell);
    WireLayout(stamped);
    ParseWire(stamped);
    ZeroedWireIsDigestInput(stamped);
    assert Wire(stamped)[1..3] == PackU16(0) == [0, 0];
  }

  /**
   * Conversely, whoever recognizes a body has a digest match on the bytes as they arrived: a cell accepted with a
   * given history is exactly what stamping its own fields with that history would produce.
   */
  lemma RecognizedWasStamped(p: Profile, history: bytes, body: bytes)
    requires |body| == CELL_PAYLOAD_LEN && Recognized(p, history, body).Mine?
    ensures var cell := Recognized(p, history, body).cell;
            cell.WellFormed() && cell.recognized == 0 && Stamped(p, history, cell) == cell && Wire(cell) == body
  {
    var cell := Recognized(p, history, body).cell;
    WireParse(body);
    ZeroedWireIsDigestInput(cell);
    U16RoundTrip(0, body[1..3]);
    assert Absorbed(cell) == ZeroDigest(body);
  }

  /** A body with four zero bytes where its digest field is, and otherwise the same. */
  predicate DigestCleared(body: bytes, cleared: bytes) {
    && |cleared| == |body| == CELL_PAYLOAD_LEN && cleared[..5] == body[..5] && cleared[9..] == body[9..]
    && forall i :: 5 <= i < 9 ==> cleared[i] == 0
  }

  /**
   * What the digest covers, in the bytes of a body: everything absorbed before, then the body with its digest field
   * cleared. Stamping writes the first four bytes of that, and recognition is the comparison with them.
   */
  lemma DigestCoversHistory(p: Profile, history: bytes, cell: RelayCell, body: bytes, cleared: bytes)
    requires cell.WellFormed() && DigestCleared(body, cleared)
    ensures body == Wire(Stamped(p, history, cell)) ==> body[5..9] == p.hash(history + cleared)[..4]
    ensures Recognized(p, history, body) != NotMine
       <==> body[1] == 0 && body[2] == 0 && body[5..9] == p.hash(history + cleared)[..4]
    ensures body == Wire(Stamped(p, history, cell)) ==> Absorbed(cell) == cleared
    ensures ZeroDigest(body) == cleared
  {
    assert cleared == body[..5] + ZERO_DIGEST + body[9..];
    var stamped := Stamped(p, history, cell);
    WireLayout(stamped);
    ZeroedWireIsDigestInput(stamped);
    assert body[1..3] == [body[1], body[2]];
  }

  datatype KeyError = TooShort(needed: nat, got: nat)

  /** One hop's contexts, advanced in place; the same class serves a client and a relay. */
  class RelayCrypto {
    const forward: Profile
    const backward: Profile
    var forwardDigest: bytes
    var backwardDigest: bytes
    var forwardCipher: nat
    var backwardCipher: nat

    /** Refuses key material that is too short for both directions. */
    static method Create(keyMaterial: bytes, hash: bytes -> Digest, cipher: bytes -> (nat -> byte),
                         digestLen: nat, keyLen: nat)
      returns (r: Result<RelayCrypto, KeyError>)
      ensures r.Ok? <==> |keyMaterial| >= 2 * digestLen + 2 * keyLen
      ensures r.Err? ==> r.error == KeyError.TooShort(2 * digestLen + 2 * keyLen, |keyMaterial|)
      ensures r.Ok? ==> r.value.forward == Profile(hash, cipher(keyMaterial[2 * digestLen..2 * digestLen + keyLen]))
      ensures r.Ok? ==> r.value.backward
                        == Profile(hash, cipher(keyMaterial[2 * digestLen + keyLen..2 * digestLen + 2 * keyLen]))
      ensures r.Ok? ==> fresh(r.value)
                        && r.value.ForwardCtx() == Ctx(0, keyMaterial[..digestLen])
                        && r.value.BackwardCtx() == Ctx(0, keyMaterial[digestLen..2 * digestLen])
    {
      if |keyMaterial| < 2 * digestLen + 2 * keyLen {
        return Err(KeyError.TooShort(2 * digestLen + 2 * keyLen, |keyMaterial|));
      }
      var crypto := new RelayCrypto(keyMaterial, hash, cipher, digestLen, keyLen);
      r := Ok(crypto);
    }

    /** Seeds and keystreams are cut from the key material in the order Df, Db, Kf, Kb. */
    constructor (keyMaterial: bytes, hash: bytes -> Digest, cipher: bytes -> (nat -> byte), digestLen: nat, keyLen: nat)
      requires |keyMaterial| >= 2 * digestLen + 2 * keyLen
      ensures forward.hash == backward.hash == hash
      ensures ForwardCtx() == Ctx(0, keyMaterial[..digestLen])
      ensures BackwardCtx() == Ctx(0, keyMaterial[digestLen..2 * digestLen])
      ensures forward.stream == cipher(keyMaterial[2 * digestLen..2 * digestLen + keyLen])
      ensures backward.stream == cipher(keyMaterial[2 * digestLen + keyLen..2 * digestLen + 2 * keyLen])
    {
      var kf := keyMaterial[2 * digestLen..2 * digestLen + keyLen];
      var kb := keyMaterial[2 * digestLen + keyLen..2 * digestLen + 2 * keyLen];
      forward := Profile(hash, cipher(kf));
      backward := Profile(hash, cipher(kb));
      forwardDigest := keyMaterial[..digestLen];
      backwardDigest := keyMaterial[digestLen..2 * digestLen];
      forwardCipher, backwardCipher := 0, 0;
    }

    function ForwardCtx(): Ctx
      reads this
    {
      Ctx(forwardCipher, forwardDigest)
    }

    function BackwardCtx(): Ctx
      reads this
    {
      Ctx(backwardCipher, backwardDigest)
    }

    method ApplyForwardCipher(body: bytes) returns (r: bytes)
      modifies this`forwardCipher
      ensures r == Crypt(forward, old(forwardCipher), body)
      ensures forall i :: 0 <= i < |body| ==> Xor(r[i], body[i]) == forward.stream(old(forwardCipher) + i)
      ensures forwardCipher == old(forwardCipher) + |body|
    {
      r := Crypt(forward, forwardCipher, body);
      CryptBytes(forward, forwardCipher, body);
      forwardCipher := forwardCipher + |body|;
    }

    method ApplyBackwardCipher(body: bytes) returns (r: bytes)
      modifies this`backwardCipher
      ensures r == Crypt(backward, old(backwardCipher), body)
      ensures forall i :: 0 <= i < |body| ==> Xor(r[i], body[i]) == backward.stream(old(backwardCipher) + i)
      ensures backwardCipher == old(backwardCipher) + |body|
    {
      r := Crypt(backward, backwardCipher, body);
      CryptBytes(backward, backwardCipher, body);
      backwardCipher := backwardCipher + |body|;
    }

    /** Fails, leaving the digest alone, when the cell does not pack. */
    method StampForward(cell: RelayCell) returns (r: Result<RelayCell, CellError>)
      requires |cell.data| <= RELAY_PAYLOAD_LEN ==> cell.WellFormed()
      modifies this`forwardDigest
      ensures r.Err? <==> |cell.data| > RELAY_PAYLOAD_LEN
      ensures r.Err? ==> forwardDigest == old(forwardDigest)
      ensures r.Ok? ==> r.value == Stamped(forward, old(forwardDigest), cell)
                        && forwardDigest == old(forwardDigest) + Absorbed(cell)
    {
      var input := DigestInput(cell);
      if input.Err? {
        return Err(input.error);
      }
      forwardDigest := forwardDigest + input.value;
      r := Ok(cell.(digest := forward.hash(forwardDigest)[..4]));
    }

    method StampBackward(cell: RelayCell) returns (r: Result<RelayCell, CellError>)
      requires |cell.data| <= RELAY_PAYLOAD_LEN ==> cell.WellFormed()
      modifies this`backwardDigest
      ensures r.Err? <==> |cell.data| > RELAY_PAYLOAD_LEN
      ensures r.Err? ==> backwardDigest == old(backwardDigest)
      ensures r.Ok? ==> r.value == Stamped(backward, old(backwardDigest), cell)
                        && backwardDigest == old(backwardDigest) + Absorbed(cell)
    {
      var input := DigestInput(cell);
      if input.Err? {
        return Err(input.error);
      }
      backwardDigest := backwardDigest + input.value;
      r := Ok(cell.(digest := backward.hash(backwardDigest)[..4]));
    }

    method RecognizeForward(body: bytes) returns (r: Recognition)
      requires |body| == CELL_PAYLOAD_LEN
      modifies this`forwardDigest, this`backwardDigest
      ensures r == Recognized(forward, old(forwardDigest), body)
      ensures forwardDigest == if r.NotMine? then old(forwardDigest) else old(forwardDigest) + ZeroDigest(body)
      ensures backwardDigest == old(backwardDigest)
    {
      r := Recognize(body, true);
    }

    method RecognizeBackward(body: bytes) returns (r: Recognition)
      requires |body| == CELL_PAYLOAD_LEN
      modifies this`forwardDigest, this`backwardDigest
      ensures r == Recognized(backward, old(backwardDigest), body)
      ensures backwardDigest == if r.NotMine? then old(backwardDigest) else old(backwardDigest) + ZeroDigest(body)
      ensures forwardDigest == old(forwardDigest)
    {
      r := Recognize(body, false);
    }

    /** Probe a copy of the running digest; commit it only when the cell turns out to be this hop's. */
    method Recognize(body: bytes, isForward: bool) returns (r: Recognition)
      requires |body| == CELL_PAYLOAD_LEN
      modifies this`forwardDigest, this`backwardDigest
      ensures r == if isForward then Recognized(forward, old(forwardDigest), body)
                   else Recognized(backward, old(backwardDigest), body)
      ensures forwardDigest == if isForward && !r.NotMine? then old(forwardDigest) + ZeroDigest(body)
                               else old(forwardDigest)
      ensures backwardDigest == if !isForward && !r.NotMine? then old(backwardDigest) + ZeroDigest(body)
                                else old(backwardDigest)
    {
      if body[1..3] != [0, 0] {
        return NotMine;
      }
      var receivedDigest, zeroedBody := body[5..9], ZeroDigest(body);
      var running := if isForward then forwardDigest else backwardDigest;
      var probe := running + zeroedBody;
      var profile := if isForward then forward else backward;
      if profile.hash(probe)[..4] != receivedDigest {
        return NotMine;
      }
      if isForward {
        forwardDigest := probe;
      } else {
        backwardDigest := probe;
      }
      var parsed := Parse(body);
      r := match parsed case Ok(cell) => Mine(cell) case Err(e) => Malformed(e);
    }
  }
}
