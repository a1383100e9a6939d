/** Layered encryption along a path, as functions of the contexts at each hop. */
module Onions {
  import opened Bytes
  import opened RelayCells
  import opened RelayCryptos

  /** A body under the layers of hops `h..t`, outermost first. */
  function Layers(ps: seq<Profile>, cs: seq<Ctx>, h: nat, t: nat, body: bytes): (r: bytes)
    requires t < |ps| && t < |cs|
    ensures |r| == |body|
    decreases t + 1 - h
  {
    if h > t then body else Crypt(ps[h], cs[h].position, Layers(ps, cs, h + 1, t, body))
  }

  /** Removing hop `h`'s layer leaves the layers of the hops behind it. */
  lemma LayersPeel(ps: seq<Profile>, cs: seq<Ctx>, h: nat, t: nat, body: bytes)
    requires h <= t < |ps| && t < |cs|
    ensures Crypt(ps[h], cs[h].position, Layers(ps, cs, h, t, body)) == Layers(ps, cs, h + 1, t, body)
  {
    CryptCancels(ps[h], cs[h].position, Layers(ps, cs, h + 1, t, body));
  }

  lemma {:induction false} LayersAgree(ps: seq<Profile>, ps': seq<Profile>, cs: seq<Ctx>, cs': seq<Ctx>,
                                       h: nat, t: nat, body: bytes)
    requires t < |ps| && t < |cs| && t < |ps'| && t < |cs'|
    requires forall k :: h <= k <= t ==> ps[k] == ps'[k] && cs[k].position == cs'[k].position
    ensures Layers(ps, cs, h, t, body) == Layers(ps', cs', h, t, body)
    decreases t + 1 - h
  {
    if h <= t {
      LayersAgree(ps, ps', cs, cs', h + 1, t, body);
    }
  }

  /** What became of a received body: unwrapped hop by hop until one hop recognizes it. */
  datatype Peeled =
    | Unrecognized(ctxs: seq<Ctx>)
    | Routed(ctxs: seq<Ctx>, cell: RelayCell, origin: nat)
    | Corrupt(ctxs: seq<Ctx>, error: CellError)

  function Peel(ps: seq<Profile>, cs: seq<Ctx>, j: nat, body: bytes): (r: Peeled)
    requires |ps| == |cs| && j <= |cs| && |body| == CELL_PAYLOAD_LEN
    ensures |r.ctxs| == |cs| && (r.Routed? ==> r.origin < |cs|)
    decreases |cs| - j
  {
    if j == |cs| then Unrecognized(cs)
    else
      var inner := Crypt(ps[j], cs[j].position, body);
      var moved := Ctx(cs[j].position + |body|, cs[j].history);
      var absorbed := moved.(history := moved.history + ZeroDigest(inner));
      match Recognized(ps[j], cs[j].history, inner)
      case NotMine => Peel(ps, cs[j := moved], j + 1, inner)
      case Mine(cell) => Routed(cs[j := absorbed], cell, j)
      case Malformed(e) => Corrupt(cs[j := absorbed], e)
  }

  /** The body as hop `j` sees it, with the layers of hops `0..j` gone. */
  function PeeledAt(ps: seq<Profile>, cs: seq<Ctx>, j: nat, body: bytes): (r: bytes)
    requires j < |ps| && j < |cs|
    ensures |r| == |body|
  {
    Crypt(ps[j], cs[j].position, if j == 0 then body else PeeledAt(ps, cs, j - 1, body))
  }

  lemma {:induction false} PeeledAtLayers(ps: seq<Profile>, cs: seq<Ctx>, at: seq<Ctx>, j: nat, t: nat, body: bytes)
    requires j <= t < |ps| && t < |cs| && t < |at|
    requires forall k :: 0 <= k <= t ==> cs[k].position == at[k].position
    ensures PeeledAt(ps, cs, j, Layers(ps, at, 0, t, body)) == Layers(ps, at, j + 1, t, body)
  {
    if j > 0 {
      PeeledAtLayers(ps, cs, at, j - 1, t, body);
    }
    LayersPeel(ps, at, j, t, body);
  }

  /** Contexts after `n` hops have each unwrapped one body. */
  function Moved(cs: seq<Ctx>, n: nat): (r: seq<Ctx>)
    requires n <= |cs|
    ensures |r| == |cs|
  {
    seq(|cs|, k requires 0 <= k < |cs| =>
      if k < n then Ctx(cs[k].position + CELL_PAYLOAD_LEN, cs[k].history) else cs[k])
  }

  /** A client's contexts after it has sent a cell to its last hop. */
  function AfterSending(cs: seq<Ctx>, cell: RelayCell): (r: seq<Ctx>)
    requires cs != [] && cell.WellFormed()
    ensures |r| == |cs|
  {
    var t := |cs| - 1;
    Moved(cs, t + 1)[t := Ctx(cs[t].position + CELL_PAYLOAD_LEN, cs[t].history + Absorbed(cell))]
  }

  /** The body it puts on the wire: stamped for the last hop, under every hop's layer. */
  function Wrapped(ps: seq<Profile>, cs: seq<Ctx>, cell: RelayCell): (r: bytes)
    requires cs != [] && |ps| >= |cs| && cell.WellFormed()
    ensures |r| == CELL_PAYLOAD_LEN
  {
    var t := |cs| - 1;
    Layers(ps, cs, 0, t, Wire(Stamped(ps[t], cs[t].history, cell)))
  }

  /** In between: stamped, not yet wrapped. */
  function AfterStamping(cs: seq<Ctx>, cell: RelayCell): (r: seq<Ctx>)
    requires cs != [] && cell.WellFormed()
    ensures |r| == |cs|
  {
    var t := |cs| - 1;
    cs[t := Ctx(cs[t].position, cs[t].history + Absorbed(cell))]
  }

  function StampedLast(ps: seq<Profile>, cs: seq<Ctx>, cell: RelayCell): (c: RelayCell)
    requires cs != [] && |ps| >= |cs| && cell.WellFormed()
    ensures c.WellFormed()
  {
    Stamped(ps[|cs| - 1], cs[|cs| - 1].history, cell)
  }

  /** What the last hop absorbs touches neither the layers nor where the keystreams go. */
  lemma StampThenWrap(ps: seq<Profile>, cs: seq<Ctx>, cell: RelayCell)
    requires cs != [] && |ps| == |cs| && cell.WellFormed()
    ensures var after := AfterStamping(cs, cell);
            && Layers(ps, after, 0, |cs| - 1, Wire(StampedLast(ps, cs, cell))) == Wrapped(ps, cs, cell)
            && Moved(after, |cs|) == AfterSending(cs, cell)
  {
    hide Wire, Absorbed, Stamped, Layers;
    var after := AfterStamping(cs, cell);
    LayersAgree(ps, ps, after, cs, 0, |cs| - 1, Wire(StampedLast(ps, cs, cell)));
    assert Moved(after, |cs|) == AfterSending(cs, cell);
  }

  /**
   * A cell wrapped by hops `0..t` at the contexts the client now holds, stamped at hop `t`, is routed to hop `t`
   * unless an earlier hop mistakes it for its own.
   */
  lemma {:induction false} PeelFindsOrigin(ps: seq<Profile>, cs: seq<Ctx>, at: seq<Ctx>, j: nat, t: nat,
      cell: RelayCell)
    requires |ps| == |cs| && j <= t < |cs| && |at| == t + 1
    requires forall k :: 0 <= k <= t ==> cs[k].position == at[k].position
    requires cell.WellFormed() && cell.recognized == 0 && cell == Stamped(ps[t], cs[t].history, cell)
    requires forall k :: j <= k < t ==>
               Recognized(ps[k], cs[k].history, Layers(ps, at, k + 1, t, Wire(cell))) == NotMine
    ensures Peel(ps, Moved(cs, j), j, Layers(ps, at, j, t, Wire(cell)))
         == Routed(Moved(cs, t + 1)[t := Ctx(cs[t].position + CELL_PAYLOAD_LEN, cs[t].history + Absorbed(cell))],
             cell, t)
    decreases t - j
  {
    hide Crypt, Wire, Absorbed, Recognized, Stamped, ZeroDigest;
    var inner := Layers(ps, at, j + 1, t, Wire(cell));
    LayersPeel(ps, at, j, t, Wire(cell));
    assert Moved(cs, j)[j] == cs[j];
    if j < t {
      PeelOn(ps, cs, j, Layers(ps, at, j, t, Wire(cell)), inner);
      PeelFindsOrigin(ps, cs, at, j + 1, t, cell);
    } else {
      StampedIsRecognized(ps[t], cs[t].history, cell);
      var absorbed := Ctx(cs[t].position + CELL_PAYLOAD_LEN, cs[t].history + Absorbed(cell));
      assert Moved(cs, j)[t := absorbed] == Moved(cs, t + 1)[t := absorbed];
    }
  }

  /** No hop before `t` takes the body for its own when its turn comes. */
  ghost predicate NoneEarlier(ps: seq<Profile>, cs: seq<Ctx>, t: nat, body: bytes)
    requires |ps| == |cs| && |body| == CELL_PAYLOAD_LEN
  {
    forall j :: 0 <= j < t && j < |cs| ==> Recognized(ps[j], cs[j].history, PeeledAt(ps, cs, j, body)) == NotMine
  }

  lemma PeelRoutes(ps: seq<Profile>, cs: seq<Ctx>, t: nat, cell: RelayCell, body: bytes)
    requires |ps| == |cs| && t < |cs|
    requires cell.WellFormed() && cell.recognized == 0 && cell == Stamped(ps[t], cs[t].history, cell)
    requires body == Layers(ps, cs[..t + 1], 0, t, Wire(cell)) && NoneEarlier(ps, cs, t, body)
    ensures Peel(ps, cs, 0, body)
         == Routed(Moved(cs, t + 1)[t := Ctx(cs[t].position + CELL_PAYLOAD_LEN, cs[t].history + Absorbed(cell))],
             cell, t)
  {
    var at := cs[..t + 1];
    forall k | 0 <= k < t ensures Recognized(ps[k], cs[k].history, Layers(ps, at, k + 1, t, Wire(cell))) == NotMine {
      PeeledAtLayers(ps, cs, at, k, t, Wire(cell));
      assert PeeledAt(ps, cs, k, body) == Layers(ps, at, k + 1, t, Wire(cell));
    }
    assert Moved(cs, 0) == cs;
    PeelFindsOrigin(ps, cs, at, 0, t, cell);
  }

  /** One hop that does not recognize the body only advances its keystream. */
  lemma PeelOn(ps: seq<Profile>, cs: seq<Ctx>, j: nat, body: bytes, inner: bytes)
    requires |ps| == |cs| && j < |cs| && |body| == CELL_PAYLOAD_LEN
    requires inner == Crypt(ps[j], cs[j].position, body)
    requires Recognized(ps[j], cs[j].history, inner) == NotMine
    ensures Peel(ps, Moved(cs, j), j, body) == Peel(ps, Moved(cs, j + 1), j + 1, inner)
  {
    assert Moved(cs, j)[j] == cs[j];
    assert Moved(cs, j + 1) == Moved(cs, j)[j := Ctx(cs[j].position + CELL_PAYLOAD_LEN, cs[j].history)];
  }
}
