/** A gateway connection: reassembling fixed 32-byte messages from a TCP byte stream. */
module Gateway {
  import opened Types
  import opened Bytes

  const WIRE_MSG_SIZE: nat := 32

  /** A wire message's fields as numbers. */
  datatype WireMessage = WireMessage(kind: byte, side: byte, orderType: byte, pad: byte, client: nat, orderId: nat,
                                     price: nat, quantity: nat, timestamp: nat)

  predicate Fits(w: WireMessage) {
    w.client < TWO32 && w.orderId < TWO64 && w.price < TWO32 && w.quantity < TWO32 && w.timestamp < TWO64
  }

  /** What the gateway offers to the inbound ring; the receive time is left aside. */
  datatype Offer = Offer(kind: byte, side: byte, orderType: byte, client: nat, orderId: nat, price: nat, quantity: nat)

  function OfferOf(w: WireMessage): Offer {
    Offer(w.kind, w.side, w.orderType, w.client, w.orderId, w.price, w.quantity)
  }

  /** The packed struct on a little-endian host. */
  function Encode(w: WireMessage): (r: seq<byte>)
    ensures |r| == WIRE_MSG_SIZE
  {
    [w.kind, w.side, w.orderType, w.pad] + LittleEndian(w.client, 4) + LittleEndian(w.orderId, 8)
    + LittleEndian(w.price, 4) + LittleEndian(w.quantity, 4) + LittleEndian(w.timestamp, 8)
  }

  function Decode(b: seq<byte>): WireMessage
    requires |b| == WIRE_MSG_SIZE
  {
    WireMessage(b[0], b[1], b[2], b[3], FromLittle(b[4..8]), FromLittle(b[8..16]), FromLittle(b[16..20]),
                FromLittle(b[20..24]), FromLittle(b[24..32]))
  }

  /** The offer carries exactly the fields of the wire message that the ring message has. */
  predicate Copies(o: Offer, w: WireMessage) {
    && o.kind == w.kind && o.side == w.side && o.orderType == w.orderType && o.client == w.client
    && o.orderId == w.orderId && o.price == w.price && o.quantity == w.quantity
  }

  /** Four bytes from position i on, least significant first. */
  function Word32(b: seq<byte>, i: nat): nat
    requires i + 4 <= |b|
  {
    b[i] as nat + 256 * b[i + 1] as nat + 65536 * b[i + 2] as nat + 16777216 * b[i + 3] as nat
  }

  /** The offer read off the bytes of a block: type, side and order type in the first three, client at 4, order id at 8,
      price at 16, quantity at 20. */
  predicate ReadOff(o: Offer, b: seq<byte>)
    requires |b| == 32
  {
    && o.kind == b[0] && o.side == b[1] && o.orderType == b[2] && o.client == Word32(b, 4)
    && o.orderId == Word32(b, 8) + 4294967296 * Word32(b, 12) && o.price == Word32(b, 16) && o.quantity == Word32(b, 20)
  }

  lemma OfferReadOff(b: seq<byte>)
    requires |b| == 32
    ensures ReadOff(OfferOf(Decode(b)), b)
  {
    hide FromLittle;
    LittleFour(b[4..8]);
    LittleEight(b[8..16]);
    assert b[8..16][..4] == b[8..12] && b[8..16][4..] == b[12..16];
    LittleFour(b[8..12]);
    LittleFour(b[12..16]);
    LittleFour(b[16..20]);
    LittleFour(b[20..24]);
  }

  lemma DecodeEncode(w: WireMessage)
    requires Fits(w)
    ensures Decode(Encode(w)) == w
  {
    var b, client, id := Encode(w), LittleEndian(w.client, 4), LittleEndian(w.orderId, 8);
    var price, quantity, time := LittleEndian(w.price, 4), LittleEndian(w.quantity, 4), LittleEndian(w.timestamp, 8);
    Fields([w.kind, w.side, w.orderType, w.pad], client, id, price, quantity, time);
    Widths();
    LittleRoundTrip(w.client, 4);
    LittleRoundTrip(w.orderId, 8);
    LittleRoundTrip(w.price, 4);
    LittleRoundTrip(w.quantity, 4);
    LittleRoundTrip(w.timestamp, 8);
  }

  lemma Fields(a: seq<byte>, b: seq<byte>, c: seq<byte>, d: seq<byte>, e: seq<byte>, f: seq<byte>)
    requires |a| == |b| == |d| == |e| == 4 && |c| == |f| == 8
    ensures var s := a + b + c + d + e + f;
            && s[..4] == a && s[4..8] == b && s[8..16] == c && s[16..20] == d && s[20..24] == e && s[24..32] == f
  {
  }

  // ----- Cutting a stream into messages -----

  /** The messages held by a byte stream: one for each whole block. */
  function Offers(s: seq<byte>): seq<Offer> {
    if |s| < WIRE_MSG_SIZE then [] else [OfferOf(Decode(s[..WIRE_MSG_SIZE]))] + Offers(s[WIRE_MSG_SIZE..])
  }

  /** The bytes after the last whole block. */
  function Remainder(s: seq<byte>): (r: seq<byte>)
    ensures |r| < WIRE_MSG_SIZE
  {
    if |s| < WIRE_MSG_SIZE then s else Remainder(s[WIRE_MSG_SIZE..])
  }

  /** Whatever the stream: one offer for each whole block of 32 bytes, in order, read off the bytes of that block; and
      the remainder is what follows the last whole block. */
  lemma {:induction false} OffersAt(s: seq<byte>, i: nat)
    ensures |Offers(s)| == |s| / 32 && Remainder(s) == s[|s| / 32 * 32..]
    ensures i < |s| / 32 ==> ReadOff(Offers(s)[i], s[32 * i..32 * i + 32])
    decreases |s|
  {
    hide Decode, OfferOf, ReadOff;
    if |s| >= 32 {
      var rest := s[32..];
      OfferReadOff(s[..32]);
      OffersAt(rest, if i == 0 then 0 else i - 1);
      var n := |rest| / 32;
      assert |s| / 32 == 1 + n;
      SliceBehind(s, n * 32, |rest|);
      if i == 0 {
        assert s[0..32] == s[..32];
      } else if i < |s| / 32 {
        SliceBehind(s, 32 * (i - 1), 32 * i);
      }
    }
  }

  lemma SliceBehind(s: seq<byte>, a: nat, b: nat)
    requires |s| >= 32 && a <= b <= |s| - 32
    ensures s[32..][a..b] == s[32 + a..32 + b] && s[32..][a..] == s[32 + a..]
  {
  }

  lemma {:induction false} OffersAppend(a: seq<byte>, b: seq<byte>)
    ensures Offers(a + b) == Offers(a) + Offers(Remainder(a) + b)
    ensures Remainder(a + b) == Remainder(Remainder(a) + b)
    decreases |a|
  {
    hide Decode;
    if |a| >= WIRE_MSG_SIZE {
      assert (a + b)[..WIRE_MSG_SIZE] == a[..WIRE_MSG_SIZE] && (a + b)[WIRE_MSG_SIZE..] == a[WIRE_MSG_SIZE..] + b;
      OffersAppend(a[WIRE_MSG_SIZE..], b);
    }
  }

  function EncodeAll(ws: seq<WireMessage>): seq<byte> {
    if ws == [] then [] else Encode(ws[0]) + EncodeAll(ws[1..])
  }

  function OfferAll(ws: seq<WireMessage>): (r: seq<Offer>)
    ensures |r| == |ws| && forall i :: 0 <= i < |ws| ==> r[i] == OfferOf(ws[i])
  {
    if ws == [] then [] else [OfferOf(ws[0])] + OfferAll(ws[1..])
  }

  lemma AllCopied(ws: seq<WireMessage>)
    ensures |OfferAll(ws)| == |ws| && forall i :: 0 <= i < |ws| ==> Copies(OfferAll(ws)[i], ws[i])
  {
  }

  /** The stream a client writes, whole messages and perhaps the start of one more, holds exactly those messages. */
  lemma {:induction false} OffersOfEncoded(ws: seq<WireMessage>, partial: seq<byte>)
    requires forall w :: w in ws ==> Fits(w)
    requires |partial| < WIRE_MSG_SIZE
    ensures Offers(EncodeAll(ws) + partial) == OfferAll(ws)
    ensures |OfferAll(ws)| == |ws| && forall i :: 0 <= i < |ws| ==> Copies(OfferAll(ws)[i], ws[i])
    ensures Remainder(EncodeAll(ws) + partial) == partial
    decreases |ws|
  {
    hide Decode, Encode, Fits, OfferOf, Copies;
    AllCopied(ws);
    if ws == [] {
      assert EncodeAll(ws) + partial == partial;
    } else {
      DecodeEncode(ws[0]);
      OffersOfEncoded(ws[1..], partial);
      var s := EncodeAll(ws) + partial;
      assert s[..WIRE_MSG_SIZE] == Encode(ws[0]) && s[WIRE_MSG_SIZE..] == EncodeAll(ws[1..]) + partial;
    }
  }

  // ----- Receiving -----

  /** What successive `recv` calls find: bytes, nothing yet, the peer gone, or an error. */
  datatype Arrival = Segment(data: seq<byte>) | WouldBlock | PeerGone | Failed

  /** A receive of no bytes at all reports that the peer is gone. */
  predicate HasBytes(a: Arrival) { a.Segment? && a.data != [] }

  /** The bytes one `read_client` call takes: everything up to the first arrival without bytes. */
  function Taken(arrivals: seq<Arrival>): seq<byte> {
    if arrivals == [] || !HasBytes(arrivals[0]) then [] else arrivals[0].data + Taken(arrivals[1..])
  }

  function After(arrivals: seq<Arrival>): seq<Arrival> {
    if arrivals == [] then [] else if HasBytes(arrivals[0]) then After(arrivals[1..]) else arrivals[1..]
  }

  predicate Drops(arrivals: seq<Arrival>) {
    arrivals != [] && (if HasBytes(arrivals[0]) then Drops(arrivals[1..]) else !arrivals[0].WouldBlock?)
  }

  function Volume(arrivals: seq<Arrival>): nat {
    if arrivals == [] then 0 else (if arrivals[0].Segment? then |arrivals[0].data| else 0) + Volume(arrivals[1..])
  }

  class ClientState {
    const readBuf: array<byte>
    var readPos: nat
    var active: bool
    ghost var received: seq<byte>
    ghost var offered: seq<Offer>

    /** Since the connection was accepted, the messages offered are those of the bytes received, and the buffer holds
        the rest. */
    ghost predicate Valid()
      reads this, readBuf
    {
      && readBuf.Length == WIRE_MSG_SIZE && readPos < WIRE_MSG_SIZE
      && readBuf[..readPos] == Remainder(received) && offered == Offers(received)
    }

    constructor ()
      ensures Valid() && fresh(readBuf) && !active && received == []
    {
      readBuf := new byte[WIRE_MSG_SIZE](_ => 0);
      readPos, active, received, offered := 0, false, [], [];
    }

    /** A new connection takes the slot. */
    method Accept()
      requires readBuf.Length == WIRE_MSG_SIZE
      modifies this
      ensures Valid() && active && received == [] && offered == []
    {
      readPos, active, received, offered := 0, true, [], [];
    }

    /** `recv` into the free part of the buffer: at most what fits of the segment at hand. */
    method Receive(data: seq<byte>) returns (n: nat)
      requires Valid() && data != []
      modifies readBuf
      ensures 0 < n <= |data| && readPos + n <= WIRE_MSG_SIZE
      ensures n < |data| ==> readPos + n == WIRE_MSG_SIZE
      ensures readBuf[..readPos + n] == old(readBuf[..readPos]) + data[..n]
    {
      n := if |data| <= WIRE_MSG_SIZE - readPos then |data| else WIRE_MSG_SIZE - readPos;
      forall k | 0 <= k < n { readBuf[readPos + k] := data[k]; }
    }

    /** One turn of the loop that found bytes: buffer them and offer the message if it is whole. */
    method Absorb(data: seq<byte>) returns (n: nat, offers: seq<Offer>)
      requires Valid() && data != []
      modifies this, readBuf
      ensures Valid() && 0 < n <= |data| && active == old(active)
      ensures received == old(received) + data[..n] && offered == old(offered) + offers
    {
      hide Offers, Remainder, Decode;
      n := Receive(data);
      OffersAppend(received, data[..n]);
      readPos, received, offers := readPos + n, received + data[..n], [];
      ghost var block := readBuf[..readPos];
      assert block == Remainder(old(received)) + data[..n];
      OneBlock(block);
      assert readPos == WIRE_MSG_SIZE ==> block[..WIRE_MSG_SIZE] == readBuf[..WIRE_MSG_SIZE];
      if readPos >= WIRE_MSG_SIZE {
        offers := [OfferOf(Decode(readBuf[..WIRE_MSG_SIZE]))];
        readPos := 0;
      }
      offered := offered + offers;
    }

    /** One turn on what arrived first; what did not fit stays for the next. */
    method Turn(arrivals: seq<Arrival>) returns (rest: seq<Arrival>, offers: seq<Offer>)
      requires Valid() && arrivals != [] && HasBytes(arrivals[0])
      modifies this, readBuf
      ensures Valid() && active == old(active) && offered == old(offered) + offers
      ensures received + Taken(rest) == old(received) + Taken(arrivals)
      ensures After(rest) == After(arrivals) && Drops(rest) == Drops(arrivals) && Volume(rest) < Volume(arrivals)
    {
      hide Taken, After, Drops, Volume, Valid;
      var data, n := arrivals[0].data, 0;
      n, offers := Absorb(data);
      Resume(arrivals, n);
      rest := if n < |data| then [Segment(data[n..])] + arrivals[1..] else arrivals[1..];
      assert old(received) + data[..n] + Taken(rest) == old(received) + (data[..n] + Taken(rest));
    }

    /** `read_client`: read until a receive finds nothing, offering each message as it becomes whole. */
    method ReadClient(arrivals: seq<Arrival>) returns (offers: seq<Offer>, rest: seq<Arrival>)
      requires Valid()
      modifies this, readBuf
      ensures Valid() && offered == old(offered) + offers
      ensures old(active) ==>
                received == old(received) + Taken(arrivals) && rest == After(arrivals) && active == !Drops(arrivals)
      ensures !old(active) ==> received == old(received) && rest == arrivals && !active
    {
      hide Offers, Remainder, Volume;
      offers, rest := [], arrivals;
      if !active { return; }
      while rest != [] && HasBytes(rest[0])
        invariant Valid() && active && offered == old(offered) + offers
        invariant received + Taken(rest) == old(received) + Taken(arrivals)
        invariant After(rest) == After(arrivals) && Drops(rest) == Drops(arrivals)
        decreases Volume(rest)
      {
        var more;
        rest, more := Turn(rest);
        offers := offers + more;
      }
      if rest != [] {
        active := rest[0].WouldBlock?;
        rest := rest[1..];
      }
    }
  }

  function Segments(segments: seq<seq<byte>>): seq<Arrival> {
    if segments == [] then [] else [Segment(segments[0])] + Segments(segments[1..])
  }

  /** One call on any segments that end in some other arrival: all their bytes are taken and nothing behind that
      arrival; the connection is dropped unless it was that there was nothing to read yet. */
  lemma {:induction false} OneCall(segments: seq<seq<byte>>, last: Arrival, more: seq<Arrival>)
    requires forall i :: 0 <= i < |segments| ==> segments[i] != []
    requires !last.Segment? || last.data == []
    ensures var arrivals := Segments(segments) + [last] + more;
            && Taken(arrivals) == Concat(segments) && After(arrivals) == more
            && (Drops(arrivals) <==> last != WouldBlock)
    decreases |segments|
  {
    var arrivals := Segments(segments) + [last] + more;
    if segments == [] {
      assert arrivals[0] == last && arrivals[1..] == more;
    } else {
      assert arrivals[0] == Segment(segments[0]);
      assert arrivals[1..] == Segments(segments[1..]) + [last] + more;
      OneCall(segments[1..], last, more);
    }
  }

  /** At most one block's worth of buffered bytes holds at most one message. */
  lemma OneBlock(s: seq<byte>)
    requires |s| <= WIRE_MSG_SIZE
    ensures Offers(s) == if |s| < WIRE_MSG_SIZE then [] else [OfferOf(Decode(s[..WIRE_MSG_SIZE]))]
    ensures Remainder(s) == if |s| < WIRE_MSG_SIZE then s else []
  {
    if |s| == WIRE_MSG_SIZE { assert Offers(s[WIRE_MSG_SIZE..]) == []; }
  }

  /** Taking n bytes of a segment and leaving the others for the next receive. */
  lemma Resume(arrivals: seq<Arrival>, n: nat)
    requires arrivals != [] && HasBytes(arrivals[0]) && 0 < n <= |arrivals[0].data|
    ensures var data := arrivals[0].data;
            var rest := if n < |data| then [Segment(data[n..])] + arrivals[1..] else arrivals[1..];
            && Taken(arrivals) == data[..n] + Taken(rest) && After(rest) == After(arrivals)
            && Drops(rest) == Drops(arrivals) && Volume(rest) < Volume(arrivals)
  {
    var data := arrivals[0].data;
    if n < |data| {
      var rest := [Segment(data[n..])] + arrivals[1..];
      assert rest[1..] == arrivals[1..] && HasBytes(rest[0]);
      assert data[..n] + data[n..] == data;
    } else {
      assert data[..n] == data;
    }
  }

  /** The bytes taken by successive `read_client` calls. */
  function AllTaken(turns: seq<seq<Arrival>>): seq<byte> {
    if turns == [] then [] else Taken(turns[0]) + AllTaken(turns[1..])
  }

  /** One connection's life: however the network cuts a client's messages into segments, and the segments into calls,
      the gateway offers exactly those messages in order and keeps only the start of the next. */
  method Connection(c: ClientState, turns: seq<seq<Arrival>>, ghost ws: seq<WireMessage>, ghost partial: seq<byte>)
    returns (offers: seq<Offer>)
    requires c.Valid()
    requires forall i :: 0 <= i < |turns| - 1 ==> !Drops(turns[i])
    requires AllTaken(turns) == EncodeAll(ws) + partial && |partial| < WIRE_MSG_SIZE && forall w :: w in ws ==> Fits(w)
    modifies c, c.readBuf
    ensures offers == OfferAll(ws) && |offers| == |ws| && forall i :: 0 <= i < |ws| ==> Copies(offers[i], ws[i])
    ensures c.Valid() && c.readBuf[..c.readPos] == partial
  {
    hide Offers, Remainder, EncodeAll, Taken, Drops, OfferAll, Fits, Copies, OfferOf;
    c.Accept();
    offers := [];
    for k := 0 to |turns|
      invariant c.Valid() && (k < |turns| ==> c.active) && c.offered == offers
      invariant c.received + AllTaken(turns[k..]) == AllTaken(turns)
    {
      assert turns[k..][1..] == turns[k + 1..];
      var more, _ := c.ReadClient(turns[k]);
      offers := offers + more;
    }
    assert c.received == AllTaken(turns);
    OffersOfEncoded(ws, partial);
  }
}
