/** RFC 6455 framing on the client side: reassembling server frames from a byte stream, and masking client frames. */
module WebSocket {
  import opened Types
  import opened Bytes

  const OP_TEXT: nat := 1
  const OP_BINARY: nat := 2
  const OP_CLOSE: nat := 8
  const OP_PING: nat := 9
  const OP_PONG: nat := 10

  // ----- Reading a stream of frames -----

  /** Opcode, header size and payload length. */
  datatype Header = Header(opcode: nat, size: nat, len: nat) {
    function Total(): nat { size + len }
  }

  /** The header at the front of s, if all of its length field is there. */
  function HeaderOf(s: seq<byte>): Option<Header> {
    if |s| < 2 then None
    else
      var short, mask := s[1] % 128, if s[1] >= 128 then 4 else 0;
      if short == 126 then if |s| < 4 then None else Some(Header(s[0] % 16, 4 + mask, FromBig(s[2..4])))
      else if short == 127 then if |s| < 10 then None else Some(Header(s[0] % 16, 10 + mask, FromBig(s[2..10])))
      else Some(Header(s[0] % 16, 2 + mask, short))
  }

  /** How a read ends. `Oversized` marks a header whose size and length add up to 2^64 or more, `Threw` an exception,
      `WriteFailed` a pong that could not be sent, and `Running` a loop that has not ended yet. */
  datatype Kind = Message | Starved | PeerClosed | Oversized | Threw | WriteFailed | Running

  /** How a read ends: its payload if it is a message, the bytes it leaves, and the pings it answered. */
  datatype Outcome = Outcome(kind: Kind, payload: seq<byte>, rest: seq<byte>, pings: seq<seq<byte>>)

  /** The first data message of a byte stream, past the control and other frames before it. */
  function Next(s: seq<byte>): Outcome {
    match HeaderOf(s)
    case None => Outcome(Starved, [], s, [])
    case Some(h) =>
      if h.Total() >= TWO64 then Outcome(Oversized, [], s, [])
      else if |s| < h.Total() then Outcome(Starved, [], s, [])
      else
        HeaderTakesSpace(s);
        var payload, rest := s[h.size..h.Total()], s[h.Total()..];
        if h.opcode == OP_TEXT || h.opcode == OP_BINARY then Outcome(Message, payload, rest, [])
        else if h.opcode == OP_CLOSE then Outcome(PeerClosed, [], rest, [])
        else if h.opcode == OP_PING then Before([payload], Next(rest))
        else Next(rest)
  }

  function Before(pings: seq<seq<byte>>, o: Outcome): Outcome { o.(pings := pings + o.pings) }

  lemma HeaderTakesSpace(s: seq<byte>)
    ensures HeaderOf(s).Some? ==> HeaderOf(s).value.size >= 2
  {
  }

  /** The header byte by byte: the low half of the first byte is the opcode, the top bit of the second says whether a
      four-byte key follows, and the rest of it is the length, or announces a length of two or of eight bytes. */
  lemma HeaderBytes(s: seq<byte>)
    requires |s| >= 2
    ensures var n, key := s[1] % 128, if s[1] >= 128 then 4 else 0;
            && (n < 126 ==> HeaderOf(s) == Some(Header(s[0] % 16, 2 + key, n)))
            && (n == 126 && |s| >= 4 ==>
                  HeaderOf(s) == Some(Header(s[0] % 16, 4 + key, 256 * s[2] as nat + s[3] as nat)))
            && (n == 127 && |s| >= 10 ==>
                  HeaderOf(s) == Some(Header(s[0] % 16, 10 + key,
                                             4294967296 * BigFour(s[2..6]) + BigFour(s[6..10]))))
            && ((n == 126 && |s| < 4) || (n == 127 && |s| < 10) ==> HeaderOf(s) == None)
  {
    hide FromBig;
    if |s| >= 4 { TwoBytes(s[2..4]); }
    if |s| >= 10 {
      FromBigEight(s[2..10]);
      assert s[2..10][..4] == s[2..6] && s[2..10][4..] == s[6..10];
    }
  }

  /** Only the first ten bytes of a stream decide its header. */
  lemma HeaderPrefix(s: seq<byte>, t: seq<byte>)
    requires HeaderOf(s).Some?
    ensures HeaderOf(s + t) == HeaderOf(s)
  {
    if |s| >= 4 { assert (s + t)[2..4] == s[2..4]; }
    if |s| >= 10 { assert (s + t)[2..10] == s[2..10]; }
  }

  /** What successive reads of the connection return, up to the first that fails. */
  function Stream(incoming: seq<seq<byte>>): seq<byte> {
    if incoming == [] || incoming[0] == [] then [] else incoming[0] + Stream(incoming[1..])
  }

  /** Reads that all return something deliver exactly those bytes, and nothing behind a read that fails. */
  lemma {:induction false} StreamIs(pieces: seq<seq<byte>>, more: seq<seq<byte>>)
    requires forall i :: 0 <= i < |pieces| ==> pieces[i] != []
    requires more == [] || more[0] == []
    ensures Stream(pieces + more) == Concat(pieces)
    decreases |pieces|
  {
    if pieces == [] {
      assert pieces + more == more;
    } else {
      assert (pieces + more)[0] == pieces[0] && (pieces + more)[1..] == pieces[1..] + more;
      StreamIs(pieces[1..], more);
    }
  }

  // ----- Frames as a server sends them -----

  datatype LengthForm = Short | Medium | Long

  /** An unmasked frame; the upper half of its first byte, FIN and reserved bits, is free. */
  datatype ServerFrame = ServerFrame(first: byte, form: LengthForm, payload: seq<byte>) {
    function Opcode(): nat { first % 16 }
  }

  predicate Sendable(f: ServerFrame) {
    match f.form
    case Short => |f.payload| < 126
    case Medium => |f.payload| < 0x1_0000
    case Long => |f.payload| + 10 < TWO64
  }

  /** Section 5.2 of RFC 6455. */
  function Encode(f: ServerFrame): seq<byte>
    requires Sendable(f)
  {
    var n := |f.payload|;
    match f.form
    case Short => [f.first, n] + f.payload
    case Medium => [f.first, 126] + BigEndian(n, 2) + f.payload
    case Long => [f.first, 127] + BigEndian(n, 8) + f.payload
  }

  lemma HeaderEncoded(f: ServerFrame, more: seq<byte>)
    requires Sendable(f)
    ensures var h := HeaderOf(Encode(f) + more);
            && h.Some? && h.value.opcode == f.Opcode() && h.value.len == |f.payload| && h.value.Total() < TWO64
            && |Encode(f)| == h.value.Total() && Encode(f)[h.value.size..] == f.payload
  {
    hide BigEndian, FromBig;
    var s, n := Encode(f) + more, |f.payload|;
    Widths();
    match f.form
    case Short =>
    case Medium =>
      BigRoundTrip(n, 2);
      assert s[2..4] == BigEndian(n, 2);
    case Long =>
      BigRoundTrip(n, 8);
      assert s[2..10] == BigEndian(n, 8);
  }

  /** Reading a stream that starts with a frame deals with that frame and goes on with the rest. */
  lemma NextEncoded(f: ServerFrame, more: seq<byte>)
    requires Sendable(f)
    ensures Next(Encode(f) + more) ==
            if f.first % 16 == 1 || f.first % 16 == 2 then Outcome(Message, f.payload, more, [])
            else if f.first % 16 == 8 then Outcome(PeerClosed, [], more, [])
            else if f.first % 16 == 9 then Before([f.payload], Next(more))
            else Next(more)
  {
    hide Encode, HeaderOf;
    HeaderEncoded(f, more);
    var s := Encode(f) + more;
    var h := HeaderOf(s).value;
    assert s[h.size..h.Total()] == f.payload && s[h.Total()..] == more;
  }

  // ----- Whole sessions -----

  /** All messages until the connection has no more, with every ping answered on the way. */
  datatype Session = Session(messages: seq<seq<byte>>, pings: seq<seq<byte>>, last: Kind, rest: seq<byte>)

  lemma {:induction false} NextLeavesLess(s: seq<byte>)
    ensures |Next(s).rest| <= |s|
    ensures Next(s).kind == Message ==> |Next(s).rest| < |s|
    decreases |s|
  {
    hide HeaderOf;
    HeaderTakesSpace(s);
    if HeaderOf(s).Some? {
      var h := HeaderOf(s).value;
      if h.Total() < TWO64 && h.Total() <= |s| { NextLeavesLess(s[h.Total()..]); }
    }
  }

  function SessionOf(s: seq<byte>): Session
    decreases |s|
  {
    NextLeavesLess(s);
    var o := Next(s);
    if o.kind != Message then Session([], o.pings, o.kind, o.rest)
    else
      var r := SessionOf(o.rest);
      Session([o.payload] + r.messages, o.pings + r.pings, r.last, r.rest)
  }

  function EncodeAll(fs: seq<ServerFrame>): seq<byte>
    requires forall f :: f in fs ==> Sendable(f)
  {
    if fs == [] then [] else Encode(fs[0]) + EncodeAll(fs[1..])
  }

  /** The session a list of frames stands for, `tail` being what follows the last. */
  function Meaning(fs: seq<ServerFrame>, tail: seq<byte>): Session
    requires forall f :: f in fs ==> Sendable(f)
  {
    if fs == [] then Session([], [], Starved, tail)
    else
      var f := fs[0];
      if f.first % 16 == 8 then Session([], [], PeerClosed, EncodeAll(fs[1..]) + tail)
      else
        var r := Meaning(fs[1..], tail);
        if f.first % 16 == 1 || f.first % 16 == 2 then r.(messages := [f.payload] + r.messages)
        else if f.first % 16 == 9 then r.(pings := [f.payload] + r.pings)
        else r
  }

  lemma SessionBefore(pings: seq<seq<byte>>, s: seq<byte>, t: seq<byte>)
    requires Next(s) == Before(pings, Next(t))
    ensures SessionOf(s) == SessionOf(t).(pings := pings + SessionOf(t).pings)
  {
    hide Next;
    var o := Next(t);
    if o.kind == Message {
      assert pings + o.pings + SessionOf(o.rest).pings == pings + (o.pings + SessionOf(o.rest).pings);
    }
  }

  /** Reading until the stream runs dry yields exactly the payloads of the text and binary frames in order, answers
      exactly the pings, stops at a close frame and retains exactly the incomplete tail. */
  lemma {:induction false} ReadsWhatWasSent(fs: seq<ServerFrame>, tail: seq<byte>)
    requires forall f :: f in fs ==> Sendable(f)
    requires Next(tail) == Outcome(Starved, [], tail, [])
    ensures SessionOf(EncodeAll(fs) + tail) == Meaning(fs, tail)
    decreases |fs|
  {
    hide Next, Encode;
    if fs == [] {
      assert EncodeAll(fs) + tail == tail;
    } else {
      var f, more := fs[0], EncodeAll(fs[1..]) + tail;
      assert EncodeAll(fs) + tail == Encode(f) + more;
      NextEncoded(f, more);
      ReadsWhatWasSent(fs[1..], tail);
      if f.Opcode() == OP_PING {
        SessionBefore([f.payload], EncodeAll(fs) + tail, more);
      } else if f.Opcode() != OP_TEXT && f.Opcode() != OP_BINARY && f.Opcode() != OP_CLOSE {
        SessionBefore([], EncodeAll(fs) + tail, more);
      } else {
        assert [] + Meaning(fs[1..], tail).pings == Meaning(fs[1..], tail).pings;
      }
    }
  }

  // ----- Frames as the client sends them -----

  function Masked(p: seq<byte>, key: seq<byte>): (r: seq<byte>)
    requires |key| == 4
    ensures |r| == |p|
    ensures forall i :: 0 <= i < |p| ==> r[i] == XorByte(p[i], key[i % 4])
  {
    if p == [] then [] else Masked(p[..|p| - 1], key) + [XorByte(p[|p| - 1], key[(|p| - 1) % 4])]
  }

  /** The payload a server recovers from behind the header of frame f: each byte exclusive-ored with its byte of the
      key, the four bytes in front of the payload taken in turn (section 5.3 of RFC 6455). */
  ghost predicate Unmasks(f: seq<byte>, size: nat, payload: seq<byte>) {
    && 4 <= size <= |f| && |payload| == |f| - size
    && forall i :: 0 <= i < |payload| ==> payload[i] == ByteXor(f[size + i], f[size - 4 + i % 4])
  }

  /** A server's reading of one client frame: final, masked, and unmasked with the key that follows the length. */
  ghost predicate ServerReads(f: seq<byte>, opcode: nat, payload: seq<byte>) {
    && |f| >= 2 && f[0] == 128 + opcode && f[1] >= 128
    && HeaderOf(f).Some? && HeaderOf(f).value.len == |payload| && Unmasks(f, HeaderOf(f).value.size, payload)
  }

  lemma MaskUndone(a: byte, b: byte)
    ensures ByteXor(XorByte(a, b), b) == a
  {
    hide XorByte, ByteXor;
    XorByteIs(XorByte(a, b), b);
    XorByteTwice(a, b);
  }

  /** The bytes after the first one that give the length, with the mask bit set. */
  function LengthField(n: nat): seq<byte>
    requires n < TWO64
  {
    if n < 126 then [128 + n] else if n <= 0xFFFF then [254] + BigEndian(n, 2) else [255] + BigEndian(n, 8)
  }

  function ClientFrame(opcode: nat, payload: seq<byte>, key: seq<byte>): seq<byte>
    requires opcode < 16 && |key| == 4 && |payload| < TWO64
  {
    [128 + opcode] + LengthField(|payload|) + key + Masked(payload, key)
  }

  lemma FrameHeader(opcode: nat, n: nat, more: seq<byte>)
    requires opcode < 16 && n < TWO64
    ensures HeaderOf([128 + opcode] + LengthField(n) + more) == Some(Header(opcode, 5 + |LengthField(n)|, n))
  {
    hide BigEndian, FromBig;
    var s := [128 + opcode] + LengthField(n) + more;
    Widths();
    if n < 126 {
    } else if n <= 0xFFFF {
      BigRoundTrip(n, 2);
      assert s[2..4] == BigEndian(n, 2);
    } else {
      BigRoundTrip(n, 8);
      assert s[2..10] == BigEndian(n, 8);
    }
  }

  /** Whatever the key, the server recovers opcode and payload. */
  lemma ServerReadsClientFrame(opcode: nat, payload: seq<byte>, key: seq<byte>)
    requires opcode < 16 && |key| == 4 && |payload| < TWO64
    ensures ServerReads(ClientFrame(opcode, payload, key), opcode, payload)
  {
    hide HeaderOf, Masked, LengthField, Unmasks;
    var field, m := LengthField(|payload|), Masked(payload, key);
    var f := ClientFrame(opcode, payload, key);
    FieldStart(|payload|);
    FrameParts(128 + opcode, field, key, m);
    FrameHeader(opcode, |payload|, key + m);
    FrameUnmasks(f, 5 + |field|, key, payload);
  }

  lemma FrameUnmasks(f: seq<byte>, k: nat, key: seq<byte>, payload: seq<byte>)
    requires |key| == 4 && 4 <= k <= |f| && f[k - 4..k] == key && f[k..] == Masked(payload, key)
    ensures Unmasks(f, k, payload)
  {
    hide Masked, XorByte, ByteXor;
    var m := Masked(payload, key);
    forall i | 0 <= i < |payload| ensures payload[i] == ByteXor(f[k + i], f[k - 4 + i % 4]) {
      var j := i % 4;
      assert f[k + i] == m[i] && f[k - 4 + j] == key[j];
      MaskUndone(payload[i], key[j]);
    }
  }

  lemma FieldStart(n: nat)
    requires n < TWO64
    ensures |LengthField(n)| >= 1 && LengthField(n)[0] >= 128
  {
    hide BigEndian;
  }

  lemma FrameParts(first: byte, field: seq<byte>, key: seq<byte>, m: seq<byte>)
    requires |field| >= 1 && |key| == 4
    ensures var f, k := [first] + field + key + m, 5 + |field|;
            && f == [first] + field + (key + m) && |f| == k + |m| && f[0] == first && f[1] == field[0]
            && f[k - 4..k] == key && f[k..] == m
  {
  }

  /** The length, most significant byte first. */
  method LengthBytes(len: nat) returns (f: seq<byte>)
    ensures f == BigEndian(len, 8)
  {
    hide BigEndian, Shift;
    f := [];
    var i := 8;
    BigEndianStep(Shift(len, 8), 0);
    while i > 0
      invariant i <= 8 && f == BigEndian(Shift(len, i), 8 - i)
    {
      i := i - 1;
      BigEndianStep(Shift(len, i), 8 - i);
      ShiftStep(len, i);
      f := f + [Shift(len, i) % 256];
    }
    ShiftStep(len, 0);
  }

  lemma BigEndianStep(n: nat, w: nat)
    ensures BigEndian(n, w) == if w == 0 then [] else BigEndian(n / 256, w - 1) + [n % 256]
  {
  }

  lemma ShiftStep(n: nat, k: nat)
    ensures Shift(n, 0) == n && Shift(n, k + 1) == Shift(n, k) / 256
  {
  }

  /** The length in its shortest form, with the mask bit set. */
  method FieldBytes(len: nat) returns (f: seq<byte>)
    requires len < TWO64
    ensures f == LengthField(len) && f != []
    ensures len < 126 ==> |f| == 1 && f[0] == 128 + len
    ensures 126 <= len < 65536 ==> |f| == 3 && f[0] == 254
    ensures len >= 65536 ==> |f| == 9 && f[0] == 255
  {
    hide BigEndian;
    if len < 126 {
      f := [128 + len];
    } else if len <= 0xFFFF {
      f := [254] + [len / 256 % 256] + [len % 256];
      BigEndianStep(len, 2);
      BigEndianStep(len / 256, 1);
      BigEndianStep(len / 256 / 256, 0);
    } else {
      var field := LengthBytes(len);
      f := [255] + field;
    }
  }

  /** The payload, each byte exclusive-ored with its byte of the key. */
  method MaskBytes(payload: seq<byte>, key: seq<byte>) returns (masked: seq<byte>)
    requires |key| == 4
    ensures masked == Masked(payload, key)
  {
    hide XorByte;
    masked := [];
    for i := 0 to |payload|
      invariant masked == Masked(payload[..i], key)
    {
      assert payload[..i + 1][..i] == payload[..i];
      masked := masked + [XorByte(payload[i], key[i % 4])];
    }
    assert payload[..|payload|] == payload;
  }

  /** The frame bytes `send_frame` writes. */
  method FrameBytes(opcode: nat, payload: seq<byte>, key: seq<byte>) returns (f: seq<byte>)
    requires opcode < 16 && |key| == 4 && |payload| < TWO64
    ensures f == ClientFrame(opcode, payload, key) && |f| >= 2 && f[0] == 128 + opcode
    ensures |payload| < 126 ==> |f| == 6 + |payload| && f[1] == 128 + |payload|
    ensures 126 <= |payload| < 65536 ==> |f| == 8 + |payload| && f[1] == 254
    ensures |payload| >= 65536 ==> |f| == 14 + |payload| && f[1] == 255
  {
    hide XorByte, LengthField, Masked;
    f := [128 + opcode];
    var field := FieldBytes(|payload|);
    f := f + field;
    f := f + key;
    var masked := MaskBytes(payload, key);
    f := f + masked;
  }

  // ----- One turn of the read loop, as written -----

  /** What is buffered; what the coming reads of the connection return, an empty one being a failure; and how many more
      writes will succeed. */
  datatype Wire = Wire(rx: seq<byte>, incoming: seq<seq<byte>>, writes: nat) {
    /** Every byte still to be consumed. */
    function Bytes(): seq<byte> { rx + Stream(incoming) }
  }

  /** `read_exact(n)`: append what arrives until n bytes are buffered or a read fails. */
  function Filled(w: Wire, n: nat): Wire
    decreases |w.incoming|
  {
    if n <= |w.rx| || w.incoming == [] || w.incoming[0] == [] then w
    else Filled(w.(rx := w.rx + w.incoming[0], incoming := w.incoming[1..]), n)
  }

  /** Filling loses no byte, and succeeds just when the connection still has n of them. */
  lemma {:induction false} FilledFacts(w: Wire, n: nat)
    ensures Filled(w, n).Bytes() == w.Bytes() && w.rx <= Filled(w, n).rx && Filled(w, n).writes == w.writes
    ensures n <= |Filled(w, n).rx| <==> n <= |w.Bytes()|
    ensures n <= |w.rx| ==> Filled(w, n) == w
    decreases |w.incoming|
  {
    if !(n <= |w.rx| || w.incoming == [] || w.incoming[0] == []) {
      var w' := w.(rx := w.rx + w.incoming[0], incoming := w.incoming[1..]);
      assert w'.Bytes() == w.Bytes();
      FilledFacts(w', n);
    }
  }

  /** The buffer once the header has been read. */
  function HeaderRead(w: Wire): Wire {
    var w2 := Filled(w, 2);
    if |w2.rx| < 2 then w2
    else if w2.rx[1] % 128 == 126 then Filled(w2, 4)
    else if w2.rx[1] % 128 == 127 then Filled(w2, 10)
    else w2
  }

  lemma HeaderReadFacts(w: Wire)
    ensures HeaderRead(w).Bytes() == w.Bytes() && w.rx <= HeaderRead(w).rx && HeaderRead(w).writes == w.writes
    ensures HeaderOf(HeaderRead(w).rx) == HeaderOf(w.Bytes())
    ensures HeaderOf(w.rx).Some? ==> HeaderRead(w) == w
  {
    hide Filled, Stream, FromBig;
    var w1 := HeaderRead(w);
    FilledFacts(w, 2);
    FilledFacts(Filled(w, 2), 4);
    FilledFacts(Filled(w, 2), 10);
    if HeaderOf(w1.rx).Some? { HeaderPrefix(w1.rx, Stream(w1.incoming)); }
  }

  /** How a turn ends: no more bytes, an exception, or a frame. */
  datatype End = Starve | Throw | Frame(opcode: nat, payload: seq<byte>)

  datatype Turned = Turned(end: End, wire: Wire)

  /** The body of the loop: header size and length are added modulo 2^64, `substr` clips its length to the buffer and
      throws when it would start behind the buffer's end, `erase` removes the wrapped sum. */
  function Turn(w: Wire): Turned {
    var w1 := HeaderRead(w);
    match HeaderOf(w1.rx)
    case None => Turned(Starve, w1)
    case Some(h) =>
      var need := h.Total() % TWO64;
      var w2 := Filled(w1, need);
      if |w2.rx| < need then Turned(Starve, w2)
      else if |w2.rx| < h.size then Turned(Throw, w2)
      else Turned(Frame(h.opcode, w2.rx[h.size..Min(h.Total(), |w2.rx|)]), w2.(rx := w2.rx[need..]))
  }

  /** The turn that section 5.2 of RFC 6455 asks for, on all bytes to come: how it ends, and what it leaves. */
  function FrameTurn(s: seq<byte>): (End, seq<byte>) {
    match HeaderOf(s)
    case None => (Starve, s)
    case Some(h) =>
      if |s| < h.Total() then (Starve, s) else (Frame(h.opcode, s[h.size..h.Total()]), s[h.Total()..])
  }

  ghost predicate Agrees(w: Wire) {
    Turn(w).end == FrameTurn(w.Bytes()).0 && Turn(w).wire.Bytes() == FrameTurn(w.Bytes()).1
  }

  /** The sum is below 2^65, so wrapping it takes away 2^64 at most; what is then left falls inside the header. */
  lemma WrappedExtent(s: seq<byte>)
    requires HeaderOf(s).Some?
    ensures var h := HeaderOf(s).value;
            && 2 <= h.size <= |s| + 4 && h.size <= 14
            && h.Total() % TWO64 == (if h.Total() < TWO64 then h.Total() else h.Total() - TWO64)
            && (h.Total() >= TWO64 ==> h.size >= 10 && h.Total() % TWO64 < h.size)
  {
    hide FromBig;
    Widths();
    if s[1] % 128 == 126 { BigBound(s[2..4]); }
    if s[1] % 128 == 127 { BigBound(s[2..10]); }
  }

  lemma TurnOfNothing(w: Wire)
    requires HeaderOf(w.Bytes()).None?
    ensures Turn(w) == Turned(Starve, HeaderRead(w)) && Turn(w).wire.Bytes() == w.Bytes() && Agrees(w)
    ensures Turn(w).wire.writes == w.writes
  {
    hide HeaderOf, HeaderRead, Filled, Stream;
    HeaderReadFacts(w);
  }

  /** A turn as written, given its header, in terms of all bytes to come. */
  lemma TurnFacts(w: Wire, h: Header)
    requires HeaderOf(w.Bytes()) == Some(h)
    ensures var need, s, t := h.Total() % TWO64, w.Bytes(), Turn(w);
            && (t.end.Starve? <==> |s| < need) && t.wire.writes == w.writes
            && (t.end.Frame? ==> t.end.opcode == h.opcode && t.wire.Bytes() == s[need..])
            && (!t.end.Frame? ==> t.wire.Bytes() == s)
            && (h.Total() < TWO64 && h.Total() <= |s| ==> t.end == Frame(h.opcode, s[h.size..h.Total()]))
  {
    hide HeaderOf, HeaderRead, Filled, Stream;
    HeaderReadFacts(w);
    WrappedExtent(w.Bytes());
    var w1 := HeaderRead(w);
    FilledFacts(w1, h.Total() % TWO64);
  }

  /** A turn does what the frame asks for if and only if header size and length add up to less than 2^64, or the
      connection ends before even the wrapped sum is there. */
  lemma TurnAgreesIff(w: Wire, h: Header)
    requires HeaderOf(w.Bytes()) == Some(h)
    ensures Agrees(w) <==> h.Total() < TWO64 || |w.Bytes()| < h.Total() - TWO64
  {
    hide HeaderOf, Turn;
    TurnFacts(w, h);
    WrappedExtent(w.Bytes());
    var s, need := w.Bytes(), h.Total() % TWO64;
    if h.Total() >= TWO64 && need <= |s| && h.Total() <= |s| { assert |s[need..]| != |s[h.Total()..]|; }
  }

  /** A turn throws only at a masked header whose sum reached 2^64. */
  lemma ThrowsOnlyOversized(w: Wire)
    requires Turn(w).end.Throw?
    ensures HeaderOf(w.Bytes()).Some? && HeaderOf(w.Bytes()).value.Total() >= TWO64 && w.Bytes()[1] >= 128
  {
    hide Filled, Stream, FromBig, HeaderRead;
    HeaderReadFacts(w);
    var w1 := HeaderRead(w);
    var h := HeaderOf(w1.rx).value;
    WrappedExtent(w1.rx);
    FilledFacts(w1, h.Total() % TWO64);
    assert w1.rx <= w.Bytes();
  }

  /** And it does: such a header, buffered without its key, throws when the wrapped sum is no more than the buffer
      holds; with the key's four bytes buffered too it does not. */
  lemma MaskedHeaderThrows(rx: seq<byte>, key: seq<byte>, incoming: seq<seq<byte>>, writes: nat, h: Header)
    requires |rx| == 10 && |key| == 4 && HeaderOf(rx) == Some(h) && rx[1] >= 128 && TWO64 <= h.Total() <= TWO64 + 10
    ensures Turn(Wire(rx, incoming, writes)).end == Throw && Turn(Wire(rx + key, incoming, writes)).end.Frame?
  {
    hide Stream;
    WrappedExtent(rx);
    HeaderReadFacts(Wire(rx, incoming, writes));
    HeaderPrefix(rx, key);
    HeaderReadFacts(Wire(rx + key, incoming, writes));
    hide HeaderRead, FromBig;
    LongHeader(rx, h);
  }

  /** A sum of 2^64 needs the longest length form. */
  lemma LongHeader(rx: seq<byte>, h: Header)
    requires HeaderOf(rx) == Some(h) && h.Total() >= TWO64
    ensures |rx| >= 10 && h.size == if rx[1] >= 128 then 14 else 10
  {
    hide FromBig;
    Widths();
    if |rx| >= 4 && rx[1] % 128 == 126 { BigBound(rx[2..4]); }
  }

  // ----- The loop, as written -----

  /** What a read comes to, and the state it leaves. */
  datatype Read = Read(kind: Kind, payload: seq<byte>, wire: Wire, pings: seq<seq<byte>>)

  /** The first n turns of the loop, which ends at a data message, a close frame, a failed read or write, or an
      exception. */
  function AsWritten(w: Wire, n: nat): Read
    decreases n
  {
    if n == 0 then Read(Running, [], w, [])
    else
      var t := Turn(w);
      match t.end
      case Starve => Read(Starved, [], t.wire, [])
      case Throw => Read(Threw, [], t.wire, [])
      case Frame(opcode, payload) =>
        if opcode == OP_TEXT || opcode == OP_BINARY then Read(Message, payload, t.wire, [])
        else if opcode == OP_CLOSE then Read(PeerClosed, [], t.wire, [])
        else if opcode != OP_PING then AsWritten(t.wire, n - 1)
        else if t.wire.writes == 0 then Read(WriteFailed, [], t.wire, [])
        else Answered([payload], AsWritten(t.wire.(writes := t.wire.writes - 1), n - 1))
  }

  function Answered(pings: seq<seq<byte>>, r: Read): Read { r.(pings := pings + r.pings) }

  /** While no header reaches 2^64 the loop ends. If enough writes succeed it computes what the bytes to come ask for,
      and neither outcome nor answers depend on how they arrive; otherwise it ends at the first pong that cannot be
      sent. */
  lemma {:induction false} AsWrittenIsNext(w: Wire, n: nat)
    requires Next(w.Bytes()).kind != Oversized && |w.Bytes()| < n
    ensures var r, o := AsWritten(w, n), Next(w.Bytes());
            if |o.pings| <= w.writes then
              r.kind == o.kind && r.payload == o.payload && r.wire.Bytes() == o.rest && r.pings == o.pings
              && r.wire.writes == w.writes - |o.pings|
            else r.kind == WriteFailed && r.pings == o.pings[..w.writes]
    decreases n
  {
    hide HeaderOf, Next, Turn;
    hide Wire.Bytes;
    var s := w.Bytes();
    NextStep(s);
    if HeaderOf(s).None? {
      TurnOfNothing(w);
    } else {
      var h := HeaderOf(s).value;
      TurnFacts(w, h);
      SmallSum(h.Total());
      var w' := Turn(w).wire;
      if h.Total() <= |s| && !(h.opcode == OP_TEXT || h.opcode == OP_BINARY || h.opcode == OP_CLOSE) {
        if h.opcode != OP_PING {
          AsWrittenIsNext(w', n - 1);
        } else if w'.writes > 0 {
          var left := w'.(writes := w'.writes - 1);
          SameBytes(w', w'.writes - 1);
          AsWrittenIsNext(left, n - 1);
        }
      }
    }
  }

  lemma SameBytes(w: Wire, writes: nat)
    ensures w.(writes := writes).Bytes() == w.Bytes()
  {
  }

  lemma SmallSum(x: nat)
    ensures x < TWO64 ==> x % TWO64 == x
  {
  }

  /** A frame whose sum is exactly 2^64 is never consumed. If it is a ping, then after n turns, for every n for which
      the writes succeed, the loop is still running, the buffer is as it was and n pongs have been sent; nothing but a
      failed write ends it. */
  lemma {:induction false} RunsForEver(w: Wire, h: Header, n: nat)
    requires HeaderOf(w.rx) == Some(h) && h.Total() == TWO64 && h.size <= |w.rx| <= TWO64 && h.opcode == OP_PING
    ensures n <= w.writes ==>
              AsWritten(w, n) == Read(Running, [], w.(writes := w.writes - n), Repeat(w.rx[h.size..], n))
    ensures n > w.writes ==>
              AsWritten(w, n) == Read(WriteFailed, [], w.(writes := 0), Repeat(w.rx[h.size..], w.writes))
    decreases n
  {
    hide HeaderOf, Turn;
    if n > 0 {
      OneStall(w, h);
      if w.writes > 0 { RunsForEver(w.(writes := w.writes - 1), h, n - 1); }
    }
  }

  function Repeat(p: seq<byte>, n: nat): (r: seq<seq<byte>>)
    ensures |r| == n && forall i :: 0 <= i < n ==> r[i] == p
  {
    if n == 0 then [] else [p] + Repeat(p, n - 1)
  }

  lemma OneStall(w: Wire, h: Header)
    requires HeaderOf(w.rx) == Some(h) && h.Total() == TWO64 && h.size <= |w.rx| <= TWO64
    ensures Turn(w) == Turned(Frame(h.opcode, w.rx[h.size..]), w)
  {
    hide HeaderOf, HeaderRead, Filled, Stream;
    HeaderReadFacts(w);
    FilledFacts(w, 0);
    ClippedPayload(w.rx, h);
  }

  /** What `substr` takes when the length runs past the end of a buffer below 2^64 bytes. */
  lemma ClippedPayload(rx: seq<byte>, h: Header)
    requires h.size <= |rx|
    ensures |rx| <= h.Total() ==> rx[h.size..Min(h.Total(), |rx|)] == rx[h.size..] && rx[0..] == rx
  {
  }

  /** A ten-byte ping header with that sum: behind it, whatever is buffered goes out as a pong on every turn. */
  const STALLING: seq<byte> := [0x89, 0x7F, 255, 255, 255, 255, 255, 255, 255, 246]

  lemma StallingHeader(more: seq<byte>)
    ensures HeaderOf(STALLING + more) == Some(Header(OP_PING, 10, TWO64 - 10))
  {
    hide BigEndian, FromBig;
    var n := 0xFFFF_FFFF_FFFF_FFF6;
    StallingLength();
    Widths();
    BigRoundTrip(n, 8);
    HeaderPrefix(STALLING, more);
  }

  lemma StallingRead(more: seq<byte>, incoming: seq<seq<byte>>, writes: nat, n: nat)
    requires |more| + 10 <= TWO64 && n <= writes
    ensures AsWritten(Wire(STALLING + more, incoming, writes), n) ==
            Read(Running, [], Wire(STALLING + more, incoming, writes - n), Repeat(more, n))
  {
    hide HeaderOf, AsWritten;
    StallingHeader(more);
    var w, h := Wire(STALLING + more, incoming, writes), Header(OP_PING, 10, TWO64 - 10);
    RunsForEver(w, h, n);
    assert (STALLING + more)[10..] == more;
  }

  lemma StallingLength()
    ensures STALLING[2..10] == BigEndian(0xFFFF_FFFF_FFFF_FFF6, 8)
  {
  }

  /** Repeated reads, at most k of them, each of at most n turns. */
  datatype Reads = Reads(messages: seq<seq<byte>>, pings: seq<seq<byte>>, last: Kind, wire: Wire)

  function AllAsWritten(w: Wire, n: nat, k: nat): Reads
    decreases k
  {
    if k == 0 then Reads([], [], Running, w)
    else
      var r := AsWritten(w, n);
      if r.kind != Message then Reads([], r.pings, r.kind, r.wire)
      else
        var more := AllAsWritten(r.wire, n, k - 1);
        Reads([r.payload] + more.messages, r.pings + more.pings, more.last, more.wire)
  }

  /** While no header reaches 2^64 and writes succeed, repeated reads give the session of the byte stream. */
  lemma {:induction false} AllAsWrittenIsSession(w: Wire, n: nat, k: nat)
    requires var s := SessionOf(w.Bytes()); s.last != Oversized && |s.pings| <= w.writes
    requires |w.Bytes()| < n && |w.Bytes()| < k
    ensures var r, s := AllAsWritten(w, n, k), SessionOf(w.Bytes());
            r.messages == s.messages && r.pings == s.pings && r.last == s.last && r.wire.Bytes() == s.rest
    decreases k
  {
    hide Next, AsWritten;
    hide Wire.Bytes;
    NextLeavesLess(w.Bytes());
    AsWrittenIsNext(w, n);
    if Next(w.Bytes()).kind == Message { AllAsWrittenIsSession(AsWritten(w, n).wire, n, k - 1); }
  }

  // ----- The connection -----

  class AlpacaWebSocket {
    /** Bytes read and not yet consumed. */
    var rx: seq<byte>
    /** What the coming reads of the connection return; an empty one is a failure. */
    var incoming: seq<seq<byte>>
    /** How many more writes will succeed. */
    var writes: nat
    /** Frames written. */
    var sent: seq<seq<byte>>

    constructor (incoming: seq<seq<byte>>, writes: nat)
      ensures Now() == Wire([], incoming, writes) && sent == []
    {
      rx, this.incoming, this.writes, sent := [], incoming, writes, [];
    }

    ghost function Now(): Wire
      reads this`rx, this`incoming, this`writes
    {
      Wire(rx, incoming, writes)
    }

    /** Every byte still to be consumed, buffered or not. */
    ghost function Bytes(): seq<byte>
      reads this`rx, this`incoming, this`writes
    {
      Now().Bytes()
    }

    /** `read_exact`: buffer n bytes, which succeeds just when the connection still has them. */
    method ReadExact(n: nat) returns (ok: bool)
      modifies this`rx, this`incoming
      ensures Now() == Filled(old(Now()), n)
      ensures Bytes() == old(Bytes()) && (ok <==> n <= |Bytes()|) && (ok <==> n <= |rx|)
    {
      FilledFacts(Now(), n);
      while |rx| < n
        invariant Filled(Now(), n) == Filled(old(Now()), n)
        decreases |incoming|
      {
        if incoming == [] || incoming[0] == [] { return false; }
        rx, incoming := rx + incoming[0], incoming[1..];
      }
      return true;
    }

    /** `send_frame`, with the four random bytes of the key given. */
    method SendFrame(opcode: nat, payload: seq<byte>, key: seq<byte>) returns (ok: bool)
      requires opcode < 16 && |key| == 4 && |payload| < TWO64
      modifies this`sent, this`writes
      ensures ok <==> old(writes) > 0
      ensures ok ==> |sent| == |old(sent)| + 1 && sent[..|old(sent)|] == old(sent)
      ensures ok ==> ServerReads(sent[|old(sent)|], opcode, payload) && writes == old(writes) - 1
      ensures !ok ==> sent == old(sent) && writes == old(writes)
    {
      var f := FrameBytes(opcode, payload, key);
      if writes == 0 { return false; }
      ServerReadsClientFrame(opcode, payload, key);
      sent, writes := sent + [f], writes - 1;
      return true;
    }

    /** The header of the next frame, read in the two or three pieces its length form needs. */
    method ReadHeader() returns (h: Option<Header>)
      modifies this`rx, this`incoming
      ensures Now() == HeaderRead(old(Now())) && h == HeaderOf(rx) && Bytes() == old(Bytes())
    {
      hide Filled, Stream, FromBig;
      HeaderReadFacts(Now());
      var ok := ReadExact(2);
      if !ok { return None; }
      var opcode: nat, masked, len: nat, size := rx[0] % 16, rx[1] >= 128, rx[1] % 128, 2;
      FilledFacts(Now(), 4);
      FilledFacts(Now(), 10);
      if len == 126 {
        ok := ReadExact(4);
        if !ok { return None; }
        len, size := rx[2] as nat * 256 + rx[3], 4;
        TwoBytes(rx[2..4]);
      } else if len == 127 {
        ok := ReadExact(10);
        if !ok { return None; }
        len := EightBytes(rx[2..10]);
        size := 10;
      }
      if masked { size := size + 4; }
      return Some(Header(opcode, size, len));
    }

    /** One turn of the loop. */
    method ReadTurn() returns (end: End)
      modifies this`rx, this`incoming
      ensures Turned(end, Now()) == Turn(old(Now()))
    {
      hide HeaderOf, HeaderRead, Filled;
      var header := ReadHeader();
      if header.None? { return Starve; }
      var h := header.value;
      var need := (h.size + h.len) % TWO64;
      var ok := ReadExact(need);
      if !ok { return Starve; }
      if |rx| < h.size { return Throw; }
      end := Frame(h.opcode, rx[h.size..Min(h.Total(), |rx|)]);
      rx := rx[need..];
    }

    /** `read_frame`, cut off after `turns` turns of its loop: exactly the loop as written; and with enough turns, while
        no header reaches 2^64, what the bytes still to be consumed ask for, however the connection delivers them. */
    method ReadFrame(turns: nat) returns (kind: Kind, out: seq<byte>)
      modifies this
      ensures var r := AsWritten(old(Now()), turns);
              kind == r.kind && out == r.payload && Now() == r.wire && Ponged(old(sent), sent, r.pings)
      ensures var o := Next(old(Bytes()));
              o.kind != Oversized && |old(Bytes())| < turns && |o.pings| <= old(writes) ==>
                kind == o.kind && out == o.payload && Bytes() == o.rest && Ponged(old(sent), sent, o.pings)
    {
      hide Turn, ServerReads, Ponged, Next, AsWritten, Answered;
      hide Wire.Bytes;
      ghost var start := Now();
      if Next(Bytes()).kind != Oversized && |Bytes()| < turns { AsWrittenIsNext(start, turns); }
      ghost var pings: seq<seq<byte>> := [];
      PongedNone(sent);
      AnsweredNothing(AsWritten(start, turns));
      for n := 0 to turns
        invariant AsWritten(start, turns) == Answered(pings, AsWritten(Now(), turns - n))
        invariant Ponged(old(sent), sent, pings)
      {
        AnsweredStep(pings, Now(), turns - n);
        PayloadFits(Now());
        var end := ReadTurn();
        if end.Starve? { return Starved, []; }
        if end.Throw? { return Threw, []; }
        if end.opcode == OP_TEXT || end.opcode == OP_BINARY { return Message, end.payload; }
        if end.opcode == OP_CLOSE { return PeerClosed, []; }
        if end.opcode == OP_PING {
          var key: seq<byte> := RandomKey();
          ghost var before := sent;
          var ok := SendFrame(OP_PONG, end.payload, key);
          if !ok { return WriteFailed, []; }
          PongedOne(old(sent), before, sent, pings, end.payload);
          pings := pings + [end.payload];
        }
      }
      AnsweredEnd(pings, Now());
      return Running, [];
    }

    /** Reading messages until there are no more, `limit` bounding the reads and the turns of each. */
    method ReadAll(limit: nat) returns (messages: seq<seq<byte>>, last: Kind)
      modifies this
      ensures var r := AllAsWritten(old(Now()), limit, limit);
              messages == r.messages && last == r.last && Now() == r.wire && Ponged(old(sent), sent, r.pings)
      ensures var s := SessionOf(old(Bytes()));
              s.last != Oversized && |old(Bytes())| < limit && |s.pings| <= old(writes) ==>
                messages == s.messages && last == s.last && Bytes() == s.rest && Ponged(old(sent), sent, s.pings)
    {
      hide AsWritten, SessionOf, Next, Ponged;
      hide Wire.Bytes;
      ghost var start, s := Now(), SessionOf(Bytes());
      if s.last != Oversized && |Bytes()| < limit && |s.pings| <= writes { AllAsWrittenIsSession(start, limit, limit); }
      PongedNone(sent);
      ghost var pings: seq<seq<byte>> := [];
      messages := [];
      for k := 0 to limit
        invariant AllAsWritten(start, limit, limit) == Continue(messages, pings, AllAsWritten(Now(), limit, limit - k))
        invariant Ponged(old(sent), sent, pings)
      {
        ContinueStep(messages, pings, Now(), limit, limit - k);
        ghost var r, before := AsWritten(Now(), limit), sent;
        var kind, out := ReadFrame(limit);
        PongedMore(old(sent), before, sent, pings, r.pings);
        pings := pings + r.pings;
        if kind != Message { return messages, kind; }
        messages := messages + [out];
      }
      assert messages + [] == messages && pings + [] == pings;
      return messages, Running;
    }
  }

  lemma AnsweredNothing(r: Read)
    ensures Answered([], r) == r
  {
    assert [] + r.pings == r.pings;
  }

  lemma AnsweredEnd(pings: seq<seq<byte>>, w: Wire)
    ensures Answered(pings, AsWritten(w, 0)) == Read(Running, [], w, pings)
  {
    assert pings + [] == pings;
  }

  /** One turn of the loop, with the pings answered before it. */
  lemma AnsweredStep(pings: seq<seq<byte>>, w: Wire, n: nat)
    requires n > 0
    ensures var t, r := Turn(w), Answered(pings, AsWritten(w, n));
            match t.end
            case Starve => r == Read(Starved, [], t.wire, pings)
            case Throw => r == Read(Threw, [], t.wire, pings)
            case Frame(opcode, payload) =>
              if opcode == OP_TEXT || opcode == OP_BINARY then r == Read(Message, payload, t.wire, pings)
              else if opcode == OP_CLOSE then r == Read(PeerClosed, [], t.wire, pings)
              else if opcode != OP_PING then r == Answered(pings, AsWritten(t.wire, n - 1))
              else if t.wire.writes == 0 then r == Read(WriteFailed, [], t.wire, pings)
              else r == Answered(pings + [payload], AsWritten(t.wire.(writes := t.wire.writes - 1), n - 1))
  {
    hide Turn;
    var t := Turn(w);
    assert pings + [] == pings;
    if t.end.Frame? && t.end.opcode == OP_PING && t.wire.writes > 0 {
      var r := AsWritten(t.wire.(writes := t.wire.writes - 1), n - 1);
      assert pings + ([t.end.payload] + r.pings) == pings + [t.end.payload] + r.pings;
    }
  }

  function Continue(messages: seq<seq<byte>>, pings: seq<seq<byte>>, r: Reads): Reads {
    r.(messages := messages + r.messages, pings := pings + r.pings)
  }

  lemma ContinueStep(messages: seq<seq<byte>>, pings: seq<seq<byte>>, w: Wire, n: nat, k: nat)
    requires k > 0
    ensures var r := AsWritten(w, n); var whole := Continue(messages, pings, AllAsWritten(w, n, k));
            && (r.kind != Message ==> whole == Reads(messages, pings + r.pings, r.kind, r.wire))
            && (r.kind == Message ==>
                  whole == Continue(messages + [r.payload], pings + r.pings, AllAsWritten(r.wire, n, k - 1)))
  {
    hide AsWritten;
    var r := AsWritten(w, n);
    if r.kind == Message {
      var more := AllAsWritten(r.wire, n, k - 1);
      assert messages + ([r.payload] + more.messages) == messages + [r.payload] + more.messages;
      assert pings + (r.pings + more.pings) == pings + r.pings + more.pings;
    } else {
      assert messages + [] == messages;
    }
  }

  /** The shifting loop of the long length form. */
  method EightBytes(s: seq<byte>) returns (len: nat)
    requires |s| == 8
    ensures len == FromBig(s)
  {
    len := 0;
    for i := 0 to 8
      invariant len == FromBig(s[..i])
    {
      assert s[..i + 1][..i] == s[..i];
      len := 256 * len + s[i];
    }
    assert s[..8] == s;
  }

  /** Any four bytes. */
  method RandomKey() returns (key: seq<byte>)
    ensures |key| == 4
  {
    var a: byte, b: byte, c: byte, d: byte := *, *, *, *;
    return [a, b, c, d];
  }

  /** The frames written since `before` are, to a server, one pong for each ping with the same payload. */
  ghost predicate Ponged(before: seq<seq<byte>>, after: seq<seq<byte>>, pings: seq<seq<byte>>) {
    && |after| == |before| + |pings| && after[..|before|] == before
    && forall k :: 0 <= k < |pings| ==> ServerReads(after[|before| + k], 10, pings[k])
  }

  lemma PongedNone(s: seq<seq<byte>>)
    ensures Ponged(s, s, [])
  {
  }

  lemma PongedOne(a: seq<seq<byte>>, b: seq<seq<byte>>, c: seq<seq<byte>>, p: seq<seq<byte>>, payload: seq<byte>)
    requires Ponged(a, b, p)
    requires |c| == |b| + 1 && c[..|b|] == b && ServerReads(c[|b|], 10, payload)
    ensures Ponged(a, c, p + [payload])
  {
    hide ServerReads;
    PongedMore(a, b, c, p, [payload]);
  }

  lemma PongedMore(a: seq<seq<byte>>, b: seq<seq<byte>>, c: seq<seq<byte>>, p: seq<seq<byte>>, q: seq<seq<byte>>)
    requires Ponged(a, b, p) && Ponged(b, c, q)
    ensures Ponged(a, c, p + q)
  {
    hide ServerReads;
    assert c[..|a|] == b[..|a|];
    forall k | 0 <= k < |p + q| ensures ServerReads(c[|a| + k], 10, (p + q)[k]) {
      if k < |p| {
        assert c[|a| + k] == b[|a| + k];
      } else {
        assert ServerReads(c[|b| + (k - |p|)], 10, q[k - |p|]);
      }
    }
  }

  lemma TwoBytes(s: seq<byte>)
    requires |s| == 2
    ensures FromBig(s) == s[0] as nat * 256 + s[1]
  {
    assert FromBig(s[..1]) == s[0];
  }

  /** What a turn hands on is no longer than the length field says. */
  lemma PayloadFits(w: Wire)
    ensures Turn(w).end.Frame? ==> |Turn(w).end.payload| < TWO64 && Turn(w).end.opcode < 16
  {
    hide Filled, Stream, FromBig, HeaderRead;
    var rx := HeaderRead(w).rx;
    Widths();
    if |rx| >= 4 && rx[1] % 128 == 126 { BigBound(rx[2..4]); }
    if |rx| >= 10 && rx[1] % 128 == 127 { BigBound(rx[2..10]); }
  }

  /** One frame of the specification. */
  lemma NextStep(s: seq<byte>)
    ensures HeaderOf(s).None? ==> Next(s) == Outcome(Starved, [], s, [])
    ensures HeaderOf(s).Some? ==>
              var h := HeaderOf(s).value;
              && 2 <= h.size
              && (h.Total() >= TWO64 ==> Next(s) == Outcome(Oversized, [], s, []))
              && (|s| < h.Total() < TWO64 ==> Next(s) == Outcome(Starved, [], s, []))
              && (h.Total() < TWO64 && h.Total() <= |s| ==>
                    var payload, rest := s[h.size..h.Total()], s[h.Total()..];
                    Next(s) == if h.opcode == OP_TEXT || h.opcode == OP_BINARY then Outcome(Message, payload, rest, [])
                               else if h.opcode == OP_CLOSE then Outcome(PeerClosed, [], rest, [])
                               else if h.opcode == OP_PING then Before([payload], Next(rest)) else Next(rest))
  {
    hide HeaderOf;
    HeaderTakesSpace(s);
  }
}
