/** A half-duplex transfer with a smart card: a process writes and reads, an interrupt handler
    moves bytes to and from the serial port, and the line echoes everything that is sent. The
    reading pointer runs ahead over the echo. Interrupts come between any two steps. */
module SmartCard {
  import opened Common
  import opened ByteInvert

  datatype Convention = NoDefined | Invert | Uninvert

  /** Where `sci_read` stands. */
  datatype Reader =
    | Idle
    | Counted(num: nat)
    | Copied(num: nat)
    | Advanced
    | ClearingW
    | ClearingR

  /** Since the last write: bytes pushed to the transmit FIFO, how many of them were echoed, the
      bytes the card sent, what was handed to the process, and how many received bytes were in
      front of the place the pointers were last set back to. */
  datatype History = History(pushed: seq<byte>, echoed: nat, response: seq<byte>, delivered: seq<byte>, dropped: nat)

  /** The control block - where `rxR` and `txR` are ahead of `rxW` and `txW` - with the two FIFOs
      of the port. The message is the part of `write_buf` in front of `tx_rptr`. */
  datatype State = State(
    message: seq<byte>, txW: nat, readBuf: seq<byte>, rxR: nat, rxW: nat,
    mode: nat, convention: Convention, ready: bool,
    tx: seq<byte>, rx: seq<byte>, reader: Reader, hist: History)

  predicate WellFormed(s: State) {
    |s.readBuf| == 1024 && s.txW <= |s.message| <= 1024
  }

  // ---------------------------------------------------------------------------
  // The handler
  // ---------------------------------------------------------------------------

  function Mapped(c: Convention, b: byte): byte {
    if c.Invert? then Inverted(b) else b
  }

  function MappedAll(c: Convention, bs: seq<byte>): (r: seq<byte>)
    ensures |r| == |bs|
  {
    seq(|bs|, i requires 0 <= i < |bs| => Mapped(c, bs[i]))
  }

  /** The first byte of an answer to reset tells the convention. */
  function Detected(c: Convention, ready: bool, b: byte): Convention {
    if !ready && c.NoDefined? then if b == 0x03 then Invert else if b == 0x3B then Uninvert else c else c
  }

  function TakeByte(s: State, b: byte): State
    requires s.rxR < |s.readBuf|
  {
    var c := Detected(s.convention, s.ready, b);
    s.(convention := c, readBuf := s.readBuf[s.rxR := Mapped(c, b)], rxR := s.rxR + 1)
  }

  /** Everything in the receive FIFO goes into the buffer. */
  function Received(s: State): State
    requires s.rxR + |s.rx| <= |s.readBuf|
    decreases |s.rx|
  {
    if s.rx == [] then s else Received(TakeByte(s, s.rx[0]).(rx := s.rx[1..]))
  }

  /** Up to `room` bytes go into the transmit FIFO; the reading pointer moves with them, and
      behind the last one only reception stays enabled. */
  function Filled(s: State, room: nat): State
    requires WellFormed(s)
  {
    var size := if |s.message| - s.txW > room then room else |s.message| - s.txW;
    var out := MappedAll(s.convention, s.message[s.txW..s.txW + size]);
    s.(tx := s.tx + out, txW := s.txW + size, rxW := s.rxW + size,
       mode := if s.txW + size == |s.message| then 1 else s.mode,
       hist := s.hist.(pushed := s.hist.pushed + out))
  }

  predicate Receiving(mode: nat) {
    mode == 1 || mode == 3 || mode == 7
  }

  function Transmitted(s: State): State
    requires WellFormed(s)
  {
    if s.tx == [] && (s.mode == 2 || s.mode == 3 || s.mode == 7) then Filled(s, 16)
    else if |s.tx| <= 8 && s.mode == 7 then Filled(s, 8)
    else s
  }

  function DoIrq(s: State): State
    requires WellFormed(s) && s.rxR + |s.rx| <= 1024
  {
    if s.rx != [] && Receiving(s.mode) then
      ReceivedShape(s);
      Transmitted(Received(s))
    else Transmitted(s)
  }

  lemma {:induction false} ReceivedShape(s: State)
    requires WellFormed(s) && s.rxR + |s.rx| <= 1024
    ensures var t := Received(s);
      && WellFormed(t) && t.rxR == s.rxR + |s.rx| && t.rx == []
      && t == s.(convention := t.convention, readBuf := t.readBuf, rxR := t.rxR, rx := [])
      && t.readBuf[..s.rxR] == s.readBuf[..s.rxR]
    decreases |s.rx|
  {
    if s.rx != [] {
      var u := TakeByte(s, s.rx[0]).(rx := s.rx[1..]);
      ReceivedShape(u);
      hide Received;
      assert u.readBuf[..s.rxR] == s.readBuf[..s.rxR];
      assert Received(u).readBuf[..u.rxR][..s.rxR] == Received(u).readBuf[..s.rxR];
      assert u.readBuf[..u.rxR][..s.rxR] == u.readBuf[..s.rxR];
    }
  }

  // ---------------------------------------------------------------------------
  // Steps
  // ---------------------------------------------------------------------------

  datatype Step =
    | Write(msg: seq<byte>)
    | Irq
    | Echo                    // the line carries a byte, which comes back
    | CardByte(b: byte)       // the card sends a byte
    | ReadStart(length: nat)  // the loop of the read ends, and the bytes are counted
    | ReadCopy | ReadAdvance | ReadTest | ClearW | ClearR

  /** A message, cut to the size of the buffer; both pointers start again. */
  function DoWrite(s: State, msg: seq<byte>): State {
    var m := if |msg| <= 1024 then msg else msg[..1024];
    s.(message := m, txW := 0, rxR := 0, rxW := 0, mode := if |m| <= 16 then 3 else 7, tx := [], rx := [],
       hist := History([], 0, [], [], 0))
  }

  /** What a read of `length` takes: what is there, unless it asks for more than the buffer. */
  function Count(s: State, length: nat): nat
    requires s.rxW <= s.rxR
  {
    if length > 1024 then 1024 else if s.rxR - s.rxW > length then length else s.rxR - s.rxW
  }

  predicate Enabled(s: State, step: Step) {
    match step
    case Write(_) => s.txW == |s.message| && s.reader.Idle?
    case Irq => s.rxR + |s.rx| <= 1024
    case Echo => s.tx != []
    case CardByte(_) => s.txW == |s.message| && s.tx == []
    case ReadStart(_) => s.reader.Idle? && s.rxW < s.rxR && s.mode != 3
    case ReadCopy => s.reader.Counted? && s.rxW + s.reader.num <= |s.readBuf|
    case ReadAdvance => s.reader.Copied?
    case ReadTest => s.reader.Advanced?
    case ClearW => s.reader.ClearingW?
    case ClearR => s.reader.ClearingR?
  }

  function Do(s: State, step: Step): State
    requires WellFormed(s) && Enabled(s, step)
  {
    match step
    case Write(msg) => DoWrite(s, msg)
    case Irq => DoIrq(s)
    case Echo => s.(tx := s.tx[1..], rx := s.rx + [s.tx[0]], hist := s.hist.(echoed := s.hist.echoed + 1))
    case CardByte(b) => s.(rx := s.rx + [b], hist := s.hist.(response := s.hist.response + [b]))
    case ReadStart(length) => s.(reader := Counted(Count(s, length)))
    case ReadCopy =>
      s.(reader := Copied(s.reader.num),
         hist := s.hist.(delivered := s.hist.delivered + s.readBuf[s.rxW..s.rxW + s.reader.num]))
    case ReadAdvance => s.(rxW := s.rxW + s.reader.num, reader := Advanced)
    case ReadTest => s.(reader := if s.rxW == s.rxR then ClearingW else Idle)
    case ClearW => s.(rxW := 0, reader := ClearingR)
    case ClearR => s.(rxR := 0, reader := Idle, hist := s.hist.(dropped := s.hist.dropped + s.rxR))
  }

  /** What the driver relies on: a known convention; message and response together fitting
      the buffer; the receive FIFO served in time; reads within the size of the buffer, or of
      as much as is there; and no byte taken in between the test of the pointers and their
      clearing. */
  predicate Env(s: State, step: Step) {
    && (s.ready || !s.convention.NoDefined?)
    && match step
       case Irq => s.reader.ClearingW? || s.reader.ClearingR? ==> s.rx == []
       case Echo => |s.rx| < 16
       case CardByte(_) => |s.rx| < 16 && |s.message| + |s.hist.response| < 1024
       case ReadStart(length) => length <= 1024 || s.rxR >= s.rxW + 1024
       case _ => true
  }

  // ---------------------------------------------------------------------------
  // The invariant
  // ---------------------------------------------------------------------------

  /** What came back over the line since the write, as it belongs into the buffer. */
  function Arrived(s: State): seq<byte>
    requires s.hist.echoed <= |s.message|
  {
    s.message[..s.hist.echoed] + MappedAll(s.convention, s.hist.response)
  }

  predicate SentOk(s: State) {
    && s.txW <= |s.message| && s.hist.echoed + |s.tx| == s.txW && |s.tx| <= 16
    && s.hist.pushed == MappedAll(s.convention, s.message[..s.txW])
    && s.tx == s.hist.pushed[s.hist.echoed..]
    && (s.hist.response != [] ==> s.txW == |s.message| && s.tx == [])
    && Receiving(s.mode) && (s.txW < |s.message| ==> s.mode == 3 || s.mode == 7)
    && (s.mode == 3 ==> |s.message| <= 16)
  }

  predicate BufferOk(s: State)
    requires s.hist.echoed <= |s.message|
  {
    var took := s.hist.dropped + s.rxR;
    && |s.readBuf| == 1024 && took + |s.rx| == |Arrived(s)| <= 1024
    && MappedAll(s.convention, s.rx) == Arrived(s)[took..]
    && s.readBuf[..s.rxR] == Arrived(s)[s.hist.dropped..took]
  }

  /** The reading pointer: behind the echo of what was pushed, and what was delivered. */
  predicate PointerOk(s: State) {
    var at := s.txW + |s.hist.delivered|;
    match s.reader
    case Copied(num) => s.hist.dropped + s.rxW + num == at && s.rxW + num <= s.rxR
    case Counted(num) => s.hist.dropped + s.rxW == at && s.rxW + num <= s.rxR
    case ClearingW => s.hist.dropped + s.rxW == at && s.rxW == s.rxR
    case ClearingR => s.hist.dropped + s.rxR == at && s.rxW == 0
    case _ => s.hist.dropped + s.rxW == at
  }

  predicate DeliveredOk(s: State) {
    && |s.hist.delivered| <= |s.hist.response|
    && s.hist.delivered == MappedAll(s.convention, s.hist.response)[..|s.hist.delivered|]
    && (!s.reader.Idle? ==> s.txW == |s.message| && s.tx == [])
  }

  ghost predicate Inv(s: State) {
    && WellFormed(s) && (s.ready || !s.convention.NoDefined?)
    && SentOk(s) && BufferOk(s) && PointerOk(s) && DeliveredOk(s)
  }

  // ---------------------------------------------------------------------------
  // Every step keeps the invariant
  // ---------------------------------------------------------------------------

  lemma {:induction false} MappedTwice(c: Convention, b: byte)
    ensures Mapped(c, Mapped(c, b)) == b
  {
    hide Inverted;
    InvertedTwice(b);
  }

  lemma {:induction false} MappedJoined(c: Convention, a: seq<byte>, b: seq<byte>)
    ensures MappedAll(c, a + b) == MappedAll(c, a) + MappedAll(c, b)
  {
    hide Inverted;
  }

  /** With a known convention the buffer grows by the mapped bytes. */
  lemma {:induction false} ReceivedIs(s: State)
    requires WellFormed(s) && s.rxR + |s.rx| <= 1024 && (s.ready || !s.convention.NoDefined?)
    ensures var t := Received(s);
      && t.rxR == s.rxR + |s.rx| <= |t.readBuf| && t.convention == s.convention
      && t.readBuf[..t.rxR] == s.readBuf[..s.rxR] + MappedAll(s.convention, s.rx)
    decreases |s.rx|
  {
    ReceivedShape(s);
    if s.rx == [] {
      NothingReceived(s);
      assert s.readBuf[..s.rxR] + [] == s.readBuf[..s.rxR];
    } else {
      var b, rest := s.rx[0], s.rx[1..];
      var u := TakeByte(s, b).(rx := rest);
      ReceivedIs(u);
      ReceivedStep(s);
      hide Received, Mapped;
      assert u.readBuf[..u.rxR] == s.readBuf[..s.rxR] + [Mapped(s.convention, b)];
      MappedFirst(s.convention, s.rx);
      hide MappedAll;
      var front, m := s.readBuf[..s.rxR], MappedAll(s.convention, rest);
      assert front + [Mapped(s.convention, b)] + m == front + ([Mapped(s.convention, b)] + m);
    }
  }

  lemma {:induction false} MappedFirst(c: Convention, bs: seq<byte>)
    requires bs != []
    ensures MappedAll(c, bs) == [Mapped(c, bs[0])] + MappedAll(c, bs[1..])
  {
    hide Mapped;
  }

  lemma {:induction false} NothingReceived(s: State)
    requires s.rxR <= |s.readBuf| && s.rx == []
    ensures Received(s) == s
  {
  }

  lemma {:induction false} ReceivedStep(s: State)
    requires s.rxR + |s.rx| <= |s.readBuf| && s.rx != []
    ensures Received(s) == Received(TakeByte(s, s.rx[0]).(rx := s.rx[1..]))
  {
    hide Mapped;
  }

  lemma {:induction false} ReceptionInv(s: State)
    requires Inv(s) && (s.reader.ClearingW? || s.reader.ClearingR? ==> s.rx == [])
    ensures s.rxR + |s.rx| <= 1024 && Inv(Received(s))
  {
    ReceivedIs(s);
    ReceivedShape(s);
    hide Received, MappedAll;
    if s.rx == [] {
      NothingReceived(s);
    } else {
      ReceptionBuffer(s, Received(s));
    }
  }

  lemma {:induction false} ReceptionBuffer(s: State, t: State)
    requires s.hist.echoed <= |s.message| && BufferOk(s) && s.rxR <= |s.readBuf|
    requires t.message == s.message && t.hist == s.hist && t.convention == s.convention && t.rx == []
    requires t.rxR == s.rxR + |s.rx| <= |t.readBuf| == 1024
    requires t.readBuf[..t.rxR] == s.readBuf[..s.rxR] + MappedAll(s.convention, s.rx)
    ensures BufferOk(t)
  {
    var a, d, took := Arrived(s), s.hist.dropped, s.hist.dropped + s.rxR;
    hide Arrived;
    assert a[d..took] + a[took..] == a[d..];
    assert a[d..|a|] == a[d..];
    NothingMapped(t);
    assert a[|a|..] == [];
  }

  lemma {:induction false} NothingMapped(s: State)
    requires s.rx == []
    ensures MappedAll(s.convention, s.rx) == []
  {
  }

  lemma {:induction false} FilledInv(s: State, room: nat)
    requires Inv(s) && |s.tx| + room <= 16
    requires s.mode == 3 ==> room == 16
    ensures Inv(Filled(s, room))
  {
    InvParts(s);
    FilledBuffer(s, room);
    FilledSent(s, room);
    hide MappedAll, BufferOk, SentOk;
  }

  /** The FIFO goes on with the next bytes of the message. */
  lemma {:induction false} FilledSent(s: State, room: nat)
    requires WellFormed(s) && SentOk(s) && |s.tx| + room <= 16
    requires s.mode == 3 ==> room == 16
    ensures SentOk(Filled(s, room))
  {
    hide MappedAll, Arrived;
    var size := if |s.message| - s.txW > room then room else |s.message| - s.txW;
    PushedIs(s, size);
    var out, e := MappedAll(s.convention, s.message[s.txW..s.txW + size]), s.hist.echoed;
    BehindPushed(s.hist.pushed, out, e);
    assert size == 0 ==> out == [] && s.tx + out == s.tx;
  }

  lemma {:induction false} PushedIs(s: State, size: nat)
    requires s.txW + size <= |s.message|
    ensures MappedAll(s.convention, s.message[..s.txW]) + MappedAll(s.convention, s.message[s.txW..s.txW + size])
         == MappedAll(s.convention, s.message[..s.txW + size])
  {
    MappedJoined(s.convention, s.message[..s.txW], s.message[s.txW..s.txW + size]);
    assert s.message[..s.txW] + s.message[s.txW..s.txW + size] == s.message[..s.txW + size];
  }

  lemma {:induction false} BehindPushed<T>(pushed: seq<T>, out: seq<T>, e: nat)
    requires e <= |pushed|
    ensures (pushed + out)[e..] == pushed[e..] + out
  {
  }

  lemma {:induction false} FilledBuffer(s: State, room: nat)
    requires WellFormed(s) && s.hist.echoed <= |s.message| && BufferOk(s)
    ensures BufferOk(Filled(s, room))
  {
    hide MappedAll;
  }

  lemma {:induction false} IrqInv(s: State)
    requires Inv(s) && Env(s, Irq)
    ensures Enabled(s, Irq) && Inv(Do(s, Irq))
  {
    hide Inv, Received, Filled;
    ReceptionInv(s);
    InvParts(s);
    ReceivedShape(s);
    var t := if s.rx != [] && Receiving(s.mode) then Received(s) else s;
    if t.tx == [] {
      FilledInv(t, 16);
    } else if |t.tx| <= 8 && t.mode == 7 {
      FilledInv(t, 8);
    }
  }

  lemma {:induction false} InvParts(s: State)
    requires Inv(s)
    ensures WellFormed(s) && SentOk(s) && s.rxR + |s.rx| <= 1024
  {
    hide MappedAll;
  }

  /** A byte that comes in behind the others is the next one to arrive. */
  lemma {:induction false} ArrivesBehind(s: State, b: byte, t: State)
    requires s.hist.echoed <= |s.message| && t.hist.echoed <= |t.message| && BufferOk(s) && |Arrived(s)| < 1024
    requires t.readBuf == s.readBuf && t.rxR == s.rxR && t.hist.dropped == s.hist.dropped && t.convention == s.convention
    requires t.rx == s.rx + [b] && Arrived(t) == Arrived(s) + [Mapped(s.convention, b)]
    ensures BufferOk(t)
  {
    MappedJoined(s.convention, s.rx, [b]);
    assert MappedAll(s.convention, [b]) == [Mapped(s.convention, b)];
    hide MappedAll, Mapped, Arrived;
    var a, m, took := Arrived(s), [Mapped(s.convention, b)], s.hist.dropped + s.rxR;
    assert (a + m)[took..] == a[took..] + m;
    assert (a + m)[s.hist.dropped..took] == a[s.hist.dropped..took];
  }

  lemma {:induction false} EchoInv(s: State)
    requires Inv(s) && Env(s, Echo) && s.tx != []
    ensures Inv(Do(s, Echo))
  {
    var t, e := Do(s, Echo), s.hist.echoed;
    MappedTwice(s.convention, s.message[e]);
    assert s.tx[0] == Mapped(s.convention, s.message[e]);
    assert s.message[..e + 1] == s.message[..e] + [s.message[e]];
    assert Arrived(t) == Arrived(s) + [s.message[e]];
    hide Mapped, MappedAll, Arrived;
    ArrivesBehind(s, s.tx[0], t);
    assert t.tx == t.hist.pushed[e + 1..];
  }

  lemma {:induction false} CardByteInv(s: State, b: byte)
    requires Inv(s) && Env(s, CardByte(b)) && Enabled(s, CardByte(b))
    ensures Inv(Do(s, CardByte(b)))
  {
    var t, r := Do(s, CardByte(b)), s.hist.response;
    MappedJoined(s.convention, r, [b]);
    assert MappedAll(s.convention, [b]) == [Mapped(s.convention, b)];
    hide Mapped, MappedAll;
    var m := s.message[..s.hist.echoed];
    assert m + (MappedAll(s.convention, r) + [Mapped(s.convention, b)]) == m + MappedAll(s.convention, r) + [Mapped(s.convention, b)];
    ArrivesBehind(s, b, t);
  }

  lemma {:induction false} WriteInv(s: State, msg: seq<byte>)
    requires Inv(s) && Env(s, Write(msg)) && Enabled(s, Write(msg))
    ensures Inv(Do(s, Write(msg)))
  {
    var t := Do(s, Write(msg));
    assert t.message[..0] == [] && t.readBuf[..0] == [];
    assert Arrived(t) == [];
    hide Mapped;
  }

  /** A part of a slice is a slice. */
  lemma {:induction false} PartOfSlice<T>(a: seq<T>, b: seq<T>, d: nat, i: nat, j: nat)
    requires d + |b| <= |a| && b == a[d..d + |b|] && i <= j <= |b|
    ensures b[i..j] == a[d + i..d + j]
  {
    forall k | 0 <= k < j - i
      ensures b[i..j][k] == a[d + i..d + j][k]
    {
      assert b[i + k] == a[d..d + |b|][i + k];
    }
  }

  lemma {:induction false} BehindFront<T>(front: seq<T>, r: seq<T>, i: nat, j: nat)
    requires i <= j <= |r|
    ensures (front + r)[|front| + i..|front| + j] == r[i..j]
  {
  }

  /** What is between the pointers has arrived behind what was delivered. */
  lemma {:induction false} UnreadArrived(s: State, num: nat)
    requires Inv(s) && s.txW == |s.message| && s.tx == []
    requires s.hist.dropped + s.rxW == s.txW + |s.hist.delivered| && s.rxW + num <= s.rxR
    ensures |s.hist.delivered| + num <= |s.hist.response|
    ensures s.readBuf[s.rxW..s.rxW + num]
         == MappedAll(s.convention, s.hist.response)[|s.hist.delivered|..|s.hist.delivered| + num]
  {
    hide Inv, MappedAll, Arrived, WellFormed;
    EchoDone(s);
    InvBuffer(s);
    var r, n := MappedAll(s.convention, s.hist.response), |s.hist.delivered|;
    PartOfSlice(Arrived(s), s.readBuf[..s.rxR], s.hist.dropped, s.rxW, s.rxW + num);
    BehindFront(s.message, r, n, n + num);
    assert s.readBuf[..s.rxR][s.rxW..s.rxW + num] == s.readBuf[s.rxW..s.rxW + num];
  }

  lemma {:induction false} InvBuffer(s: State)
    requires Inv(s)
    ensures s.hist.echoed <= |s.message| && s.rxR <= |s.readBuf|
    ensures s.hist.dropped + s.rxR + |s.rx| == |Arrived(s)|
    ensures s.readBuf[..s.rxR] == Arrived(s)[s.hist.dropped..s.hist.dropped + s.rxR]
  {
    hide MappedAll, Arrived;
  }

  lemma {:induction false} EchoDone(s: State)
    requires Inv(s) && s.txW == |s.message| && s.tx == []
    ensures s.hist.echoed == |s.message| && Arrived(s) == s.message + MappedAll(s.convention, s.hist.response)
  {
    hide MappedAll;
  }

  lemma {:induction false} ReadStartInv(s: State, length: nat)
    requires Inv(s) && Env(s, ReadStart(length)) && Enabled(s, ReadStart(length))
    ensures Inv(Do(s, ReadStart(length)))
  {
    hide MappedAll;
    assert s.hist.response != [];
  }

  lemma {:induction false} ReadCopyInv(s: State)
    requires Inv(s) && s.reader.Counted?
    ensures Enabled(s, ReadCopy) && Inv(Do(s, ReadCopy))
  {
    UnreadArrived(s, s.reader.num);
    hide MappedAll;
    var n, r := |s.hist.delivered|, MappedAll(s.convention, s.hist.response);
    assert r[..n] + r[n..n + s.reader.num] == r[..n + s.reader.num];
  }

  lemma {:induction false} ReadRestInv(s: State, step: Step)
    requires Inv(s) && Enabled(s, step) && (step.ReadAdvance? || step.ReadTest? || step.ClearW? || step.ClearR?)
    ensures Inv(Do(s, step))
  {
    hide MappedAll;
    var t, a := Do(s, step), Arrived(s);
    assert a[s.hist.dropped + s.rxR..s.hist.dropped + s.rxR] == [];
    assert Arrived(t) == a;
  }

  lemma {:induction false} StepKeepsInv(s: State, step: Step)
    requires Inv(s) && Env(s, step) && Enabled(s, step)
    ensures Inv(Do(s, step))
  {
    hide Inv, Env, Do;
    match step
    case Write(msg) => WriteInv(s, msg);
    case Irq => IrqInv(s);
    case Echo => EchoInv(s);
    case CardByte(b) => CardByteInv(s, b);
    case ReadStart(length) => ReadStartInv(s, length);
    case ReadCopy => ReadCopyInv(s);
    case _ => ReadRestInv(s, step);
  }

  // ---------------------------------------------------------------------------
  // Whole runs
  // ---------------------------------------------------------------------------

  /** The port right after it was set up, with a card whose convention is known. */
  predicate Init(s: State) {
    && s.message == [] && s.txW == 0 && |s.readBuf| == 1024 && s.rxR == 0 && s.rxW == 0 && s.mode == 1
    && s.tx == [] && s.rx == [] && s.reader.Idle? && s.hist == History([], 0, [], [], 0)
    && (s.ready || !s.convention.NoDefined?)
  }

  predicate IsRun(s: State, steps: seq<Step>)
    decreases |steps|
  {
    steps != [] && WellFormed(s) ==>
      Enabled(s, steps[0]) && Env(s, steps[0]) && IsRun(Do(s, steps[0]), steps[1..])
  }

  ghost function After(s: State, steps: seq<Step>): (t: State)
    requires Inv(s) && IsRun(s, steps)
    ensures Inv(t)
    decreases |steps|
  {
    if steps == [] then s
    else
      StepKeepsInv(s, steps[0]);
      After(Do(s, steps[0]), steps[1..])
  }

  /** A step's effect on the message written last and on what the card sent since then. */
  function StepExchanged(message: seq<byte>, response: seq<byte>, step: Step): (seq<byte>, seq<byte>) {
    match step
    case Write(msg) => (if |msg| <= 1024 then msg else msg[..1024], [])
    case CardByte(b) => (message, response + [b])
    case _ => (message, response)
  }

  function Exchanged(message: seq<byte>, response: seq<byte>, steps: seq<Step>): (seq<byte>, seq<byte>)
    decreases |steps|
  {
    if steps == [] then (message, response)
    else
      var (m, r) := StepExchanged(message, response, steps[0]);
      Exchanged(m, r, steps[1..])
  }

  lemma {:induction false} InitInv(s: State)
    requires Init(s)
    ensures Inv(s)
  {
    hide Mapped;
  }

  lemma {:induction false} StepExchange(s: State, step: Step)
    requires Inv(s) && Env(s, step) && Enabled(s, step)
    ensures var t := Do(s, step);
      t.convention == s.convention && (t.message, t.hist.response) == StepExchanged(s.message, s.hist.response, step)
  {
    hide MappedAll, Received, Filled;
    if step.Irq? {
      InvParts(s);
      ReceivedIs(s);
      ReceivedShape(s);
      TransmittedShape(if s.rx != [] && Receiving(s.mode) then Received(s) else s);
    }
    hide Inv;
  }

  lemma {:induction false} TransmittedShape(s: State)
    requires WellFormed(s)
    ensures var t := Transmitted(s);
      t.convention == s.convention && t.message == s.message && t.hist.response == s.hist.response
  {
  }

  lemma {:induction false} AfterExchange(s: State, steps: seq<Step>)
    requires Inv(s) && IsRun(s, steps)
    ensures var t := After(s, steps);
      t.convention == s.convention && (t.message, t.hist.response) == Exchanged(s.message, s.hist.response, steps)
    decreases |steps|
  {
    if steps != [] {
      RunStep(s, steps);
      StepExchange(s, steps[0]);
      AfterExchange(Do(s, steps[0]), steps[1..]);
    }
    hide Inv, IsRun, Do, Env, Enabled;
  }

  lemma {:induction false} RunStep(s: State, steps: seq<Step>)
    requires Inv(s) && IsRun(s, steps) && steps != []
    ensures WellFormed(s) && Enabled(s, steps[0]) && Env(s, steps[0]) && Inv(Do(s, steps[0]))
    ensures IsRun(Do(s, steps[0]), steps[1..]) && After(s, steps) == After(Do(s, steps[0]), steps[1..])
  {
    InvParts(s);
    hide Inv, Env, Do, Enabled;
    StepKeepsInv(s, steps[0]);
  }

  /** In every run the bytes pushed to the FIFO are the first bytes of the message written
      last, in order and each once, in the card's convention; the FIFO never overflows; and
      while bytes are left, transmission is enabled. */
  lemma {:induction false} SentInOrder(s: State, steps: seq<Step>)
    requires Init(s) && IsRun(s, steps)
    ensures Inv(s)
    ensures var t := After(s, steps);
      var message := Exchanged([], [], steps).0;
      && t.txW <= |message| && t.hist.pushed == MappedAll(s.convention, message[..t.txW]) && |t.tx| <= 16
      && (t.txW < |message| ==> t.mode == 3 || t.mode == 7)
  {
    hide MappedAll, After, Exchanged;
    InitInv(s);
    AfterExchange(s, steps);
  }

  /** In every run what the reads delivered since the last write is the beginning of what the
      card answered, without any byte of the echo. */
  lemma {:induction false} ReadsAnswer(s: State, steps: seq<Step>)
    requires Init(s) && IsRun(s, steps)
    ensures Inv(s)
    ensures var t, answer := After(s, steps), MappedAll(s.convention, Exchanged([], [], steps).1);
      t.hist.delivered <= answer
  {
    hide MappedAll, After, Exchanged;
    InitInv(s);
    AfterExchange(s, steps);
  }

  /** Once the echo is taken and between reads, the answer is what was delivered, what waits
      in the buffer, and what waits in the FIFO. */
  predicate Conserved(s: State)
    requires s.rxW <= s.rxR <= |s.readBuf|
  {
    MappedAll(s.convention, s.hist.response)
    == s.hist.delivered + s.readBuf[s.rxW..s.rxR] + MappedAll(s.convention, s.rx)
  }

  lemma {:induction false} NothingLost(s: State)
    requires Inv(s) && s.reader.Idle? && s.txW == |s.message| && s.tx == [] && s.rxW <= s.rxR
    ensures s.rxR <= |s.readBuf| && Conserved(s)
  {
    hide MappedAll;
    EchoDone(s);
    UnreadArrived(s, s.rxR - s.rxW);
    hide SentOk, Arrived;
    var r, n, k := MappedAll(s.convention, s.hist.response), |s.hist.delivered|, s.rxR - s.rxW;
    assert Arrived(s) == s.message + r;
    assert (s.message + r)[|s.message| + n + k..] == r[n + k..];
    assert r[..n] + r[n..n + k] + r[n + k..] == r;
  }

  // ---------------------------------------------------------------------------
  // Between the test of the pointers and their clearing
  // ---------------------------------------------------------------------------

  /** What can come in between: an interrupt, a byte of the card, and the first of the two
      assignments. */
  predicate Between(step: Step) {
    step.Irq? || step.CardByte? || step.ClearW?
  }

  /** The steps, all possible, lead from the test to the second assignment. */
  predicate Clears(s: State, steps: seq<Step>)
    decreases |steps|
  {
    if steps == [] then s.reader.ClearingR?
    else WellFormed(s) && Between(steps[0]) && Enabled(s, steps[0]) && Clears(Do(s, steps[0]), steps[1..])
  }

  function Cleared(s: State, steps: seq<Step>): State
    requires Clears(s, steps)
    decreases |steps|
  {
    if steps == [] then s else Cleared(Do(s, steps[0]), steps[1..])
  }

  /** No interrupt found a byte to take. */
  predicate NothingTaken(s: State, steps: seq<Step>)
    requires Clears(s, steps)
    decreases |steps|
  {
    steps == [] || ((steps[0].Irq? ==> s.rx == []) && NothingTaken(Do(s, steps[0]), steps[1..]))
  }

  /** The buffer held everything up to `at` when the pointers were compared. */
  predicate Window(s: State, at: nat) {
    && WellFormed(s) && s.txW == |s.message| && s.tx == [] && Receiving(s.mode)
    && (s.ready || !s.convention.NoDefined?)
    && at <= s.rxR <= |s.readBuf| && (s.reader.ClearingR? ==> s.rxW == 0)
    && MappedAll(s.convention, s.hist.response)
       == s.hist.delivered + s.readBuf[at..s.rxR] + MappedAll(s.convention, s.rx)
  }

  lemma {:induction false} WindowOpens(s: State)
    requires Inv(s) && s.reader.ClearingW?
    ensures Window(s, s.rxR)
  {
    EchoDone(s);
    hide MappedAll;
    var r := MappedAll(s.convention, s.hist.response);
    var n := |s.hist.delivered|;
    BehindFront(s.message, r, n, |r|);
    assert r[n..|r|] == r[n..];
    assert (s.message + r)[|s.message| + n..] == (s.message + r)[|s.message| + n..|s.message| + |r|];
    assert r == r[..n] + r[n..];
    assert s.readBuf[s.rxR..s.rxR] == [];
  }

  lemma {:induction false} WindowTakes(s: State, at: nat)
    requires Window(s, at) && s.rxR + |s.rx| <= 1024
    ensures Window(Received(s), at)
    ensures Received(s).rxR == s.rxR + |s.rx| && Received(s).reader == s.reader
  {
    ReceivedShape(s);
    ReceivedIs(s);
    NothingMapped(Received(s));
    hide Received, MappedAll;
    var t, m := Received(s), MappedAll(s.convention, s.rx);
    assert t.readBuf[at..t.rxR] == t.readBuf[..t.rxR][at..];
    assert (s.readBuf[..s.rxR] + m)[at..] == s.readBuf[at..s.rxR] + m;
    var d, u := s.hist.delivered, s.readBuf[at..s.rxR];
    assert d + (u + m) + [] == d + u + m;
  }

  lemma {:induction false} WindowIrq(s: State, at: nat)
    requires Window(s, at) && s.rxR + |s.rx| <= 1024
    ensures Window(Do(s, Irq), at)
    ensures Do(s, Irq).rxR == s.rxR + |s.rx| && Do(s, Irq).reader == s.reader
  {
    WindowTakes(s, at);
    NothingToSend(s);
    NothingToSend(Received(s));
    ReceivedShape(s);
    hide Received, MappedAll, Filled;
  }

  lemma {:induction false} WindowCardByte(s: State, at: nat, b: byte)
    requires Window(s, at)
    ensures Window(Do(s, CardByte(b)), at)
  {
    MappedJoined(s.convention, s.hist.response, [b]);
    MappedJoined(s.convention, s.rx, [b]);
    hide MappedAll;
    var d, u, m, n := s.hist.delivered, s.readBuf[at..s.rxR], MappedAll(s.convention, s.rx), MappedAll(s.convention, [b]);
    assert d + u + (m + n) == d + u + m + n;
  }

  lemma {:induction false} WindowStep(s: State, at: nat, step: Step)
    requires Window(s, at) && Between(step) && Enabled(s, step)
    ensures Window(Do(s, step), at)
    ensures Do(s, step).rxR == s.rxR + if step.Irq? then |s.rx| else 0
  {
    match step
    case Irq => WindowIrq(s, at);
    case CardByte(b) => WindowCardByte(s, at, b);
    case ClearW => hide MappedAll;
  }

  lemma {:induction false} WindowRun(s: State, at: nat, steps: seq<Step>)
    requires Window(s, at) && Clears(s, steps)
    ensures Window(Cleared(s, steps), at) && Cleared(s, steps).reader.ClearingR?
    ensures Cleared(s, steps).rxR >= s.rxR
    ensures Cleared(s, steps).rxR == s.rxR <==> NothingTaken(s, steps)
    decreases |steps|
  {
    if steps != [] {
      WindowStep(s, at, steps[0]);
      WindowRun(Do(s, steps[0]), at, steps[1..]);
      hide Window, Enabled, Do;
    }
  }

  /** Whatever interrupts and bytes come between the test of the pointers and the second of
      the assignments that clear them: the answer stays complete exactly if no interrupt took
      a byte. What one takes is lost. */
  lemma {:induction false} ByteLostIff(s: State, steps: seq<Step>)
    requires Inv(s) && s.reader.ClearingW? && Clears(s, steps)
    ensures var u := Cleared(s, steps);
      && Enabled(u, ClearR) && WellFormed(u)
      && var t := Do(u, ClearR);
         t.rxW <= t.rxR <= |t.readBuf| && (Conserved(t) <==> NothingTaken(s, steps))
  {
    WindowOpens(s);
    WindowRun(s, s.rxR, steps);
    hide Inv, Cleared, Clears, NothingTaken, MappedAll;
    var u := Cleared(s, steps);
    var d, w, m := u.hist.delivered, u.readBuf[s.rxR..u.rxR], MappedAll(u.convention, u.rx);
    assert |d + w + m| == |d| + |w| + |m| && |d + u.readBuf[0..0] + m| == |d| + |m|;
    assert u.readBuf[0..0] == [];
    assert w == [] ==> d + w + m == d + [] + m;
  }

  lemma {:induction false} NothingToSend(s: State)
    requires WellFormed(s) && s.txW == |s.message|
    ensures var t := Transmitted(s);
      t == s.(mode := t.mode)
  {
    assert s.message[s.txW..s.txW] == [];
    assert s.tx + [] == s.tx && s.hist.pushed + [] == s.hist.pushed;
  }

  /** The caller of a read gets bytes of the answer only, exactly if it asks for at most 1024
      bytes or 1024 are there. Otherwise it gets all of the answer that is there, and behind
      it what the buffer held before. */
  lemma {:induction false} OverlongIff(s: State, length: nat)
    requires Inv(s) && Enabled(s, ReadStart(length)) && s.rxW + Count(s, length) <= 1024
    ensures WellFormed(s) && s.rxR <= 1024
    ensures WellFormed(Do(s, ReadStart(length))) && Enabled(Do(s, ReadStart(length)), ReadCopy)
    ensures var t := Do(Do(s, ReadStart(length)), ReadCopy);
      var there := s.hist.delivered + s.readBuf[s.rxW..s.rxR];
      && there + MappedAll(s.convention, s.rx) == MappedAll(s.convention, s.hist.response)
      && (t.hist.delivered <= there <==> length <= 1024 || s.rxR - s.rxW >= 1024)
      && (length > 1024 && s.rxR - s.rxW < 1024 ==> t.hist.delivered == there + s.readBuf[s.rxR..s.rxW + 1024])
  {
    hide Inv, MappedAll;
    AnswerStarted(s);
    NothingLost(s);
    InvParts(s);
    Taken(s.hist.delivered, s.readBuf, s.rxW, s.rxR, Count(s, length));
  }

  lemma {:induction false} Taken<T>(d: seq<T>, buf: seq<T>, w: nat, r: nat, num: nat)
    requires w <= r <= |buf| && w + num <= |buf|
    ensures d + buf[w..w + num] <= d + buf[w..r] <==> num <= r - w
    ensures num > r - w ==> d + buf[w..w + num] == d + buf[w..r] + buf[r..w + num]
  {
    if num <= r - w {
      assert buf[w..r][..num] == buf[w..w + num];
      assert (d + buf[w..r])[..|d| + num] == d + buf[w..w + num];
    } else {
      assert buf[w..w + num] == buf[w..r] + buf[r..w + num];
    }
  }

  /** Something to read behind the echo comes from the card, after the whole message. */
  lemma {:induction false} AnswerStarted(s: State)
    requires Inv(s) && s.reader.Idle? && s.rxW < s.rxR
    ensures s.txW == |s.message| && s.tx == []
  {
    hide MappedAll;
    assert s.hist.response != [];
  }

  // ---------------------------------------------------------------------------
  // Every message is sent, and what a write does to the one before
  // ---------------------------------------------------------------------------

  /** An interrupt takes what came in, and with bytes left and an empty FIFO sends up to
      sixteen. */
  lemma {:induction false} IrqShape(s: State)
    requires Inv(s) && s.reader.Idle?
    ensures Enabled(s, Irq) && Env(s, Irq)
    ensures var t := Do(s, Irq);
      && t.message == s.message && t.reader == s.reader && t.hist.echoed == s.hist.echoed && t.rx == []
      && t.txW >= s.txW
      && (s.tx == [] && s.txW < |s.message| ==> t.txW > s.txW)
  {
    InvParts(s);
    ReceivedShape(s);
    hide Received, MappedAll;
  }

  /** The line and the interrupt can always go on until the whole message was sent and has
      come back: they never wait for each other. */
  lemma {:induction false} AllSent(s: State) returns (steps: seq<Step>)
    requires Inv(s) && s.reader.Idle?
    ensures IsRun(s, steps) && forall step :: step in steps ==> step.Irq? || step.Echo?
    ensures var t := After(s, steps);
      t.message == s.message && t.txW == t.hist.echoed == |s.message| && t.tx == []
    decreases |s.message| - s.hist.echoed, |s.rx|, |s.message| - s.txW
  {
    InvParts(s);
    if s.hist.echoed == |s.message| {
      steps := [];
    } else {
      var step := if s.rx == [] && s.tx != [] then Echo else Irq;
      IrqShape(s);
      StepKeepsInv(s, step);
      hide Inv, DoIrq;
      InvParts(Do(s, step));
      var rest := AllSent(Do(s, step));
      steps := [step] + rest;
      assert steps[1..] == rest;
      InvRun(s, steps);
    }
  }

  lemma {:induction false} InvRun(s: State, steps: seq<Step>)
    requires Inv(s) && steps != [] && WellFormed(s) && Enabled(s, steps[0]) && Env(s, steps[0])
    requires Inv(Do(s, steps[0])) && IsRun(Do(s, steps[0]), steps[1..])
    ensures IsRun(s, steps) && After(s, steps) == After(Do(s, steps[0]), steps[1..])
  {
    hide Inv, Env, Do, Enabled;
    StepKeepsInv(s, steps[0]);
  }

  /** A write does not wait for the FIFO: the message before was sent completely exactly if
      the FIFO is empty when the write clears it. */
  lemma {:induction false} WriteDropsIff(s: State, msg: seq<byte>)
    requires Inv(s) && Enabled(s, Write(msg))
    ensures s.hist.pushed == MappedAll(s.convention, s.message)
    ensures Do(s, Write(msg)).tx == []
    ensures s.hist.echoed == |s.message| <==> s.tx == []
  {
    assert s.message[..|s.message|] == s.message;
    hide MappedAll;
  }

  /** Two short writes with one interrupt in between: the first never leaves the port. */
  lemma {:induction false} FirstOfTwoDropped(s: State, a: byte, b: byte)
    requires Init(s)
    ensures Inv(s) && IsRun(s, [Write([a]), Irq, Write([b])])
    ensures IsRun(s, [Write([a]), Irq])
    ensures var t := After(s, [Write([a]), Irq]);
      t.hist.echoed == 0 && t.tx == [Mapped(s.convention, a)]
  {
    InitInv(s);
    hide Mapped;
    var s1 := Do(s, Write([a]));
    StepKeepsInv(s, Write([a]));
    var s2 := Do(s1, Irq);
    assert s2.tx == [Mapped(s.convention, a)] && s2.hist.echoed == 0 && s2.txW == 1 && s2.message == [a];
    StepKeepsInv(s1, Irq);
    InvRun(s2, [Write([b])]);
    InvRun(s1, [Irq, Write([b])]);
    InvRun(s1, [Irq]);
    InvRun(s, [Write([a]), Irq, Write([b])]);
    InvRun(s, [Write([a]), Irq]);
  }
}
