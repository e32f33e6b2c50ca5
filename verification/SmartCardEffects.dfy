/** What the steps of the transfer do, in numbers: how many bytes an interrupt sends, what a
    read takes, and how the first byte of an answer sets the convention. */
module SmartCardEffects {
  import opened Common
  import opened ByteInvert
  import opened SmartCard

  // ---------------------------------------------------------------------------
  // Bytes
  // ---------------------------------------------------------------------------

  /** Only the inverse convention turns a byte round: each bit moves to the other end and changes. */
  lemma MappedIs(c: Convention, b: byte, i: nat)
    requires i < 8
    ensures !c.Invert? ==> Mapped(c, b) == b
    ensures c.Invert? ==> Bit(Mapped(c, b), i) == 1 - Bit(b, 7 - i)
  {
    hide Inverted;
    BitsTurned(b, i);
  }

  // ---------------------------------------------------------------------------
  // Sending
  // ---------------------------------------------------------------------------

  /** Some of the bytes of the message that are left go into the FIFO, and the reading pointer
      skips their echo; behind the last one only reception is on. */
  predicate Sends(s: State, t: State, n: nat) {
    && n <= |s.message| - s.txW
    && t.message == s.message && t.txW == s.txW + n && t.rxW == s.rxW + n
    && |t.tx| == |s.tx| + n && t.tx[..|s.tx|] == s.tx
    && (forall k :: |s.tx| <= k < |t.tx| ==> t.tx[k] == Mapped(t.convention, s.message[s.txW + (k - |s.tx|)]))
    && t.hist.pushed == s.hist.pushed + t.tx[|s.tx|..]
  }

  lemma FilledSends(s: State, room: nat)
    requires WellFormed(s)
    ensures var n := if |s.message| - s.txW > room then room else |s.message| - s.txW;
      var t := Filled(s, room);
      && Sends(s, t, n) && t.mode == (if s.txW + n == |s.message| then 1 else s.mode)
      && t.rxR == s.rxR && t.readBuf == s.readBuf
  {
    hide Mapped;
    var n := if |s.message| - s.txW > room then room else |s.message| - s.txW;
    var out := MappedAll(s.convention, s.message[s.txW..s.txW + n]);
    assert (s.tx + out)[|s.tx|..] == out && (s.tx + out)[..|s.tx|] == s.tx;
  }

  /** An interrupt with the FIFO empty sends up to sixteen bytes if it is enabled to, and one
      with the FIFO at most half full up to eight in the mode for long messages; there is no
      other way to send. */
  lemma IrqSends(s: State)
    requires WellFormed(s) && s.rxR + |s.rx| <= 1024
    ensures WellFormed(s) && Enabled(s, Irq)
    ensures var t, left := Do(s, Irq), |s.message| - s.txW;
      var room := if s.tx == [] && s.mode in {2, 3, 7} then 16
                  else if s.tx != [] && |s.tx| <= 8 && s.mode == 7 then 8
                  else 0;
      && Sends(s, t, if left > room then room else left)
      && t.mode == if room > 0 && left <= room then 1 else s.mode
  {
    hide Received, Filled, Sends, Mapped;
    ReceivedShape(s);
    var u := if s.rx != [] && Receiving(s.mode) then Received(s) else s;
    FilledSends(u, 16);
    FilledSends(u, 8);
    SendsNothing(u);
    var t := Do(s, Irq);
    assert t == Transmitted(u);
    SendsFrom(s, u, t);
  }

  lemma SendsNothing(s: State)
    requires WellFormed(s)
    ensures Sends(s, s, 0)
  {
    assert s.hist.pushed + s.tx[|s.tx|..] == s.hist.pushed;
  }

  lemma SendsFrom(s: State, u: State, t: State)
    requires u == s.(convention := u.convention, readBuf := u.readBuf, rxR := u.rxR, rx := u.rx)
    ensures forall n: nat :: Sends(u, t, n) <==> Sends(s, t, n)
  {
  }

  // ---------------------------------------------------------------------------
  // Receiving
  // ---------------------------------------------------------------------------

  /** The first byte of an answer: 0x03 sets the inverse convention and 0x3B the direct one,
      and every byte from it on is read accordingly. */
  lemma FirstByteTells(s: State)
    requires WellFormed(s) && s.rxR + |s.rx| <= 1024 && !s.ready && s.convention.NoDefined?
    requires s.rx != [] && (s.rx[0] == 0x03 || s.rx[0] == 0x3B)
    ensures var t := Received(s);
      && t.convention == (if s.rx[0] == 0x03 then Invert else Uninvert)
      && t.rxR == s.rxR + |s.rx| && |t.readBuf| == 1024 && t.rx == []
      && t.readBuf[..s.rxR] == s.readBuf[..s.rxR]
      && forall k :: 0 <= k < |s.rx| ==> t.readBuf[s.rxR + k] == if s.rx[0] == 0x03 then Inverted(s.rx[k]) else s.rx[k]
  {
    hide Inverted, Received;
    ReceivedShape(s);
    ReceivedStep(s);
    var c := if s.rx[0] == 0x03 then Invert else Uninvert;
    var u := s.(convention := c);
    ReceivedStep(u);
    assert TakeByte(u, s.rx[0]) == TakeByte(s, s.rx[0]);
    ReceivedIs(u);
    InBuffer(s.readBuf[..s.rxR], MappedAll(c, s.rx), Received(s).readBuf, Received(s).rxR);
  }

  lemma InBuffer(front: seq<byte>, m: seq<byte>, buf: seq<byte>, r: nat)
    requires r <= |buf| && buf[..r] == front + m
    ensures r == |front| + |m| && forall k :: 0 <= k < |m| ==> buf[|front| + k] == m[k]
  {
    forall k | 0 <= k < |m|
      ensures buf[|front| + k] == m[k]
    {
      assert buf[..r][|front| + k] == (front + m)[|front| + k];
    }
  }

  /** As long as neither comes the convention stays unknown, and bytes are taken as they are. */
  lemma {:induction false} OtherBytesTellNothing(s: State)
    requires WellFormed(s) && s.rxR + |s.rx| <= 1024 && !s.ready && s.convention.NoDefined?
    requires forall k :: 0 <= k < |s.rx| ==> s.rx[k] != 0x03 && s.rx[k] != 0x3B
    ensures var t := Received(s);
      t.convention == NoDefined && t.rxR == s.rxR + |s.rx| <= |t.readBuf| && t.readBuf[..t.rxR] == s.readBuf[..s.rxR] + s.rx
    decreases |s.rx|
  {
    ReceivedShape(s);
    if s.rx == [] {
      NothingReceived(s);
      assert s.readBuf[..s.rxR] + s.rx == s.readBuf[..s.rxR];
    } else {
      var u := TakeByte(s, s.rx[0]).(rx := s.rx[1..]);
      ReceivedStep(s);
      OtherBytesTellNothing(u);
      hide Received;
      assert u.readBuf[..u.rxR] == s.readBuf[..s.rxR] + [s.rx[0]];
      assert s.readBuf[..s.rxR] + [s.rx[0]] + s.rx[1..] == s.readBuf[..s.rxR] + s.rx;
    }
  }

  // ---------------------------------------------------------------------------
  // Reading and writing
  // ---------------------------------------------------------------------------

  /** A read of at most 1024 bytes takes what is there, but no more than it asks for, and moves
      the pointer behind it. */
  lemma ReadTakes(s: State, length: nat)
    requires WellFormed(s) && Enabled(s, ReadStart(length)) && s.rxR <= 1024 && length <= 1024
    ensures var u := Do(s, ReadStart(length)); WellFormed(u) && Enabled(u, ReadCopy)
    ensures var v := Do(Do(s, ReadStart(length)), ReadCopy); WellFormed(v) && Enabled(v, ReadAdvance)
    ensures var n := if length < s.rxR - s.rxW then length else s.rxR - s.rxW;
      var v := Do(Do(s, ReadStart(length)), ReadCopy);
      && v.hist.delivered == s.hist.delivered + s.readBuf[s.rxW..s.rxW + n]
      && Do(v, ReadAdvance).rxW == s.rxW + n
  {
  }

  /** A write keeps the first 1024 bytes, empties both FIFOs and the buffer, and chooses the
      mode by the length. */
  lemma WriteStarts(s: State, msg: seq<byte>)
    requires WellFormed(s) && Enabled(s, Write(msg))
    ensures var t := Do(s, Write(msg));
      && t.message <= msg && |t.message| == (if |msg| < 1024 then |msg| else 1024)
      && t.txW == 0 && t.rxW == 0 && t.rxR == 0 && t.tx == [] && t.rx == []
      && t.mode == if |msg| <= 16 then 3 else 7
  {
  }
}
