/** The smart card driver's interrupt handler, write and read over the control block, and the
    proof that each is the corresponding steps of the transfer. */
module SmartCardDriver {
  import opened Common
  import opened ByteInvert
  import opened SmartCard

  /** A read without interrupts in between. */
  function WholeRead(s: State, length: nat): State
    requires WellFormed(s) && Enabled(s, ReadStart(length)) && s.rxR <= 1024 && (length <= 1024 || s.rxW == 0)
  {
    var t := Do(Do(Do(Do(s, ReadStart(length)), ReadCopy), ReadAdvance), ReadTest);
    if t.reader.ClearingW? then Do(Do(t, ClearW), ClearR) else t
  }

  lemma {:induction false} WholeReadIs(s: State, length: nat)
    requires WellFormed(s) && Enabled(s, ReadStart(length)) && s.rxR <= 1024 && (length <= 1024 || s.rxW == 0)
    ensures var n := Count(s, length);
      var h := s.hist.(delivered := s.hist.delivered + s.readBuf[s.rxW..s.rxW + n]);
      WholeRead(s, length)
      == if s.rxW + n == s.rxR then s.(rxW := 0, rxR := 0, hist := h.(dropped := h.dropped + s.rxR))
         else s.(rxW := s.rxW + n, hist := h)
  {
  }

  class ControlBlock {
    const writeBuf: array<byte>
    const readBuf: array<byte>
    var txR: nat
    var txW: nat
    var rxR: nat
    var rxW: nat
    var irqMode: nat
    var convention: Convention
    var atrReady: bool
    var txFifo: seq<byte>
    var rxFifo: seq<byte>
    ghost var hist: History

    ghost predicate Valid()
      reads this
    {
      writeBuf != readBuf && writeBuf.Length == 1024 && readBuf.Length == 1024 && txW <= txR <= 1024
    }

    ghost function View(): State
      requires Valid()
      reads this, writeBuf, readBuf
    {
      State(writeBuf[..txR], txW, readBuf[..], rxR, rxW, irqMode, convention, atrReady, txFifo, rxFifo, Idle, hist)
    }

    /** `set_serial_irq`: only the known combinations are set. */
    method SetSerialIrq(type_: nat)
      modifies this`irqMode
      ensures irqMode == if type_ in {1, 2, 3, 7} then type_ else old(irqMode)
    {
      if type_ == 1 {
        irqMode := 1;
      } else if type_ == 2 {
        irqMode := 2;
      } else if type_ == 3 {
        irqMode := 3;
      } else if type_ == 7 {
        irqMode := 7;
      }
    }

    /** Takes bytes from the receive FIFO until it is empty. */
    method Receive()
      requires Valid() && rxR + |rxFifo| <= 1024
      modifies this`rxFifo, this`convention, this`rxR, readBuf
      ensures Valid() && View() == Received(old(View()))
    {
      ghost var s := View();
      while rxFifo != []
        invariant Valid() && rxR + |rxFifo| <= 1024
        invariant Received(View()) == Received(s)
      {
        ghost var before := View();
        ReceivedStep(before);
        var data := rxFifo[0];
        rxFifo := rxFifo[1..];
        if !atrReady && convention == NoDefined {
          if data == 0x03 {
            convention := Invert;
          } else if data == 0x3B {
            convention := Uninvert;
          }
        }
        if convention == Invert {
          data := Inverted(data);
        }
        readBuf[rxR] := data;
        rxR := rxR + 1;
        assert View() == TakeByte(before, before.rx[0]).(rx := before.rx[1..]);
      }
      NothingReceived(View());
    }

    /** One byte into the transmit FIFO. */
    method PushByte()
      requires txW < writeBuf.Length
      modifies this`txFifo, this`txW, this`rxW, this`hist
      ensures txW == old(txW) + 1 && rxW == old(rxW) + 1
      ensures var data := Mapped(convention, writeBuf[old(txW)]);
        txFifo == old(txFifo) + [data] && hist == old(hist).(pushed := old(hist).pushed + [data])
    {
      var data := writeBuf[txW];
      if convention == Invert {
        data := Inverted(data);
      }
      txFifo := txFifo + [data];
      hist := hist.(pushed := hist.pushed + [data]);
      txW := txW + 1;
      rxW := rxW + 1;
    }

    /** Fills the transmit FIFO; the reading pointer skips the echo to come. */
    method Fill(room: nat)
      requires Valid()
      modifies this`txFifo, this`txW, this`rxW, this`irqMode, this`hist
      ensures Valid() && View() == Filled(old(View()), room)
    {
      hide MappedAll, Mapped;
      ghost var s := View();
      var size := if txR - txW > room then room else txR - txW;
      NoBytes();
      var i := 0;
      assert s.tx + [] == s.tx && s.hist.pushed + [] == s.hist.pushed;
      while i < size
        invariant i <= size && txW == s.txW + i && rxW == s.rxW + i && txW <= txR && irqMode == s.mode
        invariant txFifo == s.tx + MappedAll(convention, writeBuf[s.txW..s.txW + i])
        invariant hist == s.hist.(pushed := s.hist.pushed + MappedAll(convention, writeBuf[s.txW..s.txW + i]))
      {
        Longer(i, s, s.tx);
        Longer(i, s, s.hist.pushed);
        PushByte();
        i := i + 1;
      }
      assert s.message == writeBuf[..txR];
      assert writeBuf[..txR][s.txW..s.txW + size] == writeBuf[s.txW..s.txW + size];
      if txR == txW {
        SetSerialIrq(1);
      }
    }

    lemma {:induction false} NoBytes()
      ensures MappedAll(convention, []) == []
    {
    }

    lemma {:induction false} Longer(i: nat, s: State, front: seq<byte>)
      requires writeBuf.Length == 1024 && s.txW + i < 1024
      ensures front + MappedAll(convention, writeBuf[s.txW..s.txW + i + 1])
           == front + MappedAll(convention, writeBuf[s.txW..s.txW + i]) + [Mapped(convention, writeBuf[s.txW + i])]
    {
      hide Mapped;
      var m := MappedAll(convention, writeBuf[s.txW..s.txW + i]);
      var data := Mapped(convention, writeBuf[s.txW + i]);
      assert MappedAll(convention, writeBuf[s.txW..s.txW + i + 1]) == m + [data];
      assert front + (m + [data]) == front + m + [data];
    }

    /** The interrupt handler, without overrun of the receive FIFO. */
    method RxTxHandler()
      requires Valid() && rxR + |rxFifo| <= 1024
      modifies this, readBuf
      ensures Valid() && View() == DoIrq(old(View()))
    {
      hide Received, Filled;
      ghost var s := View();
      ReceivedShape(s);
      if rxFifo != [] && (irqMode == 1 || irqMode == 3 || irqMode == 7) {
        Receive();
      }
      if txFifo == [] && (irqMode == 2 || irqMode == 3 || irqMode == 7) {
        Fill(16);
      } else if |txFifo| <= 8 && irqMode == 7 {
        Fill(8);
      }
    }

    /** `sci_write`, once everything written before was pushed. */
    method SciWrite(buffer: seq<byte>) returns (count: nat)
      requires Valid() && txW == txR
      modifies this, writeBuf
      ensures Valid() && View() == DoWrite(old(View()), buffer)
      ensures count == if |buffer| <= 1024 then |buffer| else 1024
    {
      count := if |buffer| <= 1024 then |buffer| else 1024;
      Store(buffer, count);
      txFifo, rxFifo := [], [];
      txR, txW, rxR, rxW := count, 0, 0, 0;
      hist := History([], 0, [], [], 0);
      if count <= 16 {
        SetSerialIrq(3);
      } else {
        SetSerialIrq(7);
      }
    }

    /** The message in front, and zeros behind it. */
    method Store(buffer: seq<byte>, count: nat)
      requires writeBuf.Length == 1024 && count <= 1024 && count <= |buffer|
      modifies writeBuf
      ensures writeBuf[..count] == buffer[..count]
      ensures forall i :: count <= i < 1024 ==> writeBuf[i] == 0
    {
      forall i | 0 <= i < 1024 {
        writeBuf[i] := if i < count then buffer[i] else 0;
      }
    }

    /** `sci_read`, once its loop has ended. */
    method SciRead(length: nat) returns (buffer: seq<byte>)
      requires Valid() && rxW < rxR <= 1024 && irqMode != 3 && (length <= 1024 || rxW == 0)
      modifies this`rxW, this`rxR, this`hist
      ensures Valid() && View() == WholeRead(old(View()), length)
      ensures hist.delivered == old(hist.delivered) + buffer
      ensures var there := old(rxR - rxW);
              |buffer| == if length > 1024 then 1024 else if length < there then length else there
      ensures old(rxW) + |buffer| <= 1024 && buffer == readBuf[old(rxW)..old(rxW) + |buffer|]
    {
      ghost var s := View();
      WholeReadIs(s, length);
      hide WholeRead;
      var realNumBytes := rxR - rxW;
      if realNumBytes > length {
        realNumBytes := length;
      }
      if length > 1024 {
        realNumBytes := 1024;
      }
      buffer := readBuf[rxW..rxW + realNumBytes];
      assert readBuf[..][rxW..rxW + realNumBytes] == buffer;
      hist := hist.(delivered := hist.delivered + buffer);
      rxW := rxW + realNumBytes;
      if rxW == rxR {
        hist := hist.(dropped := hist.dropped + rxR);
        rxW := 0;
        rxR := 0;
      }
    }
  }
}
