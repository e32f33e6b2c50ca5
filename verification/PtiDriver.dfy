/** The driver's own code for one poll and for one pass of the injector, over its global
    variables and buffers, and the proof that run without interruption they are exactly
    the steps of the interleaved machine. */
module PtiDriver {
  import opened Common
  import opened PtiStream

  // ---------------------------------------------------------------------------
  // Uninterrupted passes as sequences of steps
  // ---------------------------------------------------------------------------

  predicate PostReady(s: State) {
    WellFormed(s) && s.poll.StoringOffset? && (s.poll.wp == s.base || s.base < s.poll.wp <= Top(s.base))
  }

  function PostOne(s: State): (t: State)
    requires PostReady(s)
    ensures t.poll.Idle? || (PostReady(t) && |t.poll.pending| == |s.poll.pending| - 1)
  {
    Do(Do(Do(Do(s, StoreOffset), StoreCount), Bump), Signal)
  }

  function PostAll(s: State): State
    requires PostReady(s)
    decreases |s.poll.pending|
  {
    var t := PostOne(s);
    if t.poll.Idle? then t else PostAll(t)
  }

  /** A whole poll: sampling, then posting every planned entry. */
  function Polled(s: State): State
    requires WellFormed(s) && s.poll.Idle?
  {
    var t := Do(s, Sample);
    if t.poll.Idle? then t else PostAll(t)
  }

  lemma {:induction false} PostsOne(t: State)
    requires PostReady(t) && |t.poll.pending| == 1
    ensures PostOne(t).poll.Idle? && PostAll(t) == PostOne(t)
  {
  }

  lemma {:induction false} PostsTwo(t: State)
    requires PostReady(t) && |t.poll.pending| == 2
    ensures var u := PostOne(t);
      && PostReady(u) && u.poll.wp == t.poll.wp && u.rp == t.rp && u.poll.pending == t.poll.pending[1..]
      && PostAll(t) == PostOne(u)
  {
    PostsOne(PostOne(t));
  }

  /** What sampling plans when it plans anything. */
  lemma {:induction false} Sampled(s: State)
    requires WellFormed(s) && s.poll.Idle?
    ensures var rp, wp := Rewound(s.base, s.rp), Aligned(s.base, s.reg);
            var num, t := NumPackets(s.base, rp, wp), DoSample(s);
            if num == 0 || s.pread != 0 then t == s.(rp := rp)
            else
              && PostReady(t) && t.poll.wp == wp
              && t == s.(rp := rp, pread := num, poll := t.poll, hist := t.hist)
              && t.poll.pending == Entries(s.base, rp, wp)
  {
    assert Entries(s.base, Rewound(s.base, s.rp), Aligned(s.base, s.reg)) != [];
    hide Entries, NumPackets, Ends;
  }

  /** The three outcomes of a poll, in terms of the pointers it computed. */
  lemma {:induction false} PolledOutcome(s: State)
    requires WellFormed(s) && s.poll.Idle?
    ensures var rp, wp := Rewound(s.base, s.rp), Aligned(s.base, s.reg);
            var num := NumPackets(s.base, rp, wp);
            if num == 0 || s.pread != 0 then Polled(s) == s.(rp := rp)
            else
              var t := DoSample(s);
              && PostReady(t) && t.poll.wp == wp
              && t == s.(rp := rp, pread := num, poll := t.poll, hist := t.hist)
              && t.poll.pending[0] == Entry(rp - s.base, if rp > wp then (Top(s.base) - rp) / PACKET_SIZE else num)
              && (rp <= wp ==> |t.poll.pending| == 1 && Polled(s) == PostOne(t))
              && (rp > wp ==>
                    && PostReady(PostOne(t)) && PostOne(t).poll.wp == wp && PostOne(t).rp == rp
                    && PostOne(t).poll.pending == [Entry(0, num - (Top(s.base) - rp) / PACKET_SIZE)]
                    && Polled(s) == PostOne(PostOne(t)))
  {
    hide DoSample, PostOne, PostAll, NumPackets, Aligned, Rewound;
    Sampled(s);
    var t := DoSample(s);
    if !t.poll.Idle? {
      if |t.poll.pending| == 1 {
        PostsOne(t);
      } else {
        PostsTwo(t);
      }
    }
  }

  ghost predicate Sound(s: State) {
    Inv(s) && Outstanding(s) < QUEUE_SIZE
  }

  /** With different indices the queue is neither empty nor full. */
  lemma IndicesDiffer(s: State)
    requires Inv(s) && s.writeIndex != s.readIndex
    ensures Sound(s)
  {
    hide PointersOk, QueueOk, InjectorOk, SemaphoreOk, RingOk, TagOk;
    assert Outstanding(s) == QUEUE_SIZE ==> s.hist.posted == s.hist.done + QUEUE_SIZE;
  }

  lemma InjectorStepSound(s: State, step: Step)
    requires Sound(s) && Enabled(s, step)
    requires step.Down? || step.Check? || step.Load? || step.Packet? || step.Flush?
    ensures WellFormed(s) && Sound(Do(s, step)) && WellFormed(Do(s, step))
    ensures step.Check? ==> Do(s, step).inj.Loading?
  {
    StepKeepsInv(s, step);
    InjectorStepShape(s, step);
    InvShape(Do(s, step));
    hide Inv, Do;
  }

  /** The injector's steps change none of the conditions but by consuming. */
  lemma InjectorStepShape(s: State, step: Step)
    requires Sound(s) && Enabled(s, step)
    requires step.Down? || step.Check? || step.Load? || step.Packet? || step.Flush?
    ensures WellFormed(s)
    ensures var t := Do(s, step);
            t.hist == s.hist && t.base == s.base && t.rp == s.rp && t.reg == s.reg && Consumed(t) >= Consumed(s)
    ensures step.Check? ==> Do(s, step).inj.Loading?
  {
    hide PointersOk, QueueOk, RingOk, TagOk;
    if step.Check? {
      CheckDiscardsIff(s);
    }
  }

  ghost function RunPackets(s: State): (t: State)
    requires Sound(s) && s.inj.Looping?
    ensures Sound(t) && t.inj == Flushing(s.inj.count, 0)
    decreases s.inj.count - s.inj.n
  {
    InjectorStepSound(s, Packet);
    var t := DoPacket(s);
    if s.inj.n >= s.inj.count then t else RunPackets(t)
  }

  ghost function RunFlushes(s: State): (t: State)
    requires Sound(s) && s.inj.Flushing?
    ensures Sound(t) && t.inj == Advancing(s.inj.count)
    decreases TAG_COUNT - s.inj.tag
  {
    InjectorStepSound(s, Flush);
    var t := DoFlush(s);
    if s.inj.tag >= TAG_COUNT then t else RunFlushes(t)
  }

  /** From the semaphore to the first packet of the entry at the read index. */
  lemma LoadSteps(s: State)
    requires Sound(s) && s.inj.Waiting? && s.sem > 0
    ensures WellFormed(s) && WellFormed(Do(s, Down))
    ensures Do(Do(s, Down), Check).inj.Loading? && WellFormed(Do(Do(s, Down), Check))
    ensures var e, t := s.queue[s.readIndex], Do(Do(Do(s, Down), Check), Load);
            Sound(t)
            && t == s.(sem := s.sem - 1, inj := Looping(e.offset, e.count, 0),
                       aux := [[], [], [], []], count1 := [0, 0, 0, 0])
  {
    hide Inv, Env;
    InjectorStepSound(s, Down);
    InjectorStepSound(Do(s, Down), Check);
    InjectorStepSound(Do(Do(s, Down), Check), Load);
  }

  ghost function Loaded(s: State): (t: State)
    requires Sound(s) && s.inj.Waiting? && s.sem > 0
    ensures Sound(t) && t.inj.Looping?
  {
    LoadSteps(s);
    Do(Do(Do(s, Down), Check), Load)
  }

  /** A whole pass of the injector, from the semaphore to the moved read index. */
  ghost function Injected(s: State): State
    requires Sound(s) && s.inj.Waiting? && s.sem > 0
  {
    var t := RunFlushes(RunPackets(Loaded(s)));
    assert WellFormed(t);
    Do(t, Advance)
  }

  lemma RunPacketsStep(s: State)
    requires Sound(s) && s.inj.Looping?
    ensures WellFormed(s) && WellFormed(DoPacket(s)) && Sound(DoPacket(s))
    ensures s.inj.n >= s.inj.count ==> RunPackets(s) == DoPacket(s)
    ensures s.inj.n < s.inj.count ==> DoPacket(s).inj.Looping? && RunPackets(s) == RunPackets(DoPacket(s))
    ensures forall k :: 0 <= k < TAG_COUNT ==> |s.aux[k]| == PAYLOAD_SIZE * s.count1[k] && s.count1[k] < AUX_COUNT
  {
    InjectorStepSound(s, Packet);
    TagsBuffered(s);
    assert forall k :: 0 <= k < TAG_COUNT ==> Buffered(s, k);
  }

  lemma RunFlushesStep(s: State)
    requires Sound(s) && s.inj.Flushing?
    ensures WellFormed(s) && Sound(DoFlush(s))
    ensures s.inj.tag >= TAG_COUNT ==> RunFlushes(s) == DoFlush(s)
    ensures s.inj.tag < TAG_COUNT ==> DoFlush(s).inj.Flushing? && RunFlushes(s) == RunFlushes(DoFlush(s))
    ensures s.inj.tag < TAG_COUNT ==> |s.aux[s.inj.tag]| == PAYLOAD_SIZE * s.count1[s.inj.tag]
  {
    InjectorStepSound(s, Flush);
    TagsBuffered(s);
    assert s.inj.tag < TAG_COUNT ==> Buffered(s, s.inj.tag);
    hide Inv, TagOk;
  }

  lemma AdvanceShape(s: State)
    requires Sound(s) && s.inj.Advancing?
    ensures WellFormed(s) && WellFormed(Do(s, Advance)) && s.readIndex < QUEUE_SIZE
    ensures Do(s, Advance) == s.(readIndex := (s.readIndex + 1) % QUEUE_SIZE, inj := Waiting,
                                 hist := s.hist.(done := s.hist.done + 1))
  {
  }

  /** What one pass does: nothing but lower the semaphore if the indices are equal. */
  ghost function Passed(s: State): State
    requires WellFormed(s) && s.inj.Waiting? && s.sem > 0
    requires s.writeIndex != s.readIndex ==> Sound(s)
  {
    if s.writeIndex == s.readIndex then s.(sem := s.sem - 1) else Injected(s)
  }

  lemma InjectedShape(s: State)
    requires Sound(s) && s.inj.Waiting? && s.sem > 0
    ensures WellFormed(s) && WellFormed(Injected(s))
    ensures var e := s.queue[s.readIndex];
            Loaded(s) == s.(sem := s.sem - 1, inj := Looping(e.offset, e.count, 0),
                            aux := [[], [], [], []], count1 := [0, 0, 0, 0])
    ensures var t := RunFlushes(RunPackets(Loaded(s)));
            Injected(s) == t.(readIndex := (t.readIndex + 1) % QUEUE_SIZE, inj := Waiting,
                              hist := t.hist.(done := t.hist.done + 1))
  {
    hide Sound, RunFlushes, RunPackets, Do;
    LoadSteps(s);
    AdvanceShape(RunFlushes(RunPackets(Loaded(s))));
  }

  // ---------------------------------------------------------------------------
  // The driver
  // ---------------------------------------------------------------------------

  class Driver {
    const base: nat
    const backBuffer: array<byte>
    const workQueue: array<Entry>
    const auxbuf: array2<byte>
    var dmaWrite: nat
    var pread: nat
    var dma0BufferRp: nat
    var workSem: nat
    var readIndex: nat
    var writeIndex: nat
    const demux: seq<bool>
    var delivered: seq<seq<Batch>>
    ghost var aux: seq<seq<byte>>
    ghost var count1: seq<nat>
    ghost var hist: History

    ghost function View(): State
      reads this, backBuffer, workQueue
    {
      State(base, backBuffer[..], dmaWrite, pread, dma0BufferRp, workQueue[..], workSem, readIndex, writeIndex,
            Idle, Waiting, demux, aux, count1, delivered, hist)
    }

    ghost predicate Valid()
      reads this, backBuffer, workQueue
    {
      && auxbuf.Length0 == TAG_COUNT && auxbuf.Length1 == PAYLOAD_SIZE * AUX_COUNT
      && (auxbuf as object != backBuffer as object) && (auxbuf as object != workQueue as object)
      && WellFormed(View())
    }

    /** The timer function, with no discarded packets reported. */
    method ProcessPtiDma()
      requires Valid()
      modifies this, workQueue
      ensures Valid() && View() == Polled(old(View()))
    {
      hide Polled, PostOne, DoSample, PostReady, Aligned, Rewound, NumPackets;
      ghost var s0 := View();
      PolledOutcome(s0);
      var ptiWp, numPackets, bufferRound := Measure();
      if numPackets != 0 {
        if pread == 0 {
          pread := numPackets;
          Notify(ptiWp, numPackets, bufferRound, s0);
          dma0BufferRp := ptiWp;
        }
      }
    }

    /** The aligned write pointer, the number of packets in front of it, and whether they go
        around the wrap; the read pointer is rewound. */
    method Measure() returns (ptiWp: nat, numPackets: nat, bufferRound: bool)
      requires Valid()
      modifies this`dma0BufferRp
      ensures Valid() && View() == old(View()).(rp := Rewound(base, old(dma0BufferRp)))
      ensures ptiWp == Aligned(base, dmaWrite) && base <= ptiWp <= Top(base)
      ensures numPackets == NumPackets(base, dma0BufferRp, ptiWp) && bufferRound == (dma0BufferRp > ptiWp)
    {
      bufferRound := false;
      ptiWp := dmaWrite;
      ptiWp := ptiWp - (ptiWp - base) % PACKET_SIZE;
      var top := base + PTI_BUFFER_SIZE;
      if dma0BufferRp / 16 == top / 16 {
        dma0BufferRp := base;
      }
      if dma0BufferRp <= ptiWp {
        numPackets := (ptiWp - dma0BufferRp) / PACKET_SIZE;
      } else {
        numPackets := ((top - dma0BufferRp) + (ptiWp - base)) / PACKET_SIZE;
        bufferRound := true;
      }
    }

    /** The injector is told about the packets: in one entry, or in two around the wrap. */
    method Notify(ptiWp: nat, numPackets: nat, bufferRound: bool, ghost s0: State)
      requires Valid() && WellFormed(s0) && s0.poll.Idle? && numPackets != 0 && s0.pread == 0
      requires base == s0.base && dma0BufferRp == Rewound(base, s0.rp) && ptiWp == Aligned(base, s0.reg)
      requires numPackets == NumPackets(base, dma0BufferRp, ptiWp) && bufferRound == (dma0BufferRp > ptiWp)
      requires View() == s0.(rp := dma0BufferRp, pread := numPackets)
      modifies this`workSem, this`writeIndex, this`hist, workQueue
      ensures Valid() && View() == Polled(s0).(rp := dma0BufferRp)
      ensures Polled(s0).rp == ptiWp
    {
      hide Polled, DoSample, Aligned, Rewound, NumPackets;
      PolledOutcome(s0);
      ghost var s := DoSample(s0);
      hist := s.hist;
      if bufferRound {
        SplitShorter(base, dma0BufferRp, ptiWp);
        var numPackets1 := ((base + PTI_BUFFER_SIZE) - dma0BufferRp) / PACKET_SIZE;
        Post(Entry(dma0BufferRp - base, numPackets1), s);
        Post(Entry(0, numPackets - numPackets1), PostOne(s));
      } else {
        Post(Entry(dma0BufferRp - base, numPackets), s);
      }
    }

    /** One entry into the queue: both fields, the write index, the semaphore. */
    method Post(e: Entry, ghost s: State)
      requires Valid() && PostReady(s) && e == s.poll.pending[0]
      requires View() == s.(poll := Idle)
      modifies this`workSem, this`writeIndex, this`hist, workQueue
      ensures Valid()
      ensures View() == PostOne(s).(poll := Idle, rp := s.rp)
    {
      workQueue[writeIndex] := workQueue[writeIndex].(offset := e.offset);
      workQueue[writeIndex] := workQueue[writeIndex].(count := e.count);
      writeIndex := (writeIndex + 1) % QUEUE_SIZE;
      workSem := workSem + 1;
      hist := hist.(posted := hist.posted + 1);
    }

    /** The first `len` bytes of the buffer of one tag. */
    function Row(tag: nat, len: nat): (r: seq<byte>)
      requires tag < auxbuf.Length0 && len <= auxbuf.Length1
      reads auxbuf
      ensures |r| == len
    {
      seq(len, j requires 0 <= j < len reads auxbuf => auxbuf[tag, j])
    }

    /** The buffers hold what the machine's buffers hold. */
    ghost predicate Mirrors(s: State, pTo: seq<nat>)
      requires auxbuf.Length0 == TAG_COUNT && auxbuf.Length1 == PAYLOAD_SIZE * AUX_COUNT
      reads auxbuf
    {
      && |s.aux| == |pTo| == TAG_COUNT
      && forall k :: 0 <= k < TAG_COUNT ==> pTo[k] <= auxbuf.Length1 && Row(k, pTo[k]) == s.aux[k]
    }

    /** `memmove` of one payload behind the bytes the tag's buffer already holds. */
    method Append(tag: nat, at: nat, from: nat)
      requires auxbuf.Length0 == TAG_COUNT && auxbuf.Length1 == PAYLOAD_SIZE * AUX_COUNT
      requires auxbuf as object != backBuffer as object
      requires tag < TAG_COUNT && at + PAYLOAD_SIZE <= auxbuf.Length1 && from + PAYLOAD_SIZE <= backBuffer.Length
      modifies auxbuf
      ensures Row(tag, at + PAYLOAD_SIZE) == old(Row(tag, at)) + backBuffer[from..from + PAYLOAD_SIZE]
      ensures forall k, len | 0 <= k < TAG_COUNT && k != tag && 0 <= len <= auxbuf.Length1 ::
                Row(k, len) == old(Row(k, len))
    {
      forall j | at <= j < at + PAYLOAD_SIZE {
        auxbuf[tag, j] := backBuffer[from + (j - at)];
      }
    }

    /** One pass of the injector's endless loop, once the semaphore let it through. */
    method InjectNext()
      requires Valid() && workSem > 0
      requires writeIndex != readIndex ==> Inv(View())
      modifies this, auxbuf
      ensures Valid() && View() == old(Passed(View()))
    {
      ghost var s0 := View();
      workSem := workSem - 1;
      if writeIndex == readIndex {
        return;
      }
      IndicesDiffer(s0);
      InjectEntry(s0);
    }

    /** The queue entry at the read index, from reading it to moving the index. */
    method InjectEntry(ghost s0: State)
      requires Valid() && Sound(s0) && s0.inj.Waiting? && s0.sem > 0
      requires View() == s0.(sem := s0.sem - 1)
      modifies this, auxbuf
      ensures Valid() && View() == Injected(s0)
    {
      hide Injected, Loaded, Sound, RunPackets, RunFlushes, Do;
      ghost var s1 := Loaded(s0);
      InjectedShape(s0);
      var offset, count := workQueue[readIndex].offset, workQueue[readIndex].count;
      hide WellFormed;
      InjectPackets(offset, count, s1);
      readIndex := (readIndex + 1) % QUEUE_SIZE;
      hist := hist.(done := hist.done + 1);
    }

    /** The packets of one entry, sorted and handed on. */
    method InjectPackets(offset: nat, count: nat, ghost s1: State)
      requires Valid() && Sound(s1) && s1.inj == Looping(offset, count, 0)
      requires s1 == View().(inj := s1.inj, aux := [[], [], [], []], count1 := [0, 0, 0, 0])
      modifies this`delivered, this`aux, this`count1, auxbuf
      ensures Valid() && RunFlushes(RunPackets(s1)) == View().(inj := Advancing(count))
    {
      hide Sound, RunPackets, RunFlushes, Mirrors, WellFormed;
      var pTo, counts := SortPackets(offset, count, s1);
      FlushRemainders(count, counts, pTo, RunPackets(s1));
    }

    /** Sorts the packets of one entry by tag, dropping the headers. */
    method SortPackets(offset: nat, count: nat, ghost s1: State) returns (pTo: seq<nat>, counts: seq<nat>)
      requires Valid() && Sound(s1) && s1.inj == Looping(offset, count, 0)
      requires s1 == View().(inj := s1.inj, aux := [[], [], [], []], count1 := [0, 0, 0, 0])
      modifies this`delivered, this`aux, this`count1, auxbuf
      ensures Valid() && RunPackets(s1) == View().(inj := Flushing(count, 0))
      ensures counts == count1 && Mirrors(View(), pTo)
    {
      hide Sound, RunPackets;
      aux, count1 := [[], [], [], []], [0, 0, 0, 0];
      pTo, counts := [0, 0, 0, 0], [0, 0, 0, 0];
      var pFrom, n := offset, 0;
      ghost var s := s1;
      while n < count
        invariant Valid() && 0 <= n <= count && pFrom == offset + PACKET_SIZE * n
        invariant s == View().(inj := Looping(offset, count, n)) && Sound(s)
        invariant RunPackets(s) == RunPackets(s1)
        invariant counts == count1 && Mirrors(s, pTo)
      {
        RunPacketsStep(s);
        pTo, counts := SortPacket(pFrom, pTo, counts, s);
        pFrom := pFrom + PACKET_SIZE;
        n := n + 1;
        s := DoPacket(s);
      }
      RunPacketsStep(s);
    }

    /** One packet: copied behind its tag's buffer, and a full buffer is handed on. */
    method SortPacket(pFrom: nat, pTo: seq<nat>, counts: seq<nat>, ghost s: State)
        returns (pTo': seq<nat>, counts': seq<nat>)
      requires Valid() && WellFormed(s) && s.inj.Looping? && s.inj.n < s.inj.count
      requires s == View().(inj := s.inj) && pFrom == s.inj.offset + PACKET_SIZE * s.inj.n
      requires counts == count1 && Mirrors(s, pTo)
      requires forall k :: 0 <= k < TAG_COUNT ==> |s.aux[k]| == PAYLOAD_SIZE * s.count1[k] && s.count1[k] < AUX_COUNT
      modifies this`delivered, this`aux, this`count1, auxbuf
      ensures auxbuf.Length0 == TAG_COUNT && auxbuf.Length1 == PAYLOAD_SIZE * AUX_COUNT
      ensures DoPacket(s) == View().(inj := s.inj.(n := s.inj.n + 1))
      ensures counts' == count1 && Mirrors(DoPacket(s), pTo')
    {
      pTo', counts' := pTo, counts;
      var tag := (backBuffer[pFrom] / 4) % 16;
      if tag < TAG_COUNT && demux[tag] {
        Append(tag, pTo[tag], pFrom + HEADER_SIZE);
        pTo' := pTo'[tag := pTo'[tag] + PAYLOAD_SIZE];
        counts' := counts'[tag := counts'[tag] + 1];
        if counts'[tag] >= AUX_COUNT {
          HandOn(tag, counts'[tag]);
          pTo' := pTo'[tag := 0];
          counts' := counts'[tag := 0];
        }
      }
      aux, count1 := DoPacket(s).aux, DoPacket(s).count1;
    }

    /** One batch to the demux of a tag. */
    method HandOn(tag: nat, count: nat)
      requires auxbuf.Length0 == TAG_COUNT && auxbuf.Length1 == PAYLOAD_SIZE * AUX_COUNT
      requires tag < TAG_COUNT == |delivered| && count <= AUX_COUNT
      modifies this`delivered
      ensures delivered == old(delivered)[tag := old(delivered)[tag] + [Batch(Row(tag, PAYLOAD_SIZE * count), count)]]
    {
      delivered := delivered[tag := delivered[tag] + [Batch(Row(tag, PAYLOAD_SIZE * count), count)]];
    }

    /** Hands on what is left in the buffers, tag by tag. */
    method FlushRemainders(count: nat, counts: seq<nat>, pTo: seq<nat>, ghost s1: State)
      requires Valid() && Sound(s1) && s1 == View().(inj := Flushing(count, 0))
      requires counts == count1 && Mirrors(View(), pTo)
      modifies this`delivered
      ensures Valid() && RunFlushes(s1) == View().(inj := Advancing(count))
    {
      hide Sound, RunFlushes;
      ghost var s := s1;
      for n := 0 to TAG_COUNT
        invariant Valid() && s == View().(inj := Flushing(count, n)) && Sound(s)
        invariant RunFlushes(s) == RunFlushes(s1)
      {
        RunFlushesStep(s);
        if counts[n] > 0 && demux[n] {
          HandOn(n, counts[n]);
        }
        s := DoFlush(s);
      }
      RunFlushesStep(s);
    }
  }
}
