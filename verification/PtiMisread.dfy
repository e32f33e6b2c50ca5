/** A run that meets every condition and gets to the state in which a poll misreads the
    pointers: the state is not just excluded on paper. */
module PtiMisread {
  import opened Common
  import opened PtiStream

  /** `t` is the state after some run from `s`. */
  ghost predicate Reached(s: State, t: State) {
    exists steps :: Inv(s) && IsRun(s, steps) && After(s, steps) == t
  }

  lemma {:induction false} RunJoin(s: State, steps: seq<Step>, step: Step)
    requires Inv(s) && IsRun(s, steps)
    requires Env(After(s, steps), step) && Enabled(After(s, steps), step)
    ensures IsRun(s, steps + [step])
    ensures Inv(Do(After(s, steps), step)) && After(s, steps + [step]) == Do(After(s, steps), step)
    decreases |steps|
  {
    hide Inv, Env, Do, Enabled, WellFormed;
    InvShape(s);
    if steps == [] {
      assert [step][1..] == [];
      assert steps + [step] == [step];
      StepKeepsInv(s, step);
      InvShape(Do(s, step));
    } else {
      RunStep(s, steps);
      RunJoin(Do(s, steps[0]), steps[1..], step);
      assert (steps + [step])[1..] == steps[1..] + [step];
      assert (steps + [step])[0] == steps[0];
    }
  }

  lemma {:induction false} OneStep(s: State, t: State, step: Step)
    requires Reached(s, t) && Env(t, step) && Enabled(t, step)
    ensures WellFormed(t) && Reached(s, Do(t, step))
  {
    hide Inv, Env, Do, Enabled, WellFormed, IsRun, After;
    var steps :| Inv(s) && IsRun(s, steps) && After(s, steps) == t;
    InvShape(t);
    RunJoin(s, steps, step);
  }

  /** The hardware writes on until the stream has `n` bytes. */
  lemma {:induction false} WriteOn(s: State, t: State, n: nat) returns (u: State)
    requires Reached(s, t) && |t.hist.log| < n <= PACKET_SIZE * Consumed(t) + PTI_BUFFER_SIZE
    ensures Reached(s, u) && |u.hist.log| == n
    ensures u == t.(ring := u.ring, reg := u.reg, hist := t.hist.(log := u.hist.log))
    ensures u.reg == if n % PTI_BUFFER_SIZE == 0 then Top(t.base) else t.base + n % PTI_BUFFER_SIZE
    decreases n - |t.hist.log|
  {
    hide Reached;
    OneStep(s, t, HwByte(0, true));
    u := DoHwByte(t, 0, true);
    if |u.hist.log| < n {
      u := WriteOn(s, u, n);
    }
  }

  /** A poll of one entry, up to its signal. */
  lemma {:induction false} PollOne(s: State, t: State, wp: nat, num: nat) returns (u: State)
    requires Reached(s, t) && Outstanding(t) < QUEUE_SIZE
    requires t.poll.Idle? && t.pread == 0 && !ReadsFullRing(t.base, t.rp, t.reg)
    requires t.base <= t.rp && Rewound(t.base, t.rp) == t.rp && t.base <= t.reg && wp == Aligned(t.base, t.reg)
    requires t.rp <= wp <= Top(t.base) && num == (wp - t.rp) / PACKET_SIZE > 0
    ensures WellFormed(t) && |t.hist.bounds| > 0
    ensures Reached(s, u)
    ensures u == t.(rp := wp, pread := num, poll := Idle, sem := t.sem + 1,
                    queue := t.queue[t.writeIndex := Entry(t.rp - t.base, num)],
                    writeIndex := (t.writeIndex + 1) % QUEUE_SIZE,
                    hist := t.hist.(posted := t.hist.posted + 1,
                                    bounds := t.hist.bounds + [t.hist.bounds[|t.hist.bounds| - 1] + num]))
  {
    hide Reached;
    OneStep(s, t, Sample);
    ReachedHistory(s, t);
    var es := [Entry(t.rp - t.base, num)];
    u := Do(t, Sample);
    assert u.poll == StoringOffset(es, wp);
    OneStep(s, u, StoreOffset);
    u := Do(u, StoreOffset);
    OneStep(s, u, StoreCount);
    u := Do(u, StoreCount);
    OneStep(s, u, Bump);
    u := Do(u, Bump);
    assert u.poll == Signalling([], wp);
    OneStep(s, u, Signal);
    u := Do(u, Signal);
  }

  lemma {:induction false} ReachedHistory(s: State, t: State)
    requires Reached(s, t)
    ensures WellFormed(t) && HistoryOk(t)
  {
  }

  /** The injector takes one entry of one packet. */
  lemma {:induction false} InjectOne(s: State, t: State) returns (u: State)
    requires Reached(s, t) && Outstanding(t) < QUEUE_SIZE && t.inj.Waiting? && t.sem > 0
    requires t.readIndex < |t.queue| && t.writeIndex != t.readIndex && t.queue[t.readIndex] == Entry(0, 1)
    requires t.hist.done < |t.hist.bounds|
    ensures Reached(s, u)
    ensures u == t.(sem := t.sem - 1, readIndex := (t.readIndex + 1) % QUEUE_SIZE,
                    aux := u.aux, count1 := u.count1, out := u.out, hist := t.hist.(done := t.hist.done + 1))
  {
    hide Reached;
    OneStep(s, t, Down);
    u := Do(t, Down);
    OneStep(s, u, Check);
    u := Do(u, Check);
    OneStep(s, u, Load);
    u := Do(u, Load);
    u := SortOne(s, u);
    u := FlushAll(s, u, 0);
    OneStep(s, u, Advance);
    u := Do(u, Advance);
  }

  lemma {:induction false} SortOne(s: State, t: State) returns (u: State)
    requires Reached(s, t) && t.inj == Looping(0, 1, 0)
    ensures Reached(s, u)
    ensures u == t.(inj := Flushing(1, 0), aux := u.aux, count1 := u.count1, out := u.out)
  {
    hide Reached;
    OneStep(s, t, Packet);
    u := Do(t, Packet);
    OneStep(s, u, Packet);
    u := Do(u, Packet);
  }

  lemma {:induction false} FlushAll(s: State, t: State, tag: nat) returns (u: State)
    requires Reached(s, t) && t.inj == Flushing(1, tag) && tag <= TAG_COUNT
    ensures Reached(s, u)
    ensures u == t.(inj := Advancing(1), out := u.out)
    decreases TAG_COUNT - tag
  {
    hide Reached;
    OneStep(s, t, Flush);
    u := Do(t, Flush);
    if tag < TAG_COUNT {
      u := FlushAll(s, u, tag + 1);
    }
  }

  lemma {:induction false} AckOne(s: State, t: State) returns (u: State)
    requires Reached(s, t)
    ensures Reached(s, u) && u == t.(pread := 0)
  {
    hide Reached;
    OneStep(s, t, HwAck);
    u := Do(t, HwAck);
  }

  /** From every initial state a run that meets the conditions gets there: one packet is
      polled and delivered, then the hardware fills the ring to the top, a poll takes all of
      it, and the register still reads the top when the next poll begins. */
  lemma MisreadIsReached(s: State) returns (t: State)
    requires Init(s)
    ensures Reached(s, t) && t.poll.Idle? && Misread(t)
  {
    assert Reached(s, s) by {
      InitInv(s);
      assert IsRun(s, []) && After(s, []) == s;
    }
    hide Reached;
    t := AckOne(s, s);
    t := WriteOn(s, t, PACKET_SIZE);
    t := PollOne(s, t, s.base + PACKET_SIZE, 1);
    t := InjectOne(s, t);
    t := AckOne(s, t);
    t := WriteOn(s, t, PTI_BUFFER_SIZE);
    t := PollOne(s, t, Top(s.base), RING_PACKETS - 1);
    t := AckOne(s, t);
  }
}
