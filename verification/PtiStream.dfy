/** The transport-stream path of the PTI driver: the hardware fills a ring of packets,
    a timer polls its write pointer and queues ranges of the ring, and an injector
    thread takes the ranges from the queue, sorts the packets by tag and hands their
    payloads on in small batches. The three run interleaved, one small step at a time. */
module PtiStream {
  import opened Common

  const HEADER_SIZE: nat := 6
  const PACKET_SIZE: nat := 194
  const PAYLOAD_SIZE: nat := 188
  const RING_PACKETS: nat := 4096
  const PTI_BUFFER_SIZE: nat := 794624
  const QUEUE_SIZE: nat := 400
  const TAG_COUNT: nat := 4
  const AUX_COUNT: nat := 20

  /** One entry of the work queue: a byte offset into the ring and a packet count. */
  datatype Entry = Entry(offset: nat, count: nat)

  /** One call into the demultiplexer. */
  datatype Batch = Batch(data: seq<byte>, count: nat)

  // ---------------------------------------------------------------------------
  // Poll arithmetic
  // ---------------------------------------------------------------------------

  function Top(base: nat): nat {
    base + PTI_BUFFER_SIZE
  }

  /** The write pointer cut down to a whole number of packets. */
  function Aligned(base: nat, wp: nat): nat
    requires wp >= base
  {
    wp - (wp - base) % PACKET_SIZE
  }

  /** The wrap test compares the pointers without their low four bits. */
  function Rewound(base: nat, rp: nat): nat {
    if rp / 16 == Top(base) / 16 then base else rp
  }

  function NumPackets(base: nat, rp: nat, wp: nat): nat
    requires base <= wp <= Top(base) && base <= rp <= Top(base)
  {
    if rp <= wp then (wp - rp) / PACKET_SIZE
    else ((Top(base) - rp) + (wp - base)) / PACKET_SIZE
  }

  /** The one or two ranges a poll queues. */
  function Entries(base: nat, rp: nat, wp: nat): seq<Entry>
    requires base <= wp <= Top(base) && base <= rp <= Top(base)
  {
    var num := NumPackets(base, rp, wp);
    if rp <= wp then [Entry(rp - base, num)]
    else
      var num1 := (Top(base) - rp) / PACKET_SIZE;
      SplitShorter(base, rp, wp);
      [Entry(rp - base, num1), Entry(0, num - num1)]
  }

  lemma SplitShorter(base: nat, rp: nat, wp: nat)
    requires base <= wp < rp <= Top(base)
    ensures (Top(base) - rp) / PACKET_SIZE <= NumPackets(base, rp, wp)
  {
  }

  /** `addr` is where packet number `k` of the stream begins in the ring. */
  ghost predicate PointsAt(base: nat, addr: nat, k: nat) {
    addr == base + PACKET_SIZE * (k % RING_PACKETS) || (k % RING_PACKETS == 0 && addr == Top(base))
  }

  /** `addr` is the register value after `n` bytes; a full ring may read as its top. */
  ghost predicate PointsAfter(base: nat, addr: nat, n: nat) {
    addr == base + n % PTI_BUFFER_SIZE || (n % PTI_BUFFER_SIZE == 0 && addr == Top(base))
  }

  /** On packet boundaries the masked wrap test is the test for the very top. */
  lemma MaskedTestIsExact(base: nat, rp: nat, j: nat)
    requires rp == base + PACKET_SIZE * j && j <= RING_PACKETS
    ensures rp / 16 == Top(base) / 16 <==> rp == Top(base)
  {
    if j < RING_PACKETS {
      assert Top(base) - rp >= PACKET_SIZE;
    }
  }

  lemma AlignedPointsAt(base: nat, reg: nat, n: nat)
    requires PointsAfter(base, reg, n)
    ensures base <= Aligned(base, reg) <= Top(base)
    ensures PointsAt(base, Aligned(base, reg), n / PACKET_SIZE)
    ensures Aligned(base, reg) == Top(base) <==> reg == Top(base)
  {
    var q, r := n / PTI_BUFFER_SIZE, n % PTI_BUFFER_SIZE;
    assert n == PACKET_SIZE * RING_PACKETS * q + r;
    assert n / PACKET_SIZE == RING_PACKETS * q + r / PACKET_SIZE;
    if reg == base + r {
      assert (reg - base) - (reg - base) % PACKET_SIZE == PACKET_SIZE * (r / PACKET_SIZE);
    }
  }

  /** The pointers read as a full ring: the write pointer stands at the top while the read
      pointer is at either end. */
  ghost predicate ReadsFullRing(base: nat, rp: nat, reg: nat) {
    reg == Top(base) && (rp == base || rp == Top(base))
  }

  /** A poll counts exactly the unread packets if and only if the pointers read as a full
      ring when the ring is full and only then. */
  lemma CountIsExact(base: nat, rp: nat, reg: nat, r: nat, n: nat)
    requires PointsAt(base, rp, r) && PointsAfter(base, reg, n)
    requires r <= n / PACKET_SIZE <= r + RING_PACKETS
    ensures base <= Rewound(base, rp) < Top(base) && base <= Aligned(base, reg) <= Top(base)
    ensures Rewound(base, rp) == base + PACKET_SIZE * (r % RING_PACKETS)
    ensures NumPackets(base, Rewound(base, rp), Aligned(base, reg)) == n / PACKET_SIZE - r
            <==> (ReadsFullRing(base, rp, reg) <==> n / PACKET_SIZE == r + RING_PACKETS)
    ensures ReadsFullRing(base, rp, reg) ==>
              NumPackets(base, Rewound(base, rp), Aligned(base, reg)) == RING_PACKETS
              && (n / PACKET_SIZE == r || n / PACKET_SIZE == r + RING_PACKETS)
    ensures !ReadsFullRing(base, rp, reg) && n / PACKET_SIZE == r + RING_PACKETS ==>
              NumPackets(base, Rewound(base, rp), Aligned(base, reg)) == 0
  {
    AlignedPointsAt(base, reg, n);
    var w := n / PACKET_SIZE;
    MaskedTestIsExact(base, rp, if rp == Top(base) then RING_PACKETS else r % RING_PACKETS);
    var a, b := r % RING_PACKETS, w % RING_PACKETS;
    assert r == RING_PACKETS * (r / RING_PACKETS) + a;
    assert w == RING_PACKETS * (w / RING_PACKETS) + b;
    assert w / RING_PACKETS == r / RING_PACKETS || w / RING_PACKETS == r / RING_PACKETS + 1;
  }

  /** `e` is the range of the ring holding packets `from` up to but excluding `to`. */
  ghost predicate Covers(e: Entry, from: nat, to: nat) {
    && from <= to
    && e.offset == PACKET_SIZE * (from % RING_PACKETS)
    && e.count == to - from
    && from % RING_PACKETS + e.count <= RING_PACKETS
  }

  /** The stream position at which the second range begins. */
  ghost function Split(r: nat, w: nat, wraps: bool): seq<nat> {
    if wraps then [r, r - r % RING_PACKETS + RING_PACKETS, w] else [r, w]
  }

  ghost predicate CoverAll(es: seq<Entry>, bounds: seq<nat>) {
    |bounds| == |es| + 1 && forall i :: 0 <= i < |es| ==> Covers(es[i], bounds[i], bounds[i + 1])
  }

  /** The queued ranges are exactly the unread part of the stream, in order, cut once
      where the ring wraps. */
  lemma EntriesCover(base: nat, rp: nat, reg: nat, r: nat, n: nat)
    requires PointsAt(base, rp, r) && PointsAfter(base, reg, n)
    requires r <= n / PACKET_SIZE <= r + RING_PACKETS
    requires ReadsFullRing(base, rp, reg) <==> n / PACKET_SIZE == r + RING_PACKETS
    ensures var p, wp := Rewound(base, rp), Aligned(base, reg);
            base <= wp <= Top(base) && base <= p < Top(base)
            && CoverAll(Entries(base, p, wp), Split(r, n / PACKET_SIZE, p > wp))
            && PointsAt(base, wp, n / PACKET_SIZE)
  {
    CountIsExact(base, rp, reg, r, n);
    AlignedPointsAt(base, reg, n);
    var w, p, wp := n / PACKET_SIZE, Rewound(base, rp), Aligned(base, reg);
    var a, b := r % RING_PACKETS, w % RING_PACKETS;
    assert r == RING_PACKETS * (r / RING_PACKETS) + a;
    assert w == RING_PACKETS * (w / RING_PACKETS) + b;
    if p > wp {
      var m := r - a + RING_PACKETS;
      assert m == RING_PACKETS * (r / RING_PACKETS + 1);
      assert m % RING_PACKETS == 0;
      assert (Top(base) - p) / PACKET_SIZE == RING_PACKETS - a;
      assert w / RING_PACKETS == r / RING_PACKETS + 1;
    }
  }

  // ---------------------------------------------------------------------------
  // The interleaved machine
  // ---------------------------------------------------------------------------

  /** Where a poll stands; `pending` are the entries it has still to store. */
  datatype PollPc =
    | Idle
    | StoringOffset(pending: seq<Entry>, wp: nat)
    | StoringCount(pending: seq<Entry>, wp: nat)
    | Bumping(pending: seq<Entry>, wp: nat)
    | Signalling(pending: seq<Entry>, wp: nat)

  /** Where the injector thread stands. */
  datatype InjectorPc =
    | Waiting
    | Checking
    | Loading
    | Looping(offset: nat, count: nat, n: nat)
    | Flushing(count: nat, tag: nat)
    | Advancing(count: nat)

  /** What has happened so far: all bytes the hardware wrote, the stream positions at
      which the entries begin (ending with the position polled so far), how many entries
      were put into the queue and how many were taken out. */
  datatype History = History(log: seq<byte>, bounds: seq<nat>, posted: nat, done: nat)

  datatype State = State(
    base: nat, ring: seq<byte>, reg: nat, pread: nat, rp: nat,
    queue: seq<Entry>, sem: nat, readIndex: nat, writeIndex: nat,
    poll: PollPc, inj: InjectorPc,
    demux: seq<bool>, aux: seq<seq<byte>>, count1: seq<nat>, out: seq<seq<Batch>>,
    hist: History)

  /** The shape every state has: array lengths and index ranges. */
  predicate WellFormed(s: State) {
    && |s.ring| == PTI_BUFFER_SIZE && |s.queue| == QUEUE_SIZE
    && s.readIndex < QUEUE_SIZE && s.writeIndex < QUEUE_SIZE
    && |s.demux| == |s.aux| == |s.count1| == |s.out| == TAG_COUNT
    && s.base <= s.rp <= Top(s.base) && s.base <= s.reg <= Top(s.base)
    && (!s.poll.Idle? && !s.poll.Signalling? ==> s.poll.pending != [])
    && (s.inj.Looping? && s.inj.n < s.inj.count ==> s.inj.offset + PACKET_SIZE * s.inj.n + PACKET_SIZE <= PTI_BUFFER_SIZE)
    && (s.inj.Flushing? ==> s.inj.tag <= TAG_COUNT)
  }

  datatype Step =
    | HwByte(b: byte, showTop: bool)   // the hardware writes one byte
    | HwWrap                           // the register goes from the top to the base
    | HwAck                            // the firmware takes over the packet count
    | Sample                           // a poll reads the pointers and plans its entries
    | StoreOffset | StoreCount | Bump | Signal
    | Down | Check | Load | Packet | Flush | Advance

  predicate Enabled(s: State, step: Step) {
    match step
    case HwByte(_, _) => true
    case HwWrap => s.reg == Top(s.base)
    case HwAck => true
    case Sample => s.poll.Idle?
    case StoreOffset => s.poll.StoringOffset?
    case StoreCount => s.poll.StoringCount?
    case Bump => s.poll.Bumping?
    case Signal => s.poll.Signalling?
    case Down => s.inj.Waiting? && s.sem > 0
    case Check => s.inj.Checking?
    case Load => s.inj.Loading?
    case Packet => s.inj.Looping?
    case Flush => s.inj.Flushing?
    case Advance => s.inj.Advancing?
  }

  function DoHwByte(s: State, b: byte, showTop: bool): State
    requires WellFormed(s)
  {
    var n := |s.hist.log|;
    var m := (n + 1) % PTI_BUFFER_SIZE;
    s.(ring := s.ring[n % PTI_BUFFER_SIZE := b],
       reg := if m == 0 && showTop then Top(s.base) else s.base + m,
       hist := s.hist.(log := s.hist.log + [b]))
  }

  /** The head of a poll: the wrap test always applies; entries are planned only when
      there are packets and the firmware has taken the last count. */
  function DoSample(s: State): State
    requires WellFormed(s)
  {
    var wp := Aligned(s.base, s.reg);
    var rp := Rewound(s.base, s.rp);
    var num := NumPackets(s.base, rp, wp);
    if num == 0 || s.pread != 0 then s.(rp := rp)
    else
      var es := Entries(s.base, rp, wp);
      s.(rp := rp, pread := num, poll := StoringOffset(es, wp),
         hist := s.hist.(bounds := s.hist.bounds + Ends(s.hist.bounds, es)))
  }

  /** The stream positions at which further entries end. */
  function Ends(bounds: seq<nat>, es: seq<Entry>): seq<nat> {
    var last := if bounds == [] then 0 else bounds[|bounds| - 1];
    if |es| == 0 then []
    else if |es| == 1 then [last + es[0].count]
    else [last + es[0].count, last + es[0].count + es[1].count]
  }

  function DoSignal(s: State): State
    requires s.poll.Signalling?
  {
    s.(sem := s.sem + 1,
       poll := if s.poll.pending == [] then Idle else StoringOffset(s.poll.pending, s.poll.wp),
       rp := if s.poll.pending == [] then s.poll.wp else s.rp)
  }

  function TagOf(bytes: seq<byte>, at: nat): nat
    requires at < |bytes|
  {
    (bytes[at] / 4) % 16
  }

  function PayloadOf(bytes: seq<byte>, at: nat): seq<byte>
    requires at + PACKET_SIZE <= |bytes|
  {
    bytes[at + HEADER_SIZE .. at + PACKET_SIZE]
  }

  /** One packet: dropped unless its tag has a demux; copied without its header behind
      the tag's buffer, which is handed on once it holds twenty payloads. */
  function DoPacket(s: State): State
    requires WellFormed(s) && s.inj.Looping?
  {
    if s.inj.n >= s.inj.count then s.(inj := Flushing(s.inj.count, 0))
    else
      var at := s.inj.offset + PACKET_SIZE * s.inj.n;
      var t := s.(inj := s.inj.(n := s.inj.n + 1));
      var tag := TagOf(s.ring, at);
      if tag >= TAG_COUNT || !s.demux[tag] then t
      else
        var buf := s.aux[tag] + PayloadOf(s.ring, at);
        var c := s.count1[tag] + 1;
        if c >= AUX_COUNT then
          t.(out := s.out[tag := s.out[tag] + [Batch(buf, c)]], aux := s.aux[tag := []], count1 := s.count1[tag := 0])
        else
          t.(aux := s.aux[tag := buf], count1 := s.count1[tag := c])
  }

  /** The remainder of one tag is handed on. */
  function DoFlush(s: State): State
    requires WellFormed(s) && s.inj.Flushing?
  {
    var tag := s.inj.tag;
    if tag >= TAG_COUNT then s.(inj := Advancing(s.inj.count))
    else
      var t := s.(inj := Flushing(s.inj.count, tag + 1));
      if s.count1[tag] > 0 && s.demux[tag] then
        t.(out := s.out[tag := s.out[tag] + [Batch(s.aux[tag], s.count1[tag])]])
      else t
  }

  function Do(s: State, step: Step): State
    requires WellFormed(s) && Enabled(s, step)
  {
    match step
    case HwByte(b, showTop) => DoHwByte(s, b, showTop)
    case HwWrap => s.(reg := s.base)
    case HwAck => s.(pread := 0)
    case Sample => DoSample(s)
    case StoreOffset =>
      s.(queue := s.queue[s.writeIndex := s.queue[s.writeIndex].(offset := s.poll.pending[0].offset)],
         poll := StoringCount(s.poll.pending, s.poll.wp))
    case StoreCount =>
      s.(queue := s.queue[s.writeIndex := s.queue[s.writeIndex].(count := s.poll.pending[0].count)],
         poll := Bumping(s.poll.pending, s.poll.wp))
    case Bump =>
      s.(writeIndex := (s.writeIndex + 1) % QUEUE_SIZE, poll := Signalling(s.poll.pending[1..], s.poll.wp),
         hist := s.hist.(posted := s.hist.posted + 1))
    case Signal => DoSignal(s)
    case Down => s.(sem := s.sem - 1, inj := Checking)
    case Check => s.(inj := if s.writeIndex == s.readIndex then Waiting else Loading)
    case Load =>
      var e := s.queue[s.readIndex];
      s.(inj := Looping(e.offset, e.count, 0), aux := [[], [], [], []], count1 := [0, 0, 0, 0])
    case Packet => DoPacket(s)
    case Flush => DoFlush(s)
    case Advance =>
      s.(readIndex := (s.readIndex + 1) % QUEUE_SIZE, inj := Waiting, hist := s.hist.(done := s.hist.done + 1))
  }

  predicate Init(s: State) {
    && WellFormed(s)
    && s.reg == s.rp == s.base && s.sem == 0 && s.readIndex == 0 && s.writeIndex == 0
    && s.poll.Idle? && s.inj.Waiting? && s.out == [[], [], [], []]
    && s.hist == History([], [0], 0, 0)
  }

  // ---------------------------------------------------------------------------
  // What the machine is for
  // ---------------------------------------------------------------------------

  /** The payloads of the first `k` packets of a stream that carry tag `t`. */
  function Payloads(log: seq<byte>, t: nat, k: nat): seq<byte>
    requires PACKET_SIZE * k <= |log|
    decreases k
  {
    if k == 0 then []
    else
      var at := PACKET_SIZE * (k - 1);
      Payloads(log, t, k - 1) + (if TagOf(log, at) == t then PayloadOf(log, at) else [])
  }

  /** What a demultiplexer received: the bytes of its batches, concatenated. */
  function Received(bs: seq<Batch>): seq<byte> {
    if bs == [] then [] else Received(bs[..|bs| - 1]) + bs[|bs| - 1].data
  }

  /** The number of packets of the stream the injector has dealt with. */
  ghost function Consumed(s: State): nat {
    (if s.hist.done < |s.hist.bounds| then s.hist.bounds[s.hist.done] else 0)
    + match s.inj
      case Looping(_, _, n) => n
      case Flushing(count, _) => count
      case Advancing(count) => count
      case _ => 0
  }

  /** A poll would take the empty ring for a full one and queue all of it again. */
  ghost predicate Misread(s: State) {
    && s.pread == 0 && ReadsFullRing(s.base, s.rp, s.reg)
    && s.hist.bounds != [] && s.hist.bounds[|s.hist.bounds| - 1] == |s.hist.log| / PACKET_SIZE
  }

  /** The conditions under which the driver is meant to work: the hardware overwrites no byte
      before it was consumed, a poll does not misread the pointers, and fewer than 400 entries
      are outstanding when an entry is stored and when the injector looks for one. */
  ghost predicate Env(s: State, step: Step) {
    match step
    case HwByte(_, _) => |s.hist.log| < PACKET_SIZE * Consumed(s) + PTI_BUFFER_SIZE
    case Sample => !Misread(s)
    case StoreOffset => Outstanding(s) < QUEUE_SIZE
    case StoreCount => Outstanding(s) < QUEUE_SIZE
    case Check => Outstanding(s) < QUEUE_SIZE
    case _ => true
  }

  /** The entries put into the queue and not yet done. */
  ghost function Outstanding(s: State): int {
    s.hist.posted - s.hist.done
  }

  /** Every step is possible where it is taken, and meets the conditions there. */
  ghost predicate IsRun(s: State, steps: seq<Step>)
    decreases |steps|
  {
    steps != [] && WellFormed(s) ==>
      Env(s, steps[0]) && Enabled(s, steps[0]) && IsRun(Do(s, steps[0]), steps[1..])
  }

  /** The bytes the hardware writes during a run. */
  function Written(steps: seq<Step>): seq<byte> {
    if steps == [] then []
    else (if steps[0].HwByte? then [steps[0].b] else []) + Written(steps[1..])
  }

  // --- the invariant ---

  ghost predicate HistoryOk(s: State) {
    var h := s.hist;
    && |h.bounds| > 0 && h.bounds[0] == 0
    && h.done <= h.posted < |h.bounds|
    && (forall e :: 0 <= e < |h.bounds| - 1 ==> h.bounds[e] <= h.bounds[e + 1])
    && h.bounds[|h.bounds| - 1] <= |h.log| / PACKET_SIZE
    && s.readIndex == h.done % QUEUE_SIZE && s.writeIndex == h.posted % QUEUE_SIZE
  }

  ghost predicate PointersOk(s: State) {
    var h := s.hist;
    && |h.bounds| > 0
    && PointsAfter(s.base, s.reg, |h.log|)
    && PointsAt(s.base, if s.poll.Idle? then s.rp else s.poll.wp, h.bounds[|h.bounds| - 1])
    && (s.poll.Signalling? ==> s.base <= s.poll.wp <= Top(s.base))
  }

  /** Entries in the queue and entries still to be stored cover the stream. */
  ghost predicate QueueOk(s: State)
    requires WellFormed(s) && HistoryOk(s)
  {
    var h := s.hist;
    && (forall e :: h.done <= e < h.posted ==> Covers(s.queue[e % QUEUE_SIZE], h.bounds[e], h.bounds[e + 1]))
    && (if s.poll.Idle? then h.posted + 1 == |h.bounds|
        else
          && h.posted + |s.poll.pending| + 1 == |h.bounds|
          && CoverAll(s.poll.pending, h.bounds[h.posted..])
          && (s.poll.StoringCount? || s.poll.Bumping? ==>
                s.queue[s.writeIndex].offset == s.poll.pending[0].offset)
          && (s.poll.Bumping? ==> s.queue[s.writeIndex].count == s.poll.pending[0].count))
  }

  ghost predicate InjectorOk(s: State)
    requires HistoryOk(s)
  {
    var h := s.hist;
    match s.inj
    case Waiting => true
    case Checking => h.done < h.posted
    case Loading => h.done < h.posted
    case Looping(offset, count, n) =>
      h.done < h.posted && n <= count && Covers(Entry(offset, count), h.bounds[h.done], h.bounds[h.done + 1])
    case Flushing(count, _) => h.done < h.posted && count == h.bounds[h.done + 1] - h.bounds[h.done]
    case Advancing(count) => h.done < h.posted && count == h.bounds[h.done + 1] - h.bounds[h.done]
  }

  /** The semaphore counts the outstanding entries, less the one the injector holds and
      plus none for an entry whose signal is still due. */
  ghost predicate SemaphoreOk(s: State) {
    s.sem + (if s.inj.Waiting? then 0 else 1) + (if s.poll.Signalling? then 1 else 0)
    == s.hist.posted - s.hist.done
  }

  /** Unconsumed bytes of the stream are still in the ring. */
  ghost predicate RingOk(s: State)
    requires WellFormed(s)
  {
    RingHolds(s.ring, s.hist.log, Consumed(s))
  }

  ghost predicate RingHolds(ring: seq<byte>, log: seq<byte>, consumed: nat)
    requires |ring| == PTI_BUFFER_SIZE
  {
    forall i :: PACKET_SIZE * consumed <= i < |log| ==> ring[i % PTI_BUFFER_SIZE] == log[i]
  }

  ghost predicate BatchOk(b: Batch) {
    1 <= b.count <= AUX_COUNT && |b.data| == PAYLOAD_SIZE * b.count
  }

  /** Whether the buffer of tag `t` holds payloads not yet handed on. */
  ghost predicate Buffered(s: State, t: nat) {
    s.inj.Looping? || (s.inj.Flushing? && s.inj.tag <= t)
  }

  /** What tag `t` has been given so far, and what is still in its buffer. */
  ghost predicate TagOk(s: State, t: nat)
    requires WellFormed(s) && t < TAG_COUNT && PACKET_SIZE * Consumed(s) <= |s.hist.log|
  {
    TagHolds(s.out[t], s.aux[t], s.count1[t], Buffered(s, t), s.demux[t], s.hist.log, t, Consumed(s))
  }

  ghost predicate TagHolds(out: seq<Batch>, aux: seq<byte>, count: nat, buffered: bool, demux: bool,
                           log: seq<byte>, t: nat, consumed: nat)
    requires PACKET_SIZE * consumed <= |log|
  {
    && (forall b :: b in out ==> BatchOk(b))
    && (buffered ==> |aux| == PAYLOAD_SIZE * count && count < AUX_COUNT)
    && Received(out) + (if buffered then aux else []) == if demux then Payloads(log, t, consumed) else []
  }

  /** Ring and queue hold no more than they have places for. */
  ghost predicate Bounded(s: State) {
    && |s.hist.log| <= PACKET_SIZE * Consumed(s) + PTI_BUFFER_SIZE
    && Outstanding(s) <= QUEUE_SIZE
    && (s.poll.StoringCount? || s.poll.Bumping? ==> Outstanding(s) < QUEUE_SIZE)
  }

  ghost predicate Inv(s: State) {
    && WellFormed(s) && Bounded(s) && HistoryOk(s) && PointersOk(s) && QueueOk(s)
    && InjectorOk(s) && SemaphoreOk(s) && RingOk(s)
    && PACKET_SIZE * Consumed(s) <= |s.hist.log|
    && forall t :: 0 <= t < TAG_COUNT ==> TagOk(s, t)
  }

  // ---------------------------------------------------------------------------
  // Every step keeps the invariant
  // ---------------------------------------------------------------------------

  lemma InitInv(s: State)
    requires Init(s)
    ensures Inv(s)
  {
  }

  lemma PayloadsExtend(log: seq<byte>, b: byte, t: nat, k: nat)
    requires PACKET_SIZE * k <= |log|
    ensures Payloads(log + [b], t, k) == Payloads(log, t, k)
    decreases k
  {
    if k > 0 {
      PayloadsExtend(log, b, t, k - 1);
      var at := PACKET_SIZE * (k - 1);
      assert PayloadOf(log + [b], at) == PayloadOf(log, at);
    }
  }

  lemma {:induction false} RingExtends(ring: seq<byte>, log: seq<byte>, consumed: nat, b: byte)
    requires |ring| == PTI_BUFFER_SIZE && RingHolds(ring, log, consumed)
    requires |log| < PACKET_SIZE * consumed + PTI_BUFFER_SIZE
    ensures RingHolds(ring[|log| % PTI_BUFFER_SIZE := b], log + [b], consumed)
  {
    var n := |log|;
    forall i | PACKET_SIZE * consumed <= i < n + 1
      ensures ring[n % PTI_BUFFER_SIZE := b][i % PTI_BUFFER_SIZE] == (log + [b])[i]
    {
      if i < n {
        PlacesDiffer(i, n);
      }
    }
  }

  lemma {:induction false} PlacesDiffer(i: nat, n: nat)
    requires i < n < i + PTI_BUFFER_SIZE
    ensures i % PTI_BUFFER_SIZE != n % PTI_BUFFER_SIZE
  {
  }

  lemma {:induction false} NextPlace(base: nat, n: nat, showTop: bool)
    ensures var m := (n + 1) % PTI_BUFFER_SIZE;
      PointsAfter(base, if m == 0 && showTop then Top(base) else base + m, n + 1)
    ensures n / PACKET_SIZE <= (n + 1) / PACKET_SIZE
  {
  }

  /** Everything but ring and tags after a byte. */
  lemma {:induction false} HwByteShape(s: State, b: byte, showTop: bool)
    requires WellFormed(s) && HistoryOk(s) && InjectorOk(s) && SemaphoreOk(s) && PointersOk(s)
    ensures var t := DoHwByte(s, b, showTop);
      && WellFormed(t) && HistoryOk(t) && PointersOk(t) && InjectorOk(t) && SemaphoreOk(t)
      && Consumed(t) == Consumed(s)
  {
    hide Covers, PointsAt, PointsAfter;
    NextPlace(s.base, |s.hist.log|, showTop);
  }

  lemma {:induction false} HwByteQueue(s: State, b: byte, showTop: bool)
    requires WellFormed(s) && HistoryOk(s) && QueueOk(s)
    requires WellFormed(DoHwByte(s, b, showTop)) && HistoryOk(DoHwByte(s, b, showTop))
    ensures QueueOk(DoHwByte(s, b, showTop))
  {
    hide Covers, CoverAll;
  }

  lemma {:induction false} TagExtends(s: State, b: byte, k: nat)
    requires WellFormed(s) && k < TAG_COUNT && PACKET_SIZE * Consumed(s) <= |s.hist.log| && TagOk(s, k)
    ensures TagHolds(s.out[k], s.aux[k], s.count1[k], Buffered(s, k), s.demux[k], s.hist.log + [b], k, Consumed(s))
  {
    PayloadsExtend(s.hist.log, b, k, Consumed(s));
    hide Payloads, Received, BatchOk;
  }

  lemma {:induction false} HwByteInv(s: State, b: byte, showTop: bool)
    requires Inv(s) && Env(s, HwByte(b, showTop))
    ensures Inv(DoHwByte(s, b, showTop))
  {
    hide HistoryOk, PointersOk, QueueOk, InjectorOk, SemaphoreOk, RingHolds, TagHolds, Consumed;
    HwByteShape(s, b, showTop);
    HwByteQueue(s, b, showTop);
    RingExtends(s.ring, s.hist.log, Consumed(s), b);
    var t := DoHwByte(s, b, showTop);
    forall k | 0 <= k < TAG_COUNT
      ensures TagOk(t, k)
    {
      TagExtends(s, b, k);
    }
  }

  lemma {:induction false} BoundsSorted(bounds: seq<nat>, i: nat, j: nat)
    requires forall e :: 0 <= e < |bounds| - 1 ==> bounds[e] <= bounds[e + 1]
    requires i <= j < |bounds|
    ensures bounds[i] <= bounds[j]
    decreases j - i
  {
    if i < j {
      BoundsSorted(bounds, i, j - 1);
    }
  }

  lemma ConsumedBound(s: State)
    requires WellFormed(s) && HistoryOk(s) && InjectorOk(s)
    ensures Consumed(s) <= s.hist.bounds[|s.hist.bounds| - 1]
  {
    var h := s.hist;
    BoundsSorted(h.bounds, h.done, |h.bounds| - 1);
    if !s.inj.Waiting? {
      BoundsSorted(h.bounds, h.done + 1, |h.bounds| - 1);
    }
  }

  lemma SlotsDiffer(d: nat, e: nat, p: nat)
    requires d <= e < p < d + QUEUE_SIZE
    ensures e % QUEUE_SIZE != p % QUEUE_SIZE
  {
  }

  /** The poll's own steps touch neither the injector's state nor its history. */
  ghost predicate PollFrame(s: State, t: State) {
    t == s.(rp := t.rp, queue := t.queue, sem := t.sem, writeIndex := t.writeIndex, poll := t.poll,
            hist := s.hist.(posted := t.hist.posted))
  }

  lemma PollFrameKeeps(s: State, t: State)
    requires Inv(s) && WellFormed(t) && PollFrame(s, t) && HistoryOk(t)
    ensures RingOk(t) && Consumed(t) == Consumed(s)
    ensures forall k :: 0 <= k < TAG_COUNT ==> TagOk(t, k)
  {
    hide RingHolds, TagHolds, QueueOk, PointersOk, SemaphoreOk, InjectorOk, HistoryOk, WellFormed;
    forall k | 0 <= k < TAG_COUNT
      ensures TagOk(t, k)
    {
      assert TagOk(s, k);
    }
  }

  /** What a poll adds to the history: the cut of the unread part. */
  lemma SampleBounds(s: State, wp: nat)
    requires WellFormed(s) && HistoryOk(s) && wp == Aligned(s.base, s.reg)
    requires var r, w := s.hist.bounds[|s.hist.bounds| - 1], |s.hist.log| / PACKET_SIZE;
             r <= w && CoverAll(Entries(s.base, Rewound(s.base, s.rp), wp), Split(r, w, Rewound(s.base, s.rp) > wp))
    ensures var bounds, es := s.hist.bounds, Entries(s.base, Rewound(s.base, s.rp), wp);
            var more := bounds + Ends(bounds, es);
            && more[|bounds| - 1..] == Split(bounds[|bounds| - 1], |s.hist.log| / PACKET_SIZE, Rewound(s.base, s.rp) > wp)
            && |more| == |bounds| + |es| && more[..|bounds|] == bounds
            && more[|more| - 1] == |s.hist.log| / PACKET_SIZE
            && (forall e :: 0 <= e < |more| - 1 ==> more[e] <= more[e + 1])
  {
    var bounds, es := s.hist.bounds, Entries(s.base, Rewound(s.base, s.rp), wp);
    var r, w := bounds[|bounds| - 1], |s.hist.log| / PACKET_SIZE;
    var bs := Split(r, w, Rewound(s.base, s.rp) > wp);
    assert Covers(es[0], bs[0], bs[1]);
    if |es| == 2 {
      assert Covers(es[1], bs[1], bs[2]);
    }
    assert [r] + Ends(bounds, es) == bs;
    var more := bounds + Ends(bounds, es);
    assert more == bounds[..|bounds| - 1] + bs;
    assert more[|bounds| - 1..] == bs;
  }

  /** A poll that only rewinds the read pointer. */
  lemma SampleNothing(s: State)
    requires Inv(s) && s.poll.Idle?
    requires s.base <= Rewound(s.base, s.rp) < Top(s.base)
    requires PointsAt(s.base, Rewound(s.base, s.rp), s.hist.bounds[|s.hist.bounds| - 1])
    ensures Inv(s.(rp := Rewound(s.base, s.rp)))
  {
    hide RingHolds, TagHolds, Covers, CoverAll, PointsAt, PointsAfter;
    PollFrameKeeps(s, s.(rp := Rewound(s.base, s.rp)));
  }

  lemma OnBoundary(base: nat, r: nat)
    ensures PointsAt(base, base + PACKET_SIZE * (r % RING_PACKETS), r)
  {
  }

  lemma {:induction false} SampleInv(s: State)
    requires Inv(s) && Env(s, Sample) && s.poll.Idle?
    ensures Inv(DoSample(s))
  {
    hide QueueOk, InjectorOk, SemaphoreOk, RingHolds, TagHolds, CoverAll, PointsAt, PointsAfter;
    var t, h := DoSample(s), s.hist;
    var r, n := h.bounds[|h.bounds| - 1], |h.log|;
    ConsumedBound(s);
    assert n / PACKET_SIZE <= r + RING_PACKETS;
    CountIsExact(s.base, s.rp, s.reg, r, n);
    var wp, rp := Aligned(s.base, s.reg), Rewound(s.base, s.rp);
    if NumPackets(s.base, rp, wp) == 0 || s.pread != 0 {
      OnBoundary(s.base, r);
      SampleNothing(s);
    } else {
      EntriesCover(s.base, s.rp, s.reg, r, n);
      SampleBounds(s, wp);
      SamplePosts(s, t);
    }
  }

  /** A poll keeps the invariant exactly if it does not misread the pointers. */
  lemma {:induction false} SampleKeepsInvIff(s: State)
    requires Inv(s) && s.poll.Idle?
    ensures Inv(DoSample(s)) <==> !Misread(s)
  {
    if Misread(s) {
      MisreadPosts(s);
    } else {
      SampleInv(s);
    }
  }

  /** The misread poll plans the whole ring although there is no unread packet. */
  lemma {:induction false} MisreadPosts(s: State)
    requires Inv(s) && s.poll.Idle? && Misread(s)
    ensures var t := DoSample(s);
      && t.poll.pending == [Entry(0, RING_PACKETS)]
      && s.hist.bounds[|s.hist.bounds| - 1] == |s.hist.log| / PACKET_SIZE
      && !HistoryOk(t)
  {
    hide QueueOk, InjectorOk, SemaphoreOk, RingHolds, TagHolds, CoverAll;
    ConsumedBound(s);
    CountIsExact(s.base, s.rp, s.reg, s.hist.bounds[|s.hist.bounds| - 1], |s.hist.log|);
  }

  lemma SamplePosts(s: State, t: State)
    requires Inv(s) && s.poll.Idle?
    requires t.poll.StoringOffset? && t.poll.pending != [] && s.base <= t.rp <= Top(s.base)
    requires t == s.(rp := t.rp, pread := t.pread, poll := t.poll, hist := s.hist.(bounds := t.hist.bounds))
    requires var n, more := |s.hist.bounds|, t.hist.bounds;
             && |more| == n + |t.poll.pending| && more[..n] == s.hist.bounds
             && more[|more| - 1] == |s.hist.log| / PACKET_SIZE
             && (forall e :: 0 <= e < |more| - 1 ==> more[e] <= more[e + 1])
             && CoverAll(t.poll.pending, more[n - 1..])
             && PointsAt(s.base, t.poll.wp, more[|more| - 1])
    ensures Inv(t)
  {
    var n := |s.hist.bounds|;
    assert forall e :: 0 <= e < n ==> t.hist.bounds[e] == t.hist.bounds[..n][e];
    assert HistoryOk(t);
    SamplePostsQueue(s, t);
    assert RingOk(t) && InjectorOk(t) && Consumed(t) == Consumed(s);
    forall k | 0 <= k < TAG_COUNT
      ensures TagOk(t, k)
    {
      assert TagOk(s, k);
    }
  }

  lemma SamplePostsQueue(s: State, t: State)
    requires WellFormed(s) && HistoryOk(s) && QueueOk(s) && WellFormed(t) && HistoryOk(t)
    requires s.poll.Idle? && t.poll.StoringOffset? && t.queue == s.queue
    requires t.hist.posted == s.hist.posted && t.hist.done == s.hist.done
    requires |t.hist.bounds| == |s.hist.bounds| + |t.poll.pending|
    requires forall e :: 0 <= e < |s.hist.bounds| ==> t.hist.bounds[e] == s.hist.bounds[e]
    requires CoverAll(t.poll.pending, t.hist.bounds[|s.hist.bounds| - 1..])
    ensures QueueOk(t)
  {
    forall e | t.hist.done <= e < t.hist.posted
      ensures Covers(t.queue[e % QUEUE_SIZE], t.hist.bounds[e], t.hist.bounds[e + 1])
    {
    }
  }

  lemma {:induction false} StoreShape(s: State, step: Step)
    requires WellFormed(s) && HistoryOk(s) && InjectorOk(s) && SemaphoreOk(s) && PointersOk(s) && Enabled(s, step)
    requires step.StoreOffset? || step.StoreCount?
    ensures var t := Do(s, step);
      && WellFormed(t) && HistoryOk(t) && InjectorOk(t) && SemaphoreOk(t) && PointersOk(t) && PollFrame(s, t)
  {
    hide Covers, PointsAt, PointsAfter;
  }

  /** Only the slot being filled changes, and it is not one of an outstanding entry. */
  lemma {:induction false} StoreQueue(s: State, step: Step)
    requires WellFormed(s) && HistoryOk(s) && QueueOk(s) && Enabled(s, step)
    requires s.hist.posted - s.hist.done < QUEUE_SIZE
    requires step.StoreOffset? || step.StoreCount?
    requires WellFormed(Do(s, step)) && HistoryOk(Do(s, step))
    ensures QueueOk(Do(s, step))
  {
    hide Covers, CoverAll;
    var t, h := Do(s, step), s.hist;
    forall e | h.done <= e < h.posted
      ensures Covers(t.queue[e % QUEUE_SIZE], h.bounds[e], h.bounds[e + 1])
    {
      SlotsDiffer(h.done, e, h.posted);
    }
  }

  lemma {:induction false} StoreInv(s: State, step: Step)
    requires Inv(s) && Env(s, step) && Enabled(s, step)
    requires step.StoreOffset? || step.StoreCount?
    ensures Inv(Do(s, step))
  {
    hide QueueOk, HistoryOk, InjectorOk, PointersOk, SemaphoreOk, RingHolds, TagHolds;
    StoreShape(s, step);
    StoreQueue(s, step);
    PollFrameKeeps(s, Do(s, step));
  }

  lemma CoverAllTail(es: seq<Entry>, bounds: seq<nat>)
    requires CoverAll(es, bounds) && es != []
    ensures Covers(es[0], bounds[0], bounds[1]) && CoverAll(es[1..], bounds[1..])
  {
    forall i | 0 <= i < |es| - 1
      ensures Covers(es[1..][i], bounds[1..][i], bounds[1..][i + 1])
    {
      assert Covers(es[i + 1], bounds[i + 1], bounds[i + 2]);
    }
  }

  lemma BumpQueue(s: State, t: State)
    requires WellFormed(s) && HistoryOk(s) && QueueOk(s) && s.poll.Bumping?
    requires WellFormed(t) && HistoryOk(t) && t.queue == s.queue
    requires t.poll == Signalling(s.poll.pending[1..], s.poll.wp)
    requires t.hist == s.hist.(posted := s.hist.posted + 1)
    ensures QueueOk(t)
  {
    var h := s.hist;
    assert s.queue[s.writeIndex] == s.poll.pending[0];
    CoverAllTail(s.poll.pending, h.bounds[h.posted..]);
    assert h.bounds[h.posted + 1..] == h.bounds[h.posted..][1..];
    forall e | t.hist.done <= e < t.hist.posted
      ensures Covers(t.queue[e % QUEUE_SIZE], h.bounds[e], h.bounds[e + 1])
    {
    }
  }

  lemma {:induction false} PointsInside(base: nat, addr: nat, k: nat)
    requires PointsAt(base, addr, k)
    ensures base <= addr <= Top(base)
  {
  }

  /** The entry is visible to the injector, but not signalled yet. */
  lemma {:induction false} BumpShape(s: State)
    requires WellFormed(s) && HistoryOk(s) && PointersOk(s) && QueueOk(s) && InjectorOk(s) && SemaphoreOk(s)
    requires s.poll.Bumping?
    ensures var t := Do(s, Bump);
      && WellFormed(t) && HistoryOk(t) && InjectorOk(t) && PointersOk(t) && SemaphoreOk(t) && PollFrame(s, t)
  {
    hide QueueOk, RingHolds, TagHolds, Covers, CoverAll, PointsAt, PointsAfter;
    var t := Do(s, Bump);
    BumpPosts(s);
    PointsInside(s.base, s.poll.wp, s.hist.bounds[|s.hist.bounds| - 1]);
    NextIndex(s.hist.posted);
  }

  lemma {:induction false} NextIndex(p: nat)
    ensures (p % QUEUE_SIZE + 1) % QUEUE_SIZE == (p + 1) % QUEUE_SIZE
  {
  }

  lemma {:induction false} BumpPosts(s: State)
    requires WellFormed(s) && HistoryOk(s) && QueueOk(s) && s.poll.Bumping?
    ensures s.hist.posted + 1 < |s.hist.bounds|
  {
    hide Covers, CoverAll;
  }

  lemma {:induction false} BumpInv(s: State)
    requires Inv(s) && s.poll.Bumping?
    ensures Inv(Do(s, Bump))
  {
    hide QueueOk, HistoryOk, InjectorOk, PointersOk, SemaphoreOk, RingHolds, TagHolds;
    BumpShape(s);
    PollFrameKeeps(s, Do(s, Bump));
    BumpQueue(s, Do(s, Bump));
  }

  lemma SignalInv(s: State)
    requires Inv(s) && s.poll.Signalling?
    ensures Inv(Do(s, Signal))
  {
    PollFrameKeeps(s, Do(s, Signal));
  }

  /** The injector's steps leave the ring, the pointers and the poll alone. */
  ghost predicate InjectorFrame(s: State, t: State) {
    t == s.(sem := t.sem, readIndex := t.readIndex, inj := t.inj, aux := t.aux, count1 := t.count1,
            out := t.out, hist := s.hist.(done := t.hist.done))
  }

  lemma InjectorFrameKeeps(s: State, t: State)
    requires Inv(s) && WellFormed(t) && InjectorFrame(s, t) && HistoryOk(t)
    requires Consumed(t) >= Consumed(s) && t.hist.done >= s.hist.done
    ensures PointersOk(t) && QueueOk(t) && RingOk(t)
  {
  }

  lemma TagsBuffered(s: State)
    requires Inv(s)
    ensures forall k :: 0 <= k < TAG_COUNT && Buffered(s, k) ==>
                          |s.aux[k]| == PAYLOAD_SIZE * s.count1[k] && s.count1[k] < AUX_COUNT
  {
    hide PointersOk, QueueOk, RingOk;
    forall k | 0 <= k < TAG_COUNT && Buffered(s, k)
      ensures |s.aux[k]| == PAYLOAD_SIZE * s.count1[k] && s.count1[k] < AUX_COUNT
    {
      assert TagOk(s, k);
    }
  }

  /** Steps that neither consume a packet nor hand anything on. */
  lemma TagsKept(s: State, t: State)
    requires Inv(s) && WellFormed(t) && HistoryOk(t)
    requires t.out == s.out && t.demux == s.demux && t.hist.log == s.hist.log
    requires Consumed(t) == Consumed(s)
    requires forall k :: 0 <= k < TAG_COUNT ==>
                           (Buffered(t, k) ==> |t.aux[k]| == PAYLOAD_SIZE * t.count1[k] && t.count1[k] < AUX_COUNT)
                           && (if Buffered(t, k) then t.aux[k] else []) == (if Buffered(s, k) then s.aux[k] else [])
    ensures PACKET_SIZE * Consumed(t) <= |t.hist.log|
    ensures forall k :: 0 <= k < TAG_COUNT ==> TagOk(t, k)
  {
    hide PointersOk, QueueOk, RingOk, SemaphoreOk;
    forall k | 0 <= k < TAG_COUNT
      ensures TagOk(t, k)
    {
      assert TagOk(s, k);
      assert Buffered(t, k) ==> |t.aux[k]| == PAYLOAD_SIZE * t.count1[k];
    }
  }

  lemma DownCheckInv(s: State, step: Step)
    requires Inv(s) && Env(s, step) && Enabled(s, step)
    requires step.Down? || step.Check?
    ensures Inv(Do(s, step))
    ensures step.Check? ==> Do(s, step).inj.Loading?
  {
    hide PointersOk, QueueOk, RingOk, TagOk;
    var t := Do(s, step);
    if step.Check? {
      SlotsDiffer(s.hist.done, s.hist.done, s.hist.posted);
    }
    InjectorFrameKeeps(s, t);
    TagsBuffered(s);
    TagsKept(s, t);
  }

  lemma {:induction false} LoadShape(s: State)
    requires WellFormed(s) && HistoryOk(s) && InjectorOk(s) && SemaphoreOk(s) && QueueOk(s) && s.inj.Loading?
    ensures var t := Do(s, Load);
      && WellFormed(t) && HistoryOk(t) && InjectorOk(t) && SemaphoreOk(t) && InjectorFrame(s, t)
      && t.hist == s.hist && Consumed(t) == Consumed(s)
      && t.out == s.out && t.aux == [[], [], [], []] && t.count1 == [0, 0, 0, 0] && t.inj.Looping?
  {
    assert Covers(s.queue[s.hist.done % QUEUE_SIZE], s.hist.bounds[s.hist.done], s.hist.bounds[s.hist.done + 1]);
    hide QueueOk;
  }

  lemma {:induction false} LoadInv(s: State)
    requires Inv(s) && s.inj.Loading?
    ensures Inv(Do(s, Load))
  {
    hide QueueOk, HistoryOk, InjectorOk, PointersOk, SemaphoreOk, RingHolds, TagHolds, Consumed;
    LoadShape(s);
    InjectorFrameKeeps(s, Do(s, Load));
    TagsKept(s, Do(s, Load));
  }

  /** Where the packet the injector looks at is in the stream. */
  lemma {:induction false} PacketPlace(s: State)
    requires WellFormed(s) && HistoryOk(s) && InjectorOk(s) && s.inj.Looping? && s.inj.n < s.inj.count
    ensures var p := Consumed(s);
      PACKET_SIZE * (p + 1) <= |s.hist.log| && s.inj.offset + PACKET_SIZE * s.inj.n == PACKET_SIZE * (p % RING_PACKETS)
  {
    var p, h := Consumed(s), s.hist;
    BoundsSorted(h.bounds, h.done + 1, |h.bounds| - 1);
    assert p + 1 <= h.bounds[h.done + 1] <= |h.log| / PACKET_SIZE;
    PlaceAhead(h.bounds[h.done], s.inj.n);
  }

  lemma {:induction false} PlaceAhead(from: nat, n: nat)
    requires from % RING_PACKETS + n < RING_PACKETS
    ensures (from + n) % RING_PACKETS == from % RING_PACKETS + n
  {
  }

  lemma {:induction false} PacketInRing(ring: seq<byte>, log: seq<byte>, p: nat)
    requires |ring| == PTI_BUFFER_SIZE && RingHolds(ring, log, p) && PACKET_SIZE * (p + 1) <= |log|
    ensures var at := PACKET_SIZE * (p % RING_PACKETS);
      at + PACKET_SIZE <= PTI_BUFFER_SIZE
      && ring[at..at + PACKET_SIZE] == log[PACKET_SIZE * p..PACKET_SIZE * (p + 1)]
  {
    var at := PACKET_SIZE * (p % RING_PACKETS);
    var a, b := ring[at..at + PACKET_SIZE], log[PACKET_SIZE * p..PACKET_SIZE * (p + 1)];
    forall j | 0 <= j < PACKET_SIZE
      ensures a[j] == b[j]
    {
      RingPosition(p, j);
    }
  }

  /** The packet the injector looks at is the next packet of the stream. */
  lemma {:induction false} PacketIsNext(s: State)
    requires Inv(s) && s.inj.Looping? && s.inj.n < s.inj.count
    ensures var p, at := Consumed(s), s.inj.offset + PACKET_SIZE * s.inj.n;
            && PACKET_SIZE * (p + 1) <= |s.hist.log|
            && s.ring[at..at + PACKET_SIZE] == s.hist.log[PACKET_SIZE * p..PACKET_SIZE * (p + 1)]
  {
    hide QueueOk, HistoryOk, InjectorOk, PointersOk, SemaphoreOk, RingHolds, TagHolds, Consumed;
    PacketPlace(s);
    PacketInRing(s.ring, s.hist.log, Consumed(s));
  }

  lemma RingPosition(p: nat, j: nat)
    requires j < PACKET_SIZE
    ensures (PACKET_SIZE * p + j) % PTI_BUFFER_SIZE == PACKET_SIZE * (p % RING_PACKETS) + j
  {
    var q, r := p / RING_PACKETS, p % RING_PACKETS;
    assert PACKET_SIZE * p + j == PTI_BUFFER_SIZE * q + (PACKET_SIZE * r + j);
  }

  lemma ReceivedPush(bs: seq<Batch>, b: Batch)
    ensures Received(bs + [b]) == Received(bs) + b.data
  {
    assert (bs + [b])[..|bs|] == bs;
  }

  lemma SamePacket(a: seq<byte>, i: nat, b: seq<byte>, j: nat)
    requires i + PACKET_SIZE <= |a| && j + PACKET_SIZE <= |b|
    requires a[i..i + PACKET_SIZE] == b[j..j + PACKET_SIZE]
    ensures TagOf(a, i) == TagOf(b, j) && PayloadOf(a, i) == PayloadOf(b, j)
  {
    assert a[i..i + PACKET_SIZE][0] == b[j..j + PACKET_SIZE][0];
    assert PayloadOf(a, i) == a[i..i + PACKET_SIZE][HEADER_SIZE..];
    assert PayloadOf(b, j) == b[j..j + PACKET_SIZE][HEADER_SIZE..];
  }

  /** What one packet does to the output, the buffer and the count of a tag; `hit` says
      that the packet has the tag and the tag a demux. */
  function Packed(out: seq<Batch>, aux: seq<byte>, count: nat, hit: bool, payload: seq<byte>): (seq<Batch>, seq<byte>, nat) {
    if !hit then (out, aux, count)
    else if count + 1 >= AUX_COUNT then (out + [Batch(aux + payload, count + 1)], [], 0)
    else (out, aux + payload, count + 1)
  }

  lemma {:induction false} PacketPacks(s: State, k: nat)
    requires WellFormed(s) && s.inj.Looping? && s.inj.n < s.inj.count && k < TAG_COUNT
    ensures var t, at := DoPacket(s), s.inj.offset + PACKET_SIZE * s.inj.n;
      (t.out[k], t.aux[k], t.count1[k])
      == Packed(s.out[k], s.aux[k], s.count1[k], TagOf(s.ring, at) == k && s.demux[k], PayloadOf(s.ring, at))
  {
    hide TagOf, PayloadOf;
  }

  /** The tag's payloads grow by the packet's if it has the tag; batches leave exactly when
      twenty are together. */
  lemma {:induction false} PackedHolds(out: seq<Batch>, aux: seq<byte>, count: nat, demux: bool, log: seq<byte>, k: nat, p: nat)
    requires PACKET_SIZE * (p + 1) <= |log| && TagHolds(out, aux, count, true, demux, log, k, p)
    ensures var r := Packed(out, aux, count, TagOf(log, PACKET_SIZE * p) == k && demux, PayloadOf(log, PACKET_SIZE * p));
      TagHolds(r.0, r.1, r.2, true, demux, log, k, p + 1)
  {
    var hit, payload := TagOf(log, PACKET_SIZE * p) == k && demux, PayloadOf(log, PACKET_SIZE * p);
    PayloadsGrow(log, k, p);
    hide TagOf, PayloadOf, Received, Payloads;
    if hit {
      assert Received(out) + (aux + payload) == Received(out) + aux + payload;
      ReceivedPush(out, Batch(aux + payload, count + 1));
    }
  }

  lemma {:induction false} PayloadsGrow(log: seq<byte>, k: nat, p: nat)
    requires PACKET_SIZE * (p + 1) <= |log|
    ensures Payloads(log, k, p + 1)
         == Payloads(log, k, p) + if TagOf(log, PACKET_SIZE * p) == k then PayloadOf(log, PACKET_SIZE * p) else []
  {
    hide TagOf, PayloadOf;
  }

  lemma PacketShape(s: State)
    requires WellFormed(s) && HistoryOk(s) && s.inj.Looping? && s.inj.n < s.inj.count
    ensures var t := DoPacket(s);
            && t.inj == s.inj.(n := s.inj.n + 1) && t.hist == s.hist && t.demux == s.demux
            && HistoryOk(t) && Consumed(t) == Consumed(s) + 1
  {
  }

  lemma {:induction false} PacketTagOk(s: State, k: nat, p: nat)
    requires WellFormed(s) && HistoryOk(s) && s.inj.Looping? && s.inj.n < s.inj.count && k < TAG_COUNT
    requires WellFormed(DoPacket(s)) && p == Consumed(s) && PACKET_SIZE * (p + 1) <= |s.hist.log|
    requires var at := s.inj.offset + PACKET_SIZE * s.inj.n;
             s.ring[at..at + PACKET_SIZE] == s.hist.log[PACKET_SIZE * p..PACKET_SIZE * (p + 1)]
    requires TagOk(s, k)
    ensures HistoryOk(DoPacket(s)) && Consumed(DoPacket(s)) == p + 1 && TagOk(DoPacket(s), k)
  {
    hide DoPacket, Packed, TagHolds, HistoryOk, Consumed, TagOf, PayloadOf;
    PacketShape(s);
    PacketPacks(s, k);
    SamePacket(s.ring, s.inj.offset + PACKET_SIZE * s.inj.n, s.hist.log, PACKET_SIZE * p);
    PackedHolds(s.out[k], s.aux[k], s.count1[k], s.demux[k], s.hist.log, k, p);
  }

  lemma PacketTags(s: State)
    requires Inv(s) && s.inj.Looping? && s.inj.n < s.inj.count
    requires WellFormed(DoPacket(s)) && HistoryOk(DoPacket(s))
    ensures PACKET_SIZE * Consumed(DoPacket(s)) <= |s.hist.log|
    ensures forall k :: 0 <= k < TAG_COUNT ==> TagOk(DoPacket(s), k)
  {
    PacketIsNext(s);
    hide PointersOk, QueueOk, RingOk, SemaphoreOk, InjectorOk, TagOk, HistoryOk, DoPacket;
    forall k | 0 <= k < TAG_COUNT
      ensures PACKET_SIZE * Consumed(DoPacket(s)) <= |s.hist.log| && TagOk(DoPacket(s), k)
    {
      PacketTagOk(s, k, Consumed(s));
    }
    PacketTagOk(s, 0, Consumed(s));
  }

  lemma {:induction false} PacketFrame(s: State)
    requires WellFormed(s) && HistoryOk(s) && InjectorOk(s) && SemaphoreOk(s) && s.inj.Looping? && s.inj.n < s.inj.count
    ensures var t := DoPacket(s);
      && WellFormed(t) && HistoryOk(t) && InjectorOk(t) && SemaphoreOk(t) && InjectorFrame(s, t)
      && t.hist == s.hist && Consumed(t) == Consumed(s) + 1
  {
    hide TagOf, PayloadOf, HistoryOk;
    PacketShape(s);
    PacketFits(s);
  }

  /** The rest of the entry is in the ring. */
  lemma {:induction false} PacketFits(s: State)
    requires WellFormed(s) && HistoryOk(s) && InjectorOk(s) && s.inj.Looping?
    ensures s.inj.n + 1 < s.inj.count ==> s.inj.offset + PACKET_SIZE * (s.inj.n + 1) + PACKET_SIZE <= PTI_BUFFER_SIZE
  {
  }

  lemma {:induction false} PacketInv(s: State)
    requires Inv(s) && s.inj.Looping? && s.inj.n < s.inj.count
    ensures Inv(Do(s, Packet))
  {
    hide QueueOk, HistoryOk, InjectorOk, PointersOk, SemaphoreOk, RingHolds, TagHolds, Consumed, DoPacket;
    PacketFrame(s);
    InjectorFrameKeeps(s, DoPacket(s));
    PacketTags(s);
  }

  lemma {:induction false} LoopEndShape(s: State)
    requires WellFormed(s) && HistoryOk(s) && InjectorOk(s) && SemaphoreOk(s) && s.inj.Looping? && s.inj.n >= s.inj.count
    ensures var t := DoPacket(s);
      && WellFormed(t) && HistoryOk(t) && InjectorOk(t) && SemaphoreOk(t) && InjectorFrame(s, t)
      && t.hist == s.hist && Consumed(t) == Consumed(s)
      && t.out == s.out && t.aux == s.aux && t.count1 == s.count1 && t.inj == Flushing(s.inj.count, 0)
  {
  }

  lemma {:induction false} LoopEndInv(s: State)
    requires Inv(s) && s.inj.Looping? && s.inj.n >= s.inj.count
    ensures Inv(Do(s, Packet))
  {
    hide QueueOk, HistoryOk, InjectorOk, PointersOk, SemaphoreOk, RingHolds, TagHolds, Consumed, DoPacket;
    LoopEndShape(s);
    InjectorFrameKeeps(s, DoPacket(s));
    TagsBuffered(s);
    TagsKept(s, DoPacket(s));
  }

  lemma {:induction false} FlushedHolds(out: seq<Batch>, aux: seq<byte>, count: nat, demux: bool, log: seq<byte>, k: nat, p: nat)
    requires PACKET_SIZE * p <= |log| && TagHolds(out, aux, count, true, demux, log, k, p)
    ensures TagHolds(if count > 0 && demux then out + [Batch(aux, count)] else out, aux, count, false, demux, log, k, p)
  {
    hide Received, Payloads;
    ReceivedPush(out, Batch(aux, count));
  }

  lemma {:induction false} FlushTag(s: State, k: nat)
    requires WellFormed(s) && s.inj.Flushing? && k < TAG_COUNT
    requires PACKET_SIZE * Consumed(s) <= |s.hist.log| && TagOk(s, k)
    ensures WellFormed(DoFlush(s)) && Consumed(DoFlush(s)) == Consumed(s) && TagOk(DoFlush(s), k)
  {
    hide TagHolds;
    if k == s.inj.tag {
      FlushedHolds(s.out[k], s.aux[k], s.count1[k], s.demux[k], s.hist.log, k, Consumed(s));
    }
  }

  lemma {:induction false} FlushShape(s: State)
    requires WellFormed(s) && HistoryOk(s) && InjectorOk(s) && SemaphoreOk(s) && s.inj.Flushing?
    ensures var t := DoFlush(s);
      && WellFormed(t) && HistoryOk(t) && InjectorOk(t) && SemaphoreOk(t) && Consumed(t) == Consumed(s) && InjectorFrame(s, t)
      && t.hist == s.hist
  {
    hide Covers;
  }

  lemma {:induction false} FlushInv(s: State)
    requires Inv(s) && s.inj.Flushing?
    ensures Inv(Do(s, Flush))
  {
    hide QueueOk, HistoryOk, InjectorOk, PointersOk, SemaphoreOk, RingHolds, TagHolds, Consumed, DoFlush;
    FlushShape(s);
    var t := DoFlush(s);
    InjectorFrameKeeps(s, t);
    forall k | 0 <= k < TAG_COUNT
      ensures TagOk(t, k)
    {
      FlushTag(s, k);
    }
  }

  lemma {:induction false} AdvanceShape(s: State)
    requires WellFormed(s) && HistoryOk(s) && InjectorOk(s) && SemaphoreOk(s) && s.inj.Advancing?
    ensures var t := Do(s, Advance);
      && WellFormed(t) && HistoryOk(t) && InjectorOk(t) && SemaphoreOk(t) && InjectorFrame(s, t)
      && t.hist == s.hist.(done := s.hist.done + 1) && Consumed(t) == Consumed(s)
  {
    NextIndex(s.hist.done);
  }

  lemma {:induction false} AdvanceInv(s: State)
    requires Inv(s) && s.inj.Advancing?
    ensures Inv(Do(s, Advance))
  {
    hide QueueOk, HistoryOk, InjectorOk, PointersOk, SemaphoreOk, RingHolds, TagHolds, Consumed;
    AdvanceShape(s);
    InjectorFrameKeeps(s, Do(s, Advance));
    TagsKept(s, Do(s, Advance));
  }

  lemma HwWrapAckInv(s: State, step: Step)
    requires Inv(s) && Enabled(s, step) && (step.HwWrap? || step.HwAck?)
    ensures Inv(Do(s, step))
  {
    hide TagOk;
    TagsBuffered(s);
    TagsKept(s, Do(s, step));
  }

  lemma StepKeepsInv(s: State, step: Step)
    requires Inv(s) && Env(s, step) && Enabled(s, step)
    ensures Inv(Do(s, step))
  {
    hide Inv, Env;
    match step
    case HwByte(b, showTop) => HwByteInv(s, b, showTop);
    case HwWrap => HwWrapAckInv(s, step);
    case HwAck => HwWrapAckInv(s, step);
    case Sample => SampleInv(s);
    case StoreOffset => StoreInv(s, step);
    case StoreCount => StoreInv(s, step);
    case Bump => BumpInv(s);
    case Signal => SignalInv(s);
    case Down => DownCheckInv(s, step);
    case Check => DownCheckInv(s, step);
    case Load => LoadInv(s);
    case Packet => if s.inj.n < s.inj.count { PacketInv(s); } else { LoopEndInv(s); }
    case Flush => FlushInv(s);
    case Advance => AdvanceInv(s);
  }

  // ---------------------------------------------------------------------------
  // Whole runs
  // ---------------------------------------------------------------------------

  ghost function After(s: State, steps: seq<Step>): (t: State)
    requires Inv(s) && IsRun(s, steps)
    ensures Inv(t)
    decreases |steps|
  {
    if steps == [] then s
    else
      StepKeepsInv(s, steps[0]);
      After(Do(s, steps[0]), steps[1..])
  }

  lemma StepHistory(s: State, step: Step)
    requires WellFormed(s) && Enabled(s, step)
    ensures Do(s, step).hist.log == s.hist.log + (if step.HwByte? then [step.b] else [])
    ensures Do(s, step).demux == s.demux
  {
  }

  lemma InvShape(s: State)
    requires Inv(s)
    ensures WellFormed(s)
  {
  }

  lemma {:induction false} RunStep(s: State, steps: seq<Step>)
    requires Inv(s) && IsRun(s, steps) && steps != []
    ensures WellFormed(s) && Enabled(s, steps[0]) && Inv(Do(s, steps[0])) && IsRun(Do(s, steps[0]), steps[1..])
    ensures After(s, steps) == After(Do(s, steps[0]), steps[1..])
  {
    hide Inv, Env, Do, WellFormed, Enabled;
    InvShape(s);
    StepKeepsInv(s, steps[0]);
  }

  lemma {:induction false} AfterHistory(s: State, steps: seq<Step>)
    requires Inv(s) && IsRun(s, steps)
    ensures After(s, steps).hist.log == s.hist.log + Written(steps)
    ensures After(s, steps).demux == s.demux
    decreases |steps|
  {
    hide Inv, IsRun, Do, WellFormed, Enabled, After, Written;
    if steps == [] {
      NoSteps(s, steps);
    } else {
      RunStep(s, steps);
      StepHistory(s, steps[0]);
      var t := Do(s, steps[0]);
      AfterHistory(t, steps[1..]);
      WrittenStep(s.hist.log, steps);
    }
  }

  lemma {:induction false} WrittenStep(log: seq<byte>, steps: seq<Step>)
    requires steps != []
    ensures log + Written(steps) == log + (if steps[0].HwByte? then [steps[0].b] else []) + Written(steps[1..])
  {
  }

  lemma {:induction false} NoSteps(s: State, steps: seq<Step>)
    requires Inv(s) && IsRun(s, steps) && steps == []
    ensures After(s, steps) == s && s.hist.log + Written(steps) == s.hist.log
  {
    hide Inv;
  }

  lemma RunTag(t: State, tag: nat)
    requires Inv(t) && tag < TAG_COUNT
    ensures PACKET_SIZE * Consumed(t) <= |t.hist.log|
    ensures forall b :: b in t.out[tag] ==> BatchOk(b)
    ensures Received(t.out[tag]) + (if Buffered(t, tag) then t.aux[tag] else [])
            == if t.demux[tag] then Payloads(t.hist.log, tag, Consumed(t)) else []
  {
    hide PointersOk, QueueOk, RingOk, InjectorOk, SemaphoreOk;
    assert TagOk(t, tag);
  }

  /** Delivery: whenever the injector is between two iterations, each registered demux
      has received exactly the payloads of its tag among the packets of the finished
      entries - in stream order, each once, in batches of one to twenty - and an
      unregistered one nothing. */
  lemma Delivery(s: State, steps: seq<Step>, tag: nat)
    requires Init(s) && IsRun(s, steps) && tag < TAG_COUNT
    ensures Inv(s)
    ensures var t := After(s, steps);
            && (forall b :: b in t.out[tag] ==> BatchOk(b))
            && PACKET_SIZE * Consumed(t) <= |Written(steps)|
            && (t.inj.Waiting? ==>
                  Received(t.out[tag]) == if s.demux[tag] then Payloads(Written(steps), tag, Consumed(t)) else [])
  {
    InitInv(s);
    AfterHistory(s, steps);
    assert s.hist.log + Written(steps) == Written(steps);
    RunTag(After(s, steps), tag);
  }

  /** Delivery at any moment: what was received is the beginning of what is due, and the
      rest of it is in the tag's buffer. */
  lemma DeliveryAlways(s: State, steps: seq<Step>, tag: nat)
    requires Init(s) && IsRun(s, steps) && tag < TAG_COUNT
    ensures Inv(s)
    ensures var t := After(s, steps);
            WellFormed(t) && PACKET_SIZE * Consumed(t) <= |Written(steps)|
            && Received(t.out[tag]) + (if Buffered(t, tag) then t.aux[tag] else [])
               == if s.demux[tag] then Payloads(Written(steps), tag, Consumed(t)) else []
  {
    InitInv(s);
    AfterHistory(s, steps);
    assert s.hist.log + Written(steps) == Written(steps);
    RunTag(After(s, steps), tag);
  }

  /** Outside the injector's iterations, and with no signal due, the semaphore is the
      distance of the two queue indices, exactly unless 400 entries are outstanding. */
  lemma SemaphoreIsDistance(s: State, steps: seq<Step>)
    requires Init(s) && IsRun(s, steps)
    ensures Inv(s)
    ensures var t := After(s, steps);
            t.inj.Waiting? && !t.poll.Signalling? ==>
              Outstanding(t) <= QUEUE_SIZE
              && (t.sem == (t.writeIndex - t.readIndex) % QUEUE_SIZE <==> Outstanding(t) < QUEUE_SIZE)
  {
    InitInv(s);
    var t := After(s, steps);
    ModDistance(t.hist.done, t.hist.posted);
  }

  lemma ModDistance(d: nat, p: nat)
    requires d <= p <= d + QUEUE_SIZE
    ensures (p % QUEUE_SIZE - d % QUEUE_SIZE) % QUEUE_SIZE == if p < d + QUEUE_SIZE then p - d else 0
  {
    assert p == QUEUE_SIZE * (p / QUEUE_SIZE) + p % QUEUE_SIZE;
    assert d == QUEUE_SIZE * (d / QUEUE_SIZE) + d % QUEUE_SIZE;
    assert p / QUEUE_SIZE == d / QUEUE_SIZE || p / QUEUE_SIZE == d / QUEUE_SIZE + 1;
  }

  /** Nothing is left behind: with no poll under way and the semaphore at zero, an idle
      injector has delivered every packet polled so far. */
  lemma NothingLeftBehind(s: State, steps: seq<Step>)
    requires Init(s) && IsRun(s, steps)
    ensures Inv(s)
    ensures var t := After(s, steps);
            t.inj.Waiting? && t.poll.Idle? && t.sem == 0 ==>
              Consumed(t) == t.hist.bounds[|t.hist.bounds| - 1]
  {
    InitInv(s);
  }

  /** The overflow test takes a signalled entry for an empty queue exactly when the
      outstanding entries are a multiple of 400; the first such state is a full queue. */
  lemma CheckDiscardsIff(s: State)
    requires WellFormed(s) && HistoryOk(s) && s.inj.Checking?
    ensures Do(s, Check).inj.Waiting? <==> (s.hist.posted - s.hist.done) % QUEUE_SIZE == 0
  {
    var p, d := s.hist.posted, s.hist.done;
    assert p == QUEUE_SIZE * (p / QUEUE_SIZE) + p % QUEUE_SIZE;
    assert d == QUEUE_SIZE * (d / QUEUE_SIZE) + d % QUEUE_SIZE;
  }

  /** With 400 entries outstanding the signal is lost: the injector waits again, no entry
      was taken, and the semaphore no longer counts the queue. */
  lemma FullQueueLosesSignal(s: State)
    requires Inv(s) && s.inj.Checking? && s.hist.posted - s.hist.done == QUEUE_SIZE
    ensures var t := Do(s, Check);
            t.inj.Waiting? && t.readIndex == s.readIndex && t.hist == s.hist && !SemaphoreOk(t)
  {
    CheckDiscardsIff(s);
  }
}
