/** Delivery for a stream of packets that is given by what the packets carry: two bits, a tag,
    two bits, five more bytes of header, and 188 bytes. */
module PtiPackets {
  import opened Common
  import opened PtiStream

  datatype Packet = Packet(hi: nat, tag: nat, lo: nat, header: seq<byte>, payload: seq<byte>)

  predicate PacketOk(p: Packet) {
    p.hi < 4 && p.tag < 16 && p.lo < 4 && |p.header| == 5 && |p.payload| == 188
  }

  predicate PacketsOk(ps: seq<Packet>) {
    forall i :: 0 <= i < |ps| ==> PacketOk(ps[i])
  }

  /** The bytes of a packet as the hardware writes them. */
  function Packed194(p: Packet): (r: seq<byte>)
    requires PacketOk(p)
    ensures |r| == 194
  {
    [64 * p.hi + 4 * p.tag + p.lo] + p.header + p.payload
  }

  function Stream(ps: seq<Packet>): (r: seq<byte>)
    requires PacketsOk(ps)
    ensures |r| == 194 * |ps|
    decreases |ps|
  {
    if ps == [] then [] else Stream(ps[..|ps| - 1]) + Packed194(ps[|ps| - 1])
  }

  /** What belongs to a tag: the payloads of its packets, joined. */
  function Carried(ps: seq<Packet>, tag: nat): seq<byte>
    decreases |ps|
  {
    if ps == [] then []
    else
      var p := ps[|ps| - 1];
      Carried(ps[..|ps| - 1], tag) + if p.tag == tag then p.payload else []
  }

  lemma {:induction false} PacketAt(ps: seq<Packet>, rest: seq<byte>, k: nat)
    requires PacketsOk(ps) && k < |ps|
    ensures (Stream(ps) + rest)[194 * k..194 * (k + 1)] == Packed194(ps[k])
    decreases |ps|
  {
    var n := |ps| - 1;
    hide Packed194;
    var front, last := Stream(ps[..n]), Packed194(ps[n]);
    assert Stream(ps) + rest == front + (last + rest);
    if k < n {
      PacketAt(ps[..n], last + rest, k);
    } else {
      assert (front + (last + rest))[194 * n..194 * (n + 1)] == last;
    }
  }

  lemma {:induction false} TagAndPayload(log: seq<byte>, at: nat, p: Packet)
    requires PacketOk(p) && at + 194 <= |log| && log[at..at + 194] == Packed194(p)
    ensures TagOf(log, at) == p.tag && PayloadOf(log, at) == p.payload
  {
    var b := log[at..at + 194];
    assert log[at] == b[0] == 64 * p.hi + 4 * p.tag + p.lo;
    assert PayloadOf(log, at) == b[6..];
  }

  lemma {:induction false} PayloadsCarried(ps: seq<Packet>, rest: seq<byte>, tag: nat, k: nat)
    requires PacketsOk(ps) && k <= |ps|
    ensures Payloads(Stream(ps) + rest, tag, k) == Carried(ps[..k], tag)
    decreases k
  {
    if k > 0 {
      PayloadsCarried(ps, rest, tag, k - 1);
      PacketAt(ps, rest, k - 1);
      TagAndPayload(Stream(ps) + rest, 194 * (k - 1), ps[k - 1]);
      hide TagOf, PayloadOf, Stream, Packed194;
      assert ps[..k][..k - 1] == ps[..k - 1];
    }
  }

  /** When the hardware has written the packets `ps`, and maybe the beginning of one more, a
      registered demux has the payloads with its tag of the packets dealt with so far, each
      once and in order, in calls of one to twenty; and nobody else has anything. */
  lemma {:induction false} PacketsDelivered(s: State, steps: seq<Step>, ps: seq<Packet>, rest: seq<byte>, tag: nat)
      returns (k: nat)
    requires Init(s) && IsRun(s, steps) && tag < 4
    requires PacketsOk(ps) && |rest| < 194 && Written(steps) == Stream(ps) + rest
    ensures Inv(s) && k <= |ps|
    ensures var t := After(s, steps);
      && (t.inj.Waiting? ==> Received(t.out[tag]) == if s.demux[tag] then Carried(ps[..k], tag) else [])
      && (forall b :: b in t.out[tag] ==> 1 <= b.count <= 20 && |b.data| == 188 * b.count)
      && (t.inj.Waiting? && t.poll.Idle? && t.sem == 0 ==> k == t.hist.bounds[|t.hist.bounds| - 1])
  {
    Delivery(s, steps, tag);
    NothingLeftBehind(s, steps);
    var t := After(s, steps);
    k := Consumed(t);
    hide Inv, After, Init, IsRun, Payloads, Stream, Carried, Consumed, Written, Received;
    assert 194 * k <= 194 * |ps| + |rest|;
    PayloadsCarried(ps, rest, tag, k);
  }

  /** A batch leaves in the middle of an entry exactly with its twentieth payload. */
  lemma {:induction false} TwentyTogether(s: State, tag: nat)
    requires Inv(s) && s.inj.Looping? && s.inj.n < s.inj.count && tag < 4
    ensures WellFormed(s)
    ensures var t := Do(s, PtiStream.Packet);
      t.out[tag] != s.out[tag] <==>
        s.ring[s.inj.offset + 194 * s.inj.n] / 4 % 16 == tag && s.demux[tag] && s.count1[tag] == 19
    ensures var t := Do(s, PtiStream.Packet);
      t.out[tag] != s.out[tag] ==>
        |t.out[tag]| == |s.out[tag]| + 1 && t.out[tag][..|s.out[tag]|] == s.out[tag] && t.out[tag][|s.out[tag]|].count == 20
  {
    TagsBuffered(s);
    assert Buffered(s, tag);
    hide PointersOk, QueueOk, RingOk, TagOk, SemaphoreOk, InjectorOk, HistoryOk;
  }
}
