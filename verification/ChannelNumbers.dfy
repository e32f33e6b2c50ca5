/** Which number each channel gets, and when an id matches a channel, field by field. */
module ChannelNumbers {
  import opened Common
  import opened ChannelIndex

  /** `p` is the last channel in front of position `i`, or -1 if there is none. */
  predicate Follows(s: Store, p: int, i: nat)
    requires ListOk(s) && i <= |s.list|
  {
    && -1 <= p < i && (p >= 0 ==> !At(s, p).separator)
    && forall k :: p < k < i ==> At(s, k).separator
  }

  /** The number behind channel `p`: one more than that channel's, or 1 at first, unless a
      separator between has a larger one. */
  predicate NumberBehind(s: Store, p: int, i: nat, n: int)
    requires ListOk(s) && i <= |s.list| && Follows(s, p, i)
  {
    var base := if p == -1 then 1 else At(s, p).number + 1;
    && n >= base && (forall k :: p < k < i ==> At(s, k).number <= n)
    && (n == base || exists k :: p < k < i && At(s, k).number == n)
  }

  ghost predicate NumberedUpTo(s: Store, i: nat)
    requires ListOk(s) && i <= |s.list|
  {
    forall j, p :: 0 <= j < i && !At(s, j).separator && Follows(s, p, j) ==> NumberBehind(s, p, j, At(s, j).number)
  }

  /** The last number that was given, or zero. */
  predicate LastNumber(s: Store, p: int, i: nat)
    requires ListOk(s) && i <= |s.list| && Follows(s, p, i)
  {
    s.maxNumber == if p == -1 then 0 else At(s, p).number
  }

  /** Every channel has the number behind the one in front, and the last is remembered. */
  ghost predicate Consecutive(s: Store)
    requires ListOk(s)
  {
    && NumberedUpTo(s, |s.list|)
    && forall p :: Follows(s, p, |s.list|) ==> LastNumber(s, p, |s.list|)
  }

  lemma FollowsOne(s: Store, p: int, q: int, i: nat)
    requires ListOk(s) && i <= |s.list| && Follows(s, p, i) && Follows(s, q, i)
    ensures p == q
  {
  }

  lemma SeparatorCounts(s: Store, i: nat, next: int, p: int)
    requires ListOk(s) && i < |s.list| && At(s, i).separator && Follows(s, p, i) && NumberBehind(s, p, i, next)
    ensures Follows(s, p, i + 1)
    ensures NumberBehind(s, p, i + 1, if At(s, i).number > next then At(s, i).number else next)
  {
    var n := if At(s, i).number > next then At(s, i).number else next;
    if n == next && exists k :: p < k < i && At(s, k).number == n {
      var k :| p < k < i && At(s, k).number == n;
      assert p < k < i + 1;
    }
  }

  lemma SeparatorUpTo(s: Store, i: nat)
    requires ListOk(s) && i < |s.list| && At(s, i).separator && NumberedUpTo(s, i)
    ensures NumberedUpTo(s, i + 1)
  {
    hide NumberBehind, Follows;
  }

  lemma SameBefore(s: Store, t: Store, i: nat, j: nat, p: int)
    requires ListOk(s) && ListOk(t) && t.list == s.list && j <= i <= |s.list|
    requires forall k :: 0 <= k < i ==> At(t, k) == At(s, k)
    ensures Follows(t, p, j) <==> Follows(s, p, j)
    ensures Follows(s, p, j) ==> forall n :: NumberBehind(t, p, j, n) <==> NumberBehind(s, p, j, n)
  {
  }

  lemma ChannelUpTo(s: Store, t: Store, i: nat, next: int, p: int)
    requires ListOk(s) && ListOk(t) && t.list == s.list && i < |s.list|
    requires forall k :: 0 <= k < i ==> At(t, k) == At(s, k)
    requires !At(t, i).separator && At(t, i).number == next
    requires Follows(s, p, i) && NumberBehind(s, p, i, next) && NumberedUpTo(s, i)
    ensures NumberedUpTo(t, i + 1)
  {
    hide NumberBehind, Follows;
    forall j, q | 0 <= j < i + 1 && !At(t, j).separator && Follows(t, q, j)
      ensures NumberBehind(t, q, j, At(t, j).number)
    {
      SameBefore(s, t, i, j, q);
      if j == i {
        FollowsOne(s, p, q, i);
      }
    }
  }

  lemma ChannelFollows(t: Store, i: nat, next: int)
    requires ListOk(t) && i < |t.list| && !At(t, i).separator && At(t, i).number == next && t.maxNumber == next
    ensures Follows(t, i, i + 1) && NumberBehind(t, i, i + 1, next + 1) && LastNumber(t, i, i + 1)
  {
  }

  lemma OthersSame(s: Store, t: Store, i: nat)
    requires ListOk(s) && ListOk(t) && t.list == s.list && i < |s.list|
    requires forall r :: r in s.channels && r != s.list[i] ==> r in t.channels && t.channels[r] == s.channels[r]
    ensures forall k :: 0 <= k < i ==> At(t, k) == At(s, k)
  {
  }

  lemma {:induction false} NumbersOn(s: Store, i: nat, next: int, p: int)
    requires ListOk(s) && i <= |s.list| && Follows(s, p, i) && NumberBehind(s, p, i, next) && LastNumber(s, p, i)
    requires NumberedUpTo(s, i)
    ensures Consecutive(NumberFrom(s, i, next))
    decreases |s.list| - i
  {
    hide Hash, NumberBehind, Follows, NumberedUpTo, LastNumber, NoRepeats;
    if i == |s.list| {
      forall q | Follows(s, q, i)
        ensures LastNumber(s, q, i)
      {
        FollowsOne(s, p, q, i);
      }
    } else {
      var r := s.list[i];
      var c := s.channels[r];
      if c.separator {
        SeparatorCounts(s, i, next, p);
        SeparatorUpTo(s, i);
        StillLast(s, i, p);
        NumbersOn(s, i + 1, if c.number > next then c.number else next, p);
      } else {
        var t := s.(channels := s.channels[r := c.(number := next)], buckets := Hash(s.buckets, r, c.sid), maxNumber := next);
        OthersSame(s, t, i);
        ChannelUpTo(s, t, i, next, p);
        ChannelFollows(t, i, next);
        NumbersOn(t, i + 1, next + 1, i);
      }
    }
  }

  lemma StillLast(s: Store, i: nat, p: int)
    requires ListOk(s) && i < |s.list| && Follows(s, p, i) && Follows(s, p, i + 1) && LastNumber(s, p, i)
    ensures LastNumber(s, p, i + 1)
  {
  }

  lemma NothingBefore(s: Store)
    requires ListOk(s) && s.maxNumber == 0
    ensures Follows(s, -1, 0) && NumberBehind(s, -1, 0, 1) && LastNumber(s, -1, 0) && NumberedUpTo(s, 0)
  {
  }

  /** Numbering leaves no gap that no separator asks for. */
  lemma ReNumberConsecutive(s: Store)
    requires ListOk(s)
    ensures ListOk(ReNumber(s)) && Consecutive(ReNumber(s))
  {
    var u := s.(buckets := Empty(), maxNumber := 0);
    NothingBefore(u);
    hide Consecutive, NumberFrom, NumberBehind, Follows, NumberedUpTo, LastNumber, NoRepeats, Empty;
    NumbersOn(u, 0, 1, -1);
  }

  /** An id that changes leaves the numbers as they are. */
  lemma ConsecutiveStays(s: Store, r: nat, nid: int, tid: int, sid: int, rid: int)
    requires ListOk(s) && r in s.channels && Consecutive(s)
    ensures ListOk(SetId(s, r, nid, tid, sid, rid)) && Consecutive(SetId(s, r, nid, tid, sid, rid))
  {
    var t := SetId(s, r, nid, tid, sid, rid);
    hide Hash, Unhash, NoRepeats;
    assert forall j :: 0 <= j < |s.list| ==> At(t, j).number == At(s, j).number && At(t, j).separator == At(s, j).separator;
    assert forall p, j :: 0 <= j <= |s.list| ==> (Follows(t, p, j) <==> Follows(s, p, j));
    SameNumbers(s, t);
  }

  lemma SameNumbers(s: Store, t: Store)
    requires ListOk(s) && ListOk(t) && t.list == s.list && t.maxNumber == s.maxNumber && Consecutive(s)
    requires forall j :: 0 <= j < |s.list| ==> At(t, j).number == At(s, j).number && At(t, j).separator == At(s, j).separator
    ensures Consecutive(t)
  {
    forall p, j | 0 <= j <= |s.list| && Follows(t, p, j)
      ensures Follows(s, p, j) && forall n :: NumberBehind(t, p, j, n) <==> NumberBehind(s, p, j, n)
    {
      SameBehind(s, t, p, j);
    }
    hide NumberBehind;
  }

  lemma SameBehind(s: Store, t: Store, p: int, j: nat)
    requires ListOk(s) && ListOk(t) && t.list == s.list && j <= |s.list|
    requires forall j :: 0 <= j < |s.list| ==> At(t, j).number == At(s, j).number && At(t, j).separator == At(s, j).separator
    requires Follows(t, p, j)
    ensures Follows(s, p, j) && forall n :: NumberBehind(t, p, j, n) <==> NumberBehind(s, p, j, n)
  {
  }

  /** So after loading and any further operations every channel has the number behind the one
      in front of it. */
  lemma {:induction false} AlwaysConsecutive(s: Store, sorted: seq<nat>, ops: seq<Op>)
    requires ListOk(s) && SortedById(s, sorted) && AllPossible(Loaded(s, sorted), ops)
    ensures ListOk(After(Loaded(s, sorted), ops)) && Consecutive(After(Loaded(s, sorted), ops))
  {
    DuplicatesGo(s, sorted);
    hide Deduplicated, ReNumber, Consecutive;
    ReNumberConsecutive(s.(list := Deduplicated(s, sorted, |sorted|)));
    RunConsecutive(Loaded(s, sorted), ops);
  }

  lemma {:induction false} RunConsecutive(s: Store, ops: seq<Op>)
    requires ListOk(s) && Consecutive(s) && AllPossible(s, ops)
    ensures ListOk(After(s, ops)) && Consecutive(After(s, ops))
    decreases |ops|
  {
    hide Consecutive, Apply, Possible, ListOk;
    if ops != [] {
      OpConsecutive(s, ops[0]);
      RunConsecutive(Apply(s, ops[0]), ops[1..]);
    }
  }

  lemma {:induction false} OpConsecutive(s: Store, op: Op)
    requires ListOk(s) && Consecutive(s) && Possible(s, op)
    ensures ListOk(Apply(s, op)) && Consecutive(Apply(s, op))
  {
    hide Consecutive, ReNumber, SetId, NoRepeats;
    match op
    case ChangeId(r, nid, tid, sid, rid) => ConsecutiveStays(s, r, nid, tid, sid, rid);
    case Create(r, from, nid, tid, sid, rid) => CreatedConsecutive(s, r, from, nid, tid, sid, rid);
    case Number => ReNumberConsecutive(s);
  }

  lemma {:induction false} CreatedConsecutive(s: Store, r: nat, from: nat, nid: int, tid: int, sid: int, rid: int)
    requires ListOk(s) && r !in s.channels && from in s.channels
    ensures ListOk(NewChannel(s, r, from, nid, tid, sid, rid)) && Consecutive(NewChannel(s, r, from, nid, tid, sid, rid))
  {
    var c := Channel(false, 0, s.channels[from].source, s.channels[from].transponder, 0, 0, 0, 0);
    var t := SetId(s.(channels := s.channels[r := c]), r, nid, tid, sid, rid);
    ListGrows(s, t, r);
    hide Consecutive, ReNumber, NoRepeats;
    ReNumberConsecutive(t.(list := t.list + [r]));
  }

  // ---------------------------------------------------------------------------
  // Matching
  // ---------------------------------------------------------------------------

  /** A stream id, with the transponder where neither it nor the network id is set. */
  function StreamOf(c: Channel): int {
    if c.nid == 0 && c.tid == 0 then c.transponder else c.tid
  }

  /** Above 100000 the stream id counts in steps of 100000. */
  lemma {:induction false} PolarizationIs(tid: int)
    ensures LessPolarization(tid) == if tid <= 100000 then tid else (tid - 1) % 100000 + 1
    decreases tid
  {
    if tid > 100000 {
      PolarizationIs(tid - 100000);
    }
  }

  /** The three ways to match, by the fields. */
  lemma MatchesIff(c: Channel, id: Id, withoutRid: bool)
    ensures Matches(c, id, withoutRid, 1) <==>
      c.sid == id.sid && c.source == id.source && c.nid == id.nid && StreamOf(c) == id.tid && c.rid == id.rid
    ensures Matches(c, id, withoutRid, 2) <==>
      c.sid == id.sid && c.source == id.source && c.nid == id.nid && StreamOf(c) == id.tid
    ensures Matches(c, id, withoutRid, 3) <==>
      c.sid == id.sid && c.source == id.source && c.nid == id.nid && c.rid == (if withoutRid then 0 else id.rid)
      && LessPolarization(StreamOf(c)) == LessPolarization(id.tid)
  {
  }
}
