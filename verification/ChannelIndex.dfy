/** The list of channels, its numbering, and the hash over service ids that is kept beside it. */
module ChannelIndex {
  import opened Common

  datatype Id = Id(source: int, nid: int, tid: int, sid: int, rid: int)

  /** A channel or a group separator; `transponder` stands in for a missing stream id. */
  datatype Channel = Channel(separator: bool, number: int, source: int, transponder: int, nid: int, tid: int, sid: int, rid: int)

  /** The channel objects by their identity, the list, and the buckets of the hash. */
  datatype Store = Store(channels: map<nat, Channel>, list: seq<nat>, buckets: seq<seq<nat>>, maxNumber: int)

  function IdOf(c: Channel): Id {
    Id(c.source, c.nid, if c.nid != 0 || c.tid != 0 then c.tid else c.transponder, c.sid, c.rid)
  }

  // ---------------------------------------------------------------------------
  // The hash
  // ---------------------------------------------------------------------------

  /** A service id's bucket; the conversion to an unsigned number does not change it. */
  function Bucket(sid: int): (b: nat)
    ensures b < 512
  {
    sid % 512
  }

  function Hash(buckets: seq<seq<nat>>, r: nat, sid: int): (h: seq<seq<nat>>)
    requires |buckets| == 512
    ensures |h| == 512
  {
    buckets[Bucket(sid) := buckets[Bucket(sid)] + [r]]
  }

  function Without(s: seq<nat>, r: nat): seq<nat> {
    if s == [] then [] else if s[0] == r then s[1..] else [s[0]] + Without(s[1..], r)
  }

  /** The first entry of the object is removed from the bucket. */
  function Unhash(buckets: seq<seq<nat>>, r: nat, sid: int): (h: seq<seq<nat>>)
    requires |buckets| == 512
    ensures |h| == 512
  {
    buckets[Bucket(sid) := Without(buckets[Bucket(sid)], r)]
  }

  predicate NoRepeats(s: seq<nat>) {
    forall i, j :: 0 <= i < j < |s| ==> s[i] != s[j]
  }

  lemma {:induction false} WithoutIs(s: seq<nat>, r: nat)
    requires NoRepeats(s)
    ensures NoRepeats(Without(s, r)) && forall x :: x in Without(s, r) <==> x in s && x != r
    decreases |s|
  {
    if s != [] && s[0] != r {
      WithoutIs(s[1..], r);
      var w := Without(s[1..], r);
      assert forall x :: x in s <==> x == s[0] || x in s[1..];
      assert forall x :: x in [s[0]] + w <==> x == s[0] || x in w;
      assert s[0] !in s[1..];
    } else if s != [] {
      assert forall x :: x in s <==> x == s[0] || x in s[1..];
      assert s[0] !in s[1..];
    }
  }

  lemma {:induction false} AppendNew(s: seq<nat>, r: nat)
    requires NoRepeats(s) && r !in s
    ensures NoRepeats(s + [r]) && forall x :: x in s + [r] <==> x in s || x == r
  {
  }

  // ---------------------------------------------------------------------------
  // What is kept
  // ---------------------------------------------------------------------------

  predicate ListOk(s: Store) {
    && |s.buckets| == 512 && NoRepeats(s.list)
    && forall i :: 0 <= i < |s.list| ==> s.list[i] in s.channels
  }

  /** Whether a channel belongs into bucket `b`. */
  predicate Belongs(s: Store, r: nat, b: nat) {
    r in s.list && r in s.channels && !s.channels[r].separator && Bucket(s.channels[r].sid) == b
  }

  ghost predicate BucketOk(s: Store, b: nat)
    requires b < |s.buckets|
  {
    NoRepeats(s.buckets[b]) && forall r :: r in s.buckets[b] <==> Belongs(s, r, b)
  }

  /** The hash holds exactly the channels of the list under their service ids, separators are
      not in it, and every channel has a number. */
  ghost predicate Inv(s: Store) {
    && ListOk(s)
    && (forall b :: 0 <= b < 512 ==> BucketOk(s, b))
    && (forall r :: r in s.list && !s.channels[r].separator ==> s.channels[r].number > 0)
  }

  // ---------------------------------------------------------------------------
  // Changing an id
  // ---------------------------------------------------------------------------

  predicate Changes(c: Channel, nid: int, tid: int, sid: int, rid: int) {
    c.nid != nid || c.tid != tid || c.sid != sid || c.rid != rid
  }

  /** Only a channel with a number is taken out of the hash and put back. */
  function SetId(s: Store, r: nat, nid: int, tid: int, sid: int, rid: int): Store
    requires r in s.channels && |s.buckets| == 512
  {
    var c := s.channels[r];
    if !Changes(c, nid, tid, sid, rid) then s
    else
      var d := c.(nid := nid, tid := tid, sid := sid, rid := rid);
      s.(channels := s.channels[r := d],
         buckets := if c.number != 0 then Hash(Unhash(s.buckets, r, c.sid), r, sid) else s.buckets)
  }

  lemma {:induction false} RehashedBucket(s: Store, r: nat, sid: int, b: nat)
    requires Inv(s) && r in s.list && !s.channels[r].separator && b < 512
    ensures var h := Hash(Unhash(s.buckets, r, s.channels[r].sid), r, sid);
      && NoRepeats(h[b])
      && forall x :: x in h[b] <==> if x == r then Bucket(sid) == b else x in s.buckets[b]
  {
    var was := Bucket(s.channels[r].sid);
    assert BucketOk(s, b) && BucketOk(s, was);
    WithoutIs(s.buckets[was], r);
    hide Without, NoRepeats;
    var u := Unhash(s.buckets, r, s.channels[r].sid);
    assert r !in u[b];
    AppendNew(u[b], r);
  }

  /** Changing the id of a channel keeps hash and list together; for a separator it does so
      exactly if nothing changes or the separator has no number. */
  lemma {:induction false} SetIdKeepsIff(s: Store, r: nat, nid: int, tid: int, sid: int, rid: int)
    requires Inv(s) && r in s.list
    ensures Inv(SetId(s, r, nid, tid, sid, rid)) <==>
      !(s.channels[r].separator && s.channels[r].number != 0 && Changes(s.channels[r], nid, tid, sid, rid))
  {
    var t, c := SetId(s, r, nid, tid, sid, rid), s.channels[r];
    if Changes(c, nid, tid, sid, rid) {
      if c.separator {
        if c.number != 0 {
          assert r in t.buckets[Bucket(sid)] && !Belongs(t, r, Bucket(sid));
          assert !BucketOk(t, Bucket(sid));
        } else {
          SeparatorKept(s, t, r);
        }
      } else {
        ChannelRehashed(s, t, r, sid);
      }
    }
  }

  lemma {:induction false} SeparatorKept(s: Store, t: Store, r: nat)
    requires Inv(s) && r in s.list && s.channels[r].separator
    requires t == s.(channels := t.channels) && r in t.channels && t.channels == s.channels[r := t.channels[r]]
    requires t.channels[r].separator
    ensures Inv(t)
  {
    hide NoRepeats;
    forall b | 0 <= b < 512
      ensures BucketOk(t, b)
    {
      assert BucketOk(s, b);
      assert forall x :: Belongs(t, x, b) <==> Belongs(s, x, b);
    }
  }

  lemma {:induction false} ChannelRehashed(s: Store, t: Store, r: nat, sid: int)
    requires Inv(s) && r in s.list && !s.channels[r].separator
    requires r in t.channels && t.channels == s.channels[r := t.channels[r]] && t.list == s.list
    requires !t.channels[r].separator && t.channels[r].sid == sid && t.channels[r].number == s.channels[r].number
    requires t.buckets == Hash(Unhash(s.buckets, r, s.channels[r].sid), r, sid)
    ensures Inv(t)
  {
    hide NoRepeats, Hash, Unhash;
    forall b | 0 <= b < 512
      ensures BucketOk(t, b)
    {
      assert BucketOk(s, b);
      RehashedBucket(s, r, sid, b);
      assert forall x :: x != r ==> (Belongs(t, x, b) <==> Belongs(s, x, b));
    }
  }

  // ---------------------------------------------------------------------------
  // Numbering
  // ---------------------------------------------------------------------------

  function Empty(): (h: seq<seq<nat>>)
    ensures |h| == 512 && forall b :: 0 <= b < 512 ==> h[b] == []
  {
    seq(512, _ => [])
  }

  /** Numbers the channels of the list from position `i` on: a separator can raise the next
      number, a channel takes it and is hashed. */
  function NumberFrom(s: Store, i: nat, next: int): (t: Store)
    requires ListOk(s) && i <= |s.list|
    ensures ListOk(t) && t.list == s.list && t.channels.Keys == s.channels.Keys
    decreases |s.list| - i
  {
    if i == |s.list| then s
    else
      var r := s.list[i];
      var c := s.channels[r];
      if c.separator then NumberFrom(s, i + 1, if c.number > next then c.number else next)
      else
        NumberFrom(s.(channels := s.channels[r := c.(number := next)], buckets := Hash(s.buckets, r, c.sid), maxNumber := next),
                   i + 1, next + 1)
  }

  function ReNumber(s: Store): Store
    requires ListOk(s)
  {
    NumberFrom(s.(buckets := Empty(), maxNumber := 0), 0, 1)
  }

  /** What is known when the first `i` channels are numbered. */
  ghost predicate Numbering(s: Store, i: nat, next: int) {
    && ListOk(s) && i <= |s.list| && next >= 1
    && (forall b :: 0 <= b < 512 ==> HashedUpTo(s, i, b))
    && (forall j :: 0 <= j < i && !At(s, j).separator ==> 0 < At(s, j).number < next)
    && (forall j, k :: 0 <= j < k < i && !At(s, k).separator ==>
          if At(s, j).separator then At(s, j).number <= At(s, k).number else At(s, j).number < At(s, k).number)
    && (forall j :: 0 <= j < i && At(s, j).separator ==> At(s, j).number <= next)
    && s.maxNumber < next
  }

  function At(s: Store, j: nat): Channel
    requires ListOk(s) && j < |s.list|
  {
    s.channels[s.list[j]]
  }

  /** The bucket holds the channels among the first `i` that belong into it. */
  ghost predicate HashedUpTo(s: Store, i: nat, b: nat)
    requires ListOk(s) && i <= |s.list| && b < 512
  {
    NoRepeats(s.buckets[b]) && forall r :: r in s.buckets[b] <==> r in s.list[..i] && Belongs(s, r, b)
  }

  lemma {:induction false} InPrefix(s: seq<nat>, i: nat, r: nat)
    requires NoRepeats(s) && i < |s|
    ensures r in s[..i + 1] <==> r in s[..i] || r == s[i]
    ensures s[i] !in s[..i]
  {
  }

  lemma {:induction false} SeparatorPassed(s: Store, i: nat, next: int)
    requires Numbering(s, i, next) && i < |s.list| && At(s, i).separator
    ensures Numbering(s, i + 1, if At(s, i).number > next then At(s, i).number else next)
  {
    var k := i + 1;
    forall b | 0 <= b < 512
      ensures HashedUpTo(s, k, b)
    {
      assert HashedUpTo(s, i, b);
      hide NoRepeats;
      forall r
        ensures r in s.buckets[b] <==> r in s.list[..i + 1] && Belongs(s, r, b)
      {
        InPrefix(s.list, i, r);
      }
    }
  }

  lemma {:induction false} ChannelNumbered(s: Store, t: Store, i: nat, next: int)
    requires Numbering(s, i, next) && i < |s.list| && !At(s, i).separator
    requires t.list == s.list && t.maxNumber == next
    requires t.channels == s.channels[s.list[i] := At(s, i).(number := next)]
    requires t.buckets == Hash(s.buckets, s.list[i], At(s, i).sid)
    ensures Numbering(t, i + 1, next + 1)
  {
    var r := s.list[i];
    assert ListOk(t);
    var k := i + 1;
    forall b | 0 <= b < 512
      ensures HashedUpTo(t, k, b)
    {
      BucketGrows(s, t, i, b);
    }
    assert forall j :: 0 <= j < i ==> At(t, j) == At(s, j);
  }

  lemma {:induction false} BucketGrows(s: Store, t: Store, i: nat, b: nat)
    requires ListOk(s) && ListOk(t) && i < |s.list| && b < 512 && HashedUpTo(s, i, b) && !At(s, i).separator
    requires t.list == s.list && t.channels == s.channels[s.list[i] := t.channels[s.list[i]]]
    requires !At(t, i).separator && At(t, i).sid == At(s, i).sid
    requires t.buckets == Hash(s.buckets, s.list[i], At(s, i).sid)
    ensures HashedUpTo(t, i + 1, b)
  {
    var r := s.list[i];
    InPrefix(s.list, i, r);
    assert r !in s.buckets[b];
    AppendNew(s.buckets[b], r);
    hide NoRepeats;
    forall x
      ensures x in t.buckets[b] <==> x in t.list[..i + 1] && Belongs(t, x, b)
    {
      InPrefix(s.list, i, x);
    }
  }

  lemma {:induction false} NumbersAll(s: Store, i: nat, next: int) returns (last: int)
    requires Numbering(s, i, next)
    ensures Numbering(NumberFrom(s, i, next), |s.list|, last)
    ensures SameChannels(s, NumberFrom(s, i, next))
    decreases |s.list| - i
  {
    hide Numbering, Hash;
    NumberingList(s, i, next);
    if i < |s.list| {
      var r := s.list[i];
      var c := s.channels[r];
      if c.separator {
        SeparatorPassed(s, i, next);
        last := NumbersAll(s, i + 1, if c.number > next then c.number else next);
      } else {
        var t := s.(channels := s.channels[r := c.(number := next)], buckets := Hash(s.buckets, r, c.sid), maxNumber := next);
        ChannelNumbered(s, t, i, next);
        last := NumbersAll(t, i + 1, next + 1);
      }
    } else {
      last := next;
    }
  }

  lemma {:induction false} NumberingList(s: Store, i: nat, next: int)
    requires Numbering(s, i, next)
    ensures ListOk(s) && i <= |s.list|
  {
  }

  /** Nothing but numbers of channels differs. */
  ghost predicate SameChannels(s: Store, t: Store) {
    && t.list == s.list && t.channels.Keys == s.channels.Keys
    && forall r :: r in s.channels ==>
         t.channels[r] == s.channels[r].(number := t.channels[r].number)
         && (s.channels[r].separator ==> t.channels[r] == s.channels[r])
  }

  /** Numbers strictly increase along the list, and reach at least that of a separator in
      front. */
  ghost predicate Increasing(s: Store)
    requires ListOk(s)
  {
    forall j, k :: 0 <= j < k < |s.list| && !At(s, k).separator ==>
      if At(s, j).separator then At(s, j).number <= At(s, k).number else At(s, j).number < At(s, k).number
  }

  /** Whatever the hash and the numbers were, numbering puts both in order. */
  lemma {:induction false} ReNumberOk(s: Store)
    requires ListOk(s)
    ensures Inv(ReNumber(s)) && Increasing(ReNumber(s)) && SameChannels(s, ReNumber(s))
  {
    var u := s.(buckets := Empty(), maxNumber := 0);
    assert u.list[..0] == [];
    assert Numbering(u, 0, 1);
    var last := NumbersAll(u, 0, 1);
    var t := ReNumber(s);
    hide NumberFrom, ReNumber;
    NumberingDone(t, last);
  }

  lemma {:induction false} NumberingDone(t: Store, last: int)
    requires Numbering(t, |t.list|, last)
    ensures Inv(t) && Increasing(t)
  {
    hide NoRepeats;
    assert t.list[..|t.list|] == t.list;
    forall b | 0 <= b < 512
      ensures BucketOk(t, b)
    {
      assert HashedUpTo(t, |t.list|, b);
    }
    forall r | r in t.list && !t.channels[r].separator
      ensures t.channels[r].number > 0
    {
      var j :| 0 <= j < |t.list| && t.list[j] == r;
      assert !At(t, j).separator;
    }
  }

  // ---------------------------------------------------------------------------
  // New channels
  // ---------------------------------------------------------------------------

  /** A channel on the transponder of `from`, behind the others. */
  function NewChannel(s: Store, r: nat, from: nat, nid: int, tid: int, sid: int, rid: int): Store
    requires ListOk(s) && r !in s.channels && from in s.channels
  {
    var c := Channel(false, 0, s.channels[from].source, s.channels[from].transponder, 0, 0, 0, 0);
    var t := SetId(s.(channels := s.channels[r := c]), r, nid, tid, sid, rid);
    ListGrows(s, t, r);
    ReNumber(t.(list := t.list + [r]))
  }

  lemma {:induction false} ListGrows(s: Store, t: Store, r: nat)
    requires ListOk(s) && r !in s.channels && t.list == s.list && |t.buckets| == 512
    requires forall x :: x in s.channels || x == r ==> x in t.channels
    ensures ListOk(t.(list := t.list + [r]))
  {
    AppendNew(s.list, r);
  }

  lemma {:induction false} NewChannelOk(s: Store, r: nat, from: nat, nid: int, tid: int, sid: int, rid: int)
    requires ListOk(s) && r !in s.channels && from in s.channels
    ensures var t := NewChannel(s, r, from, nid, tid, sid, rid);
      && Inv(t) && Increasing(t) && t.list == s.list + [r]
      && IdOf(t.channels[r]) == Id(s.channels[from].source, nid, if nid != 0 || tid != 0 then tid else s.channels[from].transponder, sid, rid)
      && forall x :: x in s.list ==> x in t.channels && IdOf(t.channels[x]) == IdOf(s.channels[x])
  {
    var c := Channel(false, 0, s.channels[from].source, s.channels[from].transponder, 0, 0, 0, 0);
    var t := SetId(s.(channels := s.channels[r := c]), r, nid, tid, sid, rid);
    ListGrows(s, t, r);
    ReNumberOk(t.(list := t.list + [r]));
    hide ReNumber;
  }

  // ---------------------------------------------------------------------------
  // Looking a channel up
  // ---------------------------------------------------------------------------

  function ClrRid(id: Id): Id {
    id.(rid := 0)
  }

  function LessPolarization(tid: int): int
    decreases tid
  {
    if tid > 100000 then LessPolarization(tid - 100000) else tid
  }

  function ClrPolarization(id: Id): Id {
    id.(tid := LessPolarization(id.tid))
  }

  /** The three ways to match: exactly, without the radio id, and without the polarization -
      the last one against an id whose radio id is gone if the second one was tried. */
  predicate Matches(c: Channel, id: Id, withoutRid: bool, tier: nat) {
    c.sid == id.sid &&
    if tier == 1 then IdOf(c) == id
    else if tier == 2 then ClrRid(IdOf(c)) == ClrRid(id)
    else ClrPolarization(IdOf(c)) == ClrPolarization(if withoutRid then ClrRid(id) else id)
  }

  /** The first object of a bucket that matches. */
  function FirstMatch(s: Store, bucket: seq<nat>, id: Id, withoutRid: bool, tier: nat): Option<nat>
    requires forall r :: r in bucket ==> r in s.channels
  {
    if bucket == [] then None
    else if Matches(s.channels[bucket[0]], id, withoutRid, tier) then Some(bucket[0])
    else FirstMatch(s, bucket[1..], id, withoutRid, tier)
  }

  function GetByChannelID(s: Store, id: Id, withoutRid: bool, withoutPolarization: bool): Option<nat>
    requires |s.buckets| == 512 && forall r :: r in s.buckets[Bucket(id.sid)] ==> r in s.channels
  {
    var bucket := s.buckets[Bucket(id.sid)];
    var exact := FirstMatch(s, bucket, id, withoutRid, 1);
    if exact.Some? then exact
    else
      var second := if withoutRid then FirstMatch(s, bucket, id, withoutRid, 2) else None;
      if second.Some? then second
      else if withoutPolarization then FirstMatch(s, bucket, id, withoutRid, 3)
      else None
  }

  /** Whether some channel of the list matches. */
  ghost predicate Found(s: Store, id: Id, withoutRid: bool, tier: nat)
    requires ListOk(s)
  {
    exists j :: 0 <= j < |s.list| && !At(s, j).separator && Matches(At(s, j), id, withoutRid, tier)
  }

  /** The first way to match that some channel of the list meets, or zero. */
  ghost function Tier(s: Store, id: Id, withoutRid: bool, withoutPolarization: bool): nat
    requires ListOk(s)
  {
    if Found(s, id, withoutRid, 1) then 1
    else if withoutRid && Found(s, id, withoutRid, 2) then 2
    else if withoutPolarization && Found(s, id, withoutRid, 3) then 3
    else 0
  }

  lemma {:induction false} FirstMatchIs(s: Store, bucket: seq<nat>, id: Id, withoutRid: bool, tier: nat)
    requires forall r :: r in bucket ==> r in s.channels
    ensures var m := FirstMatch(s, bucket, id, withoutRid, tier);
      if m.Some? then m.value in bucket && Matches(s.channels[m.value], id, withoutRid, tier)
      else forall r :: r in bucket ==> !Matches(s.channels[r], id, withoutRid, tier)
    decreases |bucket|
  {
    if bucket != [] {
      FirstMatchIs(s, bucket[1..], id, withoutRid, tier);
      assert forall r :: r in bucket <==> r == bucket[0] || r in bucket[1..];
    }
  }

  /** A match in the bucket is a match in the list. */
  lemma {:induction false} BucketFinds(s: Store, id: Id, withoutRid: bool, tier: nat)
    requires Inv(s)
    ensures forall r :: r in s.buckets[Bucket(id.sid)] ==> r in s.list && r in s.channels && !s.channels[r].separator
    ensures FirstMatch(s, s.buckets[Bucket(id.sid)], id, withoutRid, tier).Some? <==> Found(s, id, withoutRid, tier)
  {
    var bucket := s.buckets[Bucket(id.sid)];
    assert BucketOk(s, Bucket(id.sid));
    FirstMatchIs(s, bucket, id, withoutRid, tier);
    var m := FirstMatch(s, bucket, id, withoutRid, tier);
    hide FirstMatch, NoRepeats;
    if m.Some? {
      var j :| 0 <= j < |s.list| && s.list[j] == m.value;
      assert Matches(At(s, j), id, withoutRid, tier);
    }
    if Found(s, id, withoutRid, tier) {
      var j :| 0 <= j < |s.list| && !At(s, j).separator && Matches(At(s, j), id, withoutRid, tier);
      assert Belongs(s, s.list[j], Bucket(id.sid));
    }
  }

  /** The look-up succeeds exactly if a scan of the whole list does, and with a channel that
      matches in the first way any channel of the list does. */
  lemma {:induction false} LookupIsScan(s: Store, id: Id, withoutRid: bool, withoutPolarization: bool)
    requires Inv(s)
    ensures forall r :: r in s.buckets[Bucket(id.sid)] ==> r in s.channels
    ensures var m, tier := GetByChannelID(s, id, withoutRid, withoutPolarization), Tier(s, id, withoutRid, withoutPolarization);
      && (m.Some? <==> tier != 0)
      && (m.Some? ==> m.value in s.list && !s.channels[m.value].separator && Matches(s.channels[m.value], id, withoutRid, tier))
  {
    hide Found, FirstMatch, Matches;
    BucketFinds(s, id, withoutRid, 1);
    BucketFinds(s, id, withoutRid, 2);
    BucketFinds(s, id, withoutRid, 3);
    var bucket := s.buckets[Bucket(id.sid)];
    FirstMatchIs(s, bucket, id, withoutRid, 1);
    FirstMatchIs(s, bucket, id, withoutRid, 2);
    FirstMatchIs(s, bucket, id, withoutRid, 3);
  }

  // ---------------------------------------------------------------------------
  // Duplicates
  // ---------------------------------------------------------------------------

  function KeyOf(s: Store, r: nat): Id {
    if r in s.channels then IdOf(s.channels[r]) else Id(0, 0, 0, 0, 0)
  }

  /** What sorting by id gives: the channels of the list, each once, those with equal ids next
      to each other. */
  ghost predicate SortedById(s: Store, sorted: seq<nat>)
    requires ListOk(s)
  {
    && NoRepeats(sorted)
    && (forall r :: r in sorted <==> r in s.list && !s.channels[r].separator)
    && (forall i, j, k :: 0 <= i < j < k < |sorted| && KeyOf(s, sorted[i]) == KeyOf(s, sorted[k]) ==>
          KeyOf(s, sorted[j]) == KeyOf(s, sorted[i]))
  }

  /** Whether the sorted channel `k` is a duplicate of the one in front of it. */
  predicate Duplicate(s: Store, sorted: seq<nat>, k: nat) {
    0 < k < |sorted| && KeyOf(s, sorted[k - 1]) == KeyOf(s, sorted[k])
  }

  /** The list after the duplicates among the first `k` sorted channels were deleted. */
  function Deduplicated(s: Store, sorted: seq<nat>, k: nat): seq<nat>
    requires k <= |sorted|
  {
    if k == 0 then s.list
    else if Duplicate(s, sorted, k - 1) then Without(Deduplicated(s, sorted, k - 1), sorted[k - 1])
    else Deduplicated(s, sorted, k - 1)
  }

  predicate Gone(s: Store, sorted: seq<nat>, k: nat, r: nat)
    requires k <= |sorted|
  {
    exists j :: 0 <= j < k && sorted[j] == r && Duplicate(s, sorted, j)
  }

  predicate Subsequence(a: seq<nat>, b: seq<nat>) {
    if a == [] then true
    else if b == [] then false
    else if a[0] == b[0] then Subsequence(a[1..], b[1..])
    else Subsequence(a, b[1..])
  }

  lemma {:induction false} SubsequenceSkips(a: seq<nat>, b: seq<nat>)
    requires a != [] && Subsequence(a, b)
    ensures Subsequence(a[1..], b)
    decreases |b|
  {
    if a[0] == b[0] {
      if |a| > 1 && a[1] == b[0] {
        SubsequenceSkips(a[1..], b[1..]);
      }
    } else {
      SubsequenceSkips(a, b[1..]);
      if |a| > 1 && a[1] == b[0] {
        SubsequenceSkips(a[1..], b[1..]);
      }
    }
  }

  lemma {:induction false} SubsequenceSelf(a: seq<nat>)
    ensures Subsequence(a, a)
    decreases |a|
  {
    if a != [] {
      SubsequenceSelf(a[1..]);
    }
  }

  lemma {:induction false} WithoutSubsequence(a: seq<nat>, b: seq<nat>, r: nat)
    requires Subsequence(a, b)
    ensures Subsequence(Without(a, r), b)
    decreases |b|
  {
    if a != [] {
      if a[0] == r {
        SubsequenceSkips(a, b);
      } else {
        if a[0] == b[0] {
          WithoutSubsequence(a[1..], b[1..], r);
          assert ([a[0]] + Without(a[1..], r))[1..] == Without(a[1..], r);
        } else {
          WithoutSubsequence(a, b[1..], r);
        }
      }
    }
  }

  lemma {:induction false} DeduplicatedIs(s: Store, sorted: seq<nat>, k: nat)
    requires NoRepeats(s.list) && NoRepeats(sorted) && k <= |sorted|
    ensures var d := Deduplicated(s, sorted, k);
      NoRepeats(d) && Subsequence(d, s.list) && forall r :: r in d <==> r in s.list && !Gone(s, sorted, k, r)
  {
    if k == 0 {
      SubsequenceSelf(s.list);
    } else {
      DeduplicatedIs(s, sorted, k - 1);
      var d := Deduplicated(s, sorted, k - 1);
      hide NoRepeats, Subsequence;
      if Duplicate(s, sorted, k - 1) {
        WithoutIs(d, sorted[k - 1]);
        WithoutSubsequence(d, s.list, sorted[k - 1]);
      }
      hide Without;
      GoneStep(s, sorted, k);
    }
  }

  lemma {:induction false} GoneStep(s: Store, sorted: seq<nat>, k: nat)
    requires 0 < k <= |sorted|
    ensures forall r :: Gone(s, sorted, k, r) <==> Gone(s, sorted, k - 1, r) || (r == sorted[k - 1] && Duplicate(s, sorted, k - 1))
  {
    forall r
      ensures Gone(s, sorted, k, r) <==> Gone(s, sorted, k - 1, r) || (r == sorted[k - 1] && Duplicate(s, sorted, k - 1))
    {
      if Gone(s, sorted, k, r) {
        var j :| 0 <= j < k && sorted[j] == r && Duplicate(s, sorted, j);
      }
    }
  }

  /** Every id is still there: of equal ones the first in the sorted order stays. */
  lemma {:induction false} IdStays(s: Store, sorted: seq<nat>, p: nat) returns (r: nat)
    requires ListOk(s) && SortedById(s, sorted) && p < |sorted|
    ensures r in sorted && !Gone(s, sorted, |sorted|, r) && KeyOf(s, r) == KeyOf(s, sorted[p])
    decreases p
  {
    if Duplicate(s, sorted, p) {
      r := IdStays(s, sorted, p - 1);
    } else {
      r := sorted[p];
    }
  }

  lemma {:induction false} LaterIsGone(s: Store, sorted: seq<nat>, i: nat, k: nat)
    requires ListOk(s) && SortedById(s, sorted) && i < k < |sorted| && KeyOf(s, sorted[i]) == KeyOf(s, sorted[k])
    ensures Gone(s, sorted, |sorted|, sorted[k])
  {
    assert Duplicate(s, sorted, k);
  }

  predicate Stays(s: Store, sorted: seq<nat>, r: nat) {
    r in s.list && !Gone(s, sorted, |sorted|, r)
  }

  lemma {:induction false} StayersDiffer(s: Store, sorted: seq<nat>, q: nat, r: nat)
    requires ListOk(s) && SortedById(s, sorted) && Stays(s, sorted, q) && Stays(s, sorted, r)
    requires !s.channels[q].separator && !s.channels[r].separator && q != r
    ensures KeyOf(s, q) != KeyOf(s, r)
  {
    hide Gone, NoRepeats, KeyOf;
    var i :| 0 <= i < |sorted| && sorted[i] == q;
    var k :| 0 <= k < |sorted| && sorted[k] == r;
    if KeyOf(s, q) == KeyOf(s, r) {
      if i < k { LaterIsGone(s, sorted, i, k); } else { LaterIsGone(s, sorted, k, i); }
    }
  }

  lemma {:induction false} SomeoneStays(s: Store, sorted: seq<nat>, r: nat) returns (q: nat)
    requires ListOk(s) && SortedById(s, sorted) && r in s.list && !s.channels[r].separator
    ensures Stays(s, sorted, q) && q in s.channels && !s.channels[q].separator && KeyOf(s, q) == KeyOf(s, r)
  {
    hide Gone, NoRepeats, KeyOf;
    var p :| 0 <= p < |sorted| && sorted[p] == r;
    q := IdStays(s, sorted, p);
  }

  /** Deleting duplicates leaves pairwise distinct ids and loses none; separators stay, and
      what stays keeps its order. */
  lemma {:induction false} DuplicatesGo(s: Store, sorted: seq<nat>)
    requires ListOk(s) && SortedById(s, sorted)
    ensures var d := Deduplicated(s, sorted, |sorted|);
      && ListOk(s.(list := d)) && Subsequence(d, s.list)
      && (forall q, r :: q in d && r in d && !s.channels[q].separator && !s.channels[r].separator && q != r ==>
            KeyOf(s, q) != KeyOf(s, r))
      && (forall r :: r in s.list && s.channels[r].separator ==> r in d)
      && (forall r :: r in s.list && !s.channels[r].separator ==>
            exists q :: q in d && !s.channels[q].separator && KeyOf(s, q) == KeyOf(s, r))
  {
    DeduplicatedIs(s, sorted, |sorted|);
    var d := Deduplicated(s, sorted, |sorted|);
    assert forall r :: r in d <==> Stays(s, sorted, r);
    AllListed(s, d);
    forall r | r in s.list && s.channels[r].separator
      ensures r in d
    {
      OnlySortedGo(s, sorted, r);
    }
    hide Subsequence, Deduplicated, Gone, Stays, SortedById, NoRepeats, KeyOf;
    forall q, r | q in d && r in d && !s.channels[q].separator && !s.channels[r].separator && q != r
      ensures KeyOf(s, q) != KeyOf(s, r)
    {
      StayersDiffer(s, sorted, q, r);
    }
    forall r | r in s.list && !s.channels[r].separator
      ensures exists q :: q in d && !s.channels[q].separator && KeyOf(s, q) == KeyOf(s, r)
    {
      var q := SomeoneStays(s, sorted, r);
      assert q in d;
    }
  }

  lemma {:induction false} AllListed(s: Store, d: seq<nat>)
    requires ListOk(s) && NoRepeats(d) && forall r :: r in d ==> r in s.list
    ensures ListOk(s.(list := d)) && forall r :: r in d ==> r in s.channels
  {
    forall i | 0 <= i < |d|
      ensures d[i] in s.channels
    {
      assert d[i] in s.list;
    }
  }

  lemma {:induction false} OnlySortedGo(s: Store, sorted: seq<nat>, r: nat)
    requires r !in sorted
    ensures !Gone(s, sorted, |sorted|, r)
  {
  }

  /** Loading: duplicates are deleted, then everything is numbered. */
  function Loaded(s: Store, sorted: seq<nat>): Store
    requires ListOk(s) && SortedById(s, sorted)
  {
    DuplicatesGo(s, sorted);
    ReNumber(s.(list := Deduplicated(s, sorted, |sorted|)))
  }

  // ---------------------------------------------------------------------------
  // Whole runs
  // ---------------------------------------------------------------------------

  datatype Op =
    | ChangeId(r: nat, nid: int, tid: int, sid: int, rid: int)
    | Create(r: nat, from: nat, nid: int, tid: int, sid: int, rid: int)
    | Number

  /** Ids are changed of channels of the list; a new channel is a new object. */
  predicate Possible(s: Store, op: Op) {
    && ListOk(s)
    && match op
       case ChangeId(r, _, _, _, _) => r in s.list && r in s.channels && !s.channels[r].separator
       case Create(r, from, _, _, _, _) => r !in s.channels && from in s.channels
       case Number => true
  }

  function Apply(s: Store, op: Op): Store
    requires Possible(s, op)
  {
    match op
    case ChangeId(r, nid, tid, sid, rid) => SetId(s, r, nid, tid, sid, rid)
    case Create(r, from, nid, tid, sid, rid) => NewChannel(s, r, from, nid, tid, sid, rid)
    case Number => ReNumber(s)
  }

  predicate AllPossible(s: Store, ops: seq<Op>)
    decreases |ops|
  {
    ops != [] ==> Possible(s, ops[0]) && AllPossible(Apply(s, ops[0]), ops[1..])
  }

  function After(s: Store, ops: seq<Op>): Store
    requires AllPossible(s, ops)
    decreases |ops|
  {
    if ops == [] then s else After(Apply(s, ops[0]), ops[1..])
  }

  lemma {:induction false} OpKeeps(s: Store, op: Op)
    requires Inv(s) && Increasing(s) && Possible(s, op)
    ensures Inv(Apply(s, op)) && Increasing(Apply(s, op))
  {
    match op
    case ChangeId(r, nid, tid, sid, rid) => SetIdKeepsIff(s, r, nid, tid, sid, rid); NumbersStay(s, r, nid, tid, sid, rid);
    case Create(r, from, nid, tid, sid, rid) => NewChannelOk(s, r, from, nid, tid, sid, rid);
    case Number => ReNumberOk(s);
  }

  lemma {:induction false} NumbersStay(s: Store, r: nat, nid: int, tid: int, sid: int, rid: int)
    requires Inv(s) && Increasing(s) && r in s.list && !s.channels[r].separator
    ensures ListOk(SetId(s, r, nid, tid, sid, rid)) && Increasing(SetId(s, r, nid, tid, sid, rid))
  {
    hide Hash, Unhash, NoRepeats;
    var t := SetId(s, r, nid, tid, sid, rid);
    assert forall j :: 0 <= j < |s.list| ==> At(t, j).number == At(s, j).number && At(t, j).separator == At(s, j).separator;
  }

  /** After loading and any further operations the hash holds exactly the channels of the list
      under their current service ids - so that the look-up is a scan of the list - and numbers
      strictly increase along the list. */
  lemma {:induction false} AlwaysIndexed(s: Store, sorted: seq<nat>, ops: seq<Op>)
    requires ListOk(s) && SortedById(s, sorted) && AllPossible(Loaded(s, sorted), ops)
    ensures Inv(After(Loaded(s, sorted), ops)) && Increasing(After(Loaded(s, sorted), ops))
  {
    DuplicatesGo(s, sorted);
    hide Deduplicated, ReNumber;
    ReNumberOk(s.(list := Deduplicated(s, sorted, |sorted|)));
    RunKeeps(Loaded(s, sorted), ops);
  }

  lemma {:induction false} RunKeeps(s: Store, ops: seq<Op>)
    requires Inv(s) && Increasing(s) && AllPossible(s, ops)
    ensures Inv(After(s, ops)) && Increasing(After(s, ops))
    decreases |ops|
  {
    hide Inv, Increasing, Apply, Possible;
    if ops != [] {
      OpKeeps(s, ops[0]);
      RunKeeps(Apply(s, ops[0]), ops[1..]);
    }
  }
}
