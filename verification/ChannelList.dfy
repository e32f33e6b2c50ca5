/** The list of channels as an object: numbering, ids, look-up, and removal of duplicates. */
module ChannelList {
  import opened Common
  import opened ChannelIndex

  class Channels {
    var channels: map<nat, Channel>
    var list: seq<nat>
    var hashSid: seq<seq<nat>>
    var maxNumber: int

    function View(): Store
      reads this
    {
      Store(channels, list, hashSid, maxNumber)
    }

    constructor ()
      ensures View() == Store(map[], [], Empty(), 0)
    {
      channels, list, hashSid, maxNumber := map[], [], Empty(), 0;
    }

    method HashChannel(r: nat)
      requires r in channels && |hashSid| == 512
      modifies this`hashSid
      ensures hashSid == Hash(old(hashSid), r, channels[r].sid)
    {
      var b := Bucket(channels[r].sid);
      hashSid := hashSid[b := hashSid[b] + [r]];
    }

    /** The first entry of the object in its bucket goes. */
    method UnhashChannel(r: nat)
      requires r in channels && |hashSid| == 512
      modifies this`hashSid
      ensures hashSid == Unhash(old(hashSid), r, channels[r].sid)
    {
      var b := Bucket(channels[r].sid);
      var bucket := hashSid[b];
      var i := 0;
      while i < |bucket| && bucket[i] != r
        invariant i <= |bucket| && Without(bucket, r) == bucket[..i] + Without(bucket[i..], r)
      {
        assert bucket[i..][1..] == bucket[i + 1..];
        assert bucket[..i] + ([bucket[i]] + Without(bucket[i + 1..], r)) == bucket[..i + 1] + Without(bucket[i + 1..], r);
        i := i + 1;
      }
      if i < |bucket| {
        assert bucket[i..][1..] == bucket[i + 1..];
        hashSid := hashSid[b := bucket[..i] + bucket[i + 1..]];
      } else {
        assert bucket[i..] == [] && bucket[..i] + [] == bucket;
        assert hashSid[b := bucket] == hashSid;
      }
    }

    method SetId(r: nat, nid: int, tid: int, sid: int, rid: int)
      requires r in channels && |hashSid| == 512
      modifies this`channels, this`hashSid
      ensures View() == ChannelIndex.SetId(old(View()), r, nid, tid, sid, rid)
    {
      hide Hash, Unhash;
      var c := channels[r];
      if c.nid != nid || c.tid != tid || c.sid != sid || c.rid != rid {
        if c.number != 0 {
          UnhashChannel(r);
        }
        channels := channels[r := channels[r].(nid := nid, tid := tid, sid := sid, rid := rid)];
        if c.number != 0 {
          HashChannel(r);
        }
      }
    }

    method ReNumber()
      requires ListOk(View())
      modifies this
      ensures View() == ChannelIndex.ReNumber(old(View()))
    {
      hide NoRepeats, Hash;
      ghost var goal := ChannelIndex.ReNumber(View());
      hashSid := Empty();
      maxNumber := 0;
      var number := 1;
      for i := 0 to |list|
        invariant list == old(list) && ListOk(View()) && NumberFrom(View(), i, number) == goal
      {
        var c := channels[list[i]];
        if c.separator {
          if c.number > number {
            number := c.number;
          }
        } else {
          HashChannel(list[i]);
          maxNumber := number;
          channels := channels[list[i] := channels[list[i]].(number := number)];
          number := number + 1;
        }
      }
    }

    /** One pass over a bucket. */
    method Search(bucket: seq<nat>, id: Id, withoutRid: bool, tier: nat) returns (found: Option<nat>)
      requires forall r :: r in bucket ==> r in channels
      ensures found == FirstMatch(View(), bucket, id, withoutRid, tier)
    {
      hide Matches;
      for i := 0 to |bucket|
        invariant forall r :: r in bucket[i..] ==> r in channels
        invariant FirstMatch(View(), bucket, id, withoutRid, tier) == FirstMatch(View(), bucket[i..], id, withoutRid, tier)
      {
        assert bucket[i] == bucket[i..][0] && bucket[i..][1..] == bucket[i + 1..];
        assert bucket[i] in bucket[i..];
        if Matches(channels[bucket[i]], id, withoutRid, tier) {
          return Some(bucket[i]);
        }
      }
      return None;
    }

    method GetByChannelID(id: Id, tryWithoutRid: bool, tryWithoutPolarization: bool) returns (found: Option<nat>)
      requires Inv(View())
      ensures forall r :: r in View().buckets[Bucket(id.sid)] ==> r in View().channels
      ensures found == ChannelIndex.GetByChannelID(View(), id, tryWithoutRid, tryWithoutPolarization)
    {
      hide FirstMatch;
      BucketFinds(View(), id, tryWithoutRid, 1);
      var bucket := hashSid[Bucket(id.sid)];
      found := Search(bucket, id, tryWithoutRid, 1);
      if found.Some? {
        return;
      }
      if tryWithoutRid {
        found := Search(bucket, id, tryWithoutRid, 2);
        if found.Some? {
          return;
        }
      }
      if tryWithoutPolarization {
        found := Search(bucket, id, tryWithoutRid, 3);
      }
    }

    /** Adds the new object `r`. */
    method NewChannel(r: nat, transponder: nat, nid: int, tid: int, sid: int, rid: int)
      requires ListOk(View()) && r !in channels && transponder in channels
      modifies this
      ensures View() == ChannelIndex.NewChannel(old(View()), r, transponder, nid, tid, sid, rid)
    {
      hide ChannelIndex.ReNumber, NoRepeats;
      ghost var s := View();
      var c := Channel(false, 0, channels[transponder].source, channels[transponder].transponder, 0, 0, 0, 0);
      channels := channels[r := c];
      SetId(r, nid, tid, sid, rid);
      ListGrows(s, View(), r);
      list := list + [r];
      ReNumber();
    }

    /** Walks along the sorted channels and deletes each that has the id of the one in front. */
    method DeleteDuplicateChannels(sorted: seq<nat>)
      requires ListOk(View()) && SortedById(View(), sorted)
      modifies this`list
      ensures list == Deduplicated(old(View()), sorted, |sorted|)
    {
      hide Without, NoRepeats;
      ghost var s := View();
      for k := 0 to |sorted|
        invariant list == Deduplicated(s, sorted, if k < |sorted| then k + 1 else k)
      {
        if k + 1 < |sorted| && KeyOf(View(), sorted[k]) == KeyOf(View(), sorted[k + 1]) {
          Del(sorted[k + 1]);
        }
      }
    }

    /** Unlinks an object from the list. */
    method Del(r: nat)
      modifies this`list
      ensures list == Without(old(list), r)
    {
      list := Without(list, r);
    }

    method Load(sorted: seq<nat>)
      requires ListOk(View()) && SortedById(View(), sorted)
      modifies this
      ensures View() == Loaded(old(View()), sorted)
    {
      hide Deduplicated, ChannelIndex.ReNumber, NoRepeats;
      DuplicatesGo(View(), sorted);
      DeleteDuplicateChannels(sorted);
      ReNumber();
    }
  }
}
