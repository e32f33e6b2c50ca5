/** The compressed RAM block device: a table of pages kept as nothing, as a zero mark, as
    a whole page or as a compressed object, five counters over it, and two allocators.
    Compressor and allocators are abstract: decompression inverts compression, an object
    has the size that was asked for, and allocation may fail at any time. */
module Zram {
  import opened Common

  type Page = p: seq<byte> | |p| == 4096 witness seq(4096, i => 0)

  datatype Codec = Codec(compress: Page -> Option<seq<byte>>, decompress: seq<byte> -> Option<Page>)

  ghost predicate Sound(codec: Codec) {
    forall p: Page :: codec.compress(p).Some? ==> codec.decompress(codec.compress(p).value) == Some(p)
  }

  /** What an allocator answers. */
  datatype Alloc = NoMemory | At(page: nat, offset: nat)

  datatype Pointer = Null | Pointer(id: nat)

  /** One table entry; the two flag bits are `uncompressed` and `zero`. */
  datatype Entry = Entry(page: Pointer, offset: nat, uncompressed: bool, zero: bool)

  const EmptyEntry: Entry := Entry(Null, 0, false, false)

  datatype Stats = Stats(comprSize: int, pagesZero: int, pagesStored: int, goodCompress: int, pagesExpand: int)

  const NoStats: Stats := Stats(0, 0, 0, 0, 0)

  /** The table, the live whole pages and compressed objects, and the counters. */
  datatype Store = Store(table: seq<Entry>, pages: map<nat, Page>, objs: map<(nat, nat), seq<byte>>, stats: Stats)

  function ZeroPage(): Page {
    seq(4096, i => 0)
  }

  // ---------------------------------------------------------------------------
  // The operations on values
  // ---------------------------------------------------------------------------

  function Key(e: Entry): (nat, nat)
    requires e.page != Null
  {
    (e.page.id, e.offset)
  }

  /** Whether the entry's reference is live in its allocator. */
  predicate Backed(e: Entry, pages: map<nat, Page>, objs: map<(nat, nat), seq<byte>>) {
    e.page != Null ==> if e.uncompressed then e.page.id in pages else Key(e) in objs
  }

  function FreePage(s: Store, i: nat): Store
    requires i < |s.table| && Backed(s.table[i], s.pages, s.objs)
  {
    var e, st := s.table[i], s.stats;
    if e.page == Null then
      if e.zero then
        s.(table := s.table[i := e.(zero := false)], stats := st.(pagesZero := st.pagesZero - 1))
      else s
    else if e.uncompressed then
      s.(table := s.table[i := e.(page := Null, offset := 0, uncompressed := false)],
         pages := s.pages - {e.page.id},
         stats := st.(pagesExpand := st.pagesExpand - 1, comprSize := st.comprSize - 4096, pagesStored := st.pagesStored - 1))
    else
      var clen := |s.objs[Key(e)]|;
      s.(table := s.table[i := e.(page := Null, offset := 0)],
         objs := s.objs - {Key(e)},
         stats := st.(goodCompress := if clen <= 2048 then st.goodCompress - 1 else st.goodCompress,
                      comprSize := st.comprSize - clen, pagesStored := st.pagesStored - 1))
  }

  predicate InUse(e: Entry) {
    e.page != Null || e.zero
  }

  /** The page at `i` is given up before anything else happens, also when the write fails. */
  function Cleared(s: Store, i: nat): Store
    requires i < |s.table| && Backed(s.table[i], s.pages, s.objs)
  {
    if InUse(s.table[i]) then FreePage(s, i) else s
  }

  /** A page is put into the entry given up: as a mark, as it is, or compressed. */
  function StorePage(t: Store, codec: Codec, i: nat, page: Page, alloc: Alloc): (Store, bool)
    requires i < |t.table|
  {
    var e, st := t.table[i], t.stats;
    if page == ZeroPage() then
      (t.(table := t.table[i := e.(zero := true)], stats := st.(pagesZero := st.pagesZero + 1)), true)
    else
      match codec.compress(page)
      case None => (t, false)
      case Some(c) =>
        if alloc == NoMemory then (t, false)
        else if |c| > 3072 then
          (t.(table := t.table[i := e.(page := Pointer(alloc.page), offset := 0, uncompressed := true)],
              pages := t.pages[alloc.page := page],
              stats := st.(pagesExpand := st.pagesExpand + 1, comprSize := st.comprSize + 4096,
                           pagesStored := st.pagesStored + 1)), true)
        else
          (t.(table := t.table[i := e.(page := Pointer(alloc.page), offset := alloc.offset)],
              objs := t.objs[(alloc.page, alloc.offset) := c],
              stats := st.(comprSize := st.comprSize + |c|, pagesStored := st.pagesStored + 1,
                           goodCompress := if |c| <= 2048 then st.goodCompress + 1 else st.goodCompress)), true)
  }

  /** One segment of a write: the new store and whether the segment was stored. */
  function WritePage(s: Store, codec: Codec, i: nat, page: Page, alloc: Alloc): (Store, bool)
    requires i < |s.table| && Backed(s.table[i], s.pages, s.objs)
  {
    StorePage(Cleared(s, i), codec, i, page, alloc)
  }

  // ---------------------------------------------------------------------------
  // What the store means
  // ---------------------------------------------------------------------------

  /** The page a table entry stands for. */
  function Content(s: Store, codec: Codec, i: nat): Option<Page>
    requires i < |s.table| && Backed(s.table[i], s.pages, s.objs)
  {
    var e := s.table[i];
    if e.zero then Some(ZeroPage())
    else if e.page == Null then None
    else if e.uncompressed then Some(s.pages[e.page.id])
    else codec.decompress(s.objs[Key(e)])
  }

  /** A compressed object that does not decompress. */
  predicate Broken(s: Store, codec: Codec, i: nat)
    requires i < |s.table| && Backed(s.table[i], s.pages, s.objs)
  {
    var e := s.table[i];
    !e.zero && e.page != Null && !e.uncompressed && codec.decompress(s.objs[Key(e)]) == None
  }

  /** One entry's share of the counters. */
  function Share(e: Entry, objs: map<(nat, nat), seq<byte>>): Stats {
    if e.page == Null then Stats(0, if e.zero then 1 else 0, 0, 0, 0)
    else if e.uncompressed then Stats(4096, 0, 1, 0, 1)
    else
      var clen := if Key(e) in objs then |objs[Key(e)]| else 0;
      Stats(clen, 0, 1, if clen <= 2048 then 1 else 0, 0)
  }

  function Plus(a: Stats, b: Stats): Stats {
    Stats(a.comprSize + b.comprSize, a.pagesZero + b.pagesZero, a.pagesStored + b.pagesStored,
          a.goodCompress + b.goodCompress, a.pagesExpand + b.pagesExpand)
  }

  function Minus(a: Stats, b: Stats): Stats {
    Stats(a.comprSize - b.comprSize, a.pagesZero - b.pagesZero, a.pagesStored - b.pagesStored,
          a.goodCompress - b.goodCompress, a.pagesExpand - b.pagesExpand)
  }

  /** The counters computed from the table. */
  function Tally(table: seq<Entry>, objs: map<(nat, nat), seq<byte>>): Stats {
    if table == [] then NoStats else Plus(Tally(table[..|table| - 1], objs), Share(table[|table| - 1], objs))
  }

  ghost predicate EntryOk(s: Store, codec: Codec, i: nat)
    requires i < |s.table|
  {
    var e := s.table[i];
    && Backed(e, s.pages, s.objs)
    && (e.zero ==> e.page == Null)
    && (e.uncompressed ==> e.page != Null)
    && (e.page == Null || e.uncompressed ==> e.offset == 0)
    && (e.page != Null && !e.uncompressed ==> codec.decompress(s.objs[Key(e)]).Some?)
  }

  /** No two entries refer to the same live page or object. */
  ghost predicate Apart(a: Entry, b: Entry) {
    a.page != Null && b.page != Null && a.uncompressed == b.uncompressed ==>
      if a.uncompressed then a.page != b.page else Key(a) != Key(b)
  }

  ghost predicate PageOwned(s: Store, id: nat) {
    exists i :: 0 <= i < |s.table| && s.table[i].page == Pointer(id) && s.table[i].uncompressed
  }

  ghost predicate ObjOwned(s: Store, k: (nat, nat)) {
    exists i :: 0 <= i < |s.table| && s.table[i].page == Pointer(k.0) && s.table[i].offset == k.1 && !s.table[i].uncompressed
  }

  /** The invariant: entries are backed and apart, everything live is referenced, and the
      counters are the counts. */
  ghost predicate Ok(s: Store, codec: Codec) {
    && (forall i :: 0 <= i < |s.table| ==> EntryOk(s, codec, i))
    && (forall i, j :: 0 <= i < |s.table| && 0 <= j < |s.table| && i != j ==> Apart(s.table[i], s.table[j]))
    && (forall id :: id in s.pages ==> PageOwned(s, id))
    && (forall k :: k in s.objs ==> ObjOwned(s, k))
    && s.stats == Tally(s.table, s.objs)
  }

  // ---------------------------------------------------------------------------
  // Counters
  // ---------------------------------------------------------------------------

  lemma {:induction false} TallyUpdate(table: seq<Entry>, objs: map<(nat, nat), seq<byte>>, i: nat, e: Entry)
    requires i < |table|
    ensures Tally(table[i := e], objs) == Plus(Minus(Tally(table, objs), Share(table[i], objs)), Share(e, objs))
    decreases |table|
  {
    hide Share, Plus, Minus;
    var n := |table| - 1;
    var last := Share(table[n], objs);
    if i < n {
      assert table[i := e][..n] == table[..n][i := e];
      TallyUpdate(table[..n], objs, i, e);
      PlusExchanged(Tally(table[..n], objs), Share(table[i], objs), Share(e, objs), last);
    } else {
      assert table[i := e][..n] == table[..n];
      PlusMinus(Tally(table[..n], objs), last);
    }
  }

  lemma {:induction false} PlusExchanged(t: Stats, a: Stats, b: Stats, c: Stats)
    ensures Plus(Plus(Minus(t, a), b), c) == Plus(Minus(Plus(t, c), a), b)
  {
  }

  lemma {:induction false} PlusMinus(t: Stats, a: Stats)
    ensures Minus(Plus(t, a), a) == t
  {
  }

  /** The counters depend only on the objects the table refers to. */
  lemma {:induction false} TallyFrame(table: seq<Entry>, objs: map<(nat, nat), seq<byte>>, objs': map<(nat, nat), seq<byte>>)
    requires forall i :: 0 <= i < |table| ==> Share(table[i], objs) == Share(table[i], objs')
    ensures Tally(table, objs) == Tally(table, objs')
  {
    if table != [] {
      TallyFrame(table[..|table| - 1], objs, objs');
    }
  }

  // ---------------------------------------------------------------------------
  // Freeing and writing keep the invariant and act on one page only
  // ---------------------------------------------------------------------------

  ghost predicate SameElsewhere(s: Store, t: Store, codec: Codec, i: nat) {
    && |t.table| == |s.table|
    && forall j :: 0 <= j < |s.table| && j != i ==>
         Backed(s.table[j], s.pages, s.objs) && Backed(t.table[j], t.pages, t.objs)
         && Content(t, codec, j) == Content(s, codec, j)
  }

  lemma FreeStatsChange(s: Store, codec: Codec, i: nat)
    requires Ok(s, codec) && i < |s.table|
    ensures EntryOk(s, codec, i)
    ensures var t := FreePage(s, i);
            && t.table == s.table[i := t.table[i]] && Share(t.table[i], s.objs) == NoStats
            && t.stats == Plus(Minus(s.stats, Share(s.table[i], s.objs)), NoStats)
  {
    hide Tally;
    assert EntryOk(s, codec, i);
  }

  lemma FreeStats(s: Store, codec: Codec, i: nat)
    requires Ok(s, codec) && i < |s.table|
    ensures EntryOk(s, codec, i)
    ensures FreePage(s, i).stats == Tally(FreePage(s, i).table, FreePage(s, i).objs)
  {
    FreeStatsChange(s, codec, i);
    var t := FreePage(s, i);
    var e := t.table[i];
    hide Tally, FreePage, Share, EntryOk, Apart, PageOwned, ObjOwned;
    TallyUpdate(s.table, s.objs, i, e);
    forall j | 0 <= j < |s.table|
      ensures Share(t.table[j], s.objs) == Share(t.table[j], t.objs)
    {
      FreeShare(s, codec, i, j);
    }
    TallyFrame(t.table, s.objs, t.objs);
  }

  lemma FreeShare(s: Store, codec: Codec, i: nat, j: nat)
    requires Ok(s, codec) && i < |s.table| && j < |s.table|
    ensures EntryOk(s, codec, i)
    ensures Share(FreePage(s, i).table[j], s.objs) == Share(FreePage(s, i).table[j], FreePage(s, i).objs)
  {
    hide Tally;
    assert EntryOk(s, codec, i) && EntryOk(s, codec, j);
    assert j != i ==> Apart(s.table[i], s.table[j]);
  }

  /** What the entries and the allocators look like after entry `i` was emptied. */
  lemma FreeElsewhere(s: Store, codec: Codec, i: nat, j: nat)
    requires Ok(s, codec) && i < |s.table| && j < |s.table| && j != i
    ensures EntryOk(s, codec, i) && EntryOk(s, codec, j) && EntryOk(FreePage(s, i), codec, j)
    ensures Content(FreePage(s, i), codec, j) == Content(s, codec, j)
  {
    hide Tally;
    assert EntryOk(s, codec, i) && EntryOk(s, codec, j);
    assert Apart(s.table[i], s.table[j]);
  }

  lemma FreeOwned(s: Store, codec: Codec, i: nat)
    requires Ok(s, codec) && i < |s.table|
    ensures EntryOk(s, codec, i)
    ensures forall id :: id in FreePage(s, i).pages ==> PageOwned(FreePage(s, i), id)
    ensures forall k :: k in FreePage(s, i).objs ==> ObjOwned(FreePage(s, i), k)
  {
    hide Tally;
    assert EntryOk(s, codec, i);
    var t := FreePage(s, i);
    forall id | id in t.pages
      ensures PageOwned(t, id)
    {
      assert PageOwned(s, id);
      var j :| 0 <= j < |s.table| && s.table[j].page == Pointer(id) && s.table[j].uncompressed;
      assert t.table[j] == s.table[j];
    }
    forall k | k in t.objs
      ensures ObjOwned(t, k)
    {
      assert ObjOwned(s, k);
      var j :| 0 <= j < |s.table| && s.table[j].page == Pointer(k.0) && s.table[j].offset == k.1 && !s.table[j].uncompressed;
      assert t.table[j] == s.table[j];
    }
  }

  /** Freeing empties its page, leaves every other page as it was, and gives its memory
      back exactly once. */
  lemma FreeOk(s: Store, codec: Codec, i: nat)
    requires Ok(s, codec) && i < |s.table|
    ensures EntryOk(s, codec, i)
    ensures Ok(FreePage(s, i), codec)
    ensures FreePage(s, i).table == s.table[i := EmptyEntry]
    ensures SameElsewhere(s, FreePage(s, i), codec, i)
  {
    hide Tally;
    FreeStats(s, codec, i);
    FreeOwned(s, codec, i);
    var t := FreePage(s, i);
    assert EntryOk(t, codec, i) && t.table == s.table[i := EmptyEntry];
    hide FreePage;
    forall j | 0 <= j < |s.table| && j != i
      ensures Backed(s.table[j], s.pages, s.objs) && EntryOk(t, codec, j) && Content(t, codec, j) == Content(s, codec, j)
    {
      FreeElsewhere(s, codec, i, j);
    }
  }

  /** The allocator hands out only what is not live. */
  predicate Fresh(s: Store, alloc: Alloc) {
    alloc.At? ==> alloc.page !in s.pages && (alloc.page, alloc.offset) !in s.objs
  }

  /** Entry `i`, empty so far, has become `e` and refers to fresh memory (or to none). */
  ghost predicate Filled(s: Store, t: Store, codec: Codec, i: nat, e: Entry) {
    && i < |s.table| && s.table[i] == EmptyEntry
    && t.table == s.table[i := e]
    && EntryOk(t, codec, i)
    && t.pages.Keys == s.pages.Keys + (if e.page != Null && e.uncompressed then {e.page.id} else {})
    && t.objs.Keys == s.objs.Keys + (if e.page != Null && !e.uncompressed then {Key(e)} else {})
    && (forall id :: id in s.pages ==> t.pages[id] == s.pages[id])
    && (forall k :: k in s.objs ==> t.objs[k] == s.objs[k])
    && (e.page != Null ==> if e.uncompressed then e.page.id !in s.pages else Key(e) !in s.objs)
    && t.stats == Plus(s.stats, Share(e, t.objs))
  }

  lemma FilledShare(s: Store, t: Store, codec: Codec, i: nat, e: Entry, j: nat)
    requires Ok(s, codec) && Filled(s, t, codec, i, e) && j < |s.table|
    ensures Share(s.table[j], s.objs) == Share(s.table[j], t.objs)
  {
    hide Tally;
    assert EntryOk(s, codec, j);
  }

  lemma FilledTally(s: Store, t: Store, codec: Codec, i: nat, e: Entry)
    requires Ok(s, codec) && Filled(s, t, codec, i, e)
    ensures t.stats == Tally(t.table, t.objs)
  {
    assert Share(s.table[i], t.objs) == NoStats;
    hide Share, EntryOk, Tally, Apart, PageOwned, ObjOwned;
    forall j | 0 <= j < |s.table|
      ensures Share(s.table[j], s.objs) == Share(s.table[j], t.objs)
    {
      FilledShare(s, t, codec, i, e, j);
    }
    TallyFrame(s.table, s.objs, t.objs);
    TallyUpdate(s.table, t.objs, i, e);
  }

  lemma FilledElsewhere(s: Store, t: Store, codec: Codec, i: nat, e: Entry, j: nat)
    requires Ok(s, codec) && Filled(s, t, codec, i, e) && j < |s.table| && j != i
    ensures EntryOk(s, codec, j) && EntryOk(t, codec, j) && Content(t, codec, j) == Content(s, codec, j)
    ensures Apart(t.table[i], t.table[j]) && Apart(t.table[j], t.table[i])
  {
    hide Tally;
    assert EntryOk(s, codec, j);
  }

  lemma FilledOwned(s: Store, t: Store, codec: Codec, i: nat, e: Entry)
    requires Ok(s, codec) && Filled(s, t, codec, i, e)
    ensures forall id :: id in t.pages ==> PageOwned(t, id)
    ensures forall k :: k in t.objs ==> ObjOwned(t, k)
  {
    hide Tally;
    forall id | id in t.pages
      ensures PageOwned(t, id)
    {
      if id in s.pages {
        assert PageOwned(s, id);
        var j :| 0 <= j < |s.table| && s.table[j].page == Pointer(id) && s.table[j].uncompressed;
        assert t.table[j] == s.table[j];
      } else {
        assert t.table[i].page == Pointer(id);
      }
    }
    forall k | k in t.objs
      ensures ObjOwned(t, k)
    {
      if k in s.objs {
        assert ObjOwned(s, k);
        var j :| 0 <= j < |s.table| && s.table[j].page == Pointer(k.0) && s.table[j].offset == k.1 && !s.table[j].uncompressed;
        assert t.table[j] == s.table[j];
      } else {
        assert t.table[i].page == Pointer(k.0) && t.table[i].offset == k.1;
      }
    }
  }

  lemma FilledOk(s: Store, t: Store, codec: Codec, i: nat, e: Entry)
    requires Ok(s, codec) && Filled(s, t, codec, i, e)
    ensures Ok(t, codec) && SameElsewhere(s, t, codec, i)
  {
    hide Tally;
    FilledTally(s, t, codec, i, e);
    FilledOwned(s, t, codec, i, e);
    forall j | 0 <= j < |s.table| && j != i
      ensures Backed(s.table[j], s.pages, s.objs) && EntryOk(t, codec, j) && Content(t, codec, j) == Content(s, codec, j)
      ensures Apart(t.table[i], t.table[j]) && Apart(t.table[j], t.table[i])
    {
      FilledElsewhere(s, t, codec, i, e, j);
    }
  }

  lemma ClearedOk(s: Store, codec: Codec, i: nat)
    requires Ok(s, codec) && i < |s.table|
    ensures EntryOk(s, codec, i) && Ok(Cleared(s, i), codec)
    ensures Cleared(s, i).table == s.table[i := EmptyEntry]
    ensures SameElsewhere(s, Cleared(s, i), codec, i)
  {
    hide Tally;
    assert EntryOk(s, codec, i);
    FreeOk(s, codec, i);
    if !InUse(s.table[i]) {
      assert s.table[i := EmptyEntry] == s.table;
      forall j | 0 <= j < |s.table| && j != i
        ensures Backed(s.table[j], s.pages, s.objs)
      {
        assert EntryOk(s, codec, j);
      }
    }
  }

  lemma StoreFills(s: Store, codec: Codec, i: nat, page: Page, alloc: Alloc)
    requires Sound(codec) && i < |s.table| && s.table[i] == EmptyEntry && Fresh(s, alloc)
    ensures var (t, stored) := StorePage(s, codec, i, page, alloc);
            if stored then Filled(s, t, codec, i, t.table[i]) && Content(t, codec, i) == Some(page) else t == s
  {
    var (t, stored) := StorePage(s, codec, i, page, alloc);
    if stored {
      var e := t.table[i];
      assert t.table == s.table[i := e];
      if page != ZeroPage() {
        var c := codec.compress(page).value;
        assert codec.decompress(c) == Some(page);
        StoredReference(s, t, codec, i, page, alloc, c);
      } else {
        assert t.pages.Keys == s.pages.Keys && t.objs.Keys == s.objs.Keys;
      }
    }
  }

  lemma StoredReference(s: Store, t: Store, codec: Codec, i: nat, page: Page, alloc: Alloc, c: seq<byte>)
    requires i < |s.table| && s.table[i] == EmptyEntry && Fresh(s, alloc) && page != ZeroPage()
    requires codec.compress(page) == Some(c) && codec.decompress(c) == Some(page)
    requires StorePage(s, codec, i, page, alloc) == (t, true)
    ensures Filled(s, t, codec, i, t.table[i]) && Content(t, codec, i) == Some(page)
  {
    if |c| > 3072 {
      assert t.pages.Keys == s.pages.Keys + {alloc.page};
    } else {
      assert t.objs.Keys == s.objs.Keys + {(alloc.page, alloc.offset)};
    }
  }

  /** A segment write, successful or not, keeps the invariant and every other page. If it
      succeeds the page reads back; if it fails the page is empty. */
  lemma WriteOk(s: Store, codec: Codec, i: nat, page: Page, alloc: Alloc)
    requires Sound(codec) && Ok(s, codec) && i < |s.table|
    requires EntryOk(s, codec, i) && Fresh(Cleared(s, i), alloc)
    ensures var (t, stored) := WritePage(s, codec, i, page, alloc);
            && Ok(t, codec) && SameElsewhere(s, t, codec, i) && EntryOk(t, codec, i)
            && Content(t, codec, i) == if stored then Some(page) else None
  {
    ClearedOk(s, codec, i);
    StoreFills(Cleared(s, i), codec, i, page, alloc);
    var u, t := Cleared(s, i), WritePage(s, codec, i, page, alloc).0;
    if WritePage(s, codec, i, page, alloc).1 {
      FilledOk(u, t, codec, i, t.table[i]);
    }
    hide Tally, Cleared, StorePage;
    assert EntryOk(t, codec, i);
  }

  // ---------------------------------------------------------------------------
  // When a write succeeds, and what it costs
  // ---------------------------------------------------------------------------

  predicate AllZero(page: Page) {
    forall k :: 0 <= k < 4096 ==> page[k] == 0
  }

  lemma ZeroPageIs(page: Page)
    ensures page == ZeroPage() <==> AllZero(page)
  {
    if AllZero(page) {
      assert page == ZeroPage();
    }
  }

  /** The disk the allocator meets at segment `k`: the segments before are stored, and the
      page there is given up. */
  ghost predicate Asked(a: Store, codec: Codec, d: Disk, index: nat, segs: seq<Page>, k: nat)
    requires k < |segs| && index + k < |d|
  {
    Ok(a, codec) && DiskOf(a, codec) == Stored(d, index, segs, k)[index + k := None]
  }

  lemma AskedIs(s: Store, codec: Codec, d: Disk, index: nat, segs: seq<Page>, k: nat)
    requires k < |segs| && index + k < |d| && Ok(s, codec) && DiskOf(s, codec) == Stored(d, index, segs, k)
    ensures EntryOk(s, codec, index + k) && Asked(Cleared(s, index + k), codec, d, index, segs, k)
  {
    hide Tally, Cleared;
    ClearedOk(s, codec, index + k);
    var t := Cleared(s, index + k);
    assert t.table[index + k] == EmptyEntry;
    EmptyEntryOk(t, codec, index + k);
    DiskAfter(s, t, codec, index + k);
  }

  /** Only a compressor that fails, or no memory, keeps a page from being stored. */
  predicate CanStore(codec: Codec, page: Page, alloc: Alloc) {
    AllZero(page) || (codec.compress(page).Some? && alloc != NoMemory)
  }

  /** The bytes a page takes: none if it is zero, and 4096 if it compresses to more than 3072. */
  function Cost(codec: Codec, page: Page): int {
    if AllZero(page) || codec.compress(page) == None then 0
    else if |codec.compress(page).value| > 3072 then 4096
    else |codec.compress(page).value|
  }

  /** The bytes an entry's page takes before it is given up. */
  function CostOf(s: Store, i: nat): int
    requires i < |s.table| && Backed(s.table[i], s.pages, s.objs)
  {
    var e := s.table[i];
    if e.page == Null then 0 else if e.uncompressed then 4096 else |s.objs[Key(e)]|
  }

  function One(b: bool): int {
    if b then 1 else 0
  }

  /** The entry of a page that was stored: whole only if it compresses to more than 3072 bytes. */
  predicate Shape(codec: Codec, e: Entry, page: Page) {
    && (e.zero <==> AllZero(page))
    && (e.page != Null <==> !AllZero(page))
    && (e.uncompressed <==> !AllZero(page) && codec.compress(page).Some? && |codec.compress(page).value| > 3072)
  }

  /** Entry `i` of `s` has been given up, and holds `page` in `t` if that was stored. */
  predicate Written(s: Store, t: Store, codec: Codec, i: nat, page: Page, stored: bool)
    requires i < |s.table| && Backed(s.table[i], s.pages, s.objs)
  {
    var e := s.table[i];
    var kept := stored && !AllZero(page);
    var cost := if stored then Cost(codec, page) else 0;
    && |t.table| == |s.table| && t.table == s.table[i := t.table[i]]
    && (if stored then Shape(codec, t.table[i], page) else t.table[i] == EmptyEntry)
    && t.stats.comprSize == s.stats.comprSize - CostOf(s, i) + cost
    && t.stats.pagesStored == s.stats.pagesStored - One(e.page != Null) + One(kept)
    && t.stats.pagesZero == s.stats.pagesZero - One(e.zero) + One(stored && AllZero(page))
    && t.stats.pagesExpand == s.stats.pagesExpand - One(e.uncompressed) + One(kept && cost == 4096)
    && t.stats.goodCompress == s.stats.goodCompress
       - One(e.page != Null && !e.uncompressed && CostOf(s, i) <= 2048) + One(kept && cost <= 2048)
  }

  lemma FreedCosts(s: Store, codec: Codec, i: nat)
    requires i < |s.table| && EntryOk(s, codec, i)
    ensures var e, t := s.table[i], Cleared(s, i);
      && t.table == s.table[i := EmptyEntry]
      && t.stats == Stats(s.stats.comprSize - CostOf(s, i), s.stats.pagesZero - One(e.zero),
                          s.stats.pagesStored - One(e.page != Null),
                          s.stats.goodCompress - One(e.page != Null && !e.uncompressed && CostOf(s, i) <= 2048),
                          s.stats.pagesExpand - One(e.uncompressed))
  {
    assert !InUse(s.table[i]) ==> s.table[i := EmptyEntry] == s.table;
  }

  lemma StoredIff(t: Store, codec: Codec, i: nat, page: Page, alloc: Alloc)
    requires i < |t.table|
    ensures StorePage(t, codec, i, page, alloc).1 <==> CanStore(codec, page, alloc)
  {
    ZeroPageIs(page);
    hide ZeroPage, AllZero;
  }

  /** Exactly when a segment is stored, and what it does to its entry and the counters. */
  lemma WriteCosts(s: Store, codec: Codec, i: nat, page: Page, alloc: Alloc)
    requires i < |s.table| && EntryOk(s, codec, i)
    ensures var (t, stored) := WritePage(s, codec, i, page, alloc);
      (stored <==> CanStore(codec, page, alloc)) && Written(s, t, codec, i, page, stored)
  {
    FreedCosts(s, codec, i);
    ZeroPageIs(page);
    hide AllZero, ZeroPage, Cleared, EntryOk, CostOf;
  }

  // ---------------------------------------------------------------------------
  // The device
  // ---------------------------------------------------------------------------

  /** What the device is for: a partial map from page numbers to pages. */
  type Disk = seq<Option<Page>>

  /** The disk after `n` pages were stored from `index` on. */
  function Stored(d: Disk, index: nat, segs: seq<Page>, n: nat): Disk
    requires n <= |segs| && index + n <= |d|
  {
    d[..index] + seq(n, k requires 0 <= k < n => Some(segs[k])) + d[index + n..]
  }

  /** The disk after `n` pages were given up from `index` on. */
  function Dropped(d: Disk, index: nat, n: nat): Disk
    requires index + n <= |d|
  {
    d[..index] + seq(n, _ => None) + d[index + n..]
  }

  /** A disk of `n` pages, none of them there. */
  function Missing(n: nat): Disk {
    seq(n, _ => None)
  }

  ghost function DiskOf(s: Store, codec: Codec): (d: Disk)
    requires Ok(s, codec)
    ensures |d| == |s.table|
  {
    seq(|s.table|, i requires 0 <= i < |s.table| && EntryOk(s, codec, i) => Content(s, codec, i))
  }

  lemma DiskAfter(s: Store, t: Store, codec: Codec, i: nat)
    requires Ok(s, codec) && Ok(t, codec) && i < |s.table| && SameElsewhere(s, t, codec, i)
    ensures EntryOk(t, codec, i) && DiskOf(t, codec) == DiskOf(s, codec)[i := Content(t, codec, i)]
  {
    assert EntryOk(t, codec, i);
  }

  lemma {:induction false} TallyOfEmpty(table: seq<Entry>, objs: map<(nat, nat), seq<byte>>)
    requires forall i :: 0 <= i < |table| ==> table[i] == EmptyEntry
    ensures Tally(table, objs) == NoStats
    decreases |table|
  {
    hide Share, Plus;
    EmptyShare(objs);
    PlusNothing(NoStats);
    if table != [] {
      var n := |table| - 1;
      TallyOfEmpty(table[..n], objs);
      assert table[n] == EmptyEntry;
    }
  }

  lemma {:induction false} EmptyShare(objs: map<(nat, nat), seq<byte>>)
    ensures Share(EmptyEntry, objs) == NoStats
  {
  }

  lemma {:induction false} PlusNothing(a: Stats)
    ensures Plus(a, NoStats) == a
  {
  }

  /** A table of empty entries over nothing live is a disk of missing pages. */
  lemma EmptyOk(s: Store, codec: Codec)
    requires forall i :: 0 <= i < |s.table| ==> s.table[i] == EmptyEntry
    requires s.pages == map[] && s.objs == map[] && s.stats == NoStats
    ensures Ok(s, codec) && DiskOf(s, codec) == Missing(|s.table|)
  {
    EmptyTableOk(s, codec);
    hide Ok, EntryOk, Content;
    forall i | 0 <= i < |s.table|
      ensures EntryOk(s, codec, i) && DiskOf(s, codec)[i] == None
    {
      EmptyEntryOk(s, codec, i);
    }
  }

  lemma EmptyTableOk(s: Store, codec: Codec)
    requires forall i :: 0 <= i < |s.table| ==> s.table[i] == EmptyEntry
    requires s.pages == map[] && s.objs == map[] && s.stats == NoStats
    ensures Ok(s, codec)
  {
    hide Tally, EntryOk, Apart, PageOwned, ObjOwned;
    TallyOfEmpty(s.table, s.objs);
    AllEmptyOk(s, codec);
    AllEmptyApart(s.table);
  }

  lemma AllEmptyOk(s: Store, codec: Codec)
    requires forall i :: 0 <= i < |s.table| ==> s.table[i] == EmptyEntry
    ensures forall i :: 0 <= i < |s.table| ==> EntryOk(s, codec, i)
  {
  }

  lemma AllEmptyApart(table: seq<Entry>)
    requires forall i :: 0 <= i < |table| ==> table[i] == EmptyEntry
    ensures forall i, j :: 0 <= i < |table| && 0 <= j < |table| && i != j ==> Apart(table[i], table[j])
  {
  }

  lemma EmptyEntryOk(s: Store, codec: Codec, i: nat)
    requires i < |s.table| && s.table[i] == EmptyEntry
    ensures EntryOk(s, codec, i) && Content(s, codec, i) == None
  {
  }

  /** Without a table nothing is live and every counter is zero. */
  lemma NoTable(s: Store, codec: Codec)
    requires Ok(s, codec) && s.table == []
    ensures s.pages == map[] && s.objs == map[] && s.stats == NoStats
  {
    assert forall id :: id in s.pages ==> !PageOwned(s, id);
    assert forall k :: k in s.objs ==> !ObjOwned(s, k);
    assert s.pages.Keys == {} && s.objs.Keys == {};
  }

  /** What one segment of a write does to a store. */
  lemma SegmentOk(s: Store, codec: Codec, i: nat, page: Page, alloc: Alloc)
    requires Sound(codec) && Ok(s, codec) && i < |s.table|
    requires EntryOk(s, codec, i) && Fresh(Cleared(s, i), alloc)
    ensures var (t, stored) := WritePage(s, codec, i, page, alloc);
            Ok(t, codec) && |t.table| == |s.table|
            && DiskOf(t, codec) == DiskOf(s, codec)[i := if stored then Some(page) else None]
  {
    hide Tally, WritePage, Cleared;
    WriteOk(s, codec, i, page, alloc);
    DiskAfter(s, WritePage(s, codec, i, page, alloc).0, codec, i);
  }

  lemma StoredStep(d: Disk, index: nat, segs: seq<Page>, n: nat)
    requires n < |segs| && index + n < |d|
    ensures Stored(d, index, segs, n + 1) == Stored(d, index, segs, n)[index + n := Some(segs[n])]
  {
  }

  lemma DroppedStep(d: Disk, index: nat, n: nat)
    requires index + n < |d|
    ensures Dropped(d, index, n + 1) == Dropped(d, index, n)[index + n := None]
  {
  }

  lemma EntryOfOk(s: Store, codec: Codec, i: nat)
    requires Ok(s, codec) && i < |s.table|
    ensures EntryOk(s, codec, i)
  {
  }

  function FreedPages(table: seq<Entry>): set<nat> {
    set e | e in table && e.page != Null && e.uncompressed :: e.page.id
  }

  function FreedObjs(table: seq<Entry>): set<(nat, nat)> {
    set e | e in table && e.page != Null && !e.uncompressed :: Key(e)
  }

  lemma FreedStep(table: seq<Entry>, i: nat)
    requires i < |table|
    ensures var e := table[i];
            && FreedPages(table[..i + 1]) == FreedPages(table[..i]) + (if e.page != Null && e.uncompressed then {e.page.id} else {})
            && FreedObjs(table[..i + 1]) == FreedObjs(table[..i]) + (if e.page != Null && !e.uncompressed then {Key(e)} else {})
  {
    assert table[..i + 1] == table[..i] + [table[i]];
  }

  /** When the reset reaches entry `i`, what it refers to has not been freed yet. */
  lemma StillLive(s: Store, codec: Codec, i: nat)
    requires Ok(s, codec) && i < |s.table|
    ensures var e := s.table[i];
            && (e.page != Null && e.uncompressed ==> e.page.id in s.pages && e.page.id !in FreedPages(s.table[..i]))
            && (e.page != Null && !e.uncompressed ==> Key(e) in s.objs && Key(e) !in FreedObjs(s.table[..i]))
  {
    hide Tally;
    assert EntryOk(s, codec, i);
    forall j | 0 <= j < i
      ensures Apart(s.table[i], s.table[j])
    {
    }
  }

  /** What the table refers to is all that is live. */
  lemma AllFreed(s: Store, codec: Codec)
    requires Ok(s, codec)
    ensures s.pages.Keys - FreedPages(s.table) == {} && s.objs.Keys - FreedObjs(s.table) == {}
  {
    hide Tally;
    forall id | id in s.pages
      ensures id in FreedPages(s.table)
    {
      assert PageOwned(s, id);
      var i :| 0 <= i < |s.table| && s.table[i].page == Pointer(id) && s.table[i].uncompressed;
      assert s.table[i] in s.table;
    }
    forall k | k in s.objs
      ensures k in FreedObjs(s.table)
    {
      assert ObjOwned(s, k);
      var i :| 0 <= i < |s.table| && s.table[i].page == Pointer(k.0) && s.table[i].offset == k.1 && !s.table[i].uncompressed;
      assert s.table[i] in s.table && Key(s.table[i]) == k;
    }
  }

  class Device {
    const codec: Codec
    var table: array?<Entry>
    var pages: map<nat, Page>
    var objs: map<(nat, nat), seq<byte>>
    var stats: Stats
    var initDone: bool
    var disksize: nat
    var numReads: nat
    var numWrites: nat
    var failedReads: nat
    var failedWrites: nat
    var notifyFree: nat
    var discards: nat

    function View(): Store
      reads this, table
    {
      Store(if table == null then [] else table[..], pages, objs, stats)
    }

    ghost predicate Valid()
      reads this, table
    {
      && Sound(codec)
      && (initDone ==> table != null && table.Length == disksize / 4096)
      && (!initDone ==> table == null)
      && Ok(View(), codec)
    }

    /** Empty while the device is not initialised. */
    ghost function Disk(): Disk
      requires Valid()
      reads this, table
    {
      DiskOf(View(), codec)
    }

    /** Frees whatever entry `i` holds. */
    method ZramFreePage(i: nat)
      requires table != null && i < table.Length && Backed(table[i], pages, objs)
      modifies table, `pages, `objs, `stats
      ensures View() == old(FreePage(View(), i))
    {
      ghost var s := View();
      var e := table[i];
      if e.page == Null {
        if e.zero {
          table[i] := e.(zero := false);
          stats := stats.(pagesZero := stats.pagesZero - 1);
        }
        return;
      }
      var clen: int;
      if e.uncompressed {
        clen := 4096;
        pages := pages - {e.page.id};
        table[i] := table[i].(uncompressed := false);
        stats := stats.(pagesExpand := stats.pagesExpand - 1);
      } else {
        clen := |objs[(e.page.id, e.offset)]|;
        objs := objs - {(e.page.id, e.offset)};
        if clen <= 2048 {
          stats := stats.(goodCompress := stats.goodCompress - 1);
        }
      }
      stats := stats.(comprSize := stats.comprSize - clen, pagesStored := stats.pagesStored - 1);
      table[i] := table[i].(page := Null, offset := 0);
    }

    /** The body of the write loop for one segment. */
    method WriteSegment(i: nat, page: Page, xvMalloc: Store -> Alloc) returns (stored: bool)
      requires table != null && i < table.Length && Backed(table[i], pages, objs)
      modifies table, `pages, `objs, `stats, `failedWrites
      ensures var alloc := xvMalloc(old(Cleared(View(), i)));
              (View(), stored) == old(WritePage(View(), codec, i, page, alloc))
              && (stored <==> CanStore(codec, page, alloc))
      ensures old(EntryOk(View(), codec, i)) ==> Written(old(View()), View(), codec, i, page, stored)
      ensures failedWrites == old(failedWrites) + if stored then 0 else 1
    {
      hide StorePage, FreePage, CanStore, Written, EntryOk;
      ghost var s := View();
      ghost var alloc := xvMalloc(Cleared(s, i));
      if EntryOk(s, codec, i) {
        WriteCosts(s, codec, i, page, alloc);
      }
      if table[i].page != Null || table[i].zero {
        ZramFreePage(i);
      }
      StoredIff(View(), codec, i, page, alloc);
      stored := StoreSegment(i, page, xvMalloc(View()));
    }

    /** The zero test, the compressor, the allocators and the copy. */
    method StoreSegment(i: nat, page: Page, alloc: Alloc) returns (stored: bool)
      requires table != null && i < table.Length
      modifies table, `pages, `objs, `stats, `failedWrites
      ensures (View(), stored) == old(StorePage(View(), codec, i, page, alloc))
      ensures failedWrites == old(failedWrites) + if stored then 0 else 1
    {
      ghost var u := View();
      if page == ZeroPage() {
        stats := stats.(pagesZero := stats.pagesZero + 1);
        table[i] := table[i].(zero := true);
        return true;
      }
      var ret := codec.compress(page);
      if ret == None {
        failedWrites := failedWrites + 1;
        return false;
      }
      var src, clen := ret.value, |ret.value|;
      if alloc == NoMemory {
        failedWrites := failedWrites + 1;
        return false;
      }
      if clen > 3072 {
        clen := 4096;
        table[i] := table[i].(uncompressed := true);
        stats := stats.(pagesExpand := stats.pagesExpand + 1);
        table[i] := table[i].(page := Pointer(alloc.page), offset := 0);
        pages := pages[alloc.page := page];
      } else {
        table[i] := table[i].(page := Pointer(alloc.page), offset := alloc.offset);
        objs := objs[(alloc.page, alloc.offset) := src];
      }
      stats := stats.(comprSize := stats.comprSize + clen, pagesStored := stats.pagesStored + 1);
      if clen <= 2048 {
        stats := stats.(goodCompress := stats.goodCompress + 1);
      }
      assert table[..] == u.table[i := table[i]];
      return true;
    }

    /** A write of whole pages. It stores a prefix of the segments - all of them unless it
        reports an error, in which case the first page not stored is left empty - and
        touches no other page. It reports an error exactly if a page that is not zero does
        not compress or finds no memory; `asked` are the stores the allocator was asked with,
        one for each segment, its page already given up. */
    method ZramWrite(index: nat, segs: seq<Page>, xvMalloc: Store -> Alloc, defaultSize: nat)
        returns (error: bool, ghost done: nat, ghost asked: seq<Store>)
      requires Valid() && forall s :: Fresh(s, xvMalloc(s))
      requires index + |segs| <= if initDone then table.Length else SizeOnInit(defaultSize) / 4096
      modifies this, table
      ensures Valid() && initDone && done <= |segs| && (error <==> done < |segs|)
      ensures var d := if old(initDone) then old(Disk()) else Missing(old(SizeOnInit(defaultSize)) / 4096);
              index + |segs| <= |d| && Disk() == if error then Stored(d, index, segs, done)[index + done := None]
                                                 else Stored(d, index, segs, done)
      ensures var d := if old(initDone) then old(Disk()) else Missing(old(SizeOnInit(defaultSize)) / 4096);
              index + |segs| <= |d| && |asked| == (if error then done + 1 else done)
              && forall k :: 0 <= k < |asked| ==> Asked(asked[k], codec, d, index, segs, k)
      ensures forall k :: 0 <= k < done ==> CanStore(codec, segs[k], xvMalloc(asked[k]))
      ensures error ==> !CanStore(codec, segs[done], xvMalloc(asked[done]))
      ensures index + |segs| <= table.Length && forall k :: 0 <= k < done ==> Shape(codec, table[index + k], segs[k])
      ensures numWrites == old(numWrites) + 1 && failedWrites == old(failedWrites) + if error then 1 else 0
    {
      if !initDone {
        ZramInitDevice(defaultSize);
      }
      numWrites := numWrites + 1;
      error, done, asked := WriteSegments(index, segs, xvMalloc);
    }

    method WriteSegments(index: nat, segs: seq<Page>, xvMalloc: Store -> Alloc)
        returns (error: bool, ghost done: nat, ghost asked: seq<Store>)
      requires Valid() && initDone && index + |segs| <= table.Length
      requires forall s :: Fresh(s, xvMalloc(s))
      modifies table, `pages, `objs, `stats, `failedWrites
      ensures Valid() && done <= |segs| && (error <==> done < |segs|)
      ensures Disk() == if error then Stored(old(Disk()), index, segs, done)[index + done := None]
                        else Stored(old(Disk()), index, segs, done)
      ensures |asked| == (if error then done + 1 else done)
              && forall k :: 0 <= k < |asked| ==> Asked(asked[k], codec, old(Disk()), index, segs, k)
      ensures forall k :: 0 <= k < done ==> CanStore(codec, segs[k], xvMalloc(asked[k]))
      ensures error ==> !CanStore(codec, segs[done], xvMalloc(asked[done]))
      ensures forall k :: 0 <= k < done ==> Shape(codec, table[index + k], segs[k])
      ensures failedWrites == old(failedWrites) + if error then 1 else 0
    {
      hide Ok, DiskOf, WritePage, Asked, CanStore, Shape, Cleared;
      ghost var d := Disk();
      assert Stored(d, index, segs, 0) == d;
      asked := [];
      for i := 0 to |segs|
        invariant Valid() && table.Length == |d| && failedWrites == old(failedWrites)
        invariant Disk() == Stored(d, index, segs, i)
        invariant |asked| == i && forall k :: 0 <= k < i ==> Asked(asked[k], codec, d, index, segs, k)
        invariant forall k :: 0 <= k < i ==> CanStore(codec, segs[k], xvMalloc(asked[k]))
        invariant forall k :: 0 <= k < i ==> Shape(codec, table[index + k], segs[k])
      {
        ghost var s := View();
        EntryOfOk(s, codec, index + i);
        AskedIs(s, codec, d, index, segs, i);
        asked := asked + [Cleared(s, index + i)];
        SegmentOk(s, codec, index + i, segs[i], xvMalloc(Cleared(s, index + i)));
        var stored := WriteSegment(index + i, segs[i], xvMalloc);
        if !stored {
          return true, i, asked;
        }
        StoredStep(d, index, segs, i);
      }
      return false, |segs|, asked;
    }

    /** The size the device gets when it is first written: a whole number of pages. */
    function SizeOnInit(defaultSize: nat): (r: nat)
      reads this
      ensures var size := if disksize == 0 then defaultSize else disksize;
              r % 4096 == 0 && r <= size < r + 4096
    {
      var size := if disksize == 0 then defaultSize else disksize;
      size - size % 4096
    }

    /** First use: a table of empty entries, no memory in use. */
    method ZramInitDevice(defaultSize: nat)
      requires Valid() && !initDone
      modifies this
      ensures Valid() && initDone && disksize == old(SizeOnInit(defaultSize))
      ensures fresh(table) && table.Length == disksize / 4096
      ensures Disk() == Missing(disksize / 4096)
      ensures numWrites == old(numWrites) && failedWrites == old(failedWrites)
    {
      NoTable(View(), codec);
      if disksize == 0 {
        disksize := defaultSize;
      }
      disksize := disksize - disksize % 4096;
      table := new Entry[disksize / 4096](_ => EmptyEntry);
      initDone := true;
      EmptyOk(View(), codec);
    }

    /** A read of whole pages into given buffers: a page on the disk replaces the buffer's
        content, a missing page leaves it as it was, and no read of a valid device fails. */
    method ZramRead(index: nat, buffers: seq<Page>) returns (out: seq<Page>, error: bool)
      requires Valid() && (initDone ==> index + |buffers| <= table.Length)
      modifies `numReads, `failedReads
      ensures Valid() && !error && |out| == |buffers| && failedReads == old(failedReads)
      ensures !initDone ==> out == buffers && numReads == old(numReads)
      ensures initDone ==> numReads == old(numReads) + 1
      ensures initDone ==> Disk() == old(Disk()) &&
                           forall k :: 0 <= k < |out| ==>
                             out[k] == match Disk()[index + k] case Some(p) => p case None => buffers[k]
    {
      if !initDone {
        return buffers, false;
      }
      numReads := numReads + 1;
      ghost var s := View();
      forall i | 0 <= i < |s.table|
        ensures Backed(s.table[i], s.pages, s.objs) && !Broken(s, codec, i)
      {
        EntryOfOk(s, codec, i);
      }
      hide Ok;
      out, error := ReadSegments(index, buffers);
    }

    /** The read loop itself, whether or not every object decompresses. */
    method ReadSegments(index: nat, buffers: seq<Page>) returns (out: seq<Page>, error: bool)
      requires table != null && index + |buffers| <= table.Length
      requires forall i :: 0 <= i < table.Length ==> Backed(table[i], pages, objs)
      modifies `failedReads
      ensures |out| == |buffers| && failedReads == old(failedReads) + if error then 1 else 0
      ensures error ==> exists i :: index <= i < index + |buffers| && Broken(View(), codec, i)
      ensures !error ==> forall k :: 0 <= k < |out| ==>
                           out[k] == match Content(View(), codec, index + k) case Some(p) => p case None => buffers[k]
    {
      out := buffers;
      for k := 0 to |buffers|
        invariant |out| == |buffers| && failedReads == old(failedReads)
        invariant forall j :: k <= j < |out| ==> out[j] == buffers[j]
        invariant forall j :: 0 <= j < k ==>
                    out[j] == match Content(View(), codec, index + j) case Some(p) => p case None => buffers[j]
      {
        var e := table[index + k];
        if e.zero {
          out := out[k := ZeroPage()];
        } else if e.page == Null {
        } else if e.uncompressed {
          out := out[k := pages[e.page.id]];
        } else {
          var ret := codec.decompress(objs[(e.page.id, e.offset)]);
          if ret == None {
            failedReads := failedReads + 1;
            assert Broken(View(), codec, index + k);
            return out, true;
          }
          out := out[k := ret.value];
        }
      }
      return out, false;
    }

    /** A discard of whole pages empties them; an uninitialised device only counts it. */
    method ZramDiscard(index: nat, npages: nat)
      requires Valid() && (initDone ==> index + npages <= table.Length)
      modifies this, table
      ensures Valid() && initDone == old(initDone) && discards == old(discards) + 1
      ensures initDone ==> Disk() == Dropped(old(Disk()), index, npages)
    {
      if initDone {
        hide Ok, DiskOf, FreePage;
        ghost var d := Disk();
        assert Dropped(d, index, 0) == d;
        for i := 0 to npages
          invariant Valid() && initDone && table == old(table) && table.Length == |d| && discards == old(discards)
          invariant Disk() == Dropped(d, index, i)
        {
          FreeOne(index + i);
          DroppedStep(d, index, i);
        }
      }
      discards := discards + 1;
    }

    /** One page freed on a valid device. */
    method FreeOne(i: nat)
      requires Valid() && initDone && i < table.Length
      modifies table, `pages, `objs, `stats
      ensures Valid() && Disk() == old(Disk())[i := None]
    {
      ghost var s := View();
      FreeOk(s, codec, i);
      DiskAfter(s, FreePage(s, i), codec, i);
      hide Ok, DiskOf, SameElsewhere;
      ZramFreePage(i);
    }

    method ZramSlotFreeNotify(i: nat)
      requires Valid() && initDone && i < table.Length
      modifies table, `pages, `objs, `stats, `notifyFree
      ensures Valid() && Disk() == old(Disk())[i := None] && notifyFree == old(notifyFree) + 1
    {
      FreeOne(i);
      notifyFree := notifyFree + 1;
    }

    /** Gives all memory back - each page and object once, none left - and forgets the
        table and the counters. */
    method ZramResetDevice()
      requires Valid() && initDone
      modifies this
      ensures Valid() && !initDone && pages == map[] && objs == map[] && stats == NoStats && disksize == 0
    {
      hide Ok, DiskOf, Missing;
      initDone := false;
      FreeAll();
      table := null;
      stats := NoStats;
      numReads, numWrites, failedReads, failedWrites, notifyFree, discards := 0, 0, 0, 0, 0, 0;
      disksize := 0;
      EmptyOk(View(), codec);
    }

    /** Every entry's memory is freed while it is still live, and then nothing is. */
    method FreeAll()
      requires table != null && table.Length == disksize / 4096 && Ok(View(), codec)
      modifies `pages, `objs
      ensures pages == map[] && objs == map[]
    {
      ghost var s := View();
      hide Ok, Tally;
      for i := 0 to disksize / 4096
        invariant table[..] == s.table
        invariant pages.Keys == s.pages.Keys - FreedPages(s.table[..i])
        invariant objs.Keys == s.objs.Keys - FreedObjs(s.table[..i])
      {
        var e := table[i];
        StillLive(s, codec, i);
        FreedStep(s.table, i);
        hide FreedPages, FreedObjs;
        if e.page != Null {
          if e.uncompressed {
            assert e.page.id in pages;
            pages := pages - {e.page.id};
          } else {
            assert (e.page.id, e.offset) in objs;
            objs := objs - {(e.page.id, e.offset)};
          }
        }
      }
      AllFreed(s, codec);
      assert s.table[..|s.table|] == s.table;
      assert pages.Keys == {} && objs.Keys == {};
    }
  }
}
