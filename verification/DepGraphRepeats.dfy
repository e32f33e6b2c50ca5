/** Exactly when the walk ends on graphs that list neighbours twice: it goes step by step with
    the walk over the same graph without repeats, until it falls back for the first time. */
module DepGraphRepeats {
  import opened DepGraph
  import opened DepGraphEnds

  // ---------------------------------------------------------------------------
  // Lists without repeats
  // ---------------------------------------------------------------------------

  /** The first occurrences of the entries that are not in `done`. */
  function Left(c: seq<Node>, done: set<Node>): seq<Node> {
    if c == [] then []
    else if c[0] in done then Left(c[1..], done)
    else [c[0]] + Left(c[1..], done + {c[0]})
  }

  function Deduped(g: Graph): Graph {
    map u | u in g :: Left(g[u], {})
  }

  lemma {:induction false} LeftMembers(c: seq<Node>, done: set<Node>)
    ensures forall v :: v in Left(c, done) <==> v in c && v !in done
    ensures NoRepeats(Left(c, done))
    decreases |c|
  {
    if c != [] {
      var more := if c[0] in done then done else done + {c[0]};
      LeftMembers(c[1..], more);
      assert forall v :: v in c <==> v == c[0] || v in c[1..];
    }
  }

  lemma {:induction false} DedupedFacts(g: Graph, start: Node)
    ensures EdgesOf(Deduped(g)) == EdgesOf(g) && Deduped(g).Keys == g.Keys
    ensures forall u :: NoRepeats(Children(Deduped(g), u))
  {
    forall u | u in g
      ensures NoRepeats(Left(g[u], {})) && forall v :: v in Left(g[u], {}) <==> v in g[u]
    {
      LeftMembers(g[u], {});
    }
  }

  // ---------------------------------------------------------------------------
  // The position after an entry was deleted
  // ---------------------------------------------------------------------------

  lemma {:induction false} IndexIs(c: seq<Node>, x: Node, k: nat)
    requires k < |c| && c[k] == x && x !in c[..k]
    ensures IndexOf(c, x) == k
  {
    IndexAtMost(c, x, k);
    hide IndexOf;
    forall j | 0 <= j < k
      ensures c[j] != x
    {
      assert c[..k][j] == c[j];
    }
  }

  /** The entry at the position goes, or an earlier one like it. */
  ghost predicate EntryGone(c: seq<Node>, k: nat, d: seq<Node>, l: nat)
    requires k < |c| && l <= |d|
  {
    || (d[..l] == c[..k] && d[l..] == c[k + 1..])
    || (c[k] in c[..k] && d[..l] == Remove(c[..k], c[k]) && d[l..] == c[k..])
  }

  lemma {:induction false} RemoveParts(c: seq<Node>, x: Node)
    requires x in c
    ensures var i := IndexOf(c, x);
      Remove(c, x) == c[..i] + c[i + 1..] && x !in c[..i] && c[i] == x
  {
  }

  lemma {:induction false} EarlierIndex(c: seq<Node>, f: nat, i: nat)
    requires i < f < |c| && c[f] !in c[..f]
    ensures var d := c[..i] + c[i + 1..]; c[f] in d && IndexOf(d, c[f]) == f - 1
  {
    var d := c[..i] + c[i + 1..];
    assert d[f - 1] == c[f];
    assert d[..f - 1] == c[..i] + c[i + 1..f];
    NotInParts(c, c[f], i, f);
    IndexIs(d, c[f], f - 1);
  }

  lemma {:induction false} EarlierParts(c: seq<Node>, f: nat, i: nat)
    requires i < f && f + 1 < |c| && c[i] == c[f + 1] && c[i] !in c[..i]
    ensures var d := c[..i] + c[i + 1..];
      c[f + 1] in c[..f + 1] && d[..f] == Remove(c[..f + 1], c[f + 1]) && d[f..] == c[f + 1..]
  {
    hide Remove, IndexOf;
    var p := c[..f + 1];
    assert p[i] == c[i] && p[..i] == c[..i];
    IndexIs(p, c[i], i);
    RemoveParts(p, c[i]);
    assert p[i + 1..] == c[i + 1..f + 1];
    assert (c[..i] + c[i + 1..])[..f] == c[..i] + c[i + 1..f + 1];
  }

  lemma {:induction false} GoneEarlier(c: seq<Node>, f: nat, i: nat)
    requires i < f && f + 1 < |c| && c[f] !in c[..f] && c[i] == c[f + 1] && c[i] !in c[..i]
    ensures var d := c[..i] + c[i + 1..];
      c[f] in d && EntryGone(c, f + 1, d, IndexOf(d, c[f]) + 1)
  {
    hide Remove, IndexOf;
    EarlierIndex(c, f, i);
    EarlierParts(c, f, i);
  }

  lemma {:induction false} NotInParts(c: seq<Node>, x: Node, i: nat, f: nat)
    requires i < f <= |c| && x !in c[..f]
    ensures x !in c[..i] + c[i + 1..f]
  {
    assert c[..f] == c[..i] + [c[i]] + c[i + 1..f];
  }

  lemma {:induction false} HereParts(c: seq<Node>, f: nat, i: nat)
    requires f <= i <= f + 1 < |c| && c[i] == c[f + 1]
    ensures var d := c[..i] + c[i + 1..];
      d[f] == c[f] && d[..f] == c[..f] && d[..f + 1] == c[..f + 1] && d[f + 1..] == c[f + 2..]
  {
    if i == f {
      assert c[..f + 1] == c[..f] + [c[f]] && c[f + 1..] == [c[f + 1]] + c[f + 2..];
    } else {
      assert c[..f + 1] + c[f + 2..] == c[..i] + c[i + 1..];
    }
  }

  lemma {:induction false} GoneHere(c: seq<Node>, f: nat, i: nat)
    requires f <= i <= f + 1 < |c| && c[f] !in c[..f] && c[i] == c[f + 1]
    ensures var d := c[..i] + c[i + 1..];
      c[f] in d && EntryGone(c, f + 1, d, IndexOf(d, c[f]) + 1)
  {
    hide Remove, IndexOf;
    HereParts(c, f, i);
    IndexIs(c[..i] + c[i + 1..], c[f], f);
  }

  lemma {:induction false} GoneBehind(c: seq<Node>, last: Node)
    requires last in c && IndexOf(c, last) + 1 < |c|
    ensures var k := IndexOf(c, last) + 1;
      var d := Remove(c, c[k]);
      last in d && EntryGone(c, k, d, IndexOf(d, last) + 1)
  {
    hide Remove, IndexOf, EntryGone;
    var f := IndexOf(c, last);
    IndexAtMost(c, c[f + 1], f + 1);
    RemoveParts(c, c[f + 1]);
    RemoveParts(c, last);
    var i := IndexOf(c, c[f + 1]);
    if i < f {
      GoneEarlier(c, f, i);
    } else {
      GoneHere(c, f, i);
    }
  }

  lemma {:induction false} GoneFirst(c: seq<Node>)
    requires c != []
    ensures EntryGone(c, 0, Remove(c, c[0]), 0)
  {
    assert c[..0] == [] && c[0..] == c;
  }

  lemma {:induction false} CutGone(s: State)
    requires LastOk(s) && !AtEnd(s)
    ensures var u, k := s.curr, Position(s, s.curr);
      var t := Cut(s, Children(s.targ, u)[k]);
      LastOk(t) && Position(t, u) <= |Children(t.targ, u)|
      && EntryGone(Children(s.targ, u), k, Children(t.targ, u), Position(t, u))
  {
    hide Remove, IndexOf, EntryGone;
    CutKeepsLast(s);
    var c := s.targ[s.curr];
    if s.curr in s.last {
      GoneBehind(c, s.last[s.curr]);
    } else {
      GoneFirst(c);
    }
  }

  // ---------------------------------------------------------------------------
  // A walk that falls back never ends
  // ---------------------------------------------------------------------------

  /** The path leads to `u` as before, and an entry `v` of `u` is for ever ahead. */
  ghost predicate FallenBack(s: State, w: seq<Node>, u: Node, v: Node)
    requires LastOk(s)
  {
    && w + [u] <= Path(s) && v !in w && v != u && Stuck(s, u, v)
    && NoReturn(Path(s))
  }

  /** No node is met again, except at once. */
  ghost predicate NoReturn(p: seq<Node>) {
    forall i, j :: 0 <= i < j < |p| && p[i] == p[j] ==> j == i + 1
  }

  lemma {:induction false} NoReturnOn(p: seq<Node>, x: Node)
    requires p != [] && NoReturn(p) && x !in p[..|p| - 1]
    ensures NoReturn(p + [x])
  {
    forall i | 0 <= i < |p| - 1
      ensures p[i] != x
    {
      assert p[..|p| - 1][i] == p[i];
    }
  }

  lemma {:induction false} WalkAtU(s: State, w: seq<Node>, u: Node, v: Node)
    requires LastOk(s) && FallenBack(s, w, u, v)
    ensures s.curr == u ==> v !in s.walk && !AtEnd(s)
    ensures s.curr != u ==> s.walk != [] && w + [u] <= s.walk
  {
    hide Position, Twice;
    var p := Path(s);
    assert p[|w|] == u;
    if s.curr == u {
      assert s.walk == w || s.walk == w + [u] by {
        assert |w| == |s.walk| || p[|w|] == p[|s.walk|];
        assert |s.walk| <= |w| + 1;
        assert s.walk == p[..|s.walk|];
      }
    } else {
      assert |w| < |s.walk|;
      assert s.walk == p[..|s.walk|];
    }
  }

  lemma {:induction false} UpFallen(s: State, w: seq<Node>, u: Node, v: Node)
    requires LastOk(s) && FallenBack(s, w, u, v) && AtEnd(s) && s.walk != []
    ensures FallenBack(Up(s), w, u, v)
  {
    WalkAtU(s, w, u, v);
    UpStaysStuck(s, u, v);
    hide Stuck, IndexOf, NoReturn, AtEnd;
    NoReturnBack(Path(s));
    assert Path(Up(s)) == s.walk == Path(s)[..|Path(s)| - 1];
  }

  lemma {:induction false} CutFallen(s: State, w: seq<Node>, u: Node, v: Node)
    requires LastOk(s) && FallenBack(s, w, u, v) && !AtEnd(s)
    requires Children(s.targ, s.curr)[Position(s, s.curr)] in s.walk
    ensures FallenBack(Iterate(s), w, u, v)
  {
    WalkAtU(s, w, u, v);
    CutStaysStuck(s, u, v);
    hide Stuck, IndexOf, Remove, NoReturn;
    assert Path(Iterate(s)) == Path(s);
  }

  lemma {:induction false} DownFallen(s: State, w: seq<Node>, u: Node, v: Node)
    requires LastOk(s) && FallenBack(s, w, u, v) && !AtEnd(s)
    requires Children(s.targ, s.curr)[Position(s, s.curr)] !in s.walk
    ensures FallenBack(Iterate(s), w, u, v)
  {
    DownStaysStuck(s, u, v);
    hide Stuck, IndexOf, NoReturn;
    var p, next := Path(s), Children(s.targ, s.curr)[Position(s, s.curr)];
    assert p[..|p| - 1] == s.walk;
    NoReturnOn(p, next);
    assert Path(Iterate(s)) == p + [next];
  }

  lemma {:induction false} StaysFallen(s: State, w: seq<Node>, u: Node, v: Node)
    requires LastOk(s) && FallenBack(s, w, u, v) && !IsOver(s)
    ensures FallenBack(Iterate(s), w, u, v)
  {
    hide FallenBack, IndexOf, Remove;
    if AtEnd(s) {
      UpFallen(s, w, u, v);
    } else if Children(s.targ, s.curr)[Position(s, s.curr)] in s.walk {
      CutFallen(s, w, u, v);
    } else {
      DownFallen(s, w, u, v);
    }
  }

  lemma {:induction false} NoReturnBack(p: seq<Node>)
    requires p != [] && NoReturn(p)
    ensures NoReturn(p[..|p| - 1])
  {
  }

  lemma {:induction false} FallenNeverOver(s: State, w: seq<Node>, u: Node, v: Node, n: nat)
    requires LastOk(s) && FallenBack(s, w, u, v)
    ensures !IsOver(Run(s, n))
    decreases n
  {
    WalkAtU(s, w, u, v);
    hide FallenBack, Iterate, AtEnd, LastOk;
    if n > 0 && !IsOver(s) {
      StaysFallen(s, w, u, v);
      FallenNeverOver(Iterate(s), w, u, v, n - 1);
    }
  }

  // ---------------------------------------------------------------------------
  // One node in the two walks
  // ---------------------------------------------------------------------------

  /** The entries in front of the position: the neighbours `down` the walk went down to, each
      once but for `u` itself. */
  ghost predicate Front(u: Node, front: seq<Node>, down: set<Node>) {
    && (forall v :: v in front ==> v in down)
    && (forall v :: v != u ==> multiset(front)[v] <= 1)
    && (forall v :: v != u && v in down ==> v in front)
  }

  /** Only entries that were cut are missing, apart from `u` itself. */
  ghost predicate Kept(all: seq<Node>, u: Node, c: seq<Node>, cut: set<Node>) {
    forall v :: v != u && v !in cut ==> multiset(c)[v] == multiset(all)[v]
  }

  /** The list `c` of `u`, gone through up to `k`, beside what the walk without repeats has
      left: `down` and `cut` are the neighbours it has dealt with. */
  ghost predicate NodeOk(all: seq<Node>, u: Node, c: seq<Node>, k: nat, rest: seq<Node>, down: set<Node>, cut: set<Node>)
    requires k <= |c|
  {
    Left(c[k..], down + cut) == rest && Front(u, c[..k], down) && Kept(all, u, c, cut)
  }

  lemma {:induction false} RestStarts(c: seq<Node>, k: nat, done: set<Node>)
    requires k < |c|
    ensures c[k] in done ==> Left(c[k..], done) == Left(c[k + 1..], done)
    ensures c[k] !in done ==> Left(c[k..], done) == [c[k]] + Left(c[k + 1..], done + {c[k]})
  {
    assert c[k..][1..] == c[k + 1..];
  }

  lemma {:induction false} FrontOn(u: Node, front: seq<Node>, down: set<Node>, x: Node)
    requires Front(u, front, down) && x !in down
    ensures x !in front && Front(u, front + [x], down + {x})
  {
  }

  lemma {:induction false} FrontWithout(u: Node, front: seq<Node>, down: set<Node>)
    requires Front(u, front, down) && u in front
    ensures Front(u, Remove(front, u), down)
  {
    RemoveCounts(front, u);
    RemoveMembers(front, u);
    hide Remove;
  }

  lemma {:induction false} KeptWithout(all: seq<Node>, u: Node, c: seq<Node>, cut: set<Node>, x: Node)
    requires Kept(all, u, c, cut) && x in c
    ensures Kept(all, u, Remove(c, x), cut + {x})
    ensures x == u ==> Kept(all, u, Remove(c, x), cut)
  {
    RemoveCounts(c, x);
    hide Remove;
  }

  lemma {:induction false} RemoveCounts(c: seq<Node>, x: Node)
    requires x in c
    ensures multiset(Remove(c, x)) == multiset(c) - multiset{x}
  {
    hide Remove, IndexOf;
    RemoveParts(c, x);
    var i := IndexOf(c, x);
    assert c == c[..i] + [x] + c[i + 1..];
    assert multiset(c) == multiset(c[..i]) + multiset{x} + multiset(c[i + 1..]);
  }

  lemma {:induction false} NodeDown(all: seq<Node>, u: Node, c: seq<Node>, k: nat, rest: seq<Node>, down: set<Node>, cut: set<Node>)
    requires k < |c| && NodeOk(all, u, c, k, rest, down, cut) && c[k] !in down + cut
    ensures c[k] !in c[..k] && rest != [] && rest[0] == c[k]
    ensures NodeOk(all, u, c, k + 1, rest[1..], down + {c[k]}, cut)
  {
    RestStarts(c, k, down + cut);
    FrontOn(u, c[..k], down, c[k]);
    hide Left, Front, Kept;
    assert c[..k + 1] == c[..k] + [c[k]];
    assert down + cut + {c[k]} == down + {c[k]} + cut;
  }

  lemma {:induction false} NodeCutFresh(all: seq<Node>, u: Node, c: seq<Node>, k: nat, rest: seq<Node>, down: set<Node>, cut: set<Node>, l: nat)
    requires k < |c| && NodeOk(all, u, c, k, rest, down, cut) && c[k] !in down + cut
    requires l <= |Remove(c, c[k])| && EntryGone(c, k, Remove(c, c[k]), l)
    ensures rest != [] && rest[0] == c[k]
    ensures NodeOk(all, u, Remove(c, c[k]), l, rest[1..], down, cut + {c[k]})
  {
    RestStarts(c, k, down + cut);
    FrontOn(u, c[..k], down, c[k]);
    KeptWithout(all, u, c, cut, c[k]);
    hide Left, Remove, Front, Kept;
    assert down + cut + {c[k]} == down + (cut + {c[k]});
  }

  /** An entry dealt with before is deleted again: nothing changes for the walk without it. */
  lemma {:induction false} NodeCutAgain(all: seq<Node>, u: Node, c: seq<Node>, k: nat, rest: seq<Node>, down: set<Node>, cut: set<Node>, l: nat)
    requires k < |c| && NodeOk(all, u, c, k, rest, down, cut) && c[k] in down + cut && (c[k] in down ==> c[k] == u)
    requires l <= |Remove(c, c[k])| && EntryGone(c, k, Remove(c, c[k]), l)
    ensures NodeOk(all, u, Remove(c, c[k]), l, rest, down, cut)
  {
    hide Left, Remove, Kept, Front;
    RestStarts(c, k, down + cut);
    var x := c[k];
    KeptWithout(all, u, c, cut, x);
    assert x != u ==> cut + {x} == cut;
    FrontIsDown(u, c[..k], down);
    if x in c[..k] {
      FrontWithout(u, c[..k], down);
    }
  }

  lemma {:induction false} FrontIsDown(u: Node, front: seq<Node>, down: set<Node>)
    requires Front(u, front, down)
    ensures forall v :: v in front ==> v in down
  {
  }

  // ---------------------------------------------------------------------------
  // The two walks side by side
  // ---------------------------------------------------------------------------

  ghost function Targets(edges: set<Edge>, u: Node): set<Node> {
    set e | e in edges && e.0 == u :: e.1
  }

  ghost function Rest(t: State, u: Node): seq<Node>
    requires LastOk(t)
  {
    Children(t.targ, u)[Position(t, u)..]
  }

  ghost predicate NodeAt(g: Graph, s: State, t: State, h: History, u: Node)
    requires LastOk(s) && LastOk(t)
  {
    NodeOk(Children(g, u), u, Children(s.targ, u), Position(s, u), Rest(t, u), Targets(h.crossed, u), Targets(h.cut, u))
  }

  /** On the path, what was cut from a node's list leads back, and what was gone down to
      does not. */
  ghost predicate Aside(p: seq<Node>, h: History) {
    forall i, v :: 0 <= i < |p| && p[i] !in h.fin ==>
      ((p[i], v) in h.cut ==> v in p[..i]) && ((p[i], v) in h.crossed && v != p[i] ==> v !in p[..i])
  }

  ghost predicate Through(s: State, u: Node)
    requires LastOk(s)
  {
    Position(s, u) >= |Children(s.targ, u)|
  }

  /** A node gone down to over its self-loop is twice on the path, or through. */
  ghost predicate SelfDone(s: State, h: History)
    requires LastOk(s)
  {
    forall u :: (u, u) in h.crossed ==>
      Through(s, u) || exists i :: 0 <= i < |s.walk| && Path(s)[i] == Path(s)[i + 1] == u
  }

  ghost predicate FinDone(s: State, h: History)
    requires LastOk(s)
  {
    forall u :: u in h.fin ==> Through(s, u)
  }

  ghost predicate CutSeen(t: State, h: History) {
    forall e :: e in h.cut ==> Visited(t, h, e.0)
  }

  /** Lists only lose entries, and only those of nodes the walk has been at. */
  ghost predicate Within(g: Graph, s: State, t: State, h: History) {
    && s.targ.Keys == g.Keys
    && (forall u, v :: v in Children(s.targ, u) ==> v in Children(g, u))
    && (forall u :: !Visited(t, h, u) ==> Children(s.targ, u) == Children(g, u))
  }

  lemma {:induction false} WithinStays(g: Graph, s: State, t: State, h: History, a: State, b: State, k: History)
    requires Within(g, s, t, h) && a.targ == s.targ && forall u :: Visited(t, h, u) ==> Visited(b, k, u)
    ensures Within(g, a, b, k)
  {
  }

  lemma {:induction false} WithinCut(g: Graph, s: State, t: State, h: History, v: Node, b: State, k: History)
    requires Within(g, s, t, h) && s.curr == t.curr && v in Children(s.targ, s.curr)
    requires forall u :: Visited(t, h, u) ==> Visited(b, k, u)
    ensures Within(g, Cut(s, v), b, k)
  {
    RemoveMembers(s.targ[s.curr], v);
    hide Remove;
  }

  /** `s` walks over `g`, and `t`, which has done `h`, over `g` without repeats. */
  ghost predicate Beside(g: Graph, start: Node, s: State, t: State, h: History) {
    && LastOk(s) && LastOk(t) && Inv(Deduped(g), start, t, h)
    && s.curr == t.curr && s.walk == t.walk && s.dot == t.dot
    && (forall u :: NodeAt(g, s, t, h, u)) && Within(g, s, t, h)
    && Aside(Path(t), h) && SelfDone(s, h) && FinDone(s, h) && CutSeen(t, h)
  }

  lemma {:induction false} StartNode(c: seq<Node>, u: Node)
    ensures NodeOk(c, u, c, 0, Left(c, {}), {}, {})
  {
    assert c[0..] == c && c[..0] == [];
    var none: set<Node> := {};
    assert none + none == none;
  }

  lemma {:induction false} StartBeside(g: Graph, start: Node)
    ensures Beside(g, start, Start(g, start), Start(Deduped(g), start), History([], {}, {}))
  {
    InitInv(Deduped(g), start);
    hide Inv, NodeOk;
    var s, t, h := Start(g, start), Start(Deduped(g), start), History([], {}, {});
    forall u
      ensures NodeAt(g, s, t, h, u)
    {
      var c := Children(g, u);
      StartNode(c, u);
      assert Left(c, {}) == Children(Deduped(g), u) == Rest(t, u);
      assert Targets({}, u) == {};
    }
  }

  // --- both go up ---

  lemma {:induction false} BothAtEnd(g: Graph, start: Node, s: State, t: State, h: History)
    requires Beside(g, start, s, t, h) && AtEnd(s)
    ensures AtEnd(t)
  {
    hide Inv, Aside, SelfDone, FinDone, CutSeen, Within, LastOk;
    assert NodeAt(g, s, t, h, s.curr);
    assert Children(s.targ, s.curr)[Position(s, s.curr)..] == [];
  }

  lemma {:induction false} UpSelfDone(s: State, h: History, k: History)
    requires LastOk(s) && SelfDone(s, h) && AtEnd(s) && s.walk != [] && k.crossed == h.crossed
    ensures SelfDone(Up(s), k)
  {
    var t := Up(s);
    assert Path(s) == Path(t) + [s.curr];
    forall u | (u, u) in k.crossed && !Through(t, u)
      ensures exists i :: 0 <= i < |t.walk| && Path(t)[i] == Path(t)[i + 1] == u
    {
      var i :| 0 <= i < |s.walk| && Path(s)[i] == Path(s)[i + 1] == u;
      assert u != s.curr;
      assert i < |t.walk| && Path(t)[i] == Path(t)[i + 1] == u;
    }
  }

  lemma {:induction false} UpAside(t: State, h: History, k: History)
    requires Aside(Path(t), h) && t.walk != [] && k.crossed == h.crossed && k.cut == h.cut
    requires forall u :: u in h.fin ==> u in k.fin
    ensures Aside(Path(Up(t)), k)
  {
    var p, q := Path(t), Path(Up(t));
    assert q == t.walk;
    forall i, v | 0 <= i < |q| && q[i] !in k.fin
      ensures (q[i], v) in k.cut ==> v in q[..i]
      ensures (q[i], v) in k.crossed && v != q[i] ==> v !in q[..i]
    {
      assert p[i] == q[i] && p[..i] == q[..i];
    }
  }

  lemma {:induction false} UpNodes(g: Graph, s: State, t: State, h: History, k: History, u: Node)
    requires LastOk(s) && LastOk(t) && NodeAt(g, s, t, h, u) && s.walk != [] && t.walk != []
    requires k.crossed == h.crossed && k.cut == h.cut
    ensures NodeAt(g, Up(s), Up(t), k, u)
  {
    hide NodeOk, IndexOf;
  }

  lemma {:induction false} UpVisited(t: State, h: History, u: Node)
    requires Visited(t, h, u) && t.walk != []
    ensures Visited(Up(t), Finish(t, h), u)
  {
  }

  lemma {:induction false} UpFinDone(s: State, t: State, h: History)
    requires LastOk(s) && FinDone(s, h) && AtEnd(s) && s.walk != [] && s.curr == t.curr && s.walk == t.walk
    ensures FinDone(Up(s), Finish(t, h))
  {
    hide IndexOf;
  }

  lemma {:induction false} UpBeside(g: Graph, start: Node, s: State, t: State, h: History)
    requires Beside(g, start, s, t, h) && AtEnd(s) && s.walk != []
    ensures AtEnd(t) && Beside(g, start, Up(s), Up(t), Finish(t, h))
    ensures Pending(Up(t), Finish(t, h)) == Pending(t, h)
  {
    hide Inv, NodeAt, Aside, SelfDone, FinDone, Pending, IndexOf, Visited, LastOk, Within;
    BothAtEnd(g, start, s, t, h);
    UpInv(Deduped(g), start, t, h);
    var k := Finish(t, h);
    UpSelfDone(s, h, k);
    UpAside(t, h, k);
    UpFinDone(s, t, h);
    UpLast(s);
    UpLast(t);
    forall u | Visited(t, h, u) ensures Visited(Up(t), k, u) { UpVisited(t, h, u); }
    WithinStays(g, s, t, h, Up(s), Up(t), k);
    forall u
      ensures NodeAt(g, Up(s), Up(t), k, u)
    {
      UpNodes(g, s, t, h, k, u);
    }
    forall e | e in k.cut
      ensures Visited(Up(t), k, e.0)
    {
      UpVisited(t, h, e.0);
    }
  }

  lemma {:induction false} UpLast(s: State)
    requires LastOk(s) && s.walk != []
    ensures LastOk(Up(s))
  {
  }

  // --- both go down, or delete the entry ---

  lemma {:induction false} TargetsMore(edges: set<Edge>, e: Edge, u: Node)
    ensures Targets(edges + {e}, u) == if e.0 == u then Targets(edges, u) + {e.1} else Targets(edges, u)
  {
    var more := Targets(edges + {e}, u);
    forall v | v in Targets(edges, u) ensures v in more { assert (u, v) in edges + {e}; }
    if e.0 == u { assert e in edges + {e}; }
    forall v | v in more ensures v in Targets(edges, u) || (e.0 == u && v == e.1) {
      var d :| d in edges + {e} && d.0 == u && d.1 == v;
      assert d != e ==> d in edges;
    }
  }

  ghost function Handled(h: History, u: Node): set<Node> {
    Targets(h.crossed, u) + Targets(h.cut, u)
  }

  /** An entry not dealt with is the next one of both. */
  lemma {:induction false} SameNext(g: Graph, start: Node, s: State, t: State, h: History)
    requires Beside(g, start, s, t, h) && !AtEnd(s)
    requires Children(s.targ, s.curr)[Position(s, s.curr)] !in Handled(h, s.curr)
    ensures !AtEnd(t)
    ensures Children(t.targ, s.curr)[Position(t, s.curr)] == Children(s.targ, s.curr)[Position(s, s.curr)]
  {
    hide Inv, Aside, SelfDone, FinDone, CutSeen, Within, LastOk, Front, Kept, Left;
    var u := s.curr;
    assert NodeAt(g, s, t, h, u);
    RestStarts(Children(s.targ, u), Position(s, u), Handled(h, u));
    assert Rest(t, u)[0] == Children(t.targ, u)[Position(t, u)];
  }

  lemma {:induction false} OnceInD(g: Graph, start: Node, t: State, h: History)
    requires Inv(Deduped(g), start, t, h) && LastOk(t) && !AtEnd(t)
    ensures NoRepeats(Children(Deduped(g), t.curr))
    ensures var d, k := Children(t.targ, t.curr), Position(t, t.curr);
      IndexOf(d, d[k]) == k && d[k] !in d[..k]
  {
    DedupedFacts(g, start);
    ListsNoRepeats(Deduped(g), t, h, t.curr);
    IndexUnique(Children(t.targ, t.curr), Position(t, t.curr));
    hide Inv, IndexOf;
  }

  lemma {:induction false} DownNodeHere(g: Graph, start: Node, s: State, t: State, h: History)
    requires Beside(g, start, s, t, h) && !AtEnd(s)
    requires Children(s.targ, s.curr)[Position(s, s.curr)] !in Handled(h, s.curr)
    ensures var v := Children(s.targ, s.curr)[Position(s, s.curr)];
      && LastOk(Down(s, v)) && LastOk(Down(t, v))
      && NodeAt(g, Down(s, v), Down(t, v), Crossing(t, h, v), s.curr)
  {
    hide Inv, Aside, SelfDone, FinDone, CutSeen, Within, NodeOk, Targets, IndexOf;
    SameNext(g, start, s, t, h);
    OnceInD(g, start, t, h);
    var u := s.curr;
    var c, k, d, q := Children(s.targ, u), Position(s, u), Children(t.targ, u), Position(t, u);
    assert NodeAt(g, s, t, h, u);
    TargetsMore(h.crossed, (u, c[k]), u);
    NodeDown(Children(g, u), u, c, k, Rest(t, u), Targets(h.crossed, u), Targets(h.cut, u));
    IndexIs(c, c[k], k);
    assert Rest(t, u)[1..] == d[q + 1..];
  }

  lemma {:induction false} DownNodeOther(g: Graph, s: State, t: State, h: History, u: Node, v: Node)
    requires LastOk(s) && LastOk(t) && NodeAt(g, s, t, h, u) && s.curr == t.curr && u != s.curr
    requires LastOk(Down(s, v)) && LastOk(Down(t, v))
    ensures NodeAt(g, Down(s, v), Down(t, v), Crossing(t, h, v), u)
  {
    hide NodeOk, Targets, IndexOf;
    TargetsMore(h.crossed, (s.curr, v), u);
  }

  lemma {:induction false} DownAside(t: State, h: History, v: Node)
    requires Aside(Path(t), h) && CrossedOk(t, h) && CutSeen(t, h) && t.curr !in h.fin && v !in t.walk
    ensures Aside(Path(t) + [v], Crossing(t, h, v))
  {
    var p, k := Path(t), Crossing(t, h, v);
    var q := p + [v];
    forall i, w | 0 <= i < |q| && q[i] !in k.fin
      ensures (q[i], w) in k.cut ==> w in q[..i]
      ensures (q[i], w) in k.crossed && w != q[i] ==> w !in q[..i]
    {
      if i < |p| {
        assert q[i] == p[i] && q[..i] == p[..i];
        if (q[i], w) in k.crossed && (q[i], w) !in h.crossed && w != q[i] {
          assert w == v && forall x :: x in p[..i] ==> x in t.walk;
        }
      } else {
        assert q[..i] == p;
        AsideLast(t, h, v, w);
      }
    }
  }

  lemma {:induction false} AsideLast(t: State, h: History, v: Node, w: Node)
    requires Aside(Path(t), h) && CrossedOk(t, h) && CutSeen(t, h) && v !in t.walk && v !in h.fin
    ensures (v, w) in h.cut ==> w in Path(t)
    ensures (v, w) in Crossing(t, h, v).crossed && w != v ==> w !in Path(t)
  {
    var p := Path(t);
    if v == t.curr {
      assert p[|t.walk|] == v && p[..|t.walk|] == t.walk;
    } else {
      assert !Visited(t, h, v);
    }
  }

  lemma {:induction false} DownSelfDone(s: State, h: History, t: State)
    requires LastOk(s) && SelfDone(s, h) && !AtEnd(s) && t.curr == s.curr
    ensures var v := Children(s.targ, s.curr)[Position(s, s.curr)];
      LastOk(Down(s, v)) && SelfDone(Down(s, v), Crossing(t, h, v))
  {
    var v := Children(s.targ, s.curr)[Position(s, s.curr)];
    var a, k := Down(s, v), Crossing(t, h, v);
    hide IndexOf;
    assert Path(a) == Path(s) + [v];
    forall u | (u, u) in k.crossed && !Through(a, u)
      ensures exists i :: 0 <= i < |a.walk| && Path(a)[i] == Path(a)[i + 1] == u
    {
      if (u, u) in h.crossed {
        assert !Through(s, u);
        var i :| 0 <= i < |s.walk| && Path(s)[i] == Path(s)[i + 1] == u;
        assert Path(a)[i] == Path(a)[i + 1] == u;
      } else {
        assert Path(a)[|s.walk|] == Path(a)[|s.walk| + 1] == u;
      }
    }
  }

  lemma {:induction false} DownFinDone(s: State, h: History, t: State)
    requires LastOk(s) && FinDone(s, h) && !AtEnd(s)
    ensures var v := Children(s.targ, s.curr)[Position(s, s.curr)];
      LastOk(Down(s, v)) && s.curr !in h.fin && FinDone(Down(s, v), Crossing(t, h, v))
  {
    hide IndexOf;
  }

  lemma {:induction false} InvCrossed(g: Graph, start: Node, t: State, h: History)
    requires Inv(g, start, t, h)
    ensures CrossedOk(t, h)
  {
  }

  lemma {:induction false} DownBeside(g: Graph, start: Node, s: State, t: State, h: History)
    requires Beside(g, start, s, t, h) && !AtEnd(s)
    requires Children(s.targ, s.curr)[Position(s, s.curr)] !in Handled(h, s.curr)
    requires Children(s.targ, s.curr)[Position(s, s.curr)] !in s.walk
    ensures var v := Children(s.targ, s.curr)[Position(s, s.curr)];
      && !AtEnd(t) && Iterate(t) == Down(t, v)
      && Beside(g, start, Iterate(s), Iterate(t), Crossing(t, h, v))
      && Pending(Iterate(t), Crossing(t, h, v)) < Pending(t, h)
  {
    hide Inv, NodeAt, Aside, SelfDone, FinDone, Pending, IndexOf, Visited, CrossedOk, NoRepeats, Handled, Within;
    var v := Children(s.targ, s.curr)[Position(s, s.curr)];
    SameNext(g, start, s, t, h);
    OnceInD(g, start, t, h);
    DownInv(Deduped(g), start, t, h, v);
    DownSelfDone(s, h, t);
    DownFinDone(s, h, t);
    InvCrossed(Deduped(g), start, t, h);
    DownAside(t, h, v);
    assert Path(Down(t, v)) == Path(t) + [v];
    forall u | Visited(t, h, u) ensures Visited(Down(t, v), Crossing(t, h, v), u) { DownVisited(t, h, v, u); }
    WithinStays(g, s, t, h, Down(s, v), Down(t, v), Crossing(t, h, v));
    DownNodeHere(g, start, s, t, h);
    forall u
      ensures NodeAt(g, Down(s, v), Down(t, v), Crossing(t, h, v), u)
    {
      if u != s.curr {
        DownNodeOther(g, s, t, h, u, v);
      }
    }
    forall e | e in h.cut
      ensures Visited(Down(t, v), Crossing(t, h, v), e.0)
    {
      DownVisited(t, h, v, e.0);
    }
  }

  lemma {:induction false} DownVisited(t: State, h: History, v: Node, u: Node)
    requires Visited(t, h, u)
    ensures Visited(Down(t, v), Crossing(t, h, v), u)
  {
  }

  ghost function Next(s: State): Node
    requires LastOk(s) && !AtEnd(s)
  {
    Children(s.targ, s.curr)[Position(s, s.curr)]
  }

  lemma {:induction false} CutNodeHere(g: Graph, start: Node, s: State, t: State, h: History)
    requires Beside(g, start, s, t, h) && !AtEnd(s) && Next(s) !in Handled(h, s.curr)
    ensures var v := Next(s);
      && v in Children(t.targ, t.curr) && LastOk(Cut(s, v)) && LastOk(Cut(t, v))
      && NodeAt(g, Cut(s, v), Cut(t, v), Cutting(t, h, v), s.curr)
  {
    hide Inv, Aside, SelfDone, FinDone, CutSeen, Within, NodeOk, Targets, IndexOf, Remove;
    SameNext(g, start, s, t, h);
    OnceInD(g, start, t, h);
    var u := s.curr;
    var c, k, q := Children(s.targ, u), Position(s, u), Position(t, u);
    var v := c[k];
    assert NodeAt(g, s, t, h, u);
    TargetsMore(h.cut, (u, v), u);
    CutGone(s);
    CutGone(t);
    assert Rest(Cut(t, v), u) == Rest(t, u)[1..];
    NodeCutFresh(Children(g, u), u, c, k, Rest(t, u), Targets(h.crossed, u), Targets(h.cut, u), Position(Cut(s, v), u));
  }

  lemma {:induction false} CutNodeOther(g: Graph, s: State, t: State, h: History, u: Node, v: Node)
    requires LastOk(s) && LastOk(t) && NodeAt(g, s, t, h, u) && s.curr == t.curr && u != s.curr
    requires v in Children(s.targ, s.curr) && v in Children(t.targ, t.curr)
    requires LastOk(Cut(s, v)) && LastOk(Cut(t, v))
    ensures NodeAt(g, Cut(s, v), Cut(t, v), Cutting(t, h, v), u)
  {
    hide NodeOk, Targets, IndexOf, Remove;
    TargetsMore(h.cut, (s.curr, v), u);
  }

  /** What stays as it is when an entry is deleted: only the current list changes. */
  lemma {:induction false} CutSelfDone(s: State, h: History, k: History)
    requires LastOk(s) && !AtEnd(s) && LastOk(Cut(s, Next(s))) && SelfDone(s, h) && FinDone(s, h)
    requires k.crossed == h.crossed && k.fin == h.fin
    ensures SelfDone(Cut(s, Next(s)), k) && FinDone(Cut(s, Next(s)), k) && s.curr !in h.fin
  {
    hide IndexOf, Remove;
    var a := Cut(s, Next(s));
    assert Path(a) == Path(s);
    assert !Through(s, s.curr);
    assert forall u :: u != s.curr && Through(s, u) ==> Through(a, u);
    forall u | (u, u) in k.crossed && !Through(a, u)
      ensures exists i :: 0 <= i < |a.walk| && Path(a)[i] == Path(a)[i + 1] == u
    {
      assert !Through(s, u);
      var i :| 0 <= i < |s.walk| && Path(s)[i] == Path(s)[i + 1] == u;
      assert Path(a)[i] == Path(a)[i + 1] == u;
    }
  }

  lemma {:induction false} CutAside(t: State, h: History, v: Node, a: State)
    requires Aside(Path(t), h) && NoReturn(Path(t)) && v in t.walk && v != t.curr && Path(a) == Path(t)
    ensures Aside(Path(a), Cutting(t, h, v))
    ensures CutSeen(t, h) && a.walk == t.walk && a.curr == t.curr ==> CutSeen(a, Cutting(t, h, v))
  {
    var p, k := Path(t), Cutting(t, h, v);
    forall i, w | 0 <= i < |p| && p[i] !in k.fin
      ensures (p[i], w) in k.cut ==> w in p[..i]
      ensures (p[i], w) in k.crossed && w != p[i] ==> w !in p[..i]
    {
      if (p[i], w) in k.cut && (p[i], w) !in h.cut {
        var j :| 0 <= j < |t.walk| && t.walk[j] == v;
        CutAbove(t, v, i, j);
      }
    }
  }

  lemma {:induction false} CutAbove(t: State, v: Node, i: nat, j: nat)
    requires i < |Path(t)| && Path(t)[i] == t.curr && j < |t.walk| && t.walk[j] == v && v != t.curr
    requires NoReturn(Path(t))
    ensures v in Path(t)[..i]
  {
    var p := Path(t);
    assert p[j] == v && p[|t.walk|] == t.curr;
    assert j < i;
    assert p[..i][j] == v;
  }

  lemma {:induction false} InvParts(g: Graph, start: Node, t: State, h: History)
    requires Inv(g, start, t, h)
    ensures NoReturn(Path(t)) && forall e :: e in h.cut ==> e.0 != e.1
  {
  }

  lemma {:induction false} CutBeside(g: Graph, start: Node, s: State, t: State, h: History)
    requires Beside(g, start, s, t, h) && !AtEnd(s) && Next(s) !in Handled(h, s.curr) && Next(s) in s.walk
    ensures var v := Next(s);
      && !AtEnd(t) && Next(t) == v && v in Children(t.targ, t.curr)
      && Beside(g, start, Iterate(s), Iterate(t), Cutting(t, h, v))
      && Pending(Iterate(t), Cutting(t, h, v)) < Pending(t, h)
  {
    hide Inv, NodeAt, Aside, SelfDone, FinDone, CutSeen, Within, Pending, IndexOf, Remove, NoRepeats, NoReturn, Handled;
    var v := Next(s);
    SameNext(g, start, s, t, h);
    OnceInD(g, start, t, h);
    CutInv(Deduped(g), start, t, h, v);
    CutNodeHere(g, start, s, t, h);
    InvParts(Deduped(g), start, t, h);
    InvParts(Deduped(g), start, Cut(t, v), Cutting(t, h, v));
    assert (t.curr, v) in Cutting(t, h, v).cut;
    CutSelfDone(s, h, Cutting(t, h, v));
    CutAside(t, h, v, Cut(t, v));
    WithinCut(g, s, t, h, v, Cut(t, v), Cutting(t, h, v));
    forall u
      ensures NodeAt(g, Cut(s, v), Cut(t, v), Cutting(t, h, v), u)
    {
      if u != s.curr {
        CutNodeOther(g, s, t, h, u, v);
      }
    }
  }

  // --- an entry dealt with before ---

  /** On the path, a neighbour the walk went down to is not deleted, nor one that was deleted
      gone down to. */
  lemma {:induction false} HandledBefore(g: Graph, start: Node, s: State, t: State, h: History)
    requires Beside(g, start, s, t, h) && !AtEnd(s)
    ensures s.curr !in h.fin
    ensures Next(s) in s.walk && Next(s) in Targets(h.crossed, s.curr) ==> Next(s) == s.curr
    ensures Next(s) !in s.walk ==> Next(s) !in Targets(h.cut, s.curr)
  {
    hide Inv, NodeAt, SelfDone, CutSeen, IndexOf;
    var p := Path(t);
    assert p[|t.walk|] == s.curr && p[..|t.walk|] == t.walk;
    assert !Through(s, s.curr);
  }

  lemma {:induction false} AgainNodeOther(g: Graph, s: State, t: State, h: History, u: Node, v: Node)
    requires LastOk(s) && LastOk(t) && NodeAt(g, s, t, h, u) && u != s.curr
    requires v in Children(s.targ, s.curr) && LastOk(Cut(s, v))
    ensures NodeAt(g, Cut(s, v), t, h, u)
  {
    hide NodeOk, Targets, IndexOf, Remove;
  }

  lemma {:induction false} AgainNodeHere(g: Graph, start: Node, s: State, t: State, h: History)
    requires Beside(g, start, s, t, h) && !AtEnd(s) && Next(s) in Handled(h, s.curr) && Next(s) in s.walk
    ensures LastOk(Cut(s, Next(s))) && NodeAt(g, Cut(s, Next(s)), t, h, s.curr)
  {
    HandledBefore(g, start, s, t, h);
    hide Inv, Aside, SelfDone, FinDone, CutSeen, Within, NodeOk, Targets, IndexOf, Remove;
    var u := s.curr;
    assert NodeAt(g, s, t, h, u);
    CutGone(s);
    NodeCutAgain(Children(g, u), u, Children(s.targ, u), Position(s, u), Rest(t, u), Targets(h.crossed, u),
                 Targets(h.cut, u), Position(Cut(s, Next(s)), u));
  }

  lemma {:induction false} AgainBeside(g: Graph, start: Node, s: State, t: State, h: History)
    requires Beside(g, start, s, t, h) && !AtEnd(s) && Next(s) in Handled(h, s.curr) && Next(s) in s.walk
    ensures Beside(g, start, Iterate(s), t, h) && Iterate(s).curr == s.curr
    ensures |Children(Iterate(s).targ, s.curr)| < |Children(s.targ, s.curr)|
  {
    hide Inv, NodeAt, Aside, SelfDone, FinDone, CutSeen, Within, IndexOf, Remove, Handled;
    AgainNodeHere(g, start, s, t, h);
    CutSelfDone(s, h, h);
    WithinCut(g, s, t, h, Next(s), t, h);
    RemoveParts(s.targ[s.curr], Next(s));
    forall u
      ensures NodeAt(g, Cut(s, Next(s)), t, h, u)
    {
      if u != s.curr {
        AgainNodeOther(g, s, t, h, u, Next(s));
      }
    }
  }

  /** Going down to a neighbour a second time: both entries stay, and the walk falls back. */
  lemma {:induction false} FallsBack(g: Graph, start: Node, s: State, t: State, h: History)
    requires Beside(g, start, s, t, h) && !AtEnd(s) && Next(s) in Handled(h, s.curr) && Next(s) !in s.walk
    ensures FallenBack(s, s.walk, s.curr, Next(s)) && (s.curr, Next(s)) in h.crossed
    ensures Repeats(g, s.curr, Next(s)) && Next(s) != s.curr
  {
    hide Inv, Aside, SelfDone, FinDone, CutSeen, Within, IndexOf, NodeAt, LastOk, NoReturn, AtEnd, Position;
    HandledBefore(g, start, s, t, h);
    InvParts(Deduped(g), start, t, h);
    assert Path(s) == Path(t);
    HandledCrossed(h, s.curr, Next(s));
    NotSelf(s, h);
    TwiceAhead(g, s, t, h);
  }

  lemma {:induction false} HandledCrossed(h: History, u: Node, v: Node)
    requires v in Handled(h, u) && v !in Targets(h.cut, u)
    ensures v in Targets(h.crossed, u) && (u, v) in h.crossed
  {
  }

  lemma {:induction false} TwiceAhead(g: Graph, s: State, t: State, h: History)
    requires LastOk(s) && LastOk(t) && NodeAt(g, s, t, h, s.curr) && !AtEnd(s)
    requires Next(s) in Targets(h.crossed, s.curr) && Next(s) !in Targets(h.cut, s.curr) && Next(s) != s.curr
    ensures Stuck(s, s.curr, Next(s)) && Repeats(g, s.curr, Next(s))
  {
    hide IndexOf, Left, Targets, Front, Kept, Twice;
    var u := s.curr;
    InListTwice(Children(g, u), u, Children(s.targ, u), Position(s, u), Targets(h.crossed, u), Targets(h.cut, u));
  }

  lemma {:induction false} NotSelf(s: State, h: History)
    requires LastOk(s) && SelfDone(s, h) && !AtEnd(s) && NoReturn(Path(s)) && Next(s) !in s.walk
    requires Next(s) in Targets(h.crossed, s.curr)
    ensures Next(s) != s.curr
  {
    assert !Through(s, s.curr);
    assert forall i :: 0 <= i < |s.walk| ==> s.walk[i] == Path(s)[i];
  }

  lemma {:induction false} InListTwice(all: seq<Node>, u: Node, c: seq<Node>, k: nat, down: set<Node>, cut: set<Node>)
    requires k < |c| && Front(u, c[..k], down) && Kept(all, u, c, cut) && c[k] in down && c[k] !in cut && c[k] != u
    ensures Twice(c, c[k]) && c[k] in c[k..] && Twice(all, c[k])
  {
    var v := c[k];
    var i :| 0 <= i < k && c[..k][i] == v;
    assert c[i] == v && c[k..][0] == v;
    CountTwice(c, v);
    CountTwice(all, v);
  }

  lemma {:induction false} CountTwice(c: seq<Node>, v: Node)
    ensures Twice(c, v) <==> multiset(c)[v] >= 2
  {
    if c != [] {
      var n := |c| - 1;
      var b := c[..n];
      CountTwice(b, v);
      assert c == b + [c[n]];
      if Twice(b, v) {
        var i, j :| 0 <= i < j < |b| && b[i] == b[j] == v;
        assert c[i] == c[j] == v;
      }
      if c[n] == v && v in b {
        var i :| 0 <= i < |b| && b[i] == v;
        assert c[i] == c[n] == v;
      }
      if Twice(c, v) {
        var i, j :| 0 <= i < j < |c| && c[i] == c[j] == v;
        assert b[i] == v;
        assert j < n ==> b[j] == v;
      }
    }
  }

  // ---------------------------------------------------------------------------
  // When the walk ends
  // ---------------------------------------------------------------------------

  /** Where the walk from `t` ends, none of the edges that `g` lists twice is left, but for
      self-loops. */
  ghost predicate Harmless(g: Graph, start: Node, t: State)
    requires LastOk(t)
  {
    forall n :: IsOver(Run(t, n)) ==> RepeatsGone(g, start, Run(t, n).targ)
  }

  ghost predicate RepeatsGone(g: Graph, start: Node, after: Graph) {
    forall u, v :: Reaches(EdgesOf(g), start, u) && Repeats(g, u, v) && v != u ==> v !in Children(after, u)
  }

  lemma {:induction false} SideStep(g: Graph, start: Node, s: State, t: State, h: History) returns (a: State, k: History)
    requires Beside(g, start, s, t, h) && !IsOver(s)
    requires AtEnd(s) || Next(s) !in Handled(h, s.curr) || Next(s) in s.walk
    ensures Beside(g, start, Iterate(s), a, k)
    ensures (a == t && k == h && Iterate(s).curr == s.curr && |Children(Iterate(s).targ, s.curr)| < |Children(s.targ, s.curr)|)
         || (LastOk(t) && !IsOver(t) && a == Iterate(t)
             && (Pending(a, k) < Pending(t, h) || (Pending(a, k) == Pending(t, h) && |a.walk| < |t.walk|)))
  {
    hide Inv, NodeAt, Aside, SelfDone, FinDone, CutSeen, Within, Pending, IndexOf, Remove, Handled;
    if AtEnd(s) {
      UpBeside(g, start, s, t, h);
      a, k := Up(t), Finish(t, h);
    } else if Next(s) in Handled(h, s.curr) {
      AgainBeside(g, start, s, t, h);
      a, k := t, h;
    } else if Next(s) in s.walk {
      CutBeside(g, start, s, t, h);
      a, k := Iterate(t), Cutting(t, h, Next(s));
    } else {
      DownBeside(g, start, s, t, h);
      a, k := Iterate(t), Crossing(t, h, Next(s));
    }
  }

  lemma {:induction false} HarmlessStep(g: Graph, start: Node, t: State)
    requires LastOk(t) && !IsOver(t)
    ensures Harmless(g, start, t) <==> Harmless(g, start, Iterate(t))
  {
    hide IsOver, Iterate, RepeatsGone, LastOk;
    if Harmless(g, start, t) {
      forall n: nat | IsOver(Run(Iterate(t), n))
        ensures RepeatsGone(g, start, Run(Iterate(t), n).targ)
      {
        var m := n + 1;
        assert Run(t, m) == Run(Iterate(t), n);
      }
    }
    if Harmless(g, start, Iterate(t)) {
      forall n: nat | IsOver(Run(t, n))
        ensures RepeatsGone(g, start, Run(t, n).targ)
      {
        var m := n - 1;
        assert Run(t, n) == Run(Iterate(t), m);
      }
    }
  }

  /** What was gone down to is never deleted. */
  lemma {:induction false} CrossedStays(g: Graph, start: Node, t: State, h: History, n: nat, u: Node, v: Node)
    requires Inv(g, start, t, h) && LastOk(t) && (u, v) in h.crossed
    requires forall w :: NoRepeats(Children(g, w))
    ensures v in Children(Run(t, n).targ, u)
    decreases n
  {
    hide Inv, LastOk, IsOver, Iterate, NoRepeats, Pending;
    if n == 0 || IsOver(t) {
      CrossedListed(g, start, t, h, u, v);
    } else {
      var k := EndsStep(g, start, t, h);
      CrossedStays(g, start, Iterate(t), k, n - 1, u, v);
    }
  }

  lemma {:induction false} CrossedListed(g: Graph, start: Node, t: State, h: History, u: Node, v: Node)
    requires Inv(g, start, t, h) && (u, v) in h.crossed
    ensures v in Children(t.targ, u)
  {
    CrossedAreEdges(t, h);
    assert (u, v) in EdgesOf(t.targ);
  }

  lemma {:induction false} CurrentReachable(g: Graph, start: Node, t: State, h: History)
    requires Inv(Deduped(g), start, t, h)
    ensures Reaches(EdgesOf(g), start, t.curr)
  {
    DedupedFacts(g, start);
    KeptAreOriginal(Deduped(g), t, h);
    CrossedAreEdges(t, h);
    assert Visited(t, h, t.curr);
    ReachesMore(h.crossed, EdgesOf(g), start, t.curr);
  }

  /** A fallback shows that the walk without repeats keeps one of those edges. */
  lemma {:induction false} FallbackHarms(g: Graph, start: Node, s: State, t: State, h: History)
    requires Beside(g, start, s, t, h) && !AtEnd(s) && Next(s) in Handled(h, s.curr) && Next(s) !in s.walk
    ensures !Harmless(g, start, t)
  {
    FallsBack(g, start, s, t, h);
    DedupedFacts(g, start);
    hide Handled, NodeAt, Aside, SelfDone, FinDone, CutSeen, Within, Inv, NoRepeats, Repeats, FallenBack, IsOver, LastOk, AtEnd, IndexOf;
    CurrentReachable(g, start, t, h);
    assert ReachableNoRepeats(Deduped(g), start);
    var n := EndsFrom(Deduped(g), start, t, h);
    CrossedStays(Deduped(g), start, t, h, n, s.curr, Next(s));
    assert !RepeatsGone(g, start, Run(t, n).targ);
  }

  lemma {:induction false} EndsBeside(g: Graph, start: Node, s: State, t: State, h: History) returns (n: nat)
    requires Beside(g, start, s, t, h) && Harmless(g, start, t)
    ensures IsOver(Run(s, n))
    decreases Pending(t, h), |t.walk|, |Children(s.targ, s.curr)|
  {
    hide Handled, NodeAt, Aside, SelfDone, FinDone, CutSeen, Within, Inv, Harmless, Pending, IsOver, AtEnd, Iterate, LastOk, Next;
    BesideLast(g, start, s, t, h);
    n := 0;
    if !IsOver(s) {
      if !AtEnd(s) && Next(s) in Handled(h, s.curr) && Next(s) !in s.walk {
        FallbackHarms(g, start, s, t, h);
      }
      var a, k := SideStep(g, start, s, t, h);
      if a != t || k != h {
        HarmlessStep(g, start, t);
      }
      n := EndsBeside(g, start, Iterate(s), a, k);
      n := n + 1;
    }
  }

  lemma {:induction false} BesideLast(g: Graph, start: Node, s: State, t: State, h: History)
    requires Beside(g, start, s, t, h)
    ensures LastOk(s) && LastOk(t)
  {
    hide Inv, NodeAt, Aside, SelfDone, FinDone, CutSeen, Within, LastOk;
  }

  // --- and only then ---

  lemma {:induction false} EndedLists(g: Graph, start: Node, s: State, t: State, h: History, u: Node, v: Node)
    requires Beside(g, start, s, t, h) && Through(s, u) && v != u
    requires v in Targets(h.crossed, u) && v !in Targets(h.cut, u)
    ensures !Repeats(g, u, v)
  {
    hide Inv, Aside, SelfDone, FinDone, CutSeen, Within, IndexOf, Left, Targets;
    assert NodeAt(g, s, t, h, u);
    var c := Children(s.targ, u);
    assert c[..Position(s, u)] == c;
    CountTwice(Children(g, u), v);
  }

  /** An edge kept by a walk that is over was gone down, and not deleted. */
  lemma {:induction false} KeptWasCrossed(g: Graph, start: Node, t: State, h: History, u: Node, v: Node)
    requires Inv(g, start, t, h) && AtEnd(t) && t.walk == [] && Reaches(EdgesOf(g), start, u) && v in Children(t.targ, u)
    ensures u in h.fin || u == t.curr
    ensures v in Targets(h.crossed, u) && v !in Targets(h.cut, u)
  {
    FinalDone(g, start, t, h);
    var k := Finish(t, h);
    ReachabilityKept(g, start, t, k, u);
    var i :| 0 <= i < |k.fin| && k.fin[i] == u;
    assert (k.fin[i], v) in k.crossed;
    KeptAreOriginal(g, t, h);
    assert (u, v) in EdgesOf(t.targ);
    hide Inv, Done, IndexOf;
  }

  lemma {:induction false} OverHarmless(g: Graph, start: Node, s: State, t: State, h: History)
    requires Beside(g, start, s, t, h) && IsOver(s)
    ensures IsOver(t) && RepeatsGone(g, start, t.targ)
  {
    BothAtEnd(g, start, s, t, h);
    DedupedFacts(g, start);
    hide Inv, NodeAt, Aside, SelfDone, CutSeen, IndexOf, Repeats, Targets, NoRepeats;
    forall u, v | Reaches(EdgesOf(g), start, u) && Repeats(g, u, v) && v != u
      ensures v !in Children(t.targ, u)
    {
      if v in Children(t.targ, u) {
        KeptWasCrossed(Deduped(g), start, t, h, u, v);
        EndedLists(g, start, s, t, h, u, v);
      }
    }
  }

  lemma {:induction false} OverIsHarmless(g: Graph, start: Node, t: State)
    requires LastOk(t) && IsOver(t) && RepeatsGone(g, start, t.targ)
    ensures Harmless(g, start, t)
  {
    hide RepeatsGone, IsOver, LastOk;
  }

  lemma {:induction false} HarmlessBeside(g: Graph, start: Node, s: State, t: State, h: History, n: nat)
    requires Beside(g, start, s, t, h) && IsOver(Run(s, n))
    ensures Harmless(g, start, t)
    decreases n
  {
    hide Handled, NodeAt, Aside, SelfDone, FinDone, CutSeen, Within, Inv, Harmless, Pending, IsOver, AtEnd, Iterate, LastOk, Next,
      FallenBack;
    BesideLast(g, start, s, t, h);
    if IsOver(s) {
      OverHarmless(g, start, s, t, h);
      OverIsHarmless(g, start, t);
    } else {
      if !AtEnd(s) && Next(s) in Handled(h, s.curr) && Next(s) !in s.walk {
        FallsBack(g, start, s, t, h);
        FallenNeverOver(s, s.walk, s.curr, Next(s), n);
      }
      var a, k := SideStep(g, start, s, t, h);
      HarmlessBeside(g, start, Iterate(s), a, k, n - 1);
      if a != t || k != h {
        HarmlessStep(g, start, t);
      }
    }
  }

  /** The walk over any graph ends if and only if the walk over the same graph without repeats,
      which always ends, deletes every edge that is listed twice at a reachable node, self-loops
      apart. */
  lemma {:induction false} EndsIff(g: Graph, start: Node)
    ensures Ends(Deduped(g), start)
    ensures Ends(g, start) <==> Harmless(g, start, Start(Deduped(g), start))
  {
    hide Harmless, Beside, NoRepeats, IsOver;
    var s, t, h := Start(g, start), Start(Deduped(g), start), History([], {}, {});
    DedupedFacts(g, start);
    EndsWithoutRepeats(Deduped(g), start);
    StartBeside(g, start);
    if Harmless(g, start, t) {
      var n := EndsBeside(g, start, s, t, h);
    }
    if Ends(g, start) {
      var n :| IsOver(Run(s, n));
      HarmlessBeside(g, start, s, t, h, n);
    }
  }
}
