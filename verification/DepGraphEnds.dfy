/** Whether the walk over the dependency graph ends. It looks its position in a list up by
    the neighbour it took last, so that a neighbour listed twice makes it fall back. */
module DepGraphEnds {
  import opened DepGraph

  // ---------------------------------------------------------------------------
  // The iterations of the loop, on any graph
  // ---------------------------------------------------------------------------

  /** Each node remembers a neighbour it still has: the look-up never fails. */
  ghost predicate LastOk(s: State) {
    forall u :: u in s.last ==> s.last[u] in Children(s.targ, u)
  }

  ghost predicate AtEnd(s: State)
    requires LastOk(s)
  {
    Position(s, s.curr) >= |Children(s.targ, s.curr)|
  }

  ghost predicate IsOver(s: State)
    requires LastOk(s)
  {
    AtEnd(s) && s.walk == []
  }

  /** One iteration, when it is not the last. */
  ghost function Iterate(s: State): (t: State)
    requires LastOk(s) && !IsOver(s)
    ensures LastOk(t)
  {
    if AtEnd(s) then Up(s) else
    var next := Children(s.targ, s.curr)[Position(s, s.curr)];
    if next in s.walk then
      CutKeepsLast(s);
      Cut(s, next)
    else Down(s, next)
  }

  /** The state after `n` iterations, or the last one before that. */
  ghost function Run(s: State, n: nat): (t: State)
    requires LastOk(s)
    ensures LastOk(t)
    decreases n
  {
    if n == 0 || IsOver(s) then s else Run(Iterate(s), n - 1)
  }

  ghost function Start(g: Graph, start: Node): (s: State)
    ensures LastOk(s)
  {
    State(g, start, [], map[], [])
  }

  ghost predicate Ends(g: Graph, start: Node) {
    exists n :: IsOver(Run(Start(g, start), n))
  }

  // ---------------------------------------------------------------------------
  // Deleting the entry at the current position
  // ---------------------------------------------------------------------------

  lemma {:induction false} IndexAtMost(c: seq<Node>, x: Node, j: nat)
    requires j < |c| && c[j] == x
    ensures IndexOf(c, x) <= j
  {
    if j > 0 {
      IndexAtMost(c[1..], x, j - 1);
    }
  }

  lemma {:induction false} RemoveAt(c: seq<Node>, x: Node, j: nat)
    requires x in c && j < |c| && j != IndexOf(c, x)
    ensures |Remove(c, x)| == |c| - 1
    ensures Remove(c, x)[if j < IndexOf(c, x) then j else j - 1] == c[j]
  {
  }

  /** Removing the neighbour behind the last one keeps the last one, whose position does
      not rise, and what stands behind it. */
  lemma {:induction false} RemoveBehind(c: seq<Node>, last: Node, j: nat)
    requires last in c && IndexOf(c, last) + 1 < |c|
    ensures var next := c[IndexOf(c, last) + 1];
      && last in Remove(c, next) && IndexOf(Remove(c, next), last) <= IndexOf(c, last)
      && (IndexOf(c, last) < j < |c| && c[j] != next ==>
            c[j] in Remove(c, next)[IndexOf(Remove(c, next), last) + 1..])
  {
    hide Remove, IndexOf;
    var f := IndexOf(c, last);
    var next := c[f + 1];
    IndexAtMost(c, next, f + 1);
    var i, d := IndexOf(c, next), Remove(c, next);
    RemoveAt(c, next, if next == last then f + 1 else f);
    var at := if i < f then f - 1 else f;
    assert d[at] == last;
    IndexAtMost(d, last, at);
    if f < j < |c| && c[j] != next {
      RemoveAt(c, next, j);
      assert d[j - 1] == c[j];
      var k := IndexOf(d, last) + 1;
      assert d[k..][j - 1 - k] == c[j];
    }
  }

  lemma {:induction false} CutKeepsLast(s: State)
    requires LastOk(s) && !AtEnd(s)
    ensures LastOk(Cut(s, Children(s.targ, s.curr)[Position(s, s.curr)]))
  {
    if s.curr in s.last {
      RemoveBehind(s.targ[s.curr], s.last[s.curr], 0);
    }
  }

  // ---------------------------------------------------------------------------
  // The walk ends if no reachable node repeats a neighbour
  // ---------------------------------------------------------------------------

  lemma {:induction false} EndsStep(g: Graph, start: Node, s: State, h: History) returns (k: History)
    requires Inv(g, start, s, h) && NoRepeats(Children(g, s.curr)) && LastOk(s) && !IsOver(s)
    ensures Inv(g, start, Iterate(s), k) && h.crossed <= k.crossed
    ensures Pending(Iterate(s), k) < Pending(s, h)
         || (Pending(Iterate(s), k) == Pending(s, h) && |Iterate(s).walk| < |s.walk|)
  {
    hide Inv, NoRepeats, Pending, IndexOf, Remove;
    if AtEnd(s) {
      k := Finish(s, h);
      UpInv(g, start, s, h);
    } else {
      var next := Children(s.targ, s.curr)[Position(s, s.curr)];
      if next in s.walk {
        k := Cutting(s, h, next);
        CutInv(g, start, s, h, next);
      } else {
        k := Crossing(s, h, next);
        DownInv(g, start, s, h, next);
      }
    }
  }

  lemma {:induction false} EndsFrom(g: Graph, start: Node, s: State, h: History) returns (n: nat)
    requires Inv(g, start, s, h) && ReachableNoRepeats(g, start) && LastOk(s)
    ensures IsOver(Run(s, n))
    decreases Pending(s, h), |s.walk|
  {
    hide Inv, ReachableNoRepeats, NoRepeats, Pending, LastOk, IsOver, Iterate;
    n := 0;
    if !IsOver(s) {
      CurrentNoRepeats(g, start, s, h);
      var k := EndsStep(g, start, s, h);
      n := EndsFrom(g, start, Iterate(s), k);
      n := n + 1;
    }
  }

  lemma EndsWithoutRepeats(g: Graph, start: Node)
    requires ReachableNoRepeats(g, start)
    ensures Ends(g, start)
  {
    InitInv(g, start);
    var n := EndsFrom(g, start, Start(g, start), History([], {}, {}));
  }

  // ---------------------------------------------------------------------------
  // What the walk has seen, on any graph
  // ---------------------------------------------------------------------------

  /** A way of the walk: along original edges, without coming back to a node, except at
      once over its self-loop. */
  ghost predicate Way(g: Graph, start: Node, p: seq<Node>) {
    && IsPath(EdgesOf(g), p) && p[0] == start
    && (forall i, j :: 0 <= i < j < |p| && p[i] == p[j] ==> j == i + 1)
  }

  /** The lists only lose entries, and only entries whose neighbour was seen. */
  ghost predicate Shrunk(g: Graph, targ: Graph, seen: set<Node>) {
    && targ.Keys == g.Keys
    && (forall u, v :: v in Children(targ, u) ==> v in Children(g, u))
    && (forall u, v :: v in Children(g, u) && v !in Children(targ, u) ==> v in seen)
  }

  /** The nodes `seen` are those the walk has been at: it has gone through the lists of
      those that are not on its path, and has been at all neighbours in front of the
      position of the others. */
  ghost predicate SeenOk(start: Node, s: State, seen: set<Node>)
    requires LastOk(s)
  {
    && start in seen && (forall u :: u in Path(s) ==> u in seen)
    && (forall u :: u in seen && u !in Path(s) ==> Position(s, u) >= |Children(s.targ, u)|)
    && (forall u, v :: v in Children(s.targ, u)[..Position(s, u)] ==> v in seen)
  }

  ghost predicate WalkOk(g: Graph, start: Node, s: State, seen: set<Node>)
    requires LastOk(s)
  {
    Shrunk(g, s.targ, seen) && SeenOk(start, s, seen) && Way(g, start, Path(s))
  }

  lemma {:induction false} RemoveMembers(c: seq<Node>, x: Node)
    requires x in c
    ensures forall v :: v in Remove(c, x) ==> v in c
    ensures forall v :: v in c && v !in Remove(c, x) ==> v == x
  {
    hide Remove, IndexOf;
    forall v | v in c && v != x
      ensures v in Remove(c, x)
    {
      var j :| 0 <= j < |c| && c[j] == v;
      RemoveAt(c, x, j);
    }
    assert Remove(c, x) == c[..IndexOf(c, x)] + c[IndexOf(c, x) + 1..];
  }

  lemma {:induction false} CutShrinks(g: Graph, targ: Graph, seen: set<Node>, u: Node, x: Node)
    requires Shrunk(g, targ, seen) && x in Children(targ, u) && x in seen
    ensures Shrunk(g, targ[u := Remove(targ[u], x)], seen)
  {
    hide Remove, IndexOf;
    RemoveMembers(targ[u], x);
    var t := targ[u := Remove(targ[u], x)];
    assert forall w :: w != u ==> Children(t, w) == Children(targ, w);
  }

  lemma {:induction false} WayBack(g: Graph, start: Node, p: seq<Node>)
    requires Way(g, start, p) && |p| > 1
    ensures Way(g, start, p[..|p| - 1])
  {
  }

  lemma {:induction false} WayOn(g: Graph, start: Node, p: seq<Node>, x: Node)
    requires Way(g, start, p) && (p[|p| - 1], x) in EdgesOf(g) && x !in p[..|p| - 1]
    ensures Way(g, start, p + [x])
  {
    forall i | 0 <= i < |p| - 1
      ensures p[i] != x
    {
      assert p[..|p| - 1][i] == p[i];
    }
  }

  lemma {:induction false} UpSeenOk(start: Node, s: State, seen: set<Node>)
    requires LastOk(s) && SeenOk(start, s, seen) && AtEnd(s) && s.walk != []
    ensures LastOk(Up(s)) && SeenOk(start, Up(s), seen)
    ensures |Path(s)| > 1 && Path(Up(s)) == Path(s)[..|Path(s)| - 1]
  {
    UpPathIs(s);
    hide IndexOf, Path, Children;
    var t := Up(s);
    assert forall u :: u in t.last ==> t.last[u] in Children(t.targ, u);
  }

  lemma {:induction false} UpPathIs(s: State)
    requires s.walk != []
    ensures |Path(s)| > 1 && Path(Up(s)) == Path(s)[..|Path(s)| - 1]
    ensures forall u :: u in Path(Up(s)) ==> u in Path(s)
    ensures forall u :: u in Path(s) ==> u in Path(Up(s)) || u == s.curr
  {
    var t := Up(s);
    assert Path(s) == Path(t) + [s.curr];
    assert Path(t) == Path(s)[..|Path(s)| - 1];
  }

  lemma {:induction false} UpWalkOk(g: Graph, start: Node, s: State, seen: set<Node>)
    requires LastOk(s) && WalkOk(g, start, s, seen) && AtEnd(s) && s.walk != []
    ensures WalkOk(g, start, Up(s), seen)
  {
    hide SeenOk, Way, Shrunk, LastOk, AtEnd, IndexOf, Path;
    UpSeenOk(start, s, seen);
    WayBack(g, start, Path(s));
  }

  /** The prefix before the new position was seen. */
  lemma {:induction false} CutPrefix(c: seq<Node>, k: nat, m: nat, v: Node)
    requires k < |c| && m <= k && m <= |Remove(c, c[k])| && v in Remove(c, c[k])[..m]
    ensures v in c[..k] || v == c[k]
  {
    hide Remove, IndexOf;
    var d, i := Remove(c, c[k]), IndexOf(c, c[k]);
    var l :| 0 <= l < m && d[..m][l] == v;
    assert d == c[..i] + c[i + 1..];
    var o := if l < i then l else l + 1;
    assert c[o] == v;
    assert o < k ==> c[..k][o] == v;
  }

  lemma {:induction false} CutSeenOk(start: Node, s: State, seen: set<Node>)
    requires LastOk(s) && SeenOk(start, s, seen) && !AtEnd(s)
    requires Children(s.targ, s.curr)[Position(s, s.curr)] in s.walk
    ensures LastOk(Iterate(s)) && SeenOk(start, Iterate(s), seen)
  {
    hide Remove, IndexOf;
    var c, k := Children(s.targ, s.curr), Position(s, s.curr);
    var t := Cut(s, c[k]);
    CutKeepsLast(s);
    if s.curr in s.last {
      RemoveBehind(c, s.last[s.curr], 0);
    }
    assert Position(t, s.curr) <= k;
    assert Path(t) == Path(s);
    forall u, v | v in Children(t.targ, u)[..Position(t, u)]
      ensures v in seen
    {
      if u == s.curr {
        CutPrefix(c, k, Position(t, u), v);
      } else {
        assert v in Children(s.targ, u)[..Position(s, u)];
      }
    }
  }

  lemma {:induction false} CutWalkOk(g: Graph, start: Node, s: State, seen: set<Node>)
    requires LastOk(s) && WalkOk(g, start, s, seen) && !AtEnd(s)
    requires Children(s.targ, s.curr)[Position(s, s.curr)] in s.walk
    ensures LastOk(Iterate(s)) && WalkOk(g, start, Iterate(s), seen)
  {
    CutSeenOk(start, s, seen);
    var c, k := Children(s.targ, s.curr), Position(s, s.curr);
    assert c[k] in Path(s);
    CutShrinks(g, s.targ, seen, s.curr, c[k]);
    hide Remove, IndexOf, SeenOk, Shrunk, Way, LastOk;
  }

  lemma {:induction false} DownPrefix(c: seq<Node>, k: nat, v: Node)
    requires k < |c| && v in c[..IndexOf(c, c[k]) + 1]
    ensures v in c[..k] || v == c[k]
  {
    IndexAtMost(c, c[k], k);
    assert c[..k + 1] == c[..k] + [c[k]];
    hide IndexOf;
    assert v in c[..k + 1];
  }

  lemma {:induction false} DownSeenOk(start: Node, s: State, seen: set<Node>)
    requires LastOk(s) && SeenOk(start, s, seen) && !AtEnd(s)
    ensures var next := Children(s.targ, s.curr)[Position(s, s.curr)];
      LastOk(Down(s, next)) && SeenOk(start, Down(s, next), seen + {next})
  {
    hide IndexOf;
    var c, k := Children(s.targ, s.curr), Position(s, s.curr);
    var t := Down(s, c[k]);
    assert Path(t) == Path(s) + [c[k]];
    forall u, v | v in Children(t.targ, u)[..Position(t, u)]
      ensures v in seen + {c[k]}
    {
      if u == s.curr {
        DownPrefix(c, k, v);
      } else {
        assert v in Children(s.targ, u)[..Position(s, u)];
      }
    }
  }

  lemma {:induction false} DownWalkOk(g: Graph, start: Node, s: State, seen: set<Node>)
    requires LastOk(s) && WalkOk(g, start, s, seen) && !AtEnd(s)
    requires Children(s.targ, s.curr)[Position(s, s.curr)] !in s.walk
    ensures WalkOk(g, start, Iterate(s), seen + {Iterate(s).curr})
  {
    var c, k := Children(s.targ, s.curr), Position(s, s.curr);
    DownSeenOk(start, s, seen);
    assert c[k] in Children(g, s.curr);
    assert Path(s)[..|Path(s)| - 1] == s.walk;
    WayOn(g, start, Path(s), c[k]);
    assert Path(Down(s, c[k])) == Path(s) + [c[k]];
    hide SeenOk, Way, IndexOf;
  }

  /** When the walk is over it has been at every node reachable from the start, and has
      gone through its list. */
  lemma {:induction false} OverSawAll(g: Graph, start: Node, s: State, seen: set<Node>, p: seq<Node>)
    requires LastOk(s) && WalkOk(g, start, s, seen) && IsOver(s)
    requires IsPath(EdgesOf(g), p) && p[0] in seen
    ensures p[|p| - 1] in seen
    ensures forall u :: u in seen ==> Position(s, u) >= |Children(s.targ, u)|
    decreases |p|
  {
    hide Way, IndexOf;
    assert Path(s) == [s.curr];
    if |p| > 1 {
      var u, v := p[0], p[1];
      assert (u, v) in EdgesOf(g);
      if v in Children(s.targ, u) {
        assert Children(s.targ, u)[..Position(s, u)] == Children(s.targ, u);
      }
      OverSawAll(g, start, s, seen, p[1..]);
    }
  }

  // ---------------------------------------------------------------------------
  // The walk does not end at a repeated neighbour it has not come through
  // ---------------------------------------------------------------------------

  /** Some way of the walk leads through `v` before it gets to `u`. */
  ghost predicate ComesThrough(g: Graph, start: Node, v: Node, u: Node) {
    exists p :: Way(g, start, p) && p[|p| - 1] == u && v in p[..|p| - 1]
  }

  ghost predicate Twice(c: seq<Node>, v: Node) {
    exists i, j :: 0 <= i < j < |c| && c[i] == c[j] == v
  }

  ghost predicate Repeats(g: Graph, u: Node, v: Node) {
    Twice(Children(g, u), v)
  }

  /** One of the two entries is still ahead. */
  ghost predicate Stuck(s: State, u: Node, v: Node)
    requires LastOk(s)
  {
    Repeats(s.targ, u, v) && v in Children(s.targ, u)[Position(s, u)..]
  }

  lemma {:induction false} DownStaysStuck(s: State, u: Node, v: Node)
    requires LastOk(s) && Stuck(s, u, v) && !AtEnd(s)
    requires Children(s.targ, s.curr)[Position(s, s.curr)] !in s.walk
    ensures Stuck(Iterate(s), u, v)
  {
    if u == s.curr {
      hide IndexOf;
      var c, k := Children(s.targ, u), Position(s, u);
      var i, j :| 0 <= i < j < |c| && c[i] == c[j] == v;
      IndexAtMost(c, c[k], k);
      var at := IndexOf(c, c[k]) + 1;
      if c[k] == v {
        IndexAtMost(c, v, i);
        assert c[at..][j - at] == v;
      } else {
        var l :| 0 <= l < |c| - k && c[k..][l] == v;
        assert c[at..][k + l - at] == v;
      }
    }
  }

  lemma {:induction false} StillTwice(c: seq<Node>, x: Node, v: Node)
    requires x in c && Twice(c, v) && v != x
    ensures Twice(Remove(c, x), v)
  {
    hide IndexOf, Remove;
    var i, j :| 0 <= i < j < |c| && c[i] == c[j] == v;
    RemoveAt(c, x, i);
    RemoveAt(c, x, j);
  }

  lemma {:induction false} FirstStaysAhead(c: seq<Node>, v: Node)
    requires v in c && v != c[0]
    ensures v in Remove(c, c[0])
  {
    hide IndexOf, Remove;
    RemoveMembers(c, c[0]);
  }

  lemma {:induction false} StaysAhead(c: seq<Node>, last: Node, v: Node)
    requires last in c && IndexOf(c, last) + 1 < |c|
    requires v != c[IndexOf(c, last) + 1] && v in c[IndexOf(c, last) + 1..]
    ensures var d := Remove(c, c[IndexOf(c, last) + 1]);
      last in d && v in d[IndexOf(d, last) + 1..]
  {
    hide IndexOf, Remove;
    var k := IndexOf(c, last) + 1;
    var l :| 0 <= l < |c| - k && c[k..][l] == v;
    RemoveBehind(c, last, k + l);
  }

  lemma {:induction false} CutStaysStuck(s: State, u: Node, v: Node)
    requires LastOk(s) && Stuck(s, u, v) && !AtEnd(s)
    requires Children(s.targ, s.curr)[Position(s, s.curr)] in s.walk
    requires u == s.curr ==> v !in s.walk
    ensures Stuck(Iterate(s), u, v)
  {
    hide IndexOf, Remove, Twice;
    if u == s.curr {
      var c, k := Children(s.targ, u), Position(s, u);
      StillTwice(c, c[k], v);
      if u in s.last {
        StaysAhead(c, s.last[u], v);
      } else {
        assert c[0..] == c;
        FirstStaysAhead(c, v);
      }
      assert Iterate(s) == Cut(s, c[k]);
      assert Children(Iterate(s).targ, u) == Remove(c, c[k]);
    }
  }

  lemma {:induction false} OneMore(g: Graph, start: Node, s: State, seen: set<Node>, u: Node, v: Node) returns (more: set<Node>)
    requires LastOk(s) && WalkOk(g, start, s, seen) && Stuck(s, u, v) && !IsOver(s)
    requires !ComesThrough(g, start, v, u)
    ensures WalkOk(g, start, Iterate(s), more) && Stuck(Iterate(s), u, v)
  {
    hide WalkOk, Stuck, ComesThrough, IndexOf, Remove;
    more := seen;
    if AtEnd(s) {
      UpWalkOk(g, start, s, seen);
      UpStaysStuck(s, u, v);
    } else if Children(s.targ, s.curr)[Position(s, s.curr)] in s.walk {
      CutWalkOk(g, start, s, seen);
      NotOnWalk(g, start, s, seen, u, v);
      CutStaysStuck(s, u, v);
    } else {
      more := seen + {Iterate(s).curr};
      DownWalkOk(g, start, s, seen);
      DownStaysStuck(s, u, v);
    }
  }

  lemma {:induction false} NeverOver(g: Graph, start: Node, s: State, seen: set<Node>, u: Node, v: Node, n: nat)
    requires LastOk(s) && WalkOk(g, start, s, seen) && Stuck(s, u, v)
    requires Reaches(EdgesOf(g), start, u) && !ComesThrough(g, start, v, u)
    ensures !IsOver(Run(s, n))
    decreases n
  {
    hide WalkOk, Stuck, ComesThrough, IsOver, Iterate, LastOk;
    NotOver(g, start, s, seen, u, v);
    if n > 0 {
      var more := OneMore(g, start, s, seen, u, v);
      NeverOver(g, start, Iterate(s), more, u, v, n - 1);
    }
  }

  lemma {:induction false} UpStaysStuck(s: State, u: Node, v: Node)
    requires LastOk(s) && Stuck(s, u, v) && AtEnd(s) && s.walk != []
    ensures Stuck(Up(s), u, v)
  {
  }

  lemma {:induction false} NotOnWalk(g: Graph, start: Node, s: State, seen: set<Node>, u: Node, v: Node)
    requires LastOk(s) && WalkOk(g, start, s, seen) && !ComesThrough(g, start, v, u)
    ensures u == s.curr ==> v !in s.walk
  {
    assert Path(s)[..|Path(s)| - 1] == s.walk;
  }

  lemma {:induction false} NotOver(g: Graph, start: Node, s: State, seen: set<Node>, u: Node, v: Node)
    requires LastOk(s) && WalkOk(g, start, s, seen) && Stuck(s, u, v)
    requires Reaches(EdgesOf(g), start, u)
    ensures !IsOver(s)
  {
    if IsOver(s) {
      var p :| Joins(EdgesOf(g), p, start, u);
      OverSawAll(g, start, s, seen, p);
    }
  }

  /** A reachable node that lists a neighbour twice which no way of the walk comes through
      before it keeps the walk going for ever. */
  lemma {:induction false} RepeatNeverEnds(g: Graph, start: Node, u: Node, v: Node)
    requires Reaches(EdgesOf(g), start, u) && Repeats(g, u, v) && !ComesThrough(g, start, v, u)
    ensures !Ends(g, start)
  {
    var s := Start(g, start);
    assert Path(s) == [start];
    assert Stuck(s, u, v) by {
      assert Children(g, u)[0..] == Children(g, u);
    }
    forall n: nat
      ensures !IsOver(Run(s, n))
    {
      NeverOver(g, start, s, {start}, u, v, n);
    }
  }

  lemma {:induction false} ThroughLeadsBack(g: Graph, start: Node, v: Node, u: Node)
    requires ComesThrough(g, start, v, u)
    ensures Reaches(EdgesOf(g), v, u)
  {
    var p :| Way(g, start, p) && p[|p| - 1] == u && v in p[..|p| - 1];
    var i :| 0 <= i < |p| - 1 && p[i] == v;
    assert Joins(EdgesOf(g), p[i..], v, u);
  }

  /** In particular if that neighbour does not lead back at all. */
  lemma {:induction false} NoWayBackNeverEnds(g: Graph, start: Node, u: Node, v: Node)
    requires Reaches(EdgesOf(g), start, u) && Repeats(g, u, v) && !Reaches(EdgesOf(g), v, u)
    ensures !Ends(g, start)
  {
    if ComesThrough(g, start, v, u) {
      ThroughLeadsBack(g, start, v, u);
    }
    RepeatNeverEnds(g, start, u, v);
  }

  lemma NothingBack(g: Graph)
    requires g == map["a" := ["b", "b"]]
    ensures !Reaches(EdgesOf(g), "b", "a")
  {
    forall p | IsPath(EdgesOf(g), p) && p[0] == "b"
      ensures p[|p| - 1] != "a"
    {
      assert |p| > 1 ==> (p[0], p[1]) in EdgesOf(g);
    }
  }

  /** The smallest such graph. */
  lemma TwiceTheSameNeverEnds()
    ensures !Ends(map["a" := ["b", "b"]], "a")
  {
    var g := map["a" := ["b", "b"]];
    ReachesSelf(EdgesOf(g), "a");
    assert Repeats(g, "a", "b") by {
      assert Children(g, "a")[0] == Children(g, "a")[1];
    }
    NothingBack(g);
    NoWayBackNeverEnds(g, "a", "a", "b");
  }

  /** A repeated neighbour on every way to its node does no harm: both entries are deleted. */
  lemma TwiceBackEnds()
    ensures Ends(map["a" := ["b"], "b" := ["a", "a"]], "a")
  {
    var g := map["a" := ["b"], "b" := ["a", "a"]];
    var s0 := Start(g, "a");
    var s1 := Iterate(s0);
    var s2 := Iterate(s1);
    var s3 := Iterate(s2);
    var s4 := Iterate(s3);
    assert IsOver(s4);
    assert Run(s0, 4) == s4;
  }
}
