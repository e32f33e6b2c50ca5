/** The dependency-graph walk of the build scripts: an iterative depth-first
    traversal that deletes the edges closing a loop while it walks, and prints
    every edge it returns over. */
module DepGraph {

  type Node = string
  type Edge = (Node, Node)
  type Graph = map<Node, seq<Node>>

  // ---------------------------------------------------------------------------
  // Adjacency lists
  // ---------------------------------------------------------------------------

  ghost predicate NoRepeats<T(!new)>(s: seq<T>) {
    forall i, j :: 0 <= i < j < |s| ==> s[i] != s[j]
  }

  /** The position `list.index(x)` finds: the first occurrence. */
  function IndexOf(s: seq<Node>, x: Node): (i: nat)
    requires x in s
    ensures i < |s| && s[i] == x && x !in s[..i]
  {
    if s[0] == x then 0 else
      assert x in s[1..];
      1 + IndexOf(s[1..], x)
  }

  function Children(g: Graph, u: Node): seq<Node> {
    if u in g then g[u] else []
  }

  /** `list.remove(x)`: drops the first occurrence. */
  function Remove(s: seq<Node>, x: Node): (r: seq<Node>)
    requires x in s
    ensures r == s[..IndexOf(s, x)] + s[IndexOf(s, x) + 1..]
  {
    if s[0] == x then s[1..] else
      assert x in s[1..];
      [s[0]] + Remove(s[1..], x)
  }

  /** `s` without the targets of the deleted edges leaving `u`. */
  ghost function Without(s: seq<Node>, u: Node, cut: set<Edge>): seq<Node> {
    if s == [] then []
    else if (u, s[0]) in cut then Without(s[1..], u, cut)
    else [s[0]] + Without(s[1..], u, cut)
  }

  lemma {:induction false} WithoutMembers(s: seq<Node>, u: Node, cut: set<Edge>)
    ensures forall v :: v in Without(s, u, cut) <==> v in s && (u, v) !in cut
    ensures NoRepeats(s) ==> NoRepeats(Without(s, u, cut))
  {
    if s != [] {
      WithoutMembers(s[1..], u, cut);
      assert s == [s[0]] + s[1..];
    }
  }

  /** Deleting an edge of another list changes nothing here. */
  lemma {:induction false} WithoutOther(s: seq<Node>, u: Node, cut: set<Edge>, e: Edge)
    requires e.0 != u || e.1 !in s
    ensures Without(s, u, cut + {e}) == Without(s, u, cut)
  {
    if s != [] {
      WithoutOther(s[1..], u, cut, e);
    }
  }

  /** Deleting one more edge removes exactly its one occurrence from its list. */
  lemma {:induction false} WithoutOneMore(s: seq<Node>, u: Node, cut: set<Edge>, x: Node)
    requires NoRepeats(s) && x in s && (u, x) !in cut
    ensures x in Without(s, u, cut)
    ensures Without(s, u, cut + {(u, x)}) == Remove(Without(s, u, cut), x)
  {
    WithoutMembers(s, u, cut);
    hide IndexOf;
    var rest, e := s[1..], (u, x);
    if s[0] == x {
      WithoutOther(rest, u, cut, e);
      assert Without(s, u, cut + {e}) == Without(rest, u, cut);
      assert Without(s, u, cut)[1..] == Without(rest, u, cut);
    } else {
      WithoutOneMore(rest, u, cut, x);
      if (u, s[0]) !in cut {
        assert Without(s, u, cut) == [s[0]] + Without(rest, u, cut);
        assert Without(s, u, cut)[1..] == Without(rest, u, cut);
      }
    }
  }

  lemma {:induction false} IndexUnique(s: seq<Node>, i: nat)
    requires NoRepeats(s) && i < |s|
    ensures IndexOf(s, s[i]) == i
  {
  }

  // ---------------------------------------------------------------------------
  // Reachability over a set of edges
  // ---------------------------------------------------------------------------

  ghost function EdgesOf(g: Graph): set<Edge> {
    set u, v | u in g && v in g[u] :: (u, v)
  }

  ghost predicate IsPath(edges: set<Edge>, p: seq<Node>) {
    |p| > 0 && forall i :: 0 <= i < |p| - 1 ==> (p[i], p[i + 1]) in edges
  }

  ghost predicate Joins(edges: set<Edge>, p: seq<Node>, u: Node, v: Node) {
    IsPath(edges, p) && p[0] == u && p[|p| - 1] == v
  }

  ghost predicate Reaches(edges: set<Edge>, u: Node, v: Node) {
    exists p :: Joins(edges, p, u, v)
  }

  lemma ReachesSelf(edges: set<Edge>, u: Node)
    ensures Reaches(edges, u, u)
  {
    assert Joins(edges, [u], u, u);
  }

  lemma ReachesMore(edges: set<Edge>, more: set<Edge>, u: Node, v: Node)
    requires edges <= more && Reaches(edges, u, v)
    ensures Reaches(more, u, v)
  {
    var p :| Joins(edges, p, u, v);
    assert Joins(more, p, u, v);
  }

  lemma ReachesStep(edges: set<Edge>, u: Node, v: Node, w: Node)
    requires Reaches(edges, u, v) && (v, w) in edges
    ensures Reaches(edges, u, w)
  {
    var p :| Joins(edges, p, u, v);
    assert Joins(edges, p + [w], u, w);
  }

  // ---------------------------------------------------------------------------
  // The walk
  // ---------------------------------------------------------------------------

  /** The variables of the traversal; `dot` is what has been printed so far. */
  datatype State = State(targ: Graph, curr: Node, walk: seq<Node>, last: map<Node, Node>, dot: seq<Edge>)

  /** What the traversal has done so far: the nodes it left for good, in order, the
      edges it went down, and the edges it deleted. */
  datatype History = History(fin: seq<Node>, crossed: set<Edge>, cut: set<Edge>)

  /** The position in the list of `u` at which the walk goes on. */
  function Position(s: State, u: Node): nat
    requires u in s.last ==> s.last[u] in Children(s.targ, u)
  {
    if u in s.last then IndexOf(Children(s.targ, u), s.last[u]) + 1 else 0
  }

  function Path(s: State): seq<Node> {
    s.walk + [s.curr]
  }

  ghost function TreeEdges(p: seq<Node>): seq<Edge>
    requires |p| > 0
  {
    seq(|p| - 1, i requires 0 <= i < |p| - 1 => (p[i], p[i + 1]))
  }

  ghost predicate Visited(s: State, h: History, u: Node) {
    u in s.walk || u == s.curr || u in h.fin
  }

  /** The lists are the original ones without the deleted edges. */
  ghost predicate ListsOk(g: Graph, s: State, h: History) {
    && s.targ.Keys == g.Keys
    && (forall u :: u in g ==> s.targ[u] == Without(g[u], u, h.cut))
    && (forall e :: e in h.cut ==> e.0 in g && e.1 in g[e.0])
  }

  /** `v` stands before the current position in the list of `u`. */
  ghost predicate Behind(s: State, u: Node, v: Node)
    requires u in s.last ==> s.last[u] in Children(s.targ, u)
  {
    v in Children(s.targ, u)[..Position(s, u)]
  }

  /** The edges gone down are those before the current positions. */
  ghost predicate PositionsOk(s: State, h: History) {
    && (forall u :: u in s.last ==> s.last[u] in Children(s.targ, u))
    && (forall u, v :: (u, v) in h.crossed <==> Behind(s, u, v))
  }

  ghost predicate PathOk(start: Node, s: State, h: History) {
    var p := Path(s);
    && p[0] == start
    && (forall i :: 0 <= i < |p| - 1 ==> (p[i], p[i + 1]) in h.crossed)
    && (forall i, j :: 0 <= i < j < |p| && p[i] == p[j] ==> j == i + 1)
  }

  ghost predicate FinishedOk(s: State, h: History) {
    && NoRepeats(h.fin)
    && (forall u :: u in s.walk ==> u !in h.fin)
    && (forall k, v :: 0 <= k < |h.fin| && v in Children(s.targ, h.fin[k]) ==>
          (h.fin[k], v) in h.crossed && (v == h.fin[k] || v in h.fin[..k]))
  }

  /** An edge gone down leads to its own source, to a finished node, or to the next
      node of the current path. */
  ghost predicate CrossedOk(s: State, h: History) {
    forall u, v :: (u, v) in h.crossed ==>
      Visited(s, h, u) && (v == u || v in h.fin || (u, v) in TreeEdges(Path(s)))
  }

  /** Every node seen is reachable over the edges gone down, and every deleted edge
      closed a loop of them. */
  ghost predicate ReachOk(start: Node, s: State, h: History) {
    && (forall u :: Visited(s, h, u) ==> Reaches(h.crossed, start, u))
    && (forall e :: e in h.cut ==> e.0 != e.1 && Visited(s, h, e.1) && Reaches(h.crossed, e.1, e.0))
  }

  /** Each edge gone down is printed once or still lies on the current path. */
  ghost predicate PrintedOk(s: State, h: History) {
    multiset(s.dot) + multiset(TreeEdges(Path(s))) == multiset(h.crossed)
  }

  ghost predicate Inv(g: Graph, start: Node, s: State, h: History) {
    && ListsOk(g, s, h) && PositionsOk(s, h) && PathOk(start, s, h) && FinishedOk(s, h)
    && CrossedOk(s, h) && ReachOk(start, s, h) && PrintedOk(s, h)
  }

  /** The edges the walk may still handle: the first component of the measure. */
  ghost function Pending(s: State, h: History): set<Edge> {
    EdgesOf(s.targ) - h.crossed
  }

  // --- the three kinds of iteration ---

  function Down(s: State, next: Node): State {
    s.(last := s.last[s.curr := next], walk := s.walk + [s.curr], curr := next)
  }

  function Cut(s: State, next: Node): State
    requires s.curr in s.targ && next in s.targ[s.curr]
  {
    s.(targ := s.targ[s.curr := Remove(s.targ[s.curr], next)])
  }

  function Print(s: State): seq<Edge> {
    if s.walk == [] then s.dot else s.dot + [(s.walk[|s.walk| - 1], s.curr)]
  }

  function Up(s: State): State
    requires s.walk != []
  {
    s.(dot := Print(s), curr := s.walk[|s.walk| - 1], walk := s.walk[..|s.walk| - 1])
  }

  /** Leaving a node for good, unless it is still on the path (a self-loop) or was
      left before. */
  ghost function Finish(s: State, h: History): History {
    if s.curr in s.walk || s.curr in h.fin then h else h.(fin := h.fin + [s.curr])
  }

  lemma InitInv(g: Graph, start: Node)
    ensures Inv(g, start, State(g, start, [], map[], []), History([], {}, {}))
  {
    var s, h := State(g, start, [], map[], []), History([], {}, {});
    forall u | u in g
      ensures g[u] == Without(g[u], u, {})
    {
      WithoutNothing(g[u], u);
    }
    ReachesSelf({}, start);
    assert TreeEdges(Path(s)) == [];
  }

  lemma {:induction false} WithoutNothing(s: seq<Node>, u: Node)
    ensures Without(s, u, {}) == s
  {
    if s != [] {
      WithoutNothing(s[1..], u);
    }
  }

  // --- each iteration keeps the invariant ---

  lemma ListsNoRepeats(g: Graph, s: State, h: History, u: Node)
    requires ListsOk(g, s, h) && NoRepeats(Children(g, u))
    ensures NoRepeats(Children(s.targ, u))
  {
    if u in g {
      WithoutMembers(g[u], u, h.cut);
    }
  }

  lemma TreeEdgesPush(p: seq<Node>, x: Node)
    requires |p| > 0
    ensures TreeEdges(p + [x]) == TreeEdges(p) + [(p[|p| - 1], x)]
  {
  }

  /** A node with work left at its position has not been left for good. */
  lemma PendingNotFinished(g: Graph, s: State, h: History)
    requires ListsOk(g, s, h) && PositionsOk(s, h) && FinishedOk(s, h)
    requires NoRepeats(Children(g, s.curr))
    requires Position(s, s.curr) < |Children(s.targ, s.curr)|
    ensures s.curr !in h.fin
    ensures (s.curr, Children(s.targ, s.curr)[Position(s, s.curr)]) !in h.crossed
  {
    var c, k := Children(s.targ, s.curr), Position(s, s.curr);
    ListsNoRepeats(g, s, h, s.curr);
    assert c[k] !in c[..k];
    assert c[k] in c;
  }

  ghost function Crossing(s: State, h: History, next: Node): History {
    h.(crossed := h.crossed + {(s.curr, next)})
  }

  lemma {:induction false} DownBehind(g: Graph, s: State, h: History, next: Node, u: Node, v: Node)
    requires ListsOk(g, s, h) && PositionsOk(s, h)
    requires NoRepeats(Children(g, s.curr))
    requires Position(s, s.curr) < |Children(s.targ, s.curr)|
    requires next == Children(s.targ, s.curr)[Position(s, s.curr)]
    ensures Behind(Down(s, next), u, v) <==> Behind(s, u, v) || (u == s.curr && v == next)
  {
    hide ListsOk, PositionsOk, NoRepeats;
    if u == s.curr {
      var c, k := Children(s.targ, u), Position(s, u);
      ListsNoRepeats(g, s, h, u);
      IndexUnique(c, k);
      assert c[..k + 1] == c[..k] + [next];
    }
  }

  lemma {:induction false} DownPositions(g: Graph, s: State, h: History, next: Node)
    requires ListsOk(g, s, h) && PositionsOk(s, h)
    requires NoRepeats(Children(g, s.curr))
    requires Position(s, s.curr) < |Children(s.targ, s.curr)|
    requires next == Children(s.targ, s.curr)[Position(s, s.curr)]
    ensures PositionsOk(Down(s, next), Crossing(s, h, next))
  {
    hide ListsOk, Behind, Position;
    forall u, v
      ensures (u, v) in Crossing(s, h, next).crossed <==> Behind(Down(s, next), u, v)
    {
      DownBehind(g, s, h, next, u, v);
    }
  }

  lemma {:induction false} DownInv(g: Graph, start: Node, s: State, h: History, next: Node)
    requires Inv(g, start, s, h)
    requires NoRepeats(Children(g, s.curr))
    requires Position(s, s.curr) < |Children(s.targ, s.curr)|
    requires next == Children(s.targ, s.curr)[Position(s, s.curr)]
    requires next !in s.walk
    ensures Inv(g, start, Down(s, next), Crossing(s, h, next))
    ensures Pending(Down(s, next), Crossing(s, h, next)) < Pending(s, h)
  {
    var t, k, e := Down(s, next), Crossing(s, h, next), (s.curr, next);
    var p := Path(s);
    PendingNotFinished(g, s, h);
    DownPositions(g, s, h, next);
    TreeEdgesPush(p, next);
    assert Path(t) == p + [next];
    assert PathOk(start, t, k);
    assert FinishedOk(t, k);
    assert CrossedOk(t, k);
    DownReach(start, s, h, next);
    assert multiset(k.crossed) == multiset(h.crossed) + multiset{e};
    assert e in Pending(s, h);
  }

  lemma DownReach(start: Node, s: State, h: History, next: Node)
    requires ReachOk(start, s, h)
    ensures ReachOk(start, Down(s, next), Crossing(s, h, next))
  {
    var t, k := Down(s, next), Crossing(s, h, next);
    forall u | Visited(t, k, u)
      ensures Reaches(k.crossed, start, u)
    {
      if Visited(s, h, u) {
        ReachesMore(h.crossed, k.crossed, start, u);
      } else {
        ReachesMore(h.crossed, k.crossed, start, s.curr);
        ReachesStep(k.crossed, start, s.curr, next);
      }
    }
    forall e | e in h.cut
      ensures Reaches(k.crossed, e.1, e.0)
    {
      ReachesMore(h.crossed, k.crossed, e.1, e.0);
    }
  }

  ghost function Cutting(s: State, h: History, next: Node): History {
    h.(cut := h.cut + {(s.curr, next)})
  }

  /** A node of the current path reaches the current node over the edges gone down. */
  lemma PathReaches(start: Node, s: State, h: History, i: nat)
    requires PathOk(start, s, h) && i < |Path(s)|
    ensures Reaches(h.crossed, Path(s)[i], s.curr)
  {
    assert Joins(h.crossed, Path(s)[i..], Path(s)[i], s.curr);
  }

  lemma CutLists(g: Graph, s: State, h: History, next: Node)
    requires ListsOk(g, s, h)
    requires NoRepeats(Children(g, s.curr))
    requires next in Children(s.targ, s.curr)
    ensures ListsOk(g, Cut(s, next), Cutting(s, h, next))
  {
    var t, k, e := Cut(s, next), Cutting(s, h, next), (s.curr, next);
    WithoutMembers(g[s.curr], s.curr, h.cut);
    WithoutOneMore(g[s.curr], s.curr, h.cut, next);
    forall u | u in g && u != s.curr
      ensures Without(g[u], u, k.cut) == Without(g[u], u, h.cut)
    {
      WithoutOther(g[u], u, h.cut, e);
    }
  }

  lemma {:induction false} CutBehind(g: Graph, s: State, h: History, next: Node, u: Node, v: Node)
    requires ListsOk(g, s, h) && PositionsOk(s, h)
    requires NoRepeats(Children(g, s.curr))
    requires Position(s, s.curr) < |Children(s.targ, s.curr)|
    requires next == Children(s.targ, s.curr)[Position(s, s.curr)]
    ensures u in s.last ==> s.last[u] in Children(Cut(s, next).targ, u)
    ensures Behind(Cut(s, next), u, v) <==> Behind(s, u, v)
  {
    hide ListsOk, NoRepeats, Remove;
    if u == s.curr {
      ListsNoRepeats(g, s, h, u);
      CutChildren(s, next);
      CutList(Children(s.targ, u), Position(s, u), if u in s.last then s.last[u] else u, v);
    }
  }

  lemma {:induction false} CutChildren(s: State, next: Node)
    requires s.curr in s.last ==> s.last[s.curr] in Children(s.targ, s.curr)
    requires NoRepeats(Children(s.targ, s.curr)) && Position(s, s.curr) < |Children(s.targ, s.curr)|
    requires next == Children(s.targ, s.curr)[Position(s, s.curr)]
    ensures var c, k := Children(s.targ, s.curr), Position(s, s.curr);
      Children(Cut(s, next).targ, s.curr) == c[..k] + c[k + 1..]
  {
    var c, k := Children(s.targ, s.curr), Position(s, s.curr);
    IndexUnique(c, k);
  }

  /** Removing an entry leaves the ones in front of it where they are. */
  lemma {:induction false} CutList(c: seq<Node>, k: nat, last: Node, v: Node)
    requires NoRepeats(c) && k < |c|
    ensures var d := c[..k] + c[k + 1..];
      && d[..k] == c[..k]
      && (k > 0 && c[k - 1] == last ==> IndexOf(c, last) == k - 1 && last in d && IndexOf(d, last) == k - 1)
  {
    var d := c[..k] + c[k + 1..];
    assert d[..k] == c[..k];
    if k > 0 {
      ListsNoRepeatsRemove(c, k);
      IndexUnique(c, k - 1);
      IndexUnique(d, k - 1);
    }
  }

  lemma {:induction false} CutPositions(g: Graph, s: State, h: History, next: Node)
    requires ListsOk(g, s, h) && PositionsOk(s, h)
    requires NoRepeats(Children(g, s.curr))
    requires Position(s, s.curr) < |Children(s.targ, s.curr)|
    requires next == Children(s.targ, s.curr)[Position(s, s.curr)]
    ensures PositionsOk(Cut(s, next), Cutting(s, h, next))
  {
    forall u | u in s.last
      ensures s.last[u] in Children(Cut(s, next).targ, u)
    {
      CutBehind(g, s, h, next, u, next);
    }
    forall u, v
      ensures (u, v) in h.crossed <==> Behind(Cut(s, next), u, v)
    {
      CutBehind(g, s, h, next, u, v);
    }
  }

  lemma ListsNoRepeatsRemove(c: seq<Node>, k: nat)
    requires NoRepeats(c) && k < |c|
    ensures NoRepeats(c[..k] + c[k + 1..])
  {
  }

  lemma CutReach(start: Node, s: State, h: History, next: Node)
    requires PathOk(start, s, h) && ReachOk(start, s, h)
    requires s.curr in s.targ && next in s.targ[s.curr] && next in s.walk
    requires (s.curr, next) !in h.crossed
    ensures ReachOk(start, Cut(s, next), Cutting(s, h, next))
  {
    var i :| 0 <= i < |s.walk| && s.walk[i] == next;
    PathReaches(start, s, h, i);
    if next == s.curr {
      SelfLoopOnPath(start, s, h, i);
    }
  }

  lemma CutFinished(s: State, h: History, next: Node)
    requires FinishedOk(s, h) && s.curr !in h.fin
    requires s.curr in s.targ && next in s.targ[s.curr]
    ensures FinishedOk(Cut(s, next), Cutting(s, h, next))
  {
    var t := Cut(s, next);
    forall u | u != s.curr
      ensures Children(t.targ, u) == Children(s.targ, u)
    {
    }
  }

  lemma KeptAreOriginal(g: Graph, s: State, h: History)
    requires ListsOk(g, s, h)
    ensures EdgesOf(s.targ) == EdgesOf(g) - h.cut
  {
    forall u, v
      ensures (u, v) in EdgesOf(s.targ) <==> (u, v) in EdgesOf(g) && (u, v) !in h.cut
    {
      if u in g {
        WithoutMembers(g[u], u, h.cut);
      }
    }
  }

  lemma CutPending(g: Graph, s: State, h: History, next: Node)
    requires ListsOk(g, s, h)
    requires NoRepeats(Children(g, s.curr))
    requires s.curr in s.targ && next in s.targ[s.curr]
    requires (s.curr, next) !in h.crossed
    ensures Pending(Cut(s, next), Cutting(s, h, next)) < Pending(s, h)
  {
    CutLists(g, s, h, next);
    KeptAreOriginal(g, s, h);
    KeptAreOriginal(g, Cut(s, next), Cutting(s, h, next));
    assert (s.curr, next) in Pending(s, h);
  }

  lemma {:induction false} CutInv(g: Graph, start: Node, s: State, h: History, next: Node)
    requires Inv(g, start, s, h)
    requires NoRepeats(Children(g, s.curr))
    requires Position(s, s.curr) < |Children(s.targ, s.curr)|
    requires next == Children(s.targ, s.curr)[Position(s, s.curr)]
    requires next in s.walk
    ensures Inv(g, start, Cut(s, next), Cutting(s, h, next))
    ensures Pending(Cut(s, next), Cutting(s, h, next)) < Pending(s, h)
  {
    PendingNotFinished(g, s, h);
    CutLists(g, s, h, next);
    CutPositions(g, s, h, next);
    CutReach(start, s, h, next);
    CutFinished(s, h, next);
    CutPending(g, s, h, next);
    assert Path(Cut(s, next)) == Path(s);
  }

  /** The current node is also earlier on the path only through its own self-loop,
      which is then already behind the position. */
  lemma SelfLoopOnPath(start: Node, s: State, h: History, i: nat)
    requires PathOk(start, s, h) && i < |s.walk| && s.walk[i] == s.curr
    ensures (s.curr, s.curr) in h.crossed
  {
    var p := Path(s);
    assert p[i] == p[|s.walk|];
    assert (p[i], p[i + 1]) in h.crossed;
  }

  /** The current node has no successor on the path unless it is on the path before. */
  lemma NotTreeEdge(s: State, v: Node)
    requires s.curr !in s.walk
    ensures (s.curr, v) !in TreeEdges(Path(s))
  {
    forall i | 0 <= i < |s.walk|
      ensures TreeEdges(Path(s))[i] != (s.curr, v)
    {
      assert Path(s)[i] == s.walk[i];
    }
  }

  lemma {:induction false} ListsKept(g: Graph, s: State, h: History, k: History)
    requires ListsOk(g, s, h) && k.cut == h.cut
    ensures ListsOk(g, s, k)
  {
  }

  lemma {:induction false} FinishInv(g: Graph, start: Node, s: State, h: History)
    requires Inv(g, start, s, h)
    requires Position(s, s.curr) >= |Children(s.targ, s.curr)|
    ensures s.curr !in s.walk ==> Finish(s, h).fin == h.fin || Finish(s, h).fin == h.fin + [s.curr]
    ensures ListsOk(g, s, Finish(s, h)) && PositionsOk(s, Finish(s, h)) && PathOk(start, s, Finish(s, h))
    ensures FinishedOk(s, Finish(s, h)) && CrossedOk(s, Finish(s, h)) && ReachOk(start, s, Finish(s, h))
    ensures PrintedOk(s, Finish(s, h))
    ensures s.curr in s.walk || s.curr in Finish(s, h).fin
  {
    hide ListsOk;
    ListsKept(g, s, h, Finish(s, h));
    var k := Finish(s, h);
    if k != h {
      var c := Children(s.targ, s.curr);
      assert c[..Position(s, s.curr)] == c;
      forall v | v in c
        ensures (s.curr, v) in h.crossed && (v == s.curr || v in h.fin)
      {
        var p := Path(s);
        assert Behind(s, s.curr, v);
        NotTreeEdge(s, v);
      }
      forall j, v | 0 <= j < |k.fin| && v in Children(s.targ, k.fin[j])
        ensures (k.fin[j], v) in k.crossed && (v == k.fin[j] || v in k.fin[..j])
      {
        if j < |h.fin| {
          assert k.fin[..j] == h.fin[..j];
        } else {
          assert k.fin[..j] == h.fin;
        }
      }
    }
  }

  lemma UpPath(start: Node, s: State, h: History)
    requires PathOk(start, s, h) && s.walk != []
    ensures PathOk(start, Up(s), h)
    ensures Path(s) == Path(Up(s)) + [s.curr]
    ensures forall u :: Visited(Up(s), h, u) || u == s.curr <==> Visited(s, h, u)
  {
    var t := Up(s);
    assert s.walk == t.walk + [t.curr];
    var p, q := Path(s), Path(t);
    assert p == q + [s.curr];
    forall i | 0 <= i < |q| - 1
      ensures (q[i], q[i + 1]) in h.crossed
    {
      assert (p[i], p[i + 1]) in h.crossed;
    }
    forall i, j | 0 <= i < j < |q| && q[i] == q[j]
      ensures j == i + 1
    {
      assert p[i] == p[j];
    }
  }

  lemma UpPrinted(s: State, h: History)
    requires PrintedOk(s, h) && s.walk != []
    ensures PrintedOk(Up(s), h)
  {
    var q := Path(Up(s));
    assert Path(s) == q + [s.curr];
    TreeEdgesPush(q, s.curr);
  }

  lemma UpFinished(s: State, h: History)
    requires FinishedOk(s, h) && s.walk != []
    ensures FinishedOk(Up(s), h)
  {
    assert forall u :: u in Up(s).walk ==> u in s.walk;
  }

  lemma UpInv(g: Graph, start: Node, s: State, h: History)
    requires Inv(g, start, s, h)
    requires Position(s, s.curr) >= |Children(s.targ, s.curr)|
    requires s.walk != []
    ensures Inv(g, start, Up(s), Finish(s, h))
    ensures Pending(Up(s), Finish(s, h)) == Pending(s, h)
  {
    FinishInv(g, start, s, h);
    var k := Finish(s, h);
    UpPath(start, s, k);
    UpPrinted(s, k);
    UpFinished(s, k);
    UpCrossed(s, k);
    assert Visited(Up(s), k, s.curr);
  }

  /** The edge returned over now leads to a finished node, or is a self-loop. */
  lemma UpCrossed(s: State, k: History)
    requires CrossedOk(s, k) && s.walk != []
    requires s.curr in s.walk || s.curr in k.fin
    requires forall i, j :: 0 <= i < j < |Path(s)| && Path(s)[i] == Path(s)[j] ==> j == i + 1
    ensures CrossedOk(Up(s), k)
  {
    var t := Up(s);
    assert s.walk == t.walk + [t.curr];
    TreeEdgesPush(Path(t), s.curr);
    assert Path(s) == Path(t) + [s.curr];
    if s.curr !in k.fin {
      var i :| 0 <= i < |s.walk| && s.walk[i] == s.curr;
      assert Path(s)[i] == Path(s)[|s.walk|];
      assert s.curr == t.curr;
    }
  }

  // ---------------------------------------------------------------------------
  // What holds when the walk is over
  // ---------------------------------------------------------------------------

  /** At the end every visited node is finished, and all its edges were gone down. */
  ghost predicate Done(g: Graph, start: Node, s: State, h: History) {
    && ListsOk(g, s, h) && PositionsOk(s, h) && FinishedOk(s, h)
    && s.walk == [] && s.curr == start && start in h.fin
    && (forall u, v :: (u, v) in h.crossed ==> u in h.fin && v in h.fin)
    && (forall u :: u in h.fin ==> Reaches(h.crossed, start, u))
    && (forall e :: e in h.cut ==> e.0 != e.1 && e.1 in h.fin && Reaches(h.crossed, e.1, e.0))
    && multiset(s.dot) == multiset(h.crossed)
  }

  lemma FinalDone(g: Graph, start: Node, s: State, h: History)
    requires Inv(g, start, s, h)
    requires Position(s, s.curr) >= |Children(s.targ, s.curr)|
    requires s.walk == []
    ensures Done(g, start, s, Finish(s, h))
  {
    FinishInv(g, start, s, h);
    assert TreeEdges(Path(s)) == [];
  }

  lemma CrossedAreEdges(s: State, h: History)
    requires PositionsOk(s, h)
    ensures h.crossed <= EdgesOf(s.targ)
  {
    forall e | e in h.crossed
      ensures e in EdgesOf(s.targ)
    {
      assert Behind(s, e.0, e.1);
    }
  }

  /** The finished nodes are closed under the original edges. */
  lemma {:induction false} FinishedClosed(g: Graph, start: Node, s: State, h: History, p: seq<Node>)
    requires Done(g, start, s, h) && IsPath(EdgesOf(g), p) && p[0] in h.fin
    ensures p[|p| - 1] in h.fin
    decreases |p|
  {
    if |p| > 1 {
      var u, v := p[0], p[1];
      assert (u, v) in EdgesOf(g);
      WithoutMembers(g[u], u, h.cut);
      FinishedClosed(g, start, s, h, p[1..]);
    }
  }

  /** No reachable node is lost: what the start reached before the walk it still
      reaches over the edges that are kept. */
  lemma ReachabilityKept(g: Graph, start: Node, s: State, h: History, v: Node)
    requires Done(g, start, s, h)
    ensures Reaches(EdgesOf(g), start, v) <==> Reaches(EdgesOf(s.targ), start, v)
    ensures Reaches(EdgesOf(s.targ), start, v) <==> v in h.fin
  {
    CrossedAreEdges(s, h);
    if Reaches(EdgesOf(g), start, v) {
      var p :| Joins(EdgesOf(g), p, start, v);
      FinishedClosed(g, start, s, h, p);
    }
    if v in h.fin {
      ReachesMore(h.crossed, EdgesOf(s.targ), start, v);
    }
    KeptAreOriginal(g, s, h);
    if Reaches(EdgesOf(s.targ), start, v) {
      ReachesMore(EdgesOf(s.targ), EdgesOf(g), start, v);
    }
  }

  /** A kept edge of a finished node leads to an earlier finished one, or to itself. */
  lemma FinishedEdge(s: State, h: History, k: nat, v: Node) returns (j: nat)
    requires FinishedOk(s, h) && k < |h.fin|
    requires (h.fin[k], v) in EdgesOf(s.targ)
    ensures j <= k && h.fin[j] == v
    ensures v != h.fin[k] ==> j < k
  {
    assert v in Children(s.targ, h.fin[k]);
    if v == h.fin[k] {
      j := k;
    } else {
      j :| 0 <= j < k && h.fin[..k][j] == v;
    }
  }

  /** Along kept edges the finishing position never rises ... */
  lemma {:induction false} FinishedBefore(s: State, h: History, p: seq<Node>, k: nat) returns (j: nat)
    requires FinishedOk(s, h) && IsPath(EdgesOf(s.targ), p)
    requires k < |h.fin| && p[0] == h.fin[k]
    ensures j <= k && h.fin[j] == p[|p| - 1]
    decreases |p|
  {
    j := k;
    if |p| > 1 {
      var m := FinishedEdge(s, h, k, p[1]);
      j := FinishedBefore(s, h, p[1..], m);
    }
  }

  /** ... and it falls as soon as the path leaves its first node. */
  lemma {:induction false} LeavingFinishesBefore(s: State, h: History, p: seq<Node>, k: nat, i: nat)
    requires FinishedOk(s, h) && IsPath(EdgesOf(s.targ), p)
    requires k < |h.fin| && p[0] == h.fin[k]
    requires i < |p| && p[i] != p[0]
    ensures p[|p| - 1] != p[0]
    decreases |p|
  {
    var m := FinishedEdge(s, h, k, p[1]);
    if p[1] == p[0] {
      LeavingFinishesBefore(s, h, p[1..], m, i - 1);
    } else {
      var j := FinishedBefore(s, h, p[1..], m);
    }
  }

  /** The only loops left among the reachable nodes are self-loops. */
  lemma OnlySelfLoopsLeft(g: Graph, start: Node, s: State, h: History, p: seq<Node>)
    requires Done(g, start, s, h) && IsPath(EdgesOf(s.targ), p)
    requires Reaches(EdgesOf(s.targ), start, p[0])
    requires p[0] == p[|p| - 1]
    ensures forall i :: 0 <= i < |p| ==> p[i] == p[0]
  {
    ReachabilityKept(g, start, s, h, p[0]);
    forall i | 0 <= i < |p|
      ensures p[i] == p[0]
    {
      if p[i] != p[0] {
        var k :| 0 <= k < |h.fin| && h.fin[k] == p[0];
        LeavingFinishesBefore(s, h, p, k, i);
      }
    }
  }

  /** No deletion was idle: putting any deleted edge back would close a loop. */
  lemma EveryCutClosedALoop(g: Graph, start: Node, s: State, h: History, e: Edge)
    requires Done(g, start, s, h) && e in EdgesOf(g) - EdgesOf(s.targ)
    ensures e.0 != e.1 && Reaches(EdgesOf(s.targ), start, e.1) && Reaches(EdgesOf(s.targ), e.1, e.0)
  {
    KeptAreOriginal(g, s, h);
    CrossedAreEdges(s, h);
    ReachesMore(h.crossed, EdgesOf(s.targ), e.1, e.0);
    ReachabilityKept(g, start, s, h, e.1);
  }

  /** The printed edges are exactly the kept edges leaving reachable nodes, each once. */
  lemma PrintedOnce(g: Graph, start: Node, s: State, h: History, e: Edge)
    requires Done(g, start, s, h)
    ensures multiset(s.dot)[e] ==
              if e in EdgesOf(s.targ) && Reaches(EdgesOf(s.targ), start, e.0) then 1 else 0
  {
    CrossedAreEdges(s, h);
    ReachabilityKept(g, start, s, h, e.0);
    if e in EdgesOf(s.targ) && e.0 in h.fin {
      var k :| 0 <= k < |h.fin| && h.fin[k] == e.0;
      assert e.1 in Children(s.targ, h.fin[k]);
    }
  }

  /** What a traversal from `start` promises about the graph before and after it and
      about the edges it printed. */
  ghost predicate LoopsBroken(g: Graph, start: Node, after: Graph, printed: seq<Edge>) {
    var kept := EdgesOf(after);
    && after.Keys == g.Keys
    && (exists cut :: kept == EdgesOf(g) - cut
                      && forall u :: u in g ==> after[u] == Without(g[u], u, cut))
    && (forall v :: Reaches(EdgesOf(g), start, v) <==> Reaches(kept, start, v))
    && (forall p :: IsPath(kept, p) && Reaches(kept, start, p[0]) && p[0] == p[|p| - 1] ==>
          forall i :: 0 <= i < |p| ==> p[i] == p[0])
    && (forall e :: e in EdgesOf(g) - kept ==>
          e.0 != e.1 && Reaches(kept, start, e.1) && Reaches(kept, e.1, e.0))
    && (forall e :: multiset(printed)[e] == if e in kept && Reaches(kept, start, e.0) then 1 else 0)
  }

  lemma DoneBreaksLoops(g: Graph, start: Node, s: State, h: History)
    requires Done(g, start, s, h)
    ensures LoopsBroken(g, start, s.targ, s.dot)
  {
    KeptAreOriginal(g, s, h);
    forall v { ReachabilityKept(g, start, s, h, v); }
    forall p | IsPath(EdgesOf(s.targ), p) && Reaches(EdgesOf(s.targ), start, p[0]) && p[0] == p[|p| - 1]
      ensures forall i :: 0 <= i < |p| ==> p[i] == p[0]
    {
      OnlySelfLoopsLeft(g, start, s, h, p);
    }
    forall e | e in EdgesOf(g) - EdgesOf(s.targ)
      ensures e.0 != e.1 && Reaches(EdgesOf(s.targ), start, e.1) && Reaches(EdgesOf(s.targ), e.1, e.0)
    {
      EveryCutClosedALoop(g, start, s, h, e);
    }
    forall e
      ensures multiset(s.dot)[e] ==
                if e in EdgesOf(s.targ) && Reaches(EdgesOf(s.targ), start, e.0) then 1 else 0
    {
      PrintedOnce(g, start, s, h, e);
    }
  }

  /** No node the walk can get to repeats a neighbour; other lists may. */
  ghost predicate ReachableNoRepeats(g: Graph, start: Node) {
    forall u :: Reaches(EdgesOf(g), start, u) ==> NoRepeats(Children(g, u))
  }

  lemma {:induction false} CurrentNoRepeats(g: Graph, start: Node, s: State, h: History)
    requires Inv(g, start, s, h) && ReachableNoRepeats(g, start)
    ensures NoRepeats(Children(g, s.curr))
  {
    KeptAreOriginal(g, s, h);
    CrossedAreEdges(s, h);
    assert Visited(s, h, s.curr);
    ReachesMore(h.crossed, EdgesOf(g), start, s.curr);
  }
}
