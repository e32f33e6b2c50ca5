/** The traversal as the script runs it, on every graph on which it ends, and what it leaves
    there. */
module DepGraphWalk {
  import opened DepGraph
  import opened DepGraphEnds
  import opened DepGraphRepeats

  // ---------------------------------------------------------------------------
  // The end of the walk, beside the end of the walk without repeats
  // ---------------------------------------------------------------------------

  lemma {:induction false} FinalBeside(g: Graph, start: Node, s: State, t: State, h: History, n: nat)
      returns (a: State, k: History)
    requires Beside(g, start, s, t, h) && IsOver(Run(s, n))
    ensures Beside(g, start, Run(s, n), a, k)
    decreases n
  {
    hide Beside, Handled, IsOver, AtEnd, Iterate, LastOk, Next, FallenBack;
    BesideLast(g, start, s, t, h);
    if IsOver(s) {
      a, k := t, h;
    } else {
      NoFallback(g, start, s, t, h, n);
      a, k := SideStep(g, start, s, t, h);
      a, k := FinalBeside(g, start, Iterate(s), a, k, n - 1);
    }
  }

  lemma {:induction false} NoFallback(g: Graph, start: Node, s: State, t: State, h: History, n: nat)
    requires Beside(g, start, s, t, h) && IsOver(Run(s, n)) && !IsOver(s)
    ensures AtEnd(s) || Next(s) !in Handled(h, s.curr) || Next(s) in s.walk
  {
    hide Beside, Handled, IsOver, FallenBack;
    BesideLast(g, start, s, t, h);
    if !AtEnd(s) && Next(s) in Handled(h, s.curr) && Next(s) !in s.walk {
      FallsBack(g, start, s, t, h);
      FallenNeverOver(s, s.walk, s.curr, Next(s), n);
    }
  }

  /** The same edges, but for self-loops. */
  ghost predicate SameApart(a: Graph, b: Graph) {
    forall u, v :: u != v ==> (v in Children(a, u) <==> v in Children(b, u))
  }

  lemma {:induction false} EndedList(g: Graph, start: Node, s: State, t: State, h: History, u: Node, v: Node)
    requires Beside(g, start, s, t, h) && Through(s, u) && v in Targets(h.cut, u) && u != v
    ensures v !in Children(s.targ, u)
  {
    hide Inv, Aside, SelfDone, FinDone, CutSeen, Within, IndexOf, Left, Kept;
    assert NodeAt(g, s, t, h, u);
    var c := Children(s.targ, u);
    assert c[..Position(s, u)] == c;
    assert (u, v) in h.cut;
    if v in c {
      assert (u, v) in h.crossed;
      CrossedNotCut(g, start, t, h, u, v);
    }
  }

  lemma {:induction false} CrossedNotCut(g: Graph, start: Node, t: State, h: History, u: Node, v: Node)
    requires Inv(Deduped(g), start, t, h) && (u, v) in h.crossed
    ensures (u, v) !in h.cut
  {
    CrossedListed(Deduped(g), start, t, h, u, v);
    KeptAreOriginal(Deduped(g), t, h);
    assert (u, v) in EdgesOf(t.targ);
  }

  lemma {:induction false} UncutSame(g: Graph, start: Node, s: State, t: State, h: History, u: Node, v: Node)
    requires Beside(g, start, s, t, h) && v !in Targets(h.cut, u) && u != v
    ensures v in Children(s.targ, u) <==> v in Children(t.targ, u)
  {
    assert NodeAt(g, s, t, h, u);
    KeptAreOriginal(Deduped(g), t, h);
    DedupedFacts(g, start);
    hide Inv, Aside, SelfDone, FinDone, CutSeen, Within, IndexOf, Left, Front, NodeAt, NoRepeats;
    assert multiset(Children(s.targ, u))[v] == multiset(Children(g, u))[v];
    assert (u, v) !in h.cut;
    InChildren(t.targ, u, v);
    InChildren(Deduped(g), u, v);
    InChildren(g, u, v);
  }

  lemma InChildren(g: Graph, u: Node, v: Node)
    ensures v in Children(g, u) <==> (u, v) in EdgesOf(g)
  {
  }

  lemma {:induction false} CutGoneBoth(g: Graph, start: Node, t: State, h: History, u: Node, v: Node)
    requires Inv(Deduped(g), start, t, h) && v in Targets(h.cut, u)
    ensures v !in Children(t.targ, u) && (u, v) in h.cut
  {
    KeptAreOriginal(Deduped(g), t, h);
    InChildren(t.targ, u, v);
  }

  /** A walk that is over has kept the edges that the walk without repeats keeps, apart from
      self-loops, and has printed what that walk prints. */
  lemma {:induction false} EndsAlike(g: Graph, start: Node, s: State, t: State, h: History)
    requires Beside(g, start, s, t, h) && IsOver(s)
    ensures IsOver(t) && s.dot == t.dot && SameApart(s.targ, t.targ)
  {
    BothAtEnd(g, start, s, t, h);
    hide Inv, NodeAt, Aside, SelfDone, Within, IndexOf, Targets;
    forall u, v | u != v
      ensures v in Children(s.targ, u) <==> v in Children(t.targ, u)
    {
      if v in Targets(h.cut, u) {
        CutGoneBoth(g, start, t, h, u, v);
        assert Visited(t, h, u);
        EndedList(g, start, s, t, h, u, v);
      } else {
        UncutSame(g, start, s, t, h, u, v);
      }
    }
  }

  // ---------------------------------------------------------------------------
  // What a walk that ends leaves
  // ---------------------------------------------------------------------------

  /** The only loops among the nodes reached are self-loops. */
  ghost predicate OnlyStay(start: Node, kept: set<Edge>) {
    forall p :: IsPath(kept, p) && Reaches(kept, start, p[0]) && p[0] == p[|p| - 1] ==>
      forall i :: 0 <= i < |p| ==> p[i] == p[0]
  }

  /** What a traversal from `start` promises on any graph on which it ends. A self-loop that is
      listed twice may be deleted; it is printed once all the same. */
  ghost predicate LoopsGone(g: Graph, start: Node, after: Graph, printed: seq<Edge>) {
    var kept := EdgesOf(after);
    && after.Keys == g.Keys && kept <= EdgesOf(g)
    && (forall u :: !Reaches(EdgesOf(g), start, u) ==> Children(after, u) == Children(g, u))
    && (forall v :: Reaches(EdgesOf(g), start, v) <==> Reaches(kept, start, v))
    && OnlyStay(start, kept)
    && (forall e :: e in EdgesOf(g) - kept && e.0 != e.1 ==>
          Reaches(kept, start, e.1) && Reaches(kept, e.1, e.0))
    && (forall e :: multiset(printed)[e] ==
          if (e in kept || (e.0 == e.1 && e in EdgesOf(g))) && Reaches(kept, start, e.0) then 1 else 0)
  }

  /** Self-loops do not help to reach anything. */
  lemma {:induction false} ReachesApart(a: set<Edge>, b: set<Edge>, u: Node, v: Node)
    requires Reaches(a, u, v) && forall e :: e in a && e.0 != e.1 ==> e in b
    ensures Reaches(b, u, v)
  {
    var p :| Joins(a, p, u, v);
    PathApart(a, b, p);
  }

  lemma {:induction false} PathApart(a: set<Edge>, b: set<Edge>, p: seq<Node>)
    requires IsPath(a, p) && forall e :: e in a && e.0 != e.1 ==> e in b
    ensures Reaches(b, p[0], p[|p| - 1])
    decreases |p|
  {
    if |p| == 1 {
      ReachesSelf(b, p[0]);
    } else {
      var n := |p| - 1;
      var e := (p[n - 1], p[n]);
      assert e in a;
      PathApart(a, b, p[..n]);
      if e.0 != e.1 {
        ReachesStep(b, p[0], p[n - 1], p[n]);
      }
    }
  }

  /** The edges of the two ends, as sets. */
  ghost predicate EdgesApart(all: set<Edge>, a: set<Edge>, b: set<Edge>) {
    && a <= b <= all
    && (forall e :: e in all && e.0 == e.1 ==> e in b)
    && (forall e :: e in b && e.0 != e.1 ==> e in a)
  }

  lemma {:induction false} ReachesBoth(all: set<Edge>, a: set<Edge>, b: set<Edge>)
    requires EdgesApart(all, a, b)
    ensures forall u, v :: Reaches(a, u, v) <==> Reaches(b, u, v)
  {
    forall u, v
      ensures Reaches(a, u, v) <==> Reaches(b, u, v)
    {
      if Reaches(a, u, v) {
        ReachesMore(a, b, u, v);
      }
      if Reaches(b, u, v) {
        ReachesApart(b, a, u, v);
      }
    }
  }

  lemma {:induction false} OnlyStayLeft(start: Node, a: set<Edge>, b: set<Edge>)
    requires a <= b && OnlyStay(start, b)
    ensures OnlyStay(start, a)
  {
    forall p | IsPath(a, p) && Reaches(a, start, p[0]) && p[0] == p[|p| - 1]
      ensures forall i :: 0 <= i < |p| ==> p[i] == p[0]
    {
      ReachesMore(a, b, start, p[0]);
      hide Reaches;
      assert IsPath(b, p);
    }
  }

  lemma {:induction false} GoneCloses(start: Node, all: set<Edge>, a: set<Edge>, b: set<Edge>)
    requires EdgesApart(all, a, b)
    requires forall d :: d in all - b ==> d.0 != d.1 && Reaches(b, start, d.1) && Reaches(b, d.1, d.0)
    ensures forall e :: e in all - a && e.0 != e.1 ==> Reaches(a, start, e.1) && Reaches(a, e.1, e.0)
  {
    ReachesBoth(all, a, b);
    hide Reaches;
  }

  lemma {:induction false} PrintedApart(start: Node, all: set<Edge>, a: set<Edge>, b: set<Edge>, printed: seq<Edge>)
    requires EdgesApart(all, a, b)
    requires forall e :: multiset(printed)[e] == if e in b && Reaches(b, start, e.0) then 1 else 0
    ensures forall e :: multiset(printed)[e] == if (e in a || (e.0 == e.1 && e in all)) && Reaches(a, start, e.0) then 1 else 0
  {
    ReachesBoth(all, a, b);
    hide Reaches;
  }

  /** Taking self-loops away keeps what the walk without repeats promises. */
  lemma {:induction false} GoneApart(g: Graph, d: Graph, start: Node, a: Graph, b: Graph, printed: seq<Edge>)
    requires LoopsBroken(d, start, b, printed) && EdgesOf(d) == EdgesOf(g)
    requires EdgesApart(EdgesOf(g), EdgesOf(a), EdgesOf(b)) && a.Keys == g.Keys
    requires forall u :: !Reaches(EdgesOf(g), start, u) ==> Children(a, u) == Children(g, u)
    ensures LoopsGone(g, start, a, printed)
  {
    hide Reaches, EdgesOf, Without, IsPath;
    var all, ka, kb := EdgesOf(g), EdgesOf(a), EdgesOf(b);
    ReachesBoth(all, ka, kb);
    OnlyStayLeft(start, ka, kb);
    GoneCloses(start, all, ka, kb);
    PrintedApart(start, all, ka, kb, printed);
  }

  lemma {:induction false} EndedApart(g: Graph, start: Node, s: State, t: State, h: History)
    requires Beside(g, start, s, t, h) && IsOver(s)
    ensures EdgesApart(EdgesOf(g), EdgesOf(s.targ), EdgesOf(t.targ)) && s.targ.Keys == g.Keys
  {
    EndsAlike(g, start, s, t, h);
    DedupedFacts(g, start);
    KeptAreOriginal(Deduped(g), t, h);
    InvParts(Deduped(g), start, t, h);
    hide Inv, NodeAt, Aside, SelfDone, FinDone, CutSeen, LastOk, IsOver, NoReturn, NoRepeats;
    forall e
      ensures e in EdgesOf(s.targ) ==> e in EdgesOf(g)
      ensures e in EdgesOf(t.targ) <==> e in EdgesOf(g) && e !in h.cut
      ensures e.0 != e.1 ==> (e in EdgesOf(s.targ) <==> e in EdgesOf(t.targ))
    {
      InChildren(s.targ, e.0, e.1);
      InChildren(t.targ, e.0, e.1);
      InChildren(g, e.0, e.1);
    }
  }

  /** At the end of the walk without repeats the nodes it was at are those it reached. */
  lemma {:induction false} OverSeen(g: Graph, start: Node, t: State, h: History, u: Node)
    requires Inv(Deduped(g), start, t, h) && LastOk(t) && IsOver(t)
    ensures LoopsBroken(Deduped(g), start, t.targ, t.dot)
    ensures Visited(t, h, u) ==> Reaches(EdgesOf(g), start, u)
  {
    FinalDone(Deduped(g), start, t, h);
    DoneBreaksLoops(Deduped(g), start, t, Finish(t, h));
    hide Inv, Done, LoopsBroken, IsOver, LastOk;
    if Visited(t, h, u) {
      VisitedReachable(g, start, t, h, u);
    }
  }

  lemma {:induction false} VisitedReachable(g: Graph, start: Node, t: State, h: History, u: Node)
    requires Inv(Deduped(g), start, t, h) && Visited(t, h, u)
    ensures Reaches(EdgesOf(g), start, u)
  {
    DedupedFacts(g, start);
    KeptAreOriginal(Deduped(g), t, h);
    CrossedAreEdges(t, h);
    ReachesMore(h.crossed, EdgesOf(g), start, u);
  }

  /** The end of the walk over any graph, if there is one. */
  lemma {:induction false} EndedGone(g: Graph, start: Node, n: nat)
    requires IsOver(Run(Start(g, start), n))
    ensures LoopsGone(g, start, Run(Start(g, start), n).targ, Run(Start(g, start), n).dot)
  {
    StartBeside(g, start);
    var t, h := FinalBeside(g, start, Start(g, start), Start(Deduped(g), start), History([], {}, {}), n);
    var s := Run(Start(g, start), n);
    EndsAlike(g, start, s, t, h);
    EndedApart(g, start, s, t, h);
    DedupedFacts(g, start);
    BesideLast(g, start, s, t, h);
    OverSeen(g, start, t, h, start);
    hide Inv, NodeAt, Aside, SelfDone, FinDone, CutSeen, LastOk, IsOver, LoopsBroken, LoopsGone, EdgesApart, SameApart,
      NoRepeats, Run, Visited;
    forall u | !Reaches(EdgesOf(g), start, u)
      ensures Children(s.targ, u) == Children(g, u)
    {
      OverSeen(g, start, t, h, u);
    }
    GoneApart(g, Deduped(g), start, s.targ, t.targ, s.dot);
  }

  /** Without repeats the lists are as they were, without the deleted edges. */
  lemma {:induction false} EndedBroken(g: Graph, start: Node, s: State, h: History, n: nat)
    requires Inv(g, start, s, h) && ReachableNoRepeats(g, start) && LastOk(s) && IsOver(Run(s, n))
    ensures LoopsBroken(g, start, Run(s, n).targ, Run(s, n).dot)
    decreases n
  {
    hide Inv, ReachableNoRepeats, NoRepeats, Pending, LastOk, Iterate, LoopsBroken, Done;
    if IsOver(s) {
      FinalDone(g, start, s, h);
      DoneBreaksLoops(g, start, s, Finish(s, h));
    } else {
      CurrentNoRepeats(g, start, s, h);
      var k := EndsStep(g, start, s, h);
      EndedBroken(g, start, Iterate(s), k, n - 1);
    }
  }

  // ---------------------------------------------------------------------------
  // The script
  // ---------------------------------------------------------------------------

  /** The script's globals: the dependency lists, and the edges written to the file. */
  class Grapher {
    var targ: Graph
    var fdot: seq<Edge>

    /** Writes the edge from the last node of the walk to the current one. */
    method PrintCmd(curr: Node, walk: seq<Node>)
      modifies `fdot
      ensures fdot == if walk == [] then old(fdot) else old(fdot) + [(walk[|walk| - 1], curr)]
    {
      if walk != [] {
        fdot := fdot + [(walk[|walk| - 1], curr)];
      }
    }

    /** Does on every graph what the iterations do, and so ends where they end. */
    method DFS(start: Node)
      requires Ends(targ, start)
      modifies this
      ensures old(fdot) <= fdot
      ensures LoopsGone(old(targ), start, targ, fdot[|old(fdot)|..])
      ensures old(ReachableNoRepeats(targ, start)) ==> LoopsBroken(old(targ), start, targ, fdot[|old(fdot)|..])
    {
      hide LoopsGone, LoopsBroken, ReachableNoRepeats, IndexOf, Remove, Iterate, Run, IsOver, LastOk;
      var curr := start;
      var walk: seq<Node> := [];
      var last: map<Node, Node> := map[];
      ghost var g, dot0, s0 := targ, fdot, Start(targ, start);
      ghost var s := s0;
      ghost var n: nat, total: nat;
      n :| IsOver(Run(s0, n));
      total := n;
      while true
        invariant LastOk(s) && IsOver(Run(s, n)) && Run(s, n) == Run(s0, total)
        invariant s.targ == targ && s.curr == curr && s.walk == walk && s.last == last
        invariant fdot == dot0 + s.dot
        decreases n
      {
        Iterated(s, n);
        var child: seq<Node> := [];
        var idx := 0;
        if curr in targ {
          child := targ[curr];
        }
        if curr in last {
          idx := IndexOf(child, last[curr]);
          idx := idx + 1;
        }
        if idx >= |child| {
          PrintCmd(curr, walk);
          if |walk| == 0 {
            break;
          }
          curr := walk[|walk| - 1];
          walk := walk[..|walk| - 1];
        } else {
          var ne := child[idx];
          if ne in walk {
            targ := targ[curr := Remove(targ[curr], ne)];
          } else {
            last := last[curr := ne];
            walk := walk + [curr];
            curr := ne;
          }
        }
        s, n := Iterate(s), n - 1;
      }
      Outcome(g, start, total);
    }

    /** One iteration in the variables of the loop. */
    lemma {:induction false} Iterated(s: State, n: nat)
      requires LastOk(s) && IsOver(Run(s, n))
      ensures s.curr in s.last ==> s.last[s.curr] in Children(s.targ, s.curr)
      ensures var child, idx := Children(s.targ, s.curr), Position(s, s.curr);
        && (IsOver(s) <==> idx >= |child| && s.walk == [])
        && (IsOver(s) ==> Run(s, n) == s)
        && (!IsOver(s) ==>
              && n > 0 && LastOk(Iterate(s)) && Run(s, n) == Run(Iterate(s), n - 1)
              && Iterate(s) ==
                 if idx >= |child| then
                   s.(dot := s.dot + [(s.walk[|s.walk| - 1], s.curr)], curr := s.walk[|s.walk| - 1], walk := s.walk[..|s.walk| - 1])
                 else if child[idx] in s.walk then
                   s.(targ := s.targ[s.curr := Remove(s.targ[s.curr], child[idx])])
                 else
                   s.(last := s.last[s.curr := child[idx]], walk := s.walk + [s.curr], curr := child[idx]))
    {
      hide IndexOf, Remove;
    }

    lemma {:induction false} Outcome(g: Graph, start: Node, n: nat)
      requires IsOver(Run(Start(g, start), n))
      ensures var s := Run(Start(g, start), n);
        && LoopsGone(g, start, s.targ, s.dot)
        && (ReachableNoRepeats(g, start) ==> LoopsBroken(g, start, s.targ, s.dot))
    {
      hide LoopsGone, LoopsBroken, ReachableNoRepeats, IsOver, Run;
      EndedGone(g, start, n);
      if ReachableNoRepeats(g, start) {
        InitInv(g, start);
        EndedBroken(g, start, Start(g, start), History([], {}, {}), n);
      }
    }
  }
}
