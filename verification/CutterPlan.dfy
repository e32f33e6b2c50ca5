/** What the recording cutter should produce: which frames it writes for a list of editing
    marks, and how files, index and new marks follow from the frames written. */
module CutterPlan {
  import opened Common

  /** An entry of a frame index. */
  datatype Entry = Entry(independent: bool, number: nat, offset: nat)

  /** The recording and the settings: its files and its index, the size beyond which no
      independent frame is written into the same file, the size of the frame buffer, whether
      every cut-in starts a new file, and what is done to the first frame behind a cut. */
  datatype Job = Job(
    files: map<nat, seq<byte>>, index: seq<Entry>,
    maxSize: nat, frameSize: nat, split: bool, broken: seq<byte> -> seq<byte>)

  /** A frame written: its number in the recording, whether its segment starts with it, and
      whether it is marked for the break in front of it. */
  datatype Shot = Shot(frame: nat, first: bool, broken: bool)

  // ---------------------------------------------------------------------------
  // The recording
  // ---------------------------------------------------------------------------

  /** The frames that can be read; the last entry only ends the frame in front of it. */
  function Frames(job: Job): nat {
    if job.index == [] then 0 else |job.index| - 1
  }

  ghost predicate WellFormed(job: Job) {
    && (forall i :: 0 <= i < |job.index| ==> job.index[i].number >= 1)
    && (forall i :: 0 <= i < Frames(job) ==>
          job.index[i].number == job.index[i + 1].number ==> job.index[i].offset <= job.index[i + 1].offset)
    && (forall d :: |job.broken(d)| == |d|)
  }

  function Independent(job: Job, i: nat): bool
    requires i < Frames(job)
  {
    job.index[i].independent
  }

  /** The length `cIndexFile::Get` reports, where -1 means up to the end of the file. */
  function Length(job: Job, i: nat): int
    requires i < Frames(job)
  {
    if job.index[i].number == job.index[i + 1].number then job.index[i + 1].offset - job.index[i].offset else -1
  }

  function Min(a: int, b: int): int {
    if a < b then a else b
  }

  /** What reading `length` bytes at a position gives. */
  function ReadAt(file: seq<byte>, pos: nat, length: nat): (d: seq<byte>)
  {
    if pos >= |file| then [] else file[pos..Min(pos + length, |file|)]
  }

  /** A frame, cut off at the size of the buffer. */
  function Bytes(job: Job, i: nat): seq<byte>
    requires i < Frames(job) && WellFormed(job)
  {
    var e := job.index[i];
    if e.number !in job.files then []
    else
      ReadAt(job.files[e.number], e.offset, if Length(job, i) == -1 then job.frameSize else Min(Length(job, i), job.frameSize))
  }

  /** The first independent frame from `i` on, or the number of frames. */
  function NextIndependent(job: Job, i: nat): (t: nat)
    ensures i <= Frames(job) ==> i <= t <= Frames(job)
    ensures forall k :: i <= k < t && k < Frames(job) ==> !Independent(job, k)
    ensures t < Frames(job) ==> Independent(job, t)
    decreases Frames(job) - i
  {
    if i >= Frames(job) || Independent(job, i) then i else NextIndependent(job, i + 1)
  }

  // ---------------------------------------------------------------------------
  // The frames to write
  // ---------------------------------------------------------------------------

  /** The frames of a segment that are still to be written. */
  function Piece(job: Job, i: nat, end: nat, start: bool, cutIn: bool): (s: seq<Shot>)
    ensures |s| == if i < end then end - i else 0
  {
    if i < end then
      seq(end - i, k requires 0 <= k < end - i =>
        Shot(i + k, start && k == 0, cutIn && i + k == NextIndependent(job, i)))
    else []
  }

  /** Where a segment ends, with one more frame if the mark is not ahead. */
  function End(i: nat, mark: nat): (end: nat)
    ensures end > i
  {
    if mark > i then mark else i + 1
  }

  /** Frames of the segments, frames behind the last cut-out, whether the index suffices,
      whether the last segment has a cut-out, and whether the last cut-in is behind the
      recording. */
  datatype Plan = Plan(main: seq<Shot>, tail: seq<Shot>, ok: bool, closed: bool, dangling: bool)

  /** From frame `i` on with the marks that are left; a segment has at least one frame. */
  function Rest(job: Job, i: nat, marks: seq<nat>, start: bool, cutIn: bool): Plan
    decreases |marks|
  {
    var n := Frames(job);
    if marks == [] then Plan(Piece(job, i, n, start, cutIn), [], true, false, start && i >= n)
    else
      var end := End(i, marks[0]);
      if end > n then Plan(Piece(job, i, n, start, cutIn), [], false, false, start && i >= n)
      else
        var piece := Piece(job, i, end, start, cutIn);
        var rest := if |marks| == 1 then Tail(job, end) else Rest(job, marks[1], marks[2..], true, true);
        rest.(main := piece + rest.main)
  }

  /** Behind the last cut-out, up to the next independent frame. */
  function Tail(job: Job, i: nat): Plan {
    var t := NextIndependent(job, i);
    Plan([], Piece(job, i, t, false, false), t < Frames(job), true, false)
  }

  function Planned(job: Job, marks: seq<nat>): Plan
    requires marks != []
  {
    Rest(job, marks[0], marks[1..], true, true)
  }

  /** What is left after one frame. */
  function Behind(job: Job, i: nat, marks: seq<nat>, cutIn: bool): Plan {
    if marks != [] && i >= marks[0] then
      if |marks| == 1 then Tail(job, i) else Rest(job, marks[1], marks[2..], true, true)
    else Rest(job, i, marks, false, cutIn)
  }

  lemma {:induction false} PieceStep(job: Job, i: nat, end: nat, start: bool, cutIn: bool)
    requires i < end <= Frames(job)
    ensures Piece(job, i, end, start, cutIn)
         == [Shot(i, start, cutIn && Independent(job, i))] + Piece(job, i + 1, end, false, cutIn && !Independent(job, i))
  {
    assert NextIndependent(job, i) == if Independent(job, i) then i else NextIndependent(job, i + 1);
    hide NextIndependent;
    var p, q := Piece(job, i, end, start, cutIn), Piece(job, i + 1, end, false, cutIn && !Independent(job, i));
    assert forall k :: 0 <= k < |q| ==> p[k + 1] == q[k];
  }

  /** What follows a segment that ends at `end`. */
  function Next(job: Job, end: nat, marks: seq<nat>): Plan
    requires marks != []
  {
    if |marks| == 1 then Tail(job, end) else Rest(job, marks[1], marks[2..], true, true)
  }

  lemma {:induction false} RestIs(job: Job, i: nat, marks: seq<nat>, start: bool, cutIn: bool)
    ensures marks == [] ==>
      Rest(job, i, marks, start, cutIn)
      == Plan(Piece(job, i, Frames(job), start, cutIn), [], true, false, start && i >= Frames(job))
    ensures marks != [] && End(i, marks[0]) > Frames(job) ==>
      Rest(job, i, marks, start, cutIn)
      == Plan(Piece(job, i, Frames(job), start, cutIn), [], false, false, start && i >= Frames(job))
    ensures marks != [] && End(i, marks[0]) <= Frames(job) ==>
      var next := Next(job, End(i, marks[0]), marks);
      Rest(job, i, marks, start, cutIn) == next.(main := Piece(job, i, End(i, marks[0]), start, cutIn) + next.main)
  {
    hide Piece, Tail, NextIndependent;
  }

  /** Writing one frame of a segment leaves the plan behind it. */
  lemma {:induction false} RestStep(job: Job, i: nat, marks: seq<nat>, start: bool, cutIn: bool)
    requires i < Frames(job)
    ensures var r, b := Rest(job, i, marks, start, cutIn), Behind(job, i + 1, marks, cutIn && !Independent(job, i));
      r == b.(main := [Shot(i, start, cutIn && Independent(job, i))] + b.main)
  {
    hide NextIndependent, Piece, Rest, Next, Independent, Tail;
    var n, head, c := Frames(job), Shot(i, start, cutIn && Independent(job, i)), cutIn && !Independent(job, i);
    var end := if marks == [] then n else End(i, marks[0]);
    PieceStep(job, i, Min(end, n), start, cutIn);
    RestIs(job, i, marks, start, cutIn);
    RestIs(job, i + 1, marks, false, c);
    if marks != [] && end <= n {
      var p, next := Piece(job, i + 1, end, false, c), Next(job, end, marks);
      assert [head] + p + next.main == [head] + (p + next.main);
      assert end == i + 1 ==> p == [];
      if end == i + 1 {
        BehindIs(job, end, marks, c);
        assert p + next.main == next.main;
      }
    }
  }

  lemma {:induction false} BehindIs(job: Job, i: nat, marks: seq<nat>, cutIn: bool)
    requires marks != [] && i >= marks[0]
    ensures Behind(job, i, marks, cutIn) == Next(job, i, marks)
  {
    hide Tail, Rest;
  }

  /** Likewise behind the last cut-out. */
  lemma {:induction false} TailStep(job: Job, i: nat)
    requires i < Frames(job) && !Independent(job, i)
    ensures Tail(job, i) == Tail(job, i + 1).(tail := [Shot(i, false, false)] + Tail(job, i + 1).tail)
  {
    var t := NextIndependent(job, i);
    assert t == NextIndependent(job, i + 1);
    PieceStep(job, i, t, false, false);
  }

  // ---------------------------------------------------------------------------
  // Files, index and marks
  // ---------------------------------------------------------------------------

  predicate Fits(job: Job, log: seq<Shot>) {
    forall j :: 0 <= j < |log| ==> log[j].frame < Frames(job)
  }

  function Data(job: Job, s: Shot): (d: seq<byte>)
    requires s.frame < Frames(job) && WellFormed(job)
    ensures |d| == |Bytes(job, s.frame)|
  {
    if s.broken then job.broken(Bytes(job, s.frame)) else Bytes(job, s.frame)
  }

  /** Whether a new file starts with a frame, for the size of the file so far. */
  predicate Breaks(job: Job, s: Shot, size: nat)
    requires s.frame < Frames(job)
  {
    (job.split && s.first) || (Independent(job, s.frame) && size > job.maxSize)
  }

  /** The files with some more bytes, in the last file or in one that starts with them. */
  function Appended(f: seq<seq<byte>>, next: bool, d: seq<byte>): (g: seq<seq<byte>>)
    requires f != []
    ensures |g| == if next then |f| + 1 else |f|
  {
    if next then f + [d] else f[|f| - 1 := f[|f| - 1] + d]
  }

  /** Whether the last of some frames starts a file, when the others are in the files `f`. */
  predicate StartsFile(job: Job, log: seq<Shot>, f: seq<seq<byte>>)
    requires Fits(job, log) && log != [] && f != []
  {
    |log| > 1 && Breaks(job, log[|log| - 1], |f[|f| - 1]|)
  }

  /** The files after writing some frames. */
  function Filed(job: Job, log: seq<Shot>): (f: seq<seq<byte>>)
    requires WellFormed(job) && Fits(job, log)
    ensures f != []
    decreases |log|
  {
    if log == [] then [[]]
    else
      var f := Filed(job, log[..|log| - 1]);
      Appended(f, StartsFile(job, log, f), Data(job, log[|log| - 1]))
  }

  /** The index after writing them. */
  function Indexed(job: Job, log: seq<Shot>): (x: seq<Entry>)
    requires WellFormed(job) && Fits(job, log)
    ensures |x| == |log|
    decreases |log|
  {
    if log == [] then []
    else Indexed(job, log[..|log| - 1]) + [NextEntry(job, log)]
  }

  function NextEntry(job: Job, log: seq<Shot>): Entry
    requires WellFormed(job) && Fits(job, log) && log != []
  {
    var f := Filed(job, log[..|log| - 1]);
    var next := StartsFile(job, log, f);
    Entry(Independent(job, log[|log| - 1].frame), if next then |f| + 1 else |f|, if next then 0 else |f[|f| - 1]|)
  }

  /** `LastIFrame`: the last independent frame written; zero stands for none. */
  function LastIFrame(job: Job, log: seq<Shot>): nat
    requires Fits(job, log)
    decreases |log|
  {
    if log == [] then 0
    else
      var s, before := log[|log| - 1], log[..|log| - 1];
      if Independent(job, s.frame) || LastIFrame(job, before) == 0 then |before| else LastIFrame(job, before)
  }

  /** The marks set when segments end, other than the last. */
  function Marked(job: Job, log: seq<Shot>): set<nat>
    requires Fits(job, log)
    decreases |log|
  {
    if log == [] then {0}
    else
      var s, before := log[|log| - 1], log[..|log| - 1];
      Marked(job, before) + if s.first && before != [] then {LastIFrame(job, before), |before|} else {}
  }

  lemma {:induction false} PlanFits(job: Job, i: nat, marks: seq<nat>, start: bool, cutIn: bool)
    ensures var r := Rest(job, i, marks, start, cutIn);
      Fits(job, r.main) && Fits(job, r.tail)
    decreases |marks|
  {
    hide NextIndependent;
    RestIs(job, i, marks, start, cutIn);
    if |marks| > 1 {
      PlanFits(job, marks[1], marks[2..], true, true);
    }
    hide Rest;
  }

  // ---------------------------------------------------------------------------
  // What the plan is like
  // ---------------------------------------------------------------------------

  function Numbers(shots: seq<Shot>): (s: seq<nat>)
    ensures |s| == |shots|
  {
    seq(|shots|, j requires 0 <= j < |shots| => shots[j].frame)
  }

  function Range(a: nat, b: nat): (s: seq<nat>)
    ensures |s| == if a < b then b - a else 0
  {
    if a < b then seq(b - a, k requires 0 <= k < b - a => a + k) else []
  }

  /** The frames in the marked intervals; an open one ends with the recording. */
  function Covered(marks: seq<nat>, n: nat): seq<nat>
    decreases |marks|
  {
    if marks == [] then []
    else if |marks| == 1 then Range(marks[0], n)
    else Range(marks[0], marks[1]) + Covered(marks[2..], n)
  }

  /** Every cut-out is not in front of its cut-in. */
  predicate Paired(marks: seq<nat>)
    decreases |marks|
  {
    |marks| < 2 || (marks[0] <= marks[1] && Paired(marks[2..]))
  }

  predicate NoneEmpty(marks: seq<nat>)
    decreases |marks|
  {
    |marks| < 2 || (marks[0] < marks[1] && NoneEmpty(marks[2..]))
  }

  lemma {:induction false} PieceNumbers(job: Job, i: nat, end: nat, start: bool, cutIn: bool)
    ensures Numbers(Piece(job, i, end, start, cutIn)) == Range(i, end)
  {
    hide NextIndependent;
  }

  lemma {:induction false} NumbersJoined(a: seq<Shot>, b: seq<Shot>)
    ensures Numbers(a + b) == Numbers(a) + Numbers(b)
  {
  }

  /** The segments written are the marked intervals exactly if no interval is empty; an empty
      one still gets a frame. */
  lemma {:induction false} ExactlyMarkedIff(job: Job, marks: seq<nat>)
    requires marks != [] && Paired(marks) && Planned(job, marks).ok
    ensures Numbers(Planned(job, marks).main) == Covered(marks, Frames(job)) <==> NoneEmpty(marks)
    ensures |Planned(job, marks).main| >= |Covered(marks, Frames(job))|
    ensures |Planned(job, marks).main| == |Covered(marks, Frames(job))| ==> NoneEmpty(marks)
    decreases |marks|
  {
    hide Piece, Rest, Numbers, Range, NextIndependent;
    var n := Frames(job);
    RestIs(job, marks[0], marks[1..], true, true);
    if |marks| == 1 {
      PieceNumbers(job, marks[0], n, true, true);
    } else {
      var end := End(marks[0], marks[1]);
      var piece, next := Piece(job, marks[0], end, true, true), Next(job, end, marks[1..]);
      PieceNumbers(job, marks[0], end, true, true);
      NumbersJoined(piece, next.main);
      if |marks| > 2 {
        assert marks[1..][1..] == marks[2..] && marks[1..][2..] == marks[2..][1..];
        ExactlyMarkedIff(job, marks[2..]);
      } else {
        NoNumbers();
      }
    }
  }

  lemma {:induction false} NoNumbers()
    ensures Numbers([]) == []
  {
  }

  /** Whether the index suffices: every interval, with the one frame that an empty one gets,
      must be in the recording, and behind the last one there must be an independent frame. */
  ghost predicate Reaches(job: Job, marks: seq<nat>)
    decreases |marks|
  {
    if |marks| < 2 then true
    else if |marks| == 2 then exists k :: End(marks[0], marks[1]) <= k < Frames(job) && Independent(job, k)
    else End(marks[0], marks[1]) <= Frames(job) && Reaches(job, marks[2..])
  }

  lemma {:induction false} OkIff(job: Job, marks: seq<nat>)
    requires marks != []
    ensures Planned(job, marks).ok <==> Reaches(job, marks)
    decreases |marks|
  {
    hide Piece, Rest, NextIndependent;
    RestIs(job, marks[0], marks[1..], true, true);
    if |marks| == 2 {
      var t := NextIndependent(job, End(marks[0], marks[1]));
    } else if |marks| > 2 {
      assert marks[1..][1..] == marks[2..] && marks[1..][2..] == marks[2..][1..];
      OkIff(job, marks[2..]);
    }
  }

  /** Behind the last interval follow the frames in front of the next independent one. */
  lemma {:induction false} TailIs(job: Job, marks: seq<nat>)
    requires marks != [] && |marks| % 2 == 0 && Planned(job, marks).ok
    ensures var p, last := Planned(job, marks), End(marks[|marks| - 2], marks[|marks| - 1]);
      && p.closed && last + |p.tail| < Frames(job)
      && Numbers(p.tail) == Range(last, last + |p.tail|)
      && Independent(job, last + |p.tail|)
      && forall k :: last <= k < last + |p.tail| ==> !Independent(job, k)
    decreases |marks|
  {
    hide Piece, Rest, NextIndependent, Numbers, Range;
    RestIs(job, marks[0], marks[1..], true, true);
    if |marks| == 2 {
      var end := End(marks[0], marks[1]);
      PieceNumbers(job, end, NextIndependent(job, end), false, false);
    } else {
      assert marks[1..][1..] == marks[2..] && marks[1..][2..] == marks[2..][1..];
      TailIs(job, marks[2..]);
    }
  }

  /** The cut-ins: every other mark. */
  function CutIns(marks: seq<nat>): seq<nat>
    decreases |marks|
  {
    if marks == [] then [] else if |marks| == 1 then marks else [marks[0]] + CutIns(marks[2..])
  }

  predicate CutInsIndependent(job: Job, marks: seq<nat>) {
    forall m :: m in CutIns(marks) && m < Frames(job) ==> Independent(job, m)
  }

  function Firsts(shots: seq<Shot>): seq<nat> {
    if shots == [] then [] else (if shots[0].first then [shots[0].frame] else []) + Firsts(shots[1..])
  }

  lemma {:induction false} FirstsJoined(a: seq<Shot>, b: seq<Shot>)
    ensures Firsts(a + b) == Firsts(a) + Firsts(b)
    decreases |a|
  {
    if a == [] {
      assert a + b == b;
    } else {
      assert (a + b)[0] == a[0] && (a + b)[1..] == a[1..] + b;
      FirstsJoined(a[1..], b);
      var head := if a[0].first then [a[0].frame] else [];
      assert head + (Firsts(a[1..]) + Firsts(b)) == head + Firsts(a[1..]) + Firsts(b);
    }
  }

  lemma {:induction false} PieceFirsts(job: Job, i: nat, end: nat, start: bool, cutIn: bool)
    requires i < end <= Frames(job)
    ensures Firsts(Piece(job, i, end, start, cutIn)) == if start then [i] else []
    decreases end - i
  {
    PieceStep(job, i, end, start, cutIn);
    var p := Piece(job, i, end, start, cutIn);
    if i + 1 < end {
      PieceFirsts(job, i + 1, end, false, cutIn && !Independent(job, i));
    }
    hide NextIndependent, Piece;
    assert p[1..] == Piece(job, i + 1, end, false, cutIn && !Independent(job, i));
  }

  /** The segments start with the cut-ins, in order, and the tail starts none. */
  lemma {:induction false} SegmentsStartAtCutIns(job: Job, marks: seq<nat>)
    requires marks != [] && Planned(job, marks).ok
    requires |marks| % 2 == 1 ==> marks[|marks| - 1] < Frames(job)
    ensures Firsts(Planned(job, marks).main) == CutIns(marks)
    decreases |marks|
  {
    hide Piece, Rest, Firsts, NextIndependent;
    RestIs(job, marks[0], marks[1..], true, true);
    if |marks| == 1 {
      PieceFirsts(job, marks[0], Frames(job), true, true);
    } else {
      var end := End(marks[0], marks[1]);
      var piece, next := Piece(job, marks[0], end, true, true), Next(job, end, marks[1..]);
      PieceFirsts(job, marks[0], end, true, true);
      FirstsJoined(piece, next.main);
      if |marks| > 2 {
        assert marks[1..][1..] == marks[2..] && marks[1..][2..] == marks[2..][1..];
        SegmentsStartAtCutIns(job, marks[2..]);
      } else {
        NoFirsts();
        assert CutIns(marks[2..]) == [];
      }
    }
  }

  lemma {:induction false} NoFirsts()
    ensures Firsts([]) == []
  {
  }

  /** A frame is marked as broken, and starts a segment, only on an independent cut-in. */
  predicate BreaksMarked(job: Job, shots: seq<Shot>)
    requires Fits(job, shots)
  {
    forall j :: 0 <= j < |shots| ==>
      shots[j].broken == shots[j].first && (shots[j].first ==> Independent(job, shots[j].frame))
  }

  lemma {:induction false} PieceBreaks(job: Job, i: nat, end: nat)
    requires end <= Frames(job) && (i < Frames(job) ==> Independent(job, i))
    ensures Fits(job, Piece(job, i, end, true, true)) && BreaksMarked(job, Piece(job, i, end, true, true))
  {
    assert i < end ==> NextIndependent(job, i) == i;
    hide NextIndependent;
  }

  lemma {:induction false} BreaksJoined(job: Job, a: seq<Shot>, b: seq<Shot>)
    requires Fits(job, a) && Fits(job, b) && BreaksMarked(job, a) && BreaksMarked(job, b)
    ensures Fits(job, a + b) && BreaksMarked(job, a + b)
  {
  }

  predicate PlanMarked(job: Job, p: Plan) {
    && Fits(job, p.main) && BreaksMarked(job, p.main)
    && Fits(job, p.tail) && BreaksMarked(job, p.tail)
    && (p.main != [] ==> p.main[0].first)
  }

  lemma {:induction false} PlanBreaks(job: Job, marks: seq<nat>)
    requires marks != [] && CutInsIndependent(job, marks)
    ensures PlanMarked(job, Planned(job, marks))
    decreases |marks|
  {
    hide Rest, NextIndependent, Piece, BreaksMarked, Fits;
    RestIs(job, marks[0], marks[1..], true, true);
    assert marks[0] in CutIns(marks);
    PieceBreaks(job, marks[0], Frames(job));
    PieceStarts(job, marks[0], Frames(job));
    NothingMarked(job);
    if |marks| > 1 {
      var end := End(marks[0], marks[1]);
      if end <= Frames(job) {
        var next := Next(job, end, marks[1..]);
        PieceBreaks(job, marks[0], end);
        PieceStarts(job, marks[0], end);
        if |marks| > 2 {
          assert marks[1..][1..] == marks[2..] && marks[1..][2..] == marks[2..][1..];
          PlanBreaks(job, marks[2..]);
        } else {
          TailPlain(job, end);
        }
        BreaksJoined(job, Piece(job, marks[0], end, true, true), next.main);
      }
    }
  }

  lemma {:induction false} NothingMarked(job: Job)
    ensures Fits(job, []) && BreaksMarked(job, [])
  {
  }

  lemma {:induction false} TailPlain(job: Job, i: nat)
    requires i <= Frames(job)
    ensures PlanMarked(job, Tail(job, i))
  {
    hide NextIndependent;
  }

  lemma {:induction false} PieceStarts(job: Job, i: nat, end: nat)
    ensures var p := Piece(job, i, end, true, true); p != [] ==> p[0].first
  {
    hide NextIndependent;
  }

  /** With cut-ins on independent frames, exactly the first frame of each segment is marked. */
  lemma {:induction false} FirstOfEachMarked(job: Job, marks: seq<nat>)
    requires marks != [] && CutInsIndependent(job, marks)
    ensures var p := Planned(job, marks);
      && Fits(job, p.main + p.tail) && BreaksMarked(job, p.main + p.tail)
      && (p.main != [] ==> p.main[0].first)
  {
    hide Planned, BreaksMarked, Fits;
    PlanBreaks(job, marks);
    BreaksJoined(job, Planned(job, marks).main, Planned(job, marks).tail);
  }

  // ---------------------------------------------------------------------------
  // What files and index are like
  // ---------------------------------------------------------------------------

  /** The size of the current file is where its last frame ends. */
  lemma {:induction false} EndsThere(job: Job, log: seq<Shot>)
    requires WellFormed(job) && Fits(job, log) && log != []
    ensures var e, f := Indexed(job, log)[|log| - 1], Filed(job, log);
      e.number == |f| && e.offset + |Data(job, log[|log| - 1])| == |f[|f| - 1]|
  {
    hide WellFormed, Data, StartsFile;
    LastEntry(job, log);
  }

  lemma {:induction false} LastEntry(job: Job, log: seq<Shot>)
    requires WellFormed(job) && Fits(job, log) && log != []
    ensures Indexed(job, log)[|log| - 1] == NextEntry(job, log)
  {
    hide WellFormed, NextEntry;
  }

  lemma {:induction false} IndexedBefore(job: Job, log: seq<Shot>, j: nat)
    requires WellFormed(job) && Fits(job, log) && j < |log| - 1
    ensures Indexed(job, log)[j] == Indexed(job, log[..|log| - 1])[j]
  {
    hide WellFormed, NextEntry;
  }

  /** Where a piece of data is. */
  predicate At(f: seq<seq<byte>>, e: Entry, d: seq<byte>) {
    && 1 <= e.number <= |f| && e.offset + |d| <= |f[e.number - 1]|
    && f[e.number - 1][e.offset..e.offset + |d|] == d
  }

  lemma {:induction false} AtKept(f: seq<seq<byte>>, e: Entry, d: seq<byte>, next: bool, more: seq<byte>)
    requires f != [] && At(f, e, d)
    ensures At(Appended(f, next, more), e, d)
  {
  }

  /** Every index entry addresses exactly its frame's bytes. */
  lemma {:induction false} Addressed(job: Job, log: seq<Shot>, j: nat)
    requires WellFormed(job) && Fits(job, log) && j < |log|
    ensures Indexed(job, log)[j].independent == Independent(job, log[j].frame)
    ensures At(Filed(job, log), Indexed(job, log)[j], Data(job, log[j]))
    decreases |log|
  {
    hide WellFormed, Data, At, StartsFile;
    var before := log[..|log| - 1];
    var f := Filed(job, before);
    if j < |log| - 1 {
      Addressed(job, before, j);
      IndexedBefore(job, log, j);
      AtKept(f, Indexed(job, before)[j], Data(job, log[j]), StartsFile(job, log, f), Data(job, log[|log| - 1]));
    } else {
      LastEntry(job, log);
      AtEnd(f, StartsFile(job, log, f), NextEntry(job, log), Data(job, log[j]));
    }
  }

  lemma {:induction false} AtEnd(f: seq<seq<byte>>, next: bool, e: Entry, d: seq<byte>)
    requires f != [] && e.number == (if next then |f| + 1 else |f|) && e.offset == if next then 0 else |f[|f| - 1]|
    ensures At(Appended(f, next, d), e, d)
  {
  }

  function Flat(ss: seq<seq<byte>>): seq<byte>
    decreases |ss|
  {
    if ss == [] then [] else Flat(ss[..|ss| - 1]) + ss[|ss| - 1]
  }

  function AllData(job: Job, log: seq<Shot>): seq<byte>
    requires WellFormed(job) && Fits(job, log)
    decreases |log|
  {
    if log == [] then [] else AllData(job, log[..|log| - 1]) + Data(job, log[|log| - 1])
  }

  /** The files together hold the frames' bytes in order, and nothing else. */
  lemma {:induction false} NothingElse(job: Job, log: seq<Shot>)
    requires WellFormed(job) && Fits(job, log)
    ensures Flat(Filed(job, log)) == AllData(job, log)
    decreases |log|
  {
    hide WellFormed, Data, StartsFile;
    if log != [] {
      var before := log[..|log| - 1];
      NothingElse(job, before);
      FlatAppended(Filed(job, before), StartsFile(job, log, Filed(job, before)), Data(job, log[|log| - 1]));
    } else {
      var empty: seq<seq<byte>> := [[]];
      assert empty[..0] == [];
      assert Flat(empty) == [];
    }
  }

  lemma {:induction false} FlatAppended(f: seq<seq<byte>>, next: bool, d: seq<byte>)
    requires f != []
    ensures Flat(Appended(f, next, d)) == Flat(f) + d
  {
    var n := |f| - 1;
    if next {
      assert (f + [d])[..n + 1] == f;
    } else {
      assert f[n := f[n] + d][..n] == f[..n];
      assert Flat(f[..n]) + (f[n] + d) == Flat(f[..n]) + f[n] + d;
    }
  }

  /** A frame lies behind the one before it, or starts the next file exactly if the size limit
      or a cut-in asks for it. */
  lemma {:induction false} Laid(job: Job, log: seq<Shot>, j: nat)
    requires WellFormed(job) && Fits(job, log) && j < |log|
    ensures var x := Indexed(job, log);
      if j == 0 then x[0].number == 1 && x[0].offset == 0
      else
        var size := x[j - 1].offset + |Data(job, log[j - 1])|;
        if Breaks(job, log[j], size) then x[j].number == x[j - 1].number + 1 && x[j].offset == 0
        else x[j].number == x[j - 1].number && x[j].offset == size
    decreases |log|
  {
    hide WellFormed, Data, Breaks, Filed, Indexed;
    var before := log[..|log| - 1];
    if j < |log| - 1 {
      Laid(job, before, j);
      IndexedBefore(job, log, j);
      if j > 0 {
        IndexedBefore(job, log, j - 1);
      }
    } else {
      LastEntry(job, log);
      if j > 0 {
        EndsThere(job, before);
        IndexedBefore(job, log, j - 1);
      } else {
        NothingFiled(job, before);
      }
    }
  }

  lemma {:induction false} NothingFiled(job: Job, log: seq<Shot>)
    requires WellFormed(job) && log == []
    ensures Filed(job, log) == [[]]
  {
  }

  /** No independent frame is written behind the size limit. */
  lemma {:induction false} IndependentWithinLimit(job: Job, log: seq<Shot>, j: nat)
    requires WellFormed(job) && Fits(job, log) && j < |log| && Independent(job, log[j].frame)
    ensures Indexed(job, log)[j].offset <= job.maxSize
  {
    hide WellFormed, Data, Indexed;
    Laid(job, log, j);
  }

  predicate FirstsIndependent(job: Job, log: seq<Shot>)
    requires Fits(job, log)
  {
    && (log != [] ==> log[0].first)
    && forall j :: 0 <= j < |log| ==> (log[j].first ==> Independent(job, log[j].frame))
  }

  /** Every file starts with an independent frame if the segments do. */
  lemma {:induction false} FilesStartIndependent(job: Job, log: seq<Shot>, j: nat)
    requires WellFormed(job) && Fits(job, log) && j < |log| && FirstsIndependent(job, log)
    requires j > 0 ==> Indexed(job, log)[j].number != Indexed(job, log)[j - 1].number
    ensures Independent(job, log[j].frame) && Indexed(job, log)[j].offset == 0
  {
    hide WellFormed, Data, Indexed;
    Laid(job, log, j);
  }

  /** A plan without a segment has no tail. */
  lemma {:induction false} NothingBehindNothing(job: Job, marks: seq<nat>)
    requires marks != []
    ensures Planned(job, marks).main == [] ==> Planned(job, marks).tail == []
  {
    hide Rest, NextIndependent, Tail;
    RestIs(job, marks[0], marks[1..], true, true);
  }

  /** With cut-ins on independent frames every file of a whole run starts with an independent
      frame, and no independent frame is written behind the size limit. */
  lemma {:induction false} PlannedFilesStartIndependent(job: Job, marks: seq<nat>, j: nat)
    requires WellFormed(job) && marks != [] && CutInsIndependent(job, marks)
    ensures var log := Planned(job, marks).main + Planned(job, marks).tail;
      && Fits(job, log)
      && (j < |log| ==>
            var x := Indexed(job, log);
            && (j == 0 || x[j].number != x[j - 1].number ==> Independent(job, log[j].frame) && x[j].offset == 0)
            && (Independent(job, log[j].frame) ==> x[j].offset <= job.maxSize))
  {
    var p := Planned(job, marks);
    var log := p.main + p.tail;
    FirstOfEachMarked(job, marks);
    NothingBehindNothing(job, marks);
    assert FirstsIndependent(job, log);
    hide Planned, Indexed, BreaksMarked, FirstsIndependent, WellFormed;
    if j < |log| {
      if j == 0 || Indexed(job, log)[j].number != Indexed(job, log)[j - 1].number {
        FilesStartIndependent(job, log, j);
      }
      if Independent(job, log[j].frame) {
        IndependentWithinLimit(job, log, j);
      }
    }
  }

  // ---------------------------------------------------------------------------
  // What the new marks are like
  // ---------------------------------------------------------------------------

  /** Whether some frame but the very first is independent. */
  predicate SomeLater(job: Job, log: seq<Shot>)
    requires Fits(job, log)
  {
    exists j :: 0 < j < |log| && Independent(job, log[j].frame)
  }

  /** The last independent frame written, but for the very first one, which the variable
      cannot tell from none. */
  lemma {:induction false} LastIFrameIs(job: Job, log: seq<Shot>)
    requires Fits(job, log)
    ensures var r := LastIFrame(job, log);
      if SomeLater(job, log)
      then 0 < r < |log| && Independent(job, log[r].frame) && forall j :: r < j < |log| ==> !Independent(job, log[j].frame)
      else r == if |log| > 1 then 1 else 0
    decreases |log|
  {
    if log != [] {
      var n := |log| - 1;
      var before := log[..n];
      LastIFrameIs(job, before);
      if SomeLater(job, before) {
        var j :| 0 < j < |before| && Independent(job, before[j].frame);
        assert log[j] == before[j];
      }
      if SomeLater(job, log) {
        var j :| 0 < j < |log| && Independent(job, log[j].frame);
        if j < n {
          assert before[j] == log[j];
        }
      }
    }
  }

  lemma {:induction false} MarkedGrows(job: Job, log: seq<Shot>, j: nat)
    requires Fits(job, log) && j <= |log|
    ensures Marked(job, log[..j]) <= Marked(job, log)
    decreases |log| - j
  {
    if j < |log| {
      MarkedGrows(job, log, j + 1);
      assert log[..j + 1][..j] == log[..j];
    } else {
      assert log[..j] == log;
    }
  }

  /** Every segment's first frame has a mark. */
  lemma {:induction false} CutInMarked(job: Job, log: seq<Shot>, j: nat)
    requires Fits(job, log) && j < |log| && (log[j].first || j == 0)
    ensures j in Marked(job, log)
  {
    MarkedGrows(job, log, j + 1);
    var upTo := log[..j + 1];
    assert upTo[..j] == log[..j];
    if j == 0 {
      MarkedGrows(job, log, 0);
      assert log[..0] == [];
    }
  }

  /** A mark is a segment's first frame, or where the segment in front of one is cut out. */
  lemma {:induction false} MarkedOnly(job: Job, log: seq<Shot>, m: nat)
    requires Fits(job, log) && m in Marked(job, log)
    ensures m == 0 || (m < |log| && log[m].first)
         || exists j :: 0 < j < |log| && log[j].first && m == LastIFrame(job, log[..j])
    decreases |log|
  {
    if log != [] {
      var n := |log| - 1;
      var before := log[..n];
      if m in Marked(job, before) {
        MarkedOnly(job, before, m);
        if j :| 0 < j < |before| && before[j].first && m == LastIFrame(job, before[..j]) {
          assert before[..j] == log[..j];
          assert log[j].first;
        }
      } else if m == LastIFrame(job, before) {
        assert log[n].first;
      }
    }
  }
}
