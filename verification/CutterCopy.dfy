/** What a cut is made of, byte by byte: which bytes of the recording are at each place of the
    new files, and which frames the marks select. */
module CutterCopy {
  import opened Common
  import opened CutterPlan

  /** The bytes of a frame that are read: up to the next frame in the same file or the end of
      the file, no more than the file holds, and no more than the buffer does. */
  function Taken(job: Job, i: nat): nat
    requires i < Frames(job) && WellFormed(job)
  {
    var e, next := job.index[i], job.index[i + 1];
    if e.number !in job.files || e.offset >= |job.files[e.number]| then 0
    else
      var left := |job.files[e.number]| - e.offset;
      var wanted := if next.number == e.number then next.offset - e.offset else left;
      if job.frameSize <= wanted && job.frameSize <= left then job.frameSize else if wanted <= left then wanted else left
  }

  /** The bytes of the recording from where the index says frame `i` starts. */
  predicate FromSource(job: Job, i: nat, d: seq<byte>)
    requires i < Frames(job)
  {
    var e := job.index[i];
    d != [] ==>
      && e.number in job.files && e.offset + |d| <= |job.files[e.number]|
      && forall k :: 0 <= k < |d| ==> d[k] == job.files[e.number][e.offset + k]
  }

  /** Reading a frame gives its bytes. */
  lemma FrameBytes(job: Job, i: nat)
    requires i < Frames(job) && WellFormed(job)
    ensures |Bytes(job, i)| == Taken(job, i) && FromSource(job, i, Bytes(job, i))
  {
  }

  /** A frame that its file holds as the index says is read whole, up to the size of the buffer. */
  lemma WholeFrame(job: Job, i: nat)
    requires i < Frames(job) && WellFormed(job)
    requires var e, next := job.index[i], job.index[i + 1];
      e.number in job.files && next.number == e.number && next.offset <= |job.files[e.number]|
    ensures var e, size := job.index[i], job.index[i + 1].offset - job.index[i].offset;
      Bytes(job, i) == job.files[e.number][e.offset..e.offset + if size > job.frameSize then job.frameSize else size]
  {
  }

  /** What is at an entry of the new index: the frame's flag, and its bytes in the recording,
      as they are there or as a broken frame. */
  ghost predicate Copied(job: Job, files: seq<seq<byte>>, e: Entry, i: nat, broken: bool)
    requires i < Frames(job) && WellFormed(job)
  {
    var n := Taken(job, i);
    && e.independent == job.index[i].independent
    && 1 <= e.number <= |files| && e.offset + n <= |files[e.number - 1]|
    && var d := files[e.number - 1][e.offset..e.offset + n];
       if broken then exists source :: |source| == n && FromSource(job, i, source) && d == job.broken(source)
       else FromSource(job, i, d)
  }

  /** Every frame written is found where the new index says. */
  lemma FrameCopied(job: Job, log: seq<Shot>, j: nat)
    requires WellFormed(job) && Fits(job, log) && j < |log|
    ensures Copied(job, Filed(job, log), Indexed(job, log)[j], log[j].frame, log[j].broken)
  {
    hide Filed, Indexed, Bytes, Taken, FromSource, WellFormed, At, Copied, Independent, Data;
    Addressed(job, log, j);
    var s := log[j];
    FrameBytes(job, s.frame);
    DataIs(job, s);
    PlaceCopied(job, Filed(job, log), Indexed(job, log)[j], s.frame, s.broken, Bytes(job, s.frame), Data(job, s));
  }

  lemma DataIs(job: Job, s: Shot)
    requires s.frame < Frames(job) && WellFormed(job)
    ensures Data(job, s) == if s.broken then job.broken(Bytes(job, s.frame)) else Bytes(job, s.frame)
    ensures |Data(job, s)| == |Bytes(job, s.frame)|
  {
    hide Bytes;
  }

  lemma PlaceCopied(job: Job, files: seq<seq<byte>>, e: Entry, i: nat, broken: bool, source: seq<byte>, d: seq<byte>)
    requires i < Frames(job) && WellFormed(job) && e.independent == Independent(job, i) && At(files, e, d)
    requires |source| == Taken(job, i) && FromSource(job, i, source) && |d| == |source|
    requires d == if broken then job.broken(source) else source
    ensures Copied(job, files, e, i, broken)
  {
    hide Taken, FromSource, WellFormed;
  }

  lemma CopiedStays(job: Job, files: seq<seq<byte>>, more: seq<seq<byte>>, e: Entry, i: nat, broken: bool)
    requires i < Frames(job) && WellFormed(job) && Copied(job, files, e, i, broken)
    ensures Copied(job, files + more, e, i, broken)
  {
    hide Taken, FromSource, WellFormed;
  }

  /** The frames lie one behind the other, with a new file in front of an independent frame
      once the file is too large, and in front of each segment if that is wanted. */
  lemma LaidOut(job: Job, log: seq<Shot>, j: nat)
    requires WellFormed(job) && Fits(job, log) && j < |log|
    ensures var x := Indexed(job, log);
      if j == 0 then x[0].number == 1 && x[0].offset == 0
      else
        var size := x[j - 1].offset + Taken(job, log[j - 1].frame);
        if (job.index[log[j].frame].independent && size > job.maxSize) || (log[j].first && job.split)
        then x[j].number == x[j - 1].number + 1 && x[j].offset == 0
        else x[j].number == x[j - 1].number && x[j].offset == size
  {
    hide Filed, Indexed, Bytes, Taken, FromSource, WellFormed, Data, Breaks;
    Laid(job, log, j);
    SizesAre(job, log);
    BreaksIs(job, log[j]);
  }

  lemma SizesAre(job: Job, log: seq<Shot>)
    requires WellFormed(job) && Fits(job, log)
    ensures forall j :: 0 <= j < |log| ==> |Data(job, log[j])| == Taken(job, log[j].frame)
  {
    hide Bytes, Taken, Data;
    forall j | 0 <= j < |log|
      ensures |Data(job, log[j])| == Taken(job, log[j].frame)
    {
      FrameBytes(job, log[j].frame);
      DataIs(job, log[j]);
    }
  }

  lemma BreaksIs(job: Job, s: Shot)
    requires s.frame < Frames(job)
    ensures forall size: nat :: Breaks(job, s, size) <==> (job.index[s.frame].independent && size > job.maxSize) || (s.first && job.split)
  {
  }

  /** A whole list of frames, in its files. */
  ghost predicate AllCopied(job: Job, files: seq<seq<byte>>, x: seq<Entry>, log: seq<Shot>)
    requires WellFormed(job) && Fits(job, log)
  {
    |x| == |log| && forall j :: 0 <= j < |log| ==> Copied(job, files, x[j], log[j].frame, log[j].broken)
  }

  lemma RunCopied(job: Job, log: seq<Shot>, more: seq<seq<byte>>)
    requires WellFormed(job) && Fits(job, log)
    ensures AllCopied(job, Filed(job, log) + more, Indexed(job, log), log)
  {
    hide Filed, Indexed, Copied;
    forall j | 0 <= j < |log|
      ensures Copied(job, Filed(job, log) + more, Indexed(job, log)[j], log[j].frame, log[j].broken)
    {
      FrameCopied(job, log, j);
      CopiedStays(job, Filed(job, log), more, Indexed(job, log)[j], log[j].frame, log[j].broken);
    }
  }

  /** Whether a frame is in a marked interval, the last of which may be open. */
  predicate Selected(marks: seq<nat>, n: nat, f: nat) {
    exists k: nat {:trigger marks[k]} :: k < |marks| && k % 2 == 0 && marks[k] <= f && f < if k + 1 < |marks| then marks[k + 1] else n
  }

  lemma {:induction false} CoveredIs(marks: seq<nat>, n: nat, f: nat)
    ensures f in Covered(marks, n) <==> Selected(marks, n, f)
    decreases |marks|
  {
    if |marks| >= 2 {
      var rest := marks[2..];
      CoveredIs(rest, n, f);
      RangeIs(marks[0], marks[1], f);
      if Selected(rest, n, f) {
        var k: nat :| k < |rest| && k % 2 == 0 && rest[k] <= f && f < if k + 1 < |rest| then rest[k + 1] else n;
        assert marks[k + 2] == rest[k];
      }
      if Selected(marks, n, f) {
        var k: nat :| k < |marks| && k % 2 == 0 && marks[k] <= f && f < if k + 1 < |marks| then marks[k + 1] else n;
        if k >= 2 {
          assert rest[k - 2] == marks[k];
        } else {
          assert marks[0] <= f < marks[1];
        }
      }
    } else if |marks| == 1 {
      RangeIs(marks[0], n, f);
    }
  }

  lemma RangeIs(a: nat, b: nat, f: nat)
    ensures f in Range(a, b) <==> a <= f < b
  {
    if a <= f < b {
      assert Range(a, b)[f - a] == f;
    }
  }

  /** Without empty intervals a frame is in a segment exactly if a marked interval holds it. */
  lemma MarkedFramesWritten(job: Job, marks: seq<nat>, f: nat)
    requires marks != [] && Paired(marks) && NoneEmpty(marks) && Planned(job, marks).ok
    ensures (exists j :: 0 <= j < |Planned(job, marks).main| && Planned(job, marks).main[j].frame == f)
       <==> Selected(marks, Frames(job), f)
  {
    ExactlyMarkedIff(job, marks);
    CoveredIs(marks, Frames(job), f);
    hide Planned, Covered, Selected;
    var main := Planned(job, marks).main;
    if j :| 0 <= j < |main| && main[j].frame == f {
      assert Numbers(main)[j] == f;
    }
    if f in Numbers(main) {
      var j :| 0 <= j < |main| && Numbers(main)[j] == f;
      assert main[j].frame == f;
    }
  }
}
