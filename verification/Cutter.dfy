/** The cutting thread: a loop that reads frames, writes files and an index, and follows the
    editing marks. */
module Cutter {
  import opened Common
  import opened CutterPlan
  import opened CutterCopy

  datatype Error = NoError | ReadFrame | FromFile | Index | ToFile | SafeWrite | ToIndex

  /** Which reads, writes, index entries and new files the system lets through. */
  datatype System = System(readable: nat -> bool, writable: nat -> bool, indexable: nat -> bool, openable: nat -> bool)

  ghost predicate Faultless(system: System) {
    forall i :: system.readable(i) && system.writable(i) && system.indexable(i) && system.openable(i)
  }

  ghost predicate FilesExist(job: Job) {
    forall i :: 0 <= i < |job.index| ==> job.index[i].number in job.files
  }

  lemma {:induction false} FitsMore(job: Job, log: seq<Shot>, s: Shot)
    requires Fits(job, log) && s.frame < Frames(job)
    ensures Fits(job, log + [s])
  {
  }

  /** A frame goes into a file that was opened for its segment, into one opened for its size,
      or into the current one. */
  lemma {:induction false} WrittenIsFiled(job: Job, log: seq<Shot>, s: Shot, begun: bool)
    requires WellFormed(job) && Fits(job, log) && s.frame < Frames(job)
    requires begun ==> job.split && s.first && log != []
    ensures Fits(job, log + [s])
    ensures var f, all := Filed(job, log), log + [s];
      var next := StartsFile(job, all, f);
      && (begun ==> next)
      && Filed(job, all) == Appended(if begun || next then f + [[]] else f, false, Data(job, s))
      && Indexed(job, all)
         == Indexed(job, log) + [if next then Entry(Independent(job, s.frame), |f| + 1, 0)
                                 else Entry(Independent(job, s.frame), |f|, |f[|f| - 1]|)]
  {
    FitsMore(job, log, s);
    var all, f := log + [s], Filed(job, log);
    assert all[..|all| - 1] == log && all[|all| - 1] == s;
    FiledLast(job, all);
    IndexedLast(job, all);
    assert begun ==> StartsFile(job, all, f);
    hide WellFormed, Data, Independent, StartsFile, Filed, Indexed, Appended;
    if begun || StartsFile(job, all, f) {
      AppendedToEmpty(f, Data(job, s));
    }
  }

  lemma {:induction false} FiledLast(job: Job, log: seq<Shot>)
    requires WellFormed(job) && Fits(job, log) && log != []
    ensures var f := Filed(job, log[..|log| - 1]);
      Filed(job, log) == Appended(f, StartsFile(job, log, f), Data(job, log[|log| - 1]))
  {
    hide WellFormed, Data, Independent, StartsFile, Appended;
  }

  lemma {:induction false} IndexedLast(job: Job, log: seq<Shot>)
    requires WellFormed(job) && Fits(job, log) && log != []
    ensures Indexed(job, log) == Indexed(job, log[..|log| - 1]) + [NextEntry(job, log)]
  {
    hide WellFormed, NextEntry;
  }

  lemma {:induction false} AppendedToEmpty(f: seq<seq<byte>>, d: seq<byte>)
    requires f != []
    ensures Appended(f, true, d) == Appended(f + [[]], false, d)
  {
    var g := f + [[]];
    assert g[|f|] + d == d;
    assert g[|f| := d] == f + [d];
  }

  /** What a frame does to the variable and to the marks. */
  lemma {:induction false} WrittenIsMarked(job: Job, log: seq<Shot>, s: Shot)
    requires Fits(job, log) && s.frame < Frames(job)
    ensures Fits(job, log + [s])
    ensures var last := LastIFrame(job, log);
      && LastIFrame(job, log + [s]) == (if Independent(job, s.frame) || last == 0 then |log| else last)
      && Marked(job, log + [s]) == Marked(job, log) + if s.first && log != [] then {last, |log|} else {}
  {
    FitsMore(job, log, s);
    assert (log + [s])[..|log|] == log;
  }

  // ---------------------------------------------------------------------------
  // Steps of the loop
  // ---------------------------------------------------------------------------

  /** The index has no frame `i`. */
  lemma {:induction false} NothingLeft(job: Job, i: nat, marks: seq<nat>, start: bool, cutIn: bool)
    requires i >= Frames(job)
    ensures Rest(job, i, marks, start, cutIn) == Plan([], [], marks == [], false, start)
    ensures Tail(job, i) == Plan([], [], false, true, false)
  {
    RestIs(job, i, marks, start, cutIn);
    assert NextIndependent(job, i) == i;
    hide Rest, NextIndependent;
  }

  lemma {:induction false} TailEnds(job: Job, i: nat)
    requires i < Frames(job) && Independent(job, i)
    ensures Tail(job, i) == Plan([], [], true, true, false)
  {
    assert NextIndependent(job, i) == i;
  }

  /** A frame of a segment was written. */
  lemma {:induction false} SegmentStep(job: Job, plan: Plan, log: seq<Shot>, i: nat, marks: seq<nat>, start: bool, cutIn: bool)
    requires i < Frames(job)
    requires var rest := Rest(job, i, marks, start, cutIn); plan == rest.(main := log + rest.main)
    ensures var s, rest := Shot(i, start, cutIn && Independent(job, i)), Behind(job, i + 1, marks, cutIn && !Independent(job, i));
      plan == rest.(main := (log + [s]) + rest.main)
  {
    hide Rest, Behind;
    RestStep(job, i, marks, start, cutIn);
    var s, rest := Shot(i, start, cutIn && Independent(job, i)), Behind(job, i + 1, marks, cutIn && !Independent(job, i));
    assert log + ([s] + rest.main) == (log + [s]) + rest.main;
  }

  /** A frame behind the last cut-out was written. */
  lemma {:induction false} TailGrows(job: Job, log: seq<Shot>, m: nat, i: nat)
    requires i < Frames(job) && !Independent(job, i) && m <= |log|
    ensures var more := log + [Shot(i, false, false)];
      && more[..m] == log[..m] && more[m..] + Tail(job, i + 1).tail == log[m..] + Tail(job, i).tail
      && Tail(job, i + 1).ok == Tail(job, i).ok
  {
    hide Tail;
    TailStep(job, i);
    var s, rest := Shot(i, false, false), Tail(job, i + 1).tail;
    assert (log + [s])[m..] == log[m..] + [s];
    assert log[m..] + ([s] + rest) == (log[m..] + [s]) + rest;
  }

  class Cutter {
    const job: Job
    const system: System
    const fileLimit: nat
    var fromNumber: nat
    var fromPos: nat
    var toFiles: seq<seq<byte>>
    var toIndex: seq<Entry>
    var toMarks: set<nat>
    var error: Error
    ghost var log: seq<Shot>

    /** The recording is open at its first file; nothing is written, and there are no marks. */
    constructor (job: Job, system: System, fileLimit: nat)
      ensures this.job == job && this.system == system && this.fileLimit == fileLimit
      ensures fromNumber == 1 && fromPos == 0 && toFiles == [[]] && toIndex == [] && toMarks == {}
      ensures error == NoError && log == []
    {
      this.job, this.system, this.fileLimit := job, system, fileLimit;
      fromNumber, fromPos, toFiles, toIndex, toMarks, error, log := 1, 0, [[]], [], {}, NoError, [];
    }

    /** `current` is the file whose position is known, and zero if the next read must seek. */
    ghost predicate Positioned(i: nat, current: nat)
      reads this`fromNumber, this`fromPos
    {
      current != 0 ==>
        && fromNumber == current && current in job.files
        && (i < Frames(job) && job.index[i].number == current ==> fromPos == job.index[i].offset)
    }

    /** Reads a frame, seeking only if its file is not the one at hand. */
    method Fetch(i: nat, current: nat) returns (data: seq<byte>, now: nat, ok: bool)
      requires WellFormed(job) && i < Frames(job) && Positioned(i, current)
      modifies this`fromNumber, this`fromPos, this`error
      ensures ok ==> data == Bytes(job, i) && Positioned(i + 1, now) && error == old(error)
      ensures ok ==> |data| == Taken(job, i) && FromSource(job, i, data)
      ensures !ok ==> (error == FromFile && job.index[i].number !in job.files) || (error == ReadFrame && !system.readable(i))
    {
      FrameBytes(job, i);
      hide Taken, FromSource;
      var e, length := job.index[i], Length(job, i);
      data, now, ok := [], current, false;
      if e.number != current {
        now := e.number;
        if e.number !in job.files {
          error := FromFile;
          return;
        }
        fromNumber, fromPos := e.number, e.offset;
      }
      if !system.readable(i) {
        error := ReadFrame;
        return;
      }
      data := ReadAt(job.files[fromNumber], fromPos, if length == -1 || length > job.frameSize then job.frameSize else length);
      fromPos := fromPos + |data|;
      ok := true;
      if |data| != length {
        now := 0;
      }
    }

    method NextFile() returns (ok: bool)
      modifies this`toFiles, this`error
      ensures ok ==> toFiles == old(toFiles) + [[]] && error == old(error)
      ensures !ok ==> error == ToFile && toFiles == old(toFiles)
      ensures !ok ==> |toFiles| >= fileLimit || !system.openable(|toFiles| + 1)
    {
      ok := |toFiles| < fileLimit && system.openable(|toFiles| + 1);
      if ok {
        toFiles := toFiles + [[]];
      } else {
        error := ToFile;
      }
    }

    /** Files, index and marks agree with the frames written; `begun` says that an empty file
        is open for the next segment. */
    ghost predicate Written(begun: bool, size: nat, last: nat)
      reads this
    {
      && WellFormed(job) && Fits(job, log)
      && toFiles == (if begun then Filed(job, log) + [[]] else Filed(job, log))
      && toIndex == Indexed(job, log)
      && size == |toFiles[|toFiles| - 1]|
      && last == LastIFrame(job, log)
    }

    /** Puts the bytes into the current file and an entry into the index. */
    method Put(data: seq<byte>, independent: bool, size: nat, ghost s: Shot) returns (ok: bool)
      requires toFiles != []
      modifies this`toFiles, this`toIndex, this`error, this`log
      ensures ok ==>
        && toFiles == Appended(old(toFiles), false, data)
        && toIndex == old(toIndex) + [Entry(independent, |toFiles|, size)]
        && log == old(log) + [s] && error == old(error)
      ensures !ok ==> toIndex == old(toIndex) && log == old(log)
      ensures !ok ==> (error == SafeWrite && !system.writable(|toIndex|)) || (error == ToIndex && !system.indexable(|toIndex|))
    {
      ok := false;
      if !system.writable(|toIndex|) {
        error := SafeWrite;
        return;
      }
      toFiles := toFiles[|toFiles| - 1 := toFiles[|toFiles| - 1] + data];
      if !system.indexable(|toIndex|) {
        error := ToIndex;
        return;
      }
      toIndex := toIndex + [Entry(independent, |toFiles|, size)];
      log := log + [s];
      ok := true;
    }

    /** In front of an independent frame a file that is too large is ended. */
    method EndLargeFile(independent: bool, size: nat) returns (newSize: nat, ok: bool)
      modifies this`toFiles, this`error
      ensures ok ==> error == old(error)
      ensures ok ==>
        if independent && size > job.maxSize then toFiles == old(toFiles) + [[]] && newSize == 0
        else toFiles == old(toFiles) && newSize == size
      ensures !ok ==> error == ToFile && (|toFiles| >= fileLimit || !system.openable(|toFiles| + 1))
    {
      newSize, ok := size, true;
      if independent && size > job.maxSize {
        ok := NextFile();
        newSize := 0;
      }
    }

    /** Writes a frame; the first independent one behind a cut is marked. */
    method Write(frame: seq<byte>, independent: bool, size: nat, last: nat, cutIn: bool, ghost s: Shot, ghost begun: bool)
      returns (newSize: nat, newLast: nat, newCutIn: bool, ok: bool)
      requires s.frame < Frames(job) && WellFormed(job) && independent == Independent(job, s.frame)
      requires frame == Bytes(job, s.frame) && s.broken == (cutIn && independent)
      requires Written(begun, size, last) && (begun <==> job.split && s.first && log != [])
      modifies this`toFiles, this`toIndex, this`error, this`log
      ensures ok ==> Written(false, newSize, newLast) && log == old(log) + [s] && error == old(error)
      ensures ok ==> newCutIn == (cutIn && !independent)
      ensures !ok ==> log == old(log) && toIndex == old(toIndex)
      ensures !ok ==> error in {ToFile, SafeWrite, ToIndex}
      ensures !ok ==> Faultless(system) ==> error == ToFile && |toFiles| >= fileLimit
    {
      hide Filed, Indexed, LastIFrame, WellFormed, Bytes, Independent, Fits, Marked;
      WrittenIsFiled(job, log, s, begun);
      WrittenIsMarked(job, log, s);
      if log == [] {
        NothingFiled(job, log);
      }
      newLast, newCutIn := last, cutIn;
      newSize, ok := EndLargeFile(independent, size);
      if !ok {
        return;
      }
      var data := frame;
      if independent {
        newLast := 0;
        if newCutIn {
          data := job.broken(data);
          newCutIn := false;
        }
      }
      ok := Put(data, independent, newSize, s);
      newSize := newSize + |data|;
      if newLast == 0 && ok {
        newLast := |toIndex| - 1;
      }
    }

    /** The frames written and what is left make up the plan. */
    ghost predicate Ahead(plan: Plan, i: nat, marks: seq<nat>, start: bool, cutIn: bool, lastMark: bool)
      reads this
    {
      if lastMark then
        var rest := Tail(job, i);
        && marks == [] && !start && |plan.main| <= |log| && log[..|plan.main|] == plan.main
        && plan == Plan(plan.main, log[|plan.main|..] + rest.tail, rest.ok, true, false)
      else
        var rest := Rest(job, i, marks, start, cutIn);
        plan == rest.(main := log + rest.main)
    }

    /** The new marks so far. */
    ghost predicate Noted(plan: Plan, start: bool, lastMark: bool)
      requires Fits(job, log) && Fits(job, plan.main)
      reads this
    {
      toMarks ==
      if lastMark then Marked(job, plan.main) + {LastIFrame(job, plan.main)}
      else Marked(job, log) + if start && log != [] then {LastIFrame(job, log), |log|} else {}
    }

    /** What a run leaves: everything planned if there is no error, a part of it otherwise, and
        always an index of what was written. */
    ghost predicate Outcome(plan: Plan)
      reads this
    {
      && WellFormed(job) && Fits(job, log) && Fits(job, plan.main)
      && log <= plan.main + plan.tail
      && toIndex == Indexed(job, log)
      && (error == NoError ==>
            && plan.ok && log == plan.main + plan.tail
            && toFiles == Filed(job, log) + (if plan.dangling && job.split && log != [] then [[]] else [])
            && toMarks == Marked(job, plan.main)
                 + (if plan.closed then {LastIFrame(job, plan.main)} else {})
                 + (if plan.dangling && log != [] then {LastIFrame(job, log), |log|} else {}))
      && (error == Index ==> !plan.ok && log == plan.main + plan.tail)
      && (Faultless(system) && FilesExist(job) ==>
            error == NoError || error == Index || (error == ToFile && |toFiles| >= fileLimit))
    }

    /** Where the loop is. */
    ghost predicate Looping(plan: Plan, i: nat, marks: seq<nat>, start: bool, cutIn: bool, lastMark: bool,
                            size: nat, last: nat)
      reads this
    {
      && Fits(job, plan.main) && Fits(job, plan.tail) && error == NoError
      && Written(start && job.split && log != [], size, last)
      && Ahead(plan, i, marks, start, cutIn, lastMark)
      && Noted(plan, start, lastMark)
    }

    /** The index gives no more frames: an error, unless the last cut-in is open. */
    method EndOfIndex(ghost plan: Plan, i: nat, marks: seq<nat>, ghost start: bool, ghost cutIn: bool, lastMark: bool,
                      ghost size: nat, ghost last: nat)
      requires Looping(plan, i, marks, start, cutIn, lastMark, size, last) && i >= Frames(job)
      modifies this`error
      ensures Outcome(plan)
    {
      hide Filed, Indexed, LastIFrame, WellFormed, Marked, Fits, Tail, Rest, Positioned;
      NothingLeft(job, i, marks, start, cutIn);
      if lastMark {
        assert plan.main + log[|plan.main|..] == log;
        assert log[|plan.main|..] + [] == log[|plan.main|..];
      } else {
        assert log + [] == log && plan.main + plan.tail == log;
        assert Filed(job, log) + [] == Filed(job, log);
      }
      if marks != [] || lastMark {
        error := Index;
      }
    }

    /** A frame was written, which may be the last one in front of a mark. */
    ghost predicate Between(plan: Plan, i: nat, marks: seq<nat>, cutIn: bool, size: nat, last: nat)
      reads this
    {
      && Fits(job, plan.main) && Fits(job, plan.tail) && error == NoError
      && Written(false, size, last) && log != [] && toMarks == Marked(job, log)
      && var rest := Behind(job, i, marks, cutIn); plan == rest.(main := log + rest.main)
    }

    /** The segment ends: its cut-out is marked, and the next segment begins. */
    method AtMark(ghost plan: Plan, i: nat, marks: seq<nat>, cutIn: bool, size: nat, last: nat, current: nat)
      returns (at: nat, left: seq<nat>, newCutIn: bool, lastMark: bool, newSize: nat, now: nat, ok: bool)
      requires Between(plan, i, marks, cutIn, size, last) && Positioned(i, current) && marks != [] && i >= marks[0]
      modifies this`toMarks, this`toFiles, this`error
      ensures ok ==> Looping(plan, at, left, !lastMark, newCutIn, lastMark, newSize, last) && Positioned(at, now)
      ensures ok ==> |left| < |marks| && (lastMark ==> left == [])
      ensures !ok ==> Outcome(plan)
    {
      hide Filed, Indexed, LastIFrame, WellFormed, Marked, Fits, Rest, Piece, NextIndependent;
      at, left, newCutIn, lastMark, newSize, now, ok := i, marks[1..], cutIn, false, size, current, true;
      toMarks := toMarks + {last};
      if left != [] {
        toMarks := toMarks + {|toIndex|};
        at := left[0];
        left := left[1..];
        now := 0;
        newCutIn := true;
        if job.split {
          ok := NextFile();
          if !ok {
            return;
          }
          newSize := 0;
        }
      } else {
        lastMark := true;
        assert plan.main == log;
        assert log[|log|..] + plan.tail == plan.tail;
      }
    }

    /** An independent frame behind the last cut-out ends the run. */
    lemma {:induction false} TailStops(plan: Plan, i: nat, marks: seq<nat>, start: bool, cutIn: bool, size: nat, last: nat)
      requires i < Frames(job) && Independent(job, i)
      requires Looping(plan, i, marks, start, cutIn, true, size, last)
      ensures Outcome(plan)
    {
      hide Filed, Indexed, LastIFrame, WellFormed, Marked, Fits, Rest, Tail, Independent;
      TailEnds(job, i);
      assert log[|plan.main|..] + [] == log[|plan.main|..];
      assert plan.main + log[|plan.main|..] == log;
      assert Filed(job, log) + [] == Filed(job, log);
    }

    /** Reads the next frame of the loop. */
    method Read(ghost plan: Plan, i: nat, ghost marks: seq<nat>, ghost start: bool, ghost cutIn: bool, ghost lastMark: bool,
                ghost size: nat, ghost last: nat, current: nat) returns (frame: seq<byte>, now: nat, ok: bool)
      requires Looping(plan, i, marks, start, cutIn, lastMark, size, last) && i < Frames(job) && Positioned(i, current)
      modifies this`fromNumber, this`fromPos, this`error
      ensures ok ==> Looping(plan, i, marks, start, cutIn, lastMark, size, last)
      ensures ok ==> frame == Bytes(job, i) && Positioned(i + 1, now)
      ensures !ok ==> Outcome(plan)
    {
      hide Filed, Indexed, LastIFrame, WellFormed, Marked, Fits, Rest, Tail, Bytes;
      frame, now, ok := Fetch(i, current);
      if !ok {
        PartWritten(plan, i, marks, start, cutIn, lastMark);
      }
    }

    /** What was written is a part of the plan. */
    lemma {:induction false} PartWritten(plan: Plan, i: nat, marks: seq<nat>, start: bool, cutIn: bool, lastMark: bool)
      requires Ahead(plan, i, marks, start, cutIn, lastMark)
      ensures log <= plan.main + plan.tail
    {
      hide Rest, Tail;
      if lastMark {
        assert plan.main + log[|plan.main|..] == log;
        assert plan.main + (log[|plan.main|..] + Tail(job, i).tail) == log + Tail(job, i).tail;
      }
    }

    /** Writes the frame the loop is at. */
    method WriteFrame(ghost plan: Plan, frame: seq<byte>, independent: bool, i: nat, ghost marks: seq<nat>, ghost start: bool,
                      cutIn: bool, lastMark: bool, size: nat, last: nat)
      returns (newSize: nat, newLast: nat, newCutIn: bool, ok: bool)
      requires WellFormed(job) && i < Frames(job) && frame == Bytes(job, i) && independent == Independent(job, i)
      requires Looping(plan, i, marks, start, cutIn, lastMark, size, last) && !(lastMark && independent)
      modifies this`toFiles, this`toIndex, this`error, this`log
      ensures ok ==> newCutIn == (cutIn && !independent)
      ensures ok && !lastMark ==> Between(plan, i + 1, marks, newCutIn, newSize, newLast)
      ensures ok && lastMark ==> Looping(plan, i + 1, [], false, newCutIn, true, newSize, newLast)
      ensures !ok ==> Outcome(plan)
    {
      hide Filed, Indexed, LastIFrame, WellFormed, Marked, Fits, Rest, Tail, Behind, Bytes, Independent;
      PartWritten(plan, i, marks, start, cutIn, lastMark);
      ghost var s := Shot(i, start, cutIn && independent);
      FitsMore(job, log, s);
      WrittenIsMarked(job, log, s);
      if lastMark {
        TailGrows(job, log, |plan.main|, i);
      } else {
        SegmentStep(job, plan, log, i, marks, start, cutIn);
      }
      newSize, newLast, newCutIn, ok := Write(frame, independent, size, last, cutIn, s, start && job.split && log != []);
    }

    /** No mark is reached. */
    lemma {:induction false} Inside(plan: Plan, i: nat, marks: seq<nat>, cutIn: bool, size: nat, last: nat)
      requires Between(plan, i, marks, cutIn, size, last) && (marks == [] || i < marks[0])
      ensures Looping(plan, i, marks, false, cutIn, false, size, last)
    {
      hide Filed, Indexed, LastIFrame, WellFormed, Marked, Fits, Rest, Tail;
    }

    /** Nothing is written at first. */
    lemma {:induction false} Begins(marks: seq<nat>)
      requires WellFormed(job) && marks != []
      requires toFiles == [[]] && toIndex == [] && error == NoError && log == [] && toMarks == {0}
      ensures Looping(Planned(job, marks), marks[0], marks[1..], true, true, false, 0, 0)
      ensures Positioned(marks[0], 0)
    {
      hide WellFormed, Rest;
      PlanFits(job, marks[0], marks[1..], true, true);
      var plan := Planned(job, marks);
      assert [] + plan.main == plan.main;
    }

    /** Without an error every frame of the plan is in the files where the index says, byte for
        byte as it was in the recording unless it is marked as broken. */
    lemma {:induction false} WhatWasCopied(plan: Plan)
      requires Outcome(plan)
      ensures error == NoError ==> Fits(job, plan.main + plan.tail) && AllCopied(job, toFiles, toIndex, plan.main + plan.tail)
    {
      hide Filed, Indexed, LastIFrame, WellFormed, Marked, Fits, AllCopied;
      if error == NoError {
        var more := if plan.dangling && job.split && log != [] then [[]] else [];
        RunCopied(job, log, more);
      }
    }

    /** Cuts the recording at the marks. */
    method Action(fromMarks: seq<nat>) returns (started: bool)
      requires WellFormed(job)
      requires fromNumber == 1 && toFiles == [[]] && toIndex == [] && error == NoError && log == []
      modifies this
      ensures started == (fromMarks != [] && 1 in job.files && system.openable(1))
      ensures started ==> Outcome(Planned(job, fromMarks))
      ensures started && error == NoError ==>
        var log := Planned(job, fromMarks).main + Planned(job, fromMarks).tail;
        Fits(job, log) && AllCopied(job, toFiles, toIndex, log)
    {
      hide Filed, Indexed, LastIFrame, WellFormed, Marked, Fits, Rest, Looping, Outcome, Bytes, AllCopied;
      started := fromMarks != [] && 1 in job.files && system.openable(1);
      if !started {
        return;
      }

      ghost var plan := Planned(job, fromMarks);
      var index: nat, marks := fromMarks[0], fromMarks[1..];
      var size: nat, current: nat, last: nat := 0, 0, 0;
      toMarks := {0};
      var lastMark, cutIn, running := false, true, true;
      ghost var start := true;
      Begins(fromMarks);
      while running
        invariant running ==> Looping(plan, index, marks, start, cutIn, lastMark, size, last) && Positioned(index, current)
        invariant running && lastMark ==> marks == [] && !start
        invariant !running ==> Outcome(plan)
        decreases running, |marks|, if index < Frames(job) then Frames(job) - index else 0
      {
        if index >= Frames(job) {
          EndOfIndex(plan, index, marks, start, cutIn, lastMark, size, last);
          running := false;
        } else {
          var frame, now, ok := Read(plan, index, marks, start, cutIn, lastMark, size, last, current);
          if !ok {
            running := false;
          } else {
            var independent := job.index[index].independent;
            if independent && lastMark {
              TailStops(plan, index, marks, start, cutIn, size, last);
              running := false;
            } else {
              size, last, cutIn, ok := WriteFrame(plan, frame, independent, index, marks, start, cutIn, lastMark, size, last);
              current := now;
              index := index + 1;
              if !ok {
                running := false;
              } else if marks != [] && index >= marks[0] {
                index, marks, cutIn, lastMark, size, current, ok := AtMark(plan, index, marks, cutIn, size, last, current);
                start := !lastMark;
                running := ok;
              } else {
                if !lastMark {
                  Inside(plan, index, marks, cutIn, size, last);
                }
                start := false;
              }
            }
          }
        }
      }
      WhatWasCopied(plan);
    }
  }
}
