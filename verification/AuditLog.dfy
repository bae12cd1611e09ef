/** The size-rotated audit log: one file being written and its numbered predecessors, which together are the end of
    everything written - whatever file operation fails on the way. */
module AuditLog {
  import opened Replay

  /** The files by number: 0 is the log itself, i its i-th predecessor. Each holds whole lines. */
  type Files = map<nat, seq<string>>

  datatype Op = Drop(i: nat) | Move(i: nat)

  function At(files: Files, i: nat): seq<string> {
    if i in files then files[i] else []
  }

  /** The lines of all files up to number `b`, oldest first. */
  function Log(files: Files, b: nat): seq<string> {
    if b == 0 then At(files, 0) else At(files, b) + Log(files, b - 1)
  }

  /** One file operation; moving a file overwrites the one in its new place. */
  function Do(files: Files, op: Op): Files {
    match op
    case Drop(i) => files - {i}
    case Move(i) => if i in files then (files - {i})[i + 1 := files[i]] else files
  }

  /** The predecessors from number `i` down to 1 each move up by one. */
  function Moves(files: Files, i: nat): seq<Op> {
    if i == 0 then [] else (if i in files then [Move(i)] else []) + Moves(files, i - 1)
  }

  /** The file operations of one rotation, in order. */
  function Plan(files: Files, backups: nat): seq<Op> {
    if backups == 0 then [Drop(0)]
    else (if backups in files then [Drop(backups)] else []) + Moves(files, backups - 1) + [Move(0)]
  }

  function Bytes(lines: seq<string>): nat {
    if lines == [] then 0 else Bytes(lines[..|lines| - 1]) + |lines[|lines| - 1]|
  }

  predicate Full(files: Files, line: string, maxBytes: nat) {
    var size := Bytes(At(files, 0));
    size > 0 && size + |line| > maxBytes
  }

  /** How far the system lets one write get: that many file operations of a rotation, and the append or not. */
  datatype Luck = Luck(moves: nat, append: bool)

  predicate RotationDone(files: Files, line: string, maxBytes: nat, backups: nat, luck: Luck) {
    Full(files, line, maxBytes) ==> |Plan(files, backups)| <= luck.moves
  }

  function Rotated(files: Files, line: string, maxBytes: nat, backups: nat, luck: Luck): Files {
    if Full(files, line, maxBytes) then
      DoAll(files, Plan(files, backups)[..Least(luck.moves, |Plan(files, backups)|)], Do)
    else files
  }

  function Append(files: Files, line: string): Files {
    files[0 := At(files, 0) + [line]]
  }

  predicate Lands(files: Files, line: string, maxBytes: nat, backups: nat, luck: Luck) {
    luck.append && RotationDone(files, line, maxBytes, backups, luck)
  }

  function Wrote(files: Files, line: string, maxBytes: nat, backups: nat, luck: Luck): Files {
    var rotated := Rotated(files, line, maxBytes, backups, luck);
    if Lands(files, line, maxBytes, backups, luck) then Append(rotated, line) else rotated
  }

  // ---- the log as it runs -------------------------------------------------------------------------

  class AuditLog {
    const maxBytes: nat
    const backups: nat
    var files: Files

    constructor (maxBytes: nat, backups: nat)
      ensures this.maxBytes == maxBytes && this.backups == backups
      ensures files == map[0 := []]
    {
      this.maxBytes, this.backups := maxBytes, backups;
      files := map[0 := []];
    }

    /** `moves` file operations succeed; the one after them fails and ends the rotation. */
    method Rotate(moves: nat) returns (ok: bool)
      modifies this`files
      ensures ok <==> |Plan(old(files), backups)| <= moves
      ensures files == DoAll(old(files), Plan(old(files), backups)[..Least(moves, |Plan(old(files), backups)|)], Do)
    {
      hide DoAll, Do, Moves;
      ghost var was, plan := files, Plan(files, backups);
      var left := moves;
      if backups == 0 {
        if left == 0 {
          DoNothing(was, Do);
          assert plan[..0] == [];
          return false;
        }
        DoAllSnoc(was, [], Drop(0), Do);
        DoNothing(was, Do);
        assert [] + [Drop(0)] == plan == plan[..1];
        Remove(0);
        return true;
      }
      ghost var done: seq<Op> := [];
      DoNothing(was, Do);
      if backups in files {
        if left == 0 {
          assert plan[..0] == [];
          return false;
        }
        left := left - 1;
        DoAllSnoc(was, done, Drop(backups), Do);
        done := done + [Drop(backups)];
        Remove(backups);
        RemoveTouches(was, backups);
      }
      var i := backups - 1;
      while i > 0
        invariant 0 <= i < backups
        invariant files == DoAll(was, done, Do) && done + Moves(was, i) + [Move(0)] == plan
        invariant |done| + left == moves
        invariant forall k :: 0 <= k <= i ==> (k in files <==> k in was)
      {
        MovesStep(was, i);
        if i in files {
          if left == 0 {
            assert plan[..|done|] == done;
            return false;
          }
          left := left - 1;
          DoAllSnoc(was, done, Move(i), Do);
          done := done + [Move(i)];
          MoveTouches(files, i);
          Replace(i);
        }
        i := i - 1;
      }
      NoMoves(was);
      assert plan == done + [Move(0)];
      if left == 0 {
        assert plan[..|done|] == done;
        return false;
      }
      DoAllSnoc(was, done, Move(0), Do);
      assert plan[..|plan|] == plan;
      Replace(0);
      ok := true;
    }

    /** `os.remove`. */
    method Remove(i: nat)
      modifies this`files
      ensures files == Do(old(files), Drop(i))
    {
      files := files - {i};
    }

    /** `os.replace` of file `i` onto its successor. */
    method Replace(i: nat)
      modifies this`files
      ensures files == Do(old(files), Move(i))
    {
      if i in files {
        files := (files - {i})[i + 1 := files[i]];
      }
    }

    /** Appends one line, rotating first when the log would grow past its limit. A failure leaves the line out. */
    method Write(line: string, luck: Luck) returns (landed: bool)
      modifies this`files
      ensures files == Wrote(old(files), line, maxBytes, backups, luck)
      ensures landed <==> Lands(old(files), line, maxBytes, backups, luck)
    {
      hide Plan, DoAll;
      var size := if 0 in files then Bytes(files[0]) else 0;
      assert Bytes([]) == 0;
      if size > 0 && size + |line| > maxBytes {
        var ok := Rotate(luck.moves);
        if !ok {
          return false;
        }
      }
      if !luck.append {
        return false;
      }
      files := files[0 := (if 0 in files then files[0] else []) + [line]];
      landed := true;
    }
  }

  lemma {:induction false} MovesStep(files: Files, i: nat)
    requires i > 0
    ensures Moves(files, i) == (if i in files then [Move(i)] else []) + Moves(files, i - 1)
  {
  }

  lemma {:induction false} NoMoves(files: Files)
    ensures Moves(files, 0) == []
  {
  }

  lemma {:induction false} RemoveTouches(files: Files, i: nat)
    ensures forall k: nat :: k != i ==> (k in Do(files, Drop(i)) <==> k in files)
  {
  }

  lemma {:induction false} MoveTouches(files: Files, i: nat)
    ensures forall k: nat :: k < i ==> (k in Do(files, Move(i)) <==> k in files)
  {
  }

  // ---- what a rotation does to the whole log -----------------------------------------------------

  ghost predicate Ends(part: seq<string>, whole: seq<string>) {
    |part| <= |whole| && whole[|whole| - |part|..] == part
  }

  lemma {:induction false} LogOfSame(files: Files, others: Files, b: nat)
    requires forall k: nat :: k <= b ==> At(files, k) == At(others, k)
    ensures Log(files, b) == Log(others, b)
  {
    hide At;
    if b > 0 {
      LogOfSame(files, others, b - 1);
    }
  }

  lemma {:induction false} LogTop(files: Files, b: nat)
    ensures Log(files, b) == At(files, b) + if b == 0 then [] else Log(files, b - 1)
  {
    hide At;
    if b == 0 {
      assert At(files, 0) + [] == At(files, 0);
    }
  }

  lemma {:induction false} MovedContents(files: Files, i: nat)
    requires At(files, i + 1) == []
    ensures var moved := Do(files, Move(i));
      && At(moved, i + 1) == At(files, i) && At(moved, i) == []
      && forall k: nat :: k < i || i + 1 < k ==> At(moved, k) == At(files, k)
  {
  }

  /** Moving a file into an empty place keeps the order of the whole. */
  lemma {:induction false} MoveKeepsLog(files: Files, i: nat, b: nat)
    requires i < b && At(files, i + 1) == []
    ensures Log(Do(files, Move(i)), b) == Log(files, b)
    decreases b
  {
    hide Log, At, Do;
    var moved := Do(files, Move(i));
    MovedContents(files, i);
    LogTop(files, b);
    LogTop(moved, b);
    if i + 1 < b {
      MoveKeepsLog(files, i, b - 1);
    } else {
      LogTop(files, i);
      LogTop(moved, i);
      if i > 0 {
        LogOfSame(moved, files, i - 1);
      }
    }
  }

  /** The oldest file is what a rotation lets go. */
  function Kept(files: Files, backups: nat): seq<string> {
    if backups == 0 then [] else Log(files, backups - 1)
  }

  lemma {:induction false} OldestRemoved(files: Files, backups: nat)
    ensures Log(Do(files, Drop(backups)), backups) == Kept(files, backups)
  {
    if backups > 0 {
      LogOfSame(Do(files, Drop(backups)), files, backups - 1);
    }
  }

  /** The ops that have run are the first of the plan, and the place the next move goes to is empty. */
  lemma {:induction false} MovesKeepLog(was: Files, files: Files, i: nat, backups: nat, n: nat)
    requires i < backups && i + 1 !in files
    requires forall k: nat :: k <= i ==> (k in files <==> k in was)
    requires n <= |Moves(was, i) + [Move(0)]|
    ensures Log(DoAll(files, (Moves(was, i) + [Move(0)])[..n], Do), backups) == Log(files, backups)
    decreases i
  {
    hide Log, Do;
    var rest := Moves(was, i) + [Move(0)];
    if n == 0 {
      DoNothing(files, Do);
      assert rest[..0] == [];
    } else if i == 0 {
      NoMoves(was);
      MoveKeepsLog(files, 0, backups);
      DoAllSnoc(files, [], Move(0), Do);
      DoNothing(files, Do);
      assert rest[..n] == [] + [Move(0)];
    } else {
      MovesStep(was, i);
      var less := Moves(was, i - 1) + [Move(0)];
      if i in was {
        assert rest == [Move(i)] + less;
        MoveKeepsLog(files, i, backups);
        MoveEmpties(files, i);
        MoveTouches(files, i);
        MovesKeepLog(was, Do(files, Move(i)), i - 1, backups, n - 1);
        assert rest[..n] == [Move(i)] + less[..n - 1];
        DoFirst(files, Move(i), less[..n - 1]);
      } else {
        assert rest == less;
        MovesKeepLog(was, files, i - 1, backups, n);
      }
    }
  }

  lemma {:induction false} MoveEmpties(files: Files, i: nat)
    ensures i !in Do(files, Move(i))
  {
  }

  lemma {:induction false} DoFirst(files: Files, op: Op, ops: seq<Op>)
    ensures DoAll(files, [op] + ops, Do) == DoAll(Do(files, op), ops, Do)
    decreases |ops|
  {
    hide Do, DoAll;
    if ops == [] {
      DoAllSnoc(files, [], op, Do);
      DoNothing(files, Do);
      DoNothing(Do(files, op), Do);
      assert [op] + ops == [] + [op];
    } else {
      var front, last := ops[..|ops| - 1], ops[|ops| - 1];
      DoFirst(files, op, front);
      assert ops == front + [last] && [op] + ops == ([op] + front) + [last];
      DoAllSnoc(files, [op] + front, last, Do);
      DoAllSnoc(Do(files, op), front, last, Do);
    }
  }

  /** At every point of a rotation - wherever it breaks off - the whole log is what it was, or that without its oldest
      file; and when the rotation is through, the oldest file is all that is gone. */
  lemma {:induction false} RotationKeepsTheRest(files: Files, backups: nat, n: nat)
    requires n <= |Plan(files, backups)|
    ensures var after := Log(DoAll(files, Plan(files, backups)[..n], Do), backups);
      && (after == Log(files, backups) || after == Kept(files, backups))
      && (n == |Plan(files, backups)| ==> after == Kept(files, backups))
  {
    hide Log, Do, Moves;
    var plan := Plan(files, backups);
    DoNothing(files, Do);
    if n == 0 {
      assert plan[..0] == [];
    } else if backups == 0 {
      OldestRemoved(files, 0);
      DoFirst(files, Drop(0), []);
      DoNothing(Do(files, Drop(0)), Do);
      assert plan[..n] == [Drop(0)] + [];
    } else if backups in files {
      var rest := Moves(files, backups - 1) + [Move(0)];
      assert plan == [Drop(backups)] + rest;
      OldestRemoved(files, backups);
      RemoveEmpties(files, backups);
      RemoveTouches(files, backups);
      MovesKeepLog(files, Do(files, Drop(backups)), backups - 1, backups, n - 1);
      assert plan[..n] == [Drop(backups)] + rest[..n - 1];
      DoFirst(files, Drop(backups), rest[..n - 1]);
    } else {
      assert plan == Moves(files, backups - 1) + [Move(0)];
      MovesKeepLog(files, files, backups - 1, backups, n);
      NoOldest(files, backups);
    }
  }

  lemma {:induction false} RemoveEmpties(files: Files, i: nat)
    ensures i !in Do(files, Drop(i))
  {
  }

  lemma {:induction false} NoOldest(files: Files, backups: nat)
    requires backups > 0 && backups !in files
    ensures Log(files, backups) == Kept(files, backups)
  {
  }

  lemma {:induction false} AppendToLog(files: Files, line: string, b: nat)
    ensures Log(Append(files, line), b) == Log(files, b) + [line]
  {
    if b > 0 {
      AppendToLog(files, line, b - 1);
    }
  }

  lemma {:induction false} KeptEnds(files: Files, backups: nat)
    ensures Ends(Kept(files, backups), Log(files, backups))
  {
    if backups > 0 {
      assert Log(files, backups) == At(files, backups) + Kept(files, backups);
    }
  }

  lemma {:induction false} RotatedLog(files: Files, line: string, maxBytes: nat, backups: nat, luck: Luck)
    ensures var after := Log(Rotated(files, line, maxBytes, backups, luck), backups);
      (after == Log(files, backups) || (Full(files, line, maxBytes) && after == Kept(files, backups)))
    ensures Full(files, line, maxBytes) && RotationDone(files, line, maxBytes, backups, luck) ==>
      Log(Rotated(files, line, maxBytes, backups, luck), backups) == Kept(files, backups)
  {
    hide Log, Plan, DoAll;
    if Full(files, line, maxBytes) {
      RotationKeepsTheRest(files, backups, Least(luck.moves, |Plan(files, backups)|));
    }
  }

  // ---- when a write rotates ---------------------------------------------------------------------

  /** The line fits behind what the log file holds, or the file holds nothing. */
  ghost predicate Fits(files: Files, line: string, maxBytes: nat) {
    Bytes(At(files, 0)) == 0 || Bytes(At(files, 0)) + |line| <= maxBytes
  }

  /** After moving the files from number `i` down. */
  lemma {:induction false} MovedUp(was: Files, files: Files, i: nat)
    requires i + 1 !in files && forall k: nat :: k <= i ==> (k in files <==> k in was) && At(files, k) == At(was, k)
    ensures var after := DoAll(files, Moves(was, i) + [Move(0)], Do);
      && At(after, 0) == []
      && (forall k: nat :: k <= i ==> At(after, k + 1) == At(was, k))
      && forall k: nat :: k > i + 1 ==> At(after, k) == At(files, k)
    decreases i
  {
    hide Do, DoAll;
    NoMoves(was);
    assert At(files, i + 1) == [];
    MovedContents(files, i);
    MoveEmpties(files, i);
    if i == 0 {
      DoFirst(files, Move(0), []);
      DoNothing(Do(files, Move(0)), Do);
      assert Moves(was, 0) + [Move(0)] == [Move(0)] + [];
    } else {
      MovesStep(was, i);
      MoveTouches(files, i);
      if i in was {
        MovedUp(was, Do(files, Move(i)), i - 1);
        DoFirst(files, Move(i), Moves(was, i - 1) + [Move(0)]);
        assert Moves(was, i) + [Move(0)] == [Move(i)] + (Moves(was, i - 1) + [Move(0)]);
      } else {
        MovedUp(was, files, i - 1);
        assert Moves(was, i) + [Move(0)] == Moves(was, i - 1) + [Move(0)];
      }
    }
  }

  /** A whole rotation: each file has the number after its own, and the one with the last number is gone. */
  lemma {:induction false} RotationShifts(files: Files, backups: nat)
    ensures var after := DoAll(files, Plan(files, backups), Do);
      && At(after, 0) == []
      && forall k: nat :: k < backups ==> At(after, k + 1) == At(files, k)
  {
    hide Do, DoAll, Moves;
    var after, plan := DoAll(files, Plan(files, backups), Do), Plan(files, backups);
    RotatedIsFresh(files, backups);
    if backups > 0 {
      var rest := Moves(files, backups - 1) + [Move(0)];
      if backups in files {
        assert plan == [Drop(backups)] + rest;
        DoFirst(files, Drop(backups), rest);
        DropOnly(files, backups);
        MovedUp(files, Do(files, Drop(backups)), backups - 1);
      } else {
        assert plan == rest;
        MovedUp(files, files, backups - 1);
      }
    }
  }

  lemma {:induction false} DropOnly(files: Files, i: nat)
    ensures i !in Do(files, Drop(i))
    ensures forall k: nat :: k != i ==> (k in Do(files, Drop(i)) <==> k in files) && At(Do(files, Drop(i)), k) == At(files, k)
  {
  }

  /** Where nothing fails, a line that fits is appended and no file is touched otherwise; one that does not starts a new
      file, and every other file has the number after its own, the last one gone. */
  lemma {:induction false} RotatesIff(files: Files, line: string, maxBytes: nat, backups: nat, luck: Luck)
    requires luck.append && luck.moves >= |Plan(files, backups)|
    ensures var after := Wrote(files, line, maxBytes, backups, luck);
      if Fits(files, line, maxBytes) then after == files[0 := At(files, 0) + [line]]
      else At(after, 0) == [line] && forall k: nat :: k < backups ==> At(after, k + 1) == At(files, k)
  {
    hide DoAll, Plan, Bytes;
    RotationShifts(files, backups);
    var plan := Plan(files, backups);
    assert plan[..|plan|] == plan;
  }

  /** A line that fits never rotates, whatever fails. */
  lemma {:induction false} FittingKeepsFiles(files: Files, line: string, maxBytes: nat, backups: nat, luck: Luck)
    requires Fits(files, line, maxBytes)
    ensures Wrote(files, line, maxBytes, backups, luck) == if luck.append then files[0 := At(files, 0) + [line]] else files
  {
    hide DoAll, Plan, Bytes;
  }

  // ---- whole histories ------------------------------------------------------------------------------

  datatype Attempt = Attempt(line: string, luck: Luck)

  datatype State = State(files: Files, written: seq<string>)

  /** One write: the files it leaves, and the lines that got into the log so far. */
  function Next(s: State, a: Attempt, maxBytes: nat, backups: nat): State {
    State(Wrote(s.files, a.line, maxBytes, backups, a.luck),
          if Lands(s.files, a.line, maxBytes, backups, a.luck) then s.written + [a.line] else s.written)
  }

  function Run(attempts: seq<Attempt>, maxBytes: nat, backups: nat): State {
    if attempts == [] then State(map[0 := []], [])
    else Next(Run(attempts[..|attempts| - 1], maxBytes, backups), attempts[|attempts| - 1], maxBytes, backups)
  }

  lemma {:induction false} EndsThrough(part: seq<string>, middle: seq<string>, whole: seq<string>)
    requires Ends(part, middle) && Ends(middle, whole)
    ensures Ends(part, whole)
  {
    assert part == middle[|middle| - |part|..] == whole[|whole| - |middle|..][|middle| - |part|..];
  }

  lemma {:induction false} EndsMore(part: seq<string>, whole: seq<string>, line: string)
    requires Ends(part, whole)
    ensures Ends(part + [line], whole + [line])
  {
    assert (whole + [line])[|whole| - |part|..] == whole[|whole| - |part|..] + [line];
  }

  lemma {:induction false} EndsItself(lines: seq<string>)
    ensures Ends(lines, lines)
  {
    assert lines[0..] == lines;
  }

  lemma {:induction false} EmptyLog(b: nat)
    ensures Log(map[0 := []], b) == []
  {
    if b > 0 {
      EmptyLog(b - 1);
    }
  }

  lemma {:induction false} NextEnds(s: State, a: Attempt, maxBytes: nat, backups: nat)
    requires Ends(Log(s.files, backups), s.written)
    ensures Ends(Log(Next(s, a, maxBytes, backups).files, backups), Next(s, a, maxBytes, backups).written)
  {
    hide Log, Ends, Rotated, Kept, Plan, Full, Append;
    var rotated := Rotated(s.files, a.line, maxBytes, backups, a.luck);
    RotatedLog(s.files, a.line, maxBytes, backups, a.luck);
    EndsItself(Log(s.files, backups));
    KeptEnds(s.files, backups);
    EndsThrough(Log(rotated, backups), Log(s.files, backups), s.written);
    AppendToLog(rotated, a.line, backups);
    EndsMore(Log(rotated, backups), s.written, a.line);
  }

  /** The files, oldest to newest, are always the end of everything written: no line is lost from the middle, none is
      twice, none out of order - whichever file operations failed. */
  lemma {:induction false} FilesAreTheEnd(attempts: seq<Attempt>, maxBytes: nat, backups: nat)
    ensures var s := Run(attempts, maxBytes, backups); Ends(Log(s.files, backups), s.written)
  {
    if attempts == [] {
      EmptyLog(backups);
    } else {
      hide Next, Ends, Log;
      FilesAreTheEnd(attempts[..|attempts| - 1], maxBytes, backups);
      NextEnds(Run(attempts[..|attempts| - 1], maxBytes, backups), attempts[|attempts| - 1], maxBytes, backups);
    }
  }

  /** A write that lands leaves its line last, and lets go of the oldest file at most - only when it had to rotate. */
  lemma {:induction false} LandedIsLast(files: Files, line: string, maxBytes: nat, backups: nat, luck: Luck)
    requires Lands(files, line, maxBytes, backups, luck)
    ensures Log(Wrote(files, line, maxBytes, backups, luck), backups)
      == (if Full(files, line, maxBytes) then Kept(files, backups) else Log(files, backups)) + [line]
  {
    hide Log, Plan, Append, Full, Kept;
    RotatedLog(files, line, maxBytes, backups, luck);
    AppendToLog(Rotated(files, line, maxBytes, backups, luck), line, backups);
  }

  // ---- sizes --------------------------------------------------------------------------------------

  ghost predicate Bounded(files: Files, maxBytes: nat) {
    forall i :: i in files ==> Bytes(files[i]) <= maxBytes
  }

  lemma {:induction false} DoBounded(files: Files, op: Op, maxBytes: nat)
    requires Bounded(files, maxBytes)
    ensures Bounded(Do(files, op), maxBytes)
  {
    hide Bytes;
  }

  lemma {:induction false} DoAllBounded(files: Files, ops: seq<Op>, maxBytes: nat)
    requires Bounded(files, maxBytes)
    ensures Bounded(DoAll(files, ops, Do), maxBytes)
  {
    if ops != [] {
      hide Bounded, Do;
      DoAllBounded(files, ops[..|ops| - 1], maxBytes);
      DoBounded(DoAll(files, ops[..|ops| - 1], Do), ops[|ops| - 1], maxBytes);
    }
  }

  /** After a rotation the log file is not there: the next line starts a new one. */
  lemma {:induction false} RotatedIsFresh(files: Files, backups: nat)
    ensures 0 !in DoAll(files, Plan(files, backups), Do)
  {
    hide Moves;
    var plan := Plan(files, backups);
    var front := plan[..|plan| - 1];
    assert plan[|plan| - 1] == if backups == 0 then Drop(0) else Move(0);
    assert DoAll(files, plan, Do) == Do(DoAll(files, front, Do), plan[|plan| - 1]);
  }

  lemma {:induction false} BytesSnoc(lines: seq<string>, line: string)
    ensures Bytes(lines + [line]) == Bytes(lines) + |line|
  {
    assert (lines + [line])[..|lines|] == lines;
  }

  lemma {:induction false} NextBounded(s: State, a: Attempt, maxBytes: nat, backups: nat)
    requires Bounded(s.files, maxBytes) && |a.line| <= maxBytes
    ensures Bounded(Next(s, a, maxBytes, backups).files, maxBytes)
  {
    hide Plan, DoAll, Bytes;
    var plan := Plan(s.files, backups);
    var rotated := Rotated(s.files, a.line, maxBytes, backups, a.luck);
    DoAllBounded(s.files, plan[..Least(a.luck.moves, |plan|)], maxBytes);
    BytesSnoc(At(rotated, 0), a.line);
    assert Bytes([]) == 0 by {
      NoBytes();
    }
    if Full(s.files, a.line, maxBytes) && RotationDone(s.files, a.line, maxBytes, backups, a.luck) {
      RotatedIsFresh(s.files, backups);
      assert plan[..|plan|] == plan;
      assert At(rotated, 0) == [];
    }
  }

  lemma {:induction false} NoBytes()
    ensures Bytes([]) == 0
  {
  }

  function Total(files: Files, b: nat): nat {
    if b == 0 then Bytes(At(files, 0)) else Bytes(At(files, b)) + Total(files, b - 1)
  }

  lemma {:induction false} TotalBounded(files: Files, maxBytes: nat, b: nat)
    requires Bounded(files, maxBytes)
    ensures Total(files, b) <= (b + 1) * maxBytes
  {
    NoBytes();
    if b > 0 {
      TotalBounded(files, maxBytes, b - 1);
      assert (b + 1) * maxBytes == b * maxBytes + maxBytes;
    }
  }

  ghost predicate Short(attempts: seq<Attempt>, maxBytes: nat) {
    forall i :: 0 <= i < |attempts| ==> |attempts[i].line| <= maxBytes
  }

  /** While no line is longer than the limit, no file is, and all together take one limit per file. */
  lemma {:induction false} SizesStayBounded(attempts: seq<Attempt>, maxBytes: nat, backups: nat)
    requires Short(attempts, maxBytes)
    ensures var files := Run(attempts, maxBytes, backups).files;
      Bounded(files, maxBytes) && Total(files, backups) <= (backups + 1) * maxBytes
  {
    hide Next, Total;
    if attempts != [] {
      SizesStayBounded(attempts[..|attempts| - 1], maxBytes, backups);
      NextBounded(Run(attempts[..|attempts| - 1], maxBytes, backups), attempts[|attempts| - 1], maxBytes, backups);
    }
    TotalBounded(Run(attempts, maxBytes, backups).files, maxBytes, backups);
  }
}
