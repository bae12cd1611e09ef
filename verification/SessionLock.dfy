/** The session lock: a directory holding its owner's pid and whole-second deadline, which a waiter removes when
    the owner is dead or past that deadline by a margin. Taking the lock together with writing its record, and the
    takeover section under its mutex, are each one step. */
module SessionLock {

  /** `Blind` is a lock whose creator died before it wrote its record, `Undated` one whose creator died between its
      pid and its deadline. */
  datatype Lock = Free | Held(owner: nat, deadline: int) | Blind | Undated(owner: nat)

  /** A worker: `holds` is its own belief that it has the lock. */
  datatype Proc = Proc(alive: bool, deadline: real, holds: bool)

  datatype Sys = Sys(now: real, procs: map<nat, Proc>, lock: Lock)

  /** Seconds a worker may outlive its deadline, and seconds a waiter adds to the recorded one. */
  const GRACE: real := 2.0
  const MARGIN: real := 5.0

  datatype Step =
    | Tick(now: real)
    | Spawn(id: nat, deadline: real)
    | Die(id: nat)
    | Acquire(id: nat)
    | AcquireAndDie(id: nat, pidWritten: bool)
    | TakeOver(id: nat, pidGone: bool)
    | Release(id: nat)

  predicate Alive(s: Sys, id: nat) {
    id in s.procs && s.procs[id].alive
  }

  predicate Holds(s: Sys, id: nat) {
    Alive(s, id) && s.procs[id].holds
  }

  /** The waiter's test. A pid is reported gone only when its process is; a reused pid is reported alive. */
  predicate OwnerGone(s: Sys, margin: real, pidGone: bool)
    requires !s.lock.Free?
  {
    s.lock.Blind?
    || (pidGone && !Alive(s, s.lock.owner))
    || (s.lock.Held? && s.now > s.lock.deadline as real + margin)
  }

  predicate Enabled(s: Sys, margin: real, step: Step) {
    match step
    case Tick(now) => s.now <= now && forall id :: id in s.procs && s.procs[id].alive ==> now <= s.procs[id].deadline + GRACE
    case Spawn(id, deadline) => id !in s.procs && s.now <= deadline
    case Die(id) => Alive(s, id)
    case Acquire(id) => Alive(s, id) && !s.procs[id].holds && s.procs[id].deadline - s.now > 2.0 && s.lock.Free?
    case AcquireAndDie(id, pidWritten) => Alive(s, id) && !s.procs[id].holds && s.procs[id].deadline - s.now > 2.0 && s.lock.Free?
    case TakeOver(id, pidGone) =>
      Alive(s, id) && !s.procs[id].holds && s.procs[id].deadline - s.now > 2.0
      && !s.lock.Free? && OwnerGone(s, margin, pidGone)
    case Release(id) => Holds(s, id)
  }

  function Do(s: Sys, margin: real, step: Step): Sys
    requires Enabled(s, margin, step)
  {
    match step
    case Tick(now) => s.(now := now)
    case Spawn(id, deadline) => s.(procs := s.procs[id := Proc(true, deadline, false)])
    case Die(id) => s.(procs := s.procs[id := s.procs[id].(alive := false)])
    case Acquire(id) =>
      s.(lock := Held(id, s.procs[id].deadline.Floor), procs := s.procs[id := s.procs[id].(holds := true)])
    case AcquireAndDie(id, pidWritten) =>
      s.(lock := if pidWritten then Undated(id) else Blind, procs := s.procs[id := s.procs[id].(alive := false)])
    case TakeOver(id, pidGone) => s.(lock := Free)
    case Release(id) => s.(lock := Free, procs := s.procs[id := s.procs[id].(holds := false)])
  }

  const START: Sys := Sys(0.0, map[], Free)

  /** The state after `steps`, when each of them is possible in turn. */
  function Exec(margin: real, steps: seq<Step>): (s: (bool, Sys)) {
    if steps == [] then (true, START)
    else
      var before := Exec(margin, steps[..|steps| - 1]);
      var last := steps[|steps| - 1];
      if before.0 && Enabled(before.1, margin, last) then (true, Do(before.1, margin, last)) else (false, START)
  }

  ghost predicate Exclusive(s: Sys) {
    forall a, b :: Holds(s, a) && Holds(s, b) ==> a == b
  }

  /** The lock is the one live holder's, and nobody alive is past its time. */
  ghost predicate Inv(s: Sys) {
    && (forall id :: Holds(s, id) ==> s.lock == Held(id, s.procs[id].deadline.Floor))
    && (s.lock.Held? ==> s.lock.owner in s.procs && s.lock.deadline == s.procs[s.lock.owner].deadline.Floor)
    && (forall id :: Alive(s, id) ==> s.now <= s.procs[id].deadline + GRACE)
  }

  /** Whole seconds lose less than one second, so a margin of three is enough: the owner a waiter removes is dead. */
  lemma {:induction false} GoneIsDead(s: Sys, margin: real, pidGone: bool)
    requires Inv(s) && margin >= GRACE + 1.0 && s.lock.Held? && OwnerGone(s, margin, pidGone)
    ensures !Alive(s, s.lock.owner)
  {
    var d := s.procs[s.lock.owner].deadline;
    assert d < d.Floor as real + 1.0;
  }

  lemma {:induction false} StepKeeps(s: Sys, margin: real, step: Step)
    requires Inv(s) && margin >= GRACE + 1.0 && Enabled(s, margin, step)
    ensures Inv(Do(s, margin, step))
  {
    var t := Do(s, margin, step);
    if step.TakeOver? && s.lock.Held? {
      GoneIsDead(s, margin, step.pidGone);
    }
    forall id | Holds(t, id) ensures t.lock == Held(id, t.procs[id].deadline.Floor) {
      assert Holds(s, id) || step == Acquire(id);
    }
    forall id | Alive(t, id) ensures t.now <= t.procs[id].deadline + GRACE {
      assert Alive(s, id) || step.Spawn?;
    }
  }

  lemma {:induction false} Reachable(margin: real, steps: seq<Step>)
    requires margin >= GRACE + 1.0 && Exec(margin, steps).0
    ensures Inv(Exec(margin, steps).1)
  {
    if steps != [] {
      Reachable(margin, steps[..|steps| - 1]);
      StepKeeps(Exec(margin, steps[..|steps| - 1]).1, margin, steps[|steps| - 1]);
    }
  }

  /** Two live workers never both hold the lock, in any run. */
  lemma {:induction false} MutualExclusion(steps: seq<Step>)
    requires Exec(MARGIN, steps).0
    ensures Exclusive(Exec(MARGIN, steps).1)
  {
    Reachable(MARGIN, steps);
  }

  /** A release by a live owner removes its own lock, never one that somebody else has taken since. */
  lemma {:induction false} ReleaseIsOwn(steps: seq<Step>, id: nat)
    requires Exec(MARGIN, steps).0 && Enabled(Exec(MARGIN, steps).1, MARGIN, Release(id))
    ensures Exec(MARGIN, steps).1.lock.Held? && Exec(MARGIN, steps).1.lock.owner == id
    ensures forall other :: !Holds(Do(Exec(MARGIN, steps).1, MARGIN, Release(id)), other)
  {
    Reachable(MARGIN, steps);
    var s := Exec(MARGIN, steps).1;
    var t := Do(s, MARGIN, Release(id));
    forall other ensures !Holds(t, other) {
      if Holds(t, other) {
        assert Holds(s, other) && Holds(s, id);
      }
    }
  }

  /** Worker `id` is there with more than two seconds of its time left. */
  ghost predicate InTime(s: Sys, id: nat) {
    Alive(s, id) && s.procs[id].deadline - s.now > 2.0
  }

  /** A free lock goes only to a worker with more than two seconds left, which has it then - or has died, leaving no
      date. A taken one is freed by the owner, or by such a worker when there is no record, its owner is dead and was
      reported so, or its date is passed by more than the margin. */
  lemma {:induction false} LockChangesOnlySo(s: Sys, margin: real, step: Step)
    requires Inv(s) && Enabled(s, margin, step) && Do(s, margin, step).lock != s.lock
    ensures var t := Do(s, margin, step);
      if s.lock.Free? then
        exists id :: InTime(s, id) && ((Holds(t, id) && t.lock == Held(id, s.procs[id].deadline.Floor))
                                       || (!Alive(t, id) && t.lock in {Undated(id), Blind}))
      else
        t.lock.Free? && ((s.lock.Held? && step == Release(s.lock.owner) && Holds(s, s.lock.owner))
                         || (exists id :: InTime(s, id) && step in {TakeOver(id, true), TakeOver(id, false)}
                              && (s.lock.Blind? || (step.pidGone && !Alive(s, s.lock.owner))
                                  || (s.lock.Held? && s.now - margin > s.lock.deadline as real))))
  {
    match step {
      case Acquire(id) => assert InTime(s, id);
      case AcquireAndDie(id, pidWritten) => assert InTime(s, id);
      case TakeOver(id, pidGone) => assert InTime(s, id);
      case Release(id) => assert s.lock == Held(id, s.procs[id].deadline.Floor);
      case _ =>
    }
  }

  /** A lock without a date is what a worker left that died while it took it: with its pid when that was written. */
  lemma {:induction false} UndatedIsADeath(margin: real, steps: seq<Step>)
    requires Exec(margin, steps).0
    ensures var s := Exec(margin, steps).1;
      && (s.lock.Undated? ==> AcquireAndDie(s.lock.owner, true) in steps && s.lock.owner in s.procs && !Alive(s, s.lock.owner))
      && (s.lock.Blind? ==> exists id :: AcquireAndDie(id, false) in steps && id in s.procs && !Alive(s, id))
  {
    if steps != [] {
      var front, last := steps[..|steps| - 1], steps[|steps| - 1];
      assert steps == front + [last];
      UndatedIsADeath(margin, front);
      var s, t := Exec(margin, front).1, Exec(margin, steps).1;
      assert t == Do(s, margin, last);
      if t.lock.Blind? && s.lock.Blind? {
        var id :| AcquireAndDie(id, false) in front && id in s.procs && !Alive(s, id);
        assert AcquireAndDie(id, false) in steps && id in t.procs && !Alive(t, id);
      } else if t.lock.Blind? {
        assert AcquireAndDie(last.id, false) in steps && last.id in t.procs && !Alive(t, last.id);
      }
    }
  }

  ghost predicate NeverToldGone(steps: seq<Step>) {
    forall i :: 0 <= i < |steps| && steps[i].TakeOver? ==> !steps[i].pidGone
  }

  /** A lock with a pid and no deadline is kept as long as that pid is reported alive - reused by another process, say:
      whatever workers come, however late it gets, none of them holds it. */
  lemma {:induction false} UndatedLockStays(margin: real, before: seq<Step>, after: seq<Step>)
    requires margin >= GRACE + 1.0 && Exec(margin, before + after).0
    requires Exec(margin, before).0 && Exec(margin, before).1.lock.Undated? && NeverToldGone(after)
    ensures Exec(margin, before + after).1.lock == Exec(margin, before).1.lock
    ensures forall id :: !Holds(Exec(margin, before + after).1, id)
    decreases |after|
  {
    Reachable(margin, before + after);
    if after == [] {
      assert before + after == before;
    } else {
      var front := after[..|after| - 1];
      assert (before + after)[..|before + after| - 1] == before + front;
      UndatedLockStays(margin, before, front);
    }
  }

  ghost predicate ExclusiveInEveryRun(margin: real) {
    forall steps: seq<Step> :: Exec(margin, steps).0 ==> Exclusive(Exec(margin, steps).1)
  }

  lemma {:induction false} ExecMore(margin: real, steps: seq<Step>, step: Step)
    requires Exec(margin, steps).0 && Enabled(Exec(margin, steps).1, margin, step)
    ensures Exec(margin, steps + [step]) == (true, Do(Exec(margin, steps).1, margin, step))
  {
    assert (steps + [step])[..|steps|] == steps;
  }

  /** What `more` adds to a run. */
  lemma {:induction false} ExecStep(margin: real, steps: seq<Step>, more: seq<Step>, step: Step)
    requires Exec(margin, steps + more).0 && Enabled(Exec(margin, steps + more).1, margin, step)
    ensures Exec(margin, steps + (more + [step])) == (true, Do(Exec(margin, steps + more).1, margin, step))
  {
    ExecMore(margin, steps + more, step);
    assert steps + (more + [step]) == (steps + more) + [step];
  }

  function Dead(s: Sys, ids: set<nat>): Sys {
    s.(procs := map x | x in s.procs :: if x in ids then s.procs[x].(alive := false) else s.procs[x])
  }

  lemma {:induction false} OthersDie(margin: real, steps: seq<Step>, ids: set<nat>) returns (more: seq<Step>)
    requires Exec(margin, steps).0 && forall x :: x in ids ==> Alive(Exec(margin, steps).1, x)
    ensures Exec(margin, steps + more) == (true, Dead(Exec(margin, steps).1, ids))
    ensures forall i :: 0 <= i < |more| ==> more[i].Die?
    decreases ids
  {
    hide Exec;
    var s := Exec(margin, steps).1;
    if ids == {} {
      more := [];
      assert steps + more == steps;
      assert Dead(s, ids).procs == s.procs;
    } else {
      var x :| x in ids;
      more := OthersDie(margin, steps, ids - {x});
      var t := Dead(s, ids - {x});
      ExecStep(margin, steps, more, Die(x));
      assert Do(t, margin, Die(x)).procs == Dead(s, ids).procs;
      more := more + [Die(x)];
    }
  }

  /** A dated lock keeps nobody out for ever: from every state that can be reached, a waiter whose own time goes on past
      the recorded deadline plus the margin comes to hold the lock - though the owner died without releasing it, or its
      pid was reused, and without anybody else dying before its time. */
  lemma {:induction false} WaiterGetsIn(steps: seq<Step>, id: nat) returns (more: seq<Step>)
    requires Exec(MARGIN, steps).0
    requires var s := Exec(MARGIN, steps).1;
      && Alive(s, id) && !s.procs[id].holds && s.lock.Held?
      && s.procs[id].deadline - 2.0 > s.now && s.procs[id].deadline - 2.0 > s.lock.deadline as real + MARGIN
    ensures Exec(MARGIN, steps + more).0 && Holds(Exec(MARGIN, steps + more).1, id)
    ensures var s, t := Exec(MARGIN, steps).1, Exec(MARGIN, steps + more).1;
      forall x :: Alive(s, x) && s.procs[x].deadline + GRACE >= t.now ==> Alive(t, x)
    ensures forall i :: 0 <= i < |more| && more[i].TakeOver? ==> !more[i].pidGone
  {
    hide Exec;
    var s := Exec(MARGIN, steps).1;
    var mine := s.procs[id].deadline;
    var late: real := if s.lock.deadline as real + MARGIN > s.now then s.lock.deadline as real + MARGIN else s.now;
    var now: real := (late + (mine - 2.0)) / 2.0;
    assert late < now < mine - 2.0;
    var ids := set x | x in s.procs && Alive(s, x) && s.procs[x].deadline + GRACE < now;
    more := OthersDie(MARGIN, steps, ids);
    ExecStep(MARGIN, steps, more, Tick(now));
    more := more + [Tick(now)];
    ExecStep(MARGIN, steps, more, TakeOver(id, false));
    more := more + [TakeOver(id, false)];
    ExecStep(MARGIN, steps, more, Acquire(id));
    more := more + [Acquire(id)];
  }

  /** A lock without a date, or without any record, is taken at once by a waiter with time left: the first when its
      owner is reported gone - which `UndatedLockStays` shows it needs. */
  lemma {:induction false} UndatedLockIsTaken(steps: seq<Step>, id: nat) returns (more: seq<Step>)
    requires Exec(MARGIN, steps).0
    requires var s := Exec(MARGIN, steps).1;
      && Alive(s, id) && !s.procs[id].holds && s.procs[id].deadline - s.now > 2.0
      && (s.lock.Blind? || (s.lock.Undated? && !Alive(s, s.lock.owner)))
    ensures Exec(MARGIN, steps + more).0 && Holds(Exec(MARGIN, steps + more).1, id)
    ensures NeverToldGone(more) <==> Exec(MARGIN, steps).1.lock.Blind?
    ensures Exec(MARGIN, steps + more).1.now == Exec(MARGIN, steps).1.now
  {
    hide Exec;
    var gone := Exec(MARGIN, steps).1.lock.Undated?;
    assert steps + [] == steps;
    ExecStep(MARGIN, steps, [], TakeOver(id, gone));
    assert [] + [TakeOver(id, gone)] == [TakeOver(id, gone)];
    ExecStep(MARGIN, steps, [TakeOver(id, gone)], Acquire(id));
    more := [TakeOver(id, gone)] + [Acquire(id)];
    assert more[0] == TakeOver(id, gone);
  }

  /** One worker holds the lock, a second one is there. */
  function TwoWorkers(d: real): Sys {
    Sys(0.0, map[1 := Proc(true, d, true), 2 := Proc(true, 100.0, false)], Held(1, d.Floor))
  }

  lemma {:induction false} ReachTwoWorkers(margin: real, d: real) returns (steps: seq<Step>)
    requires d > 2.0
    ensures Exec(margin, steps) == (true, TwoWorkers(d))
  {
    hide Exec;
    steps := [];
    assert Exec(margin, steps) == (true, START) by {
      ExecNothing(margin);
    }
    ExecMore(margin, steps, Spawn(1, d));
    steps := steps + [Spawn(1, d)];
    ExecMore(margin, steps, Acquire(1));
    steps := steps + [Acquire(1)];
    ExecMore(margin, steps, Spawn(2, 100.0));
    steps := steps + [Spawn(2, 100.0)];
    assert Exec(margin, steps).1.procs == TwoWorkers(d).procs;
  }

  lemma {:induction false} ExecNothing(margin: real)
    ensures Exec(margin, []) == (true, START)
  {
  }

  /** With a smaller margin the fraction the record dropped lets a waiter in while the owner still runs. */
  lemma {:induction false} SmallMarginBreaks(margin: real) returns (steps: seq<Step>)
    requires margin < GRACE + 1.0
    ensures Exec(margin, steps).0 && !Exclusive(Exec(margin, steps).1)
  {
    hide Exec;
    var fraction: real := if margin - GRACE > 0.0 then (margin - GRACE + 1.0) / 2.0 else 0.5;
    assert 0.0 < fraction < 1.0 && fraction > margin - GRACE;
    var d: real := 10.0 + fraction;
    assert d.Floor == 10;
    steps := ReachTwoWorkers(margin, d);
    ExecMore(margin, steps, Tick(d + GRACE));
    steps := steps + [Tick(d + GRACE)];
    ExecMore(margin, steps, TakeOver(2, false));
    steps := steps + [TakeOver(2, false)];
    ExecMore(margin, steps, Acquire(2));
    steps := steps + [Acquire(2)];
    var t := Exec(margin, steps).1;
    assert Holds(t, 1) && Holds(t, 2);
  }

  /** Exclusion holds in every run exactly when the margin makes up for the grace and the dropped fraction. */
  lemma {:induction false} MarginIsExact(margin: real)
    ensures ExclusiveInEveryRun(margin) <==> margin >= GRACE + 1.0
  {
    if margin >= GRACE + 1.0 {
      forall steps: seq<Step> | Exec(margin, steps).0 ensures Exclusive(Exec(margin, steps).1) {
        Reachable(margin, steps);
      }
    } else {
      var steps := SmallMarginBreaks(margin);
    }
  }
}
