/** The worker itself: the methods that resolve, announce, send, confirm and drain, step by step, with a death
    possible after every effect. Everything they do to the state file and the server is a run of the protocol. */
module MirrorRun {
  import opened Options
  import opened Transcript
  import opened MirrorProtocol
  import opened MirrorSafety
  import opened MirrorTheorems

  /** How a step of the worker ended: it may go on, it stopped by itself, or it was killed. */
  datatype Outcome = Done | Stopped | Killed

  /** What the server says to one request, and what one send comes to. */
  datatype Status = Created | RootGone | Busy | Rejected | NotSent | NoReply
  datatype Answer = Ok | DeadRoot | Fail | Unknown

  /** The root of a thread: a post this mirror made, or one somebody else did. */
  datatype Root = Mirror(post: nat) | Other(id: nat)

  datatype Lookup = IsThere(id: nat) | IsNot | AnsweredError | NoLookup

  /** The state file, the spool, the growing transcript, the thread map and the server. */
  class World {
    const c: Conf
    const smooth: bool                  // every answer comes and creates, nobody is killed, no deadline is hit
    var disk: State
    var server: seq<Post>
    var under: seq<Option<Root>>        // per post: the root it was sent with; none, and it opens a thread
    var root: Option<Root>              // what the thread map names for this session
    var vis: nat
    var spoolVis: nat
    ghost var named: seq<Option<Root>>  // per post: what the map named when it was requested
    ghost var gone: set<Root>           // the roots the server said are not there
    ghost var worker: Worker
    ghost var sent: seq<nat>
    ghost var outs: seq<nat>
    ghost var log: Trace            // every protocol step taken so far

    ghost function Now(): Sys
      reads this
    {
      Sys(disk, server, vis, spoolVis, worker, sent, outs)
    }

    ghost predicate Consistent()
      reads this
    {
      WellFormed(c) && Runs(c, log) && After(log) == Now() && |under| == |named| == |server|
    }

    /** Each post went under the root that the map named, and opened a thread exactly when it named none. A root that
        is one of these posts, in the map or over another post, is one that opened a thread. */
    ghost predicate Threaded()
      reads this
    {
      && under == named
      && (root.Some? && root.value.Mirror? ==> Opens(under, root.value.post, |under|))
      && forall i :: 0 <= i < |under| && under[i].Some? && under[i].value.Mirror? ==> Opens(under, under[i].value.post, i)
    }

    ghost predicate Valid()
      reads this
    {
      Consistent() && Threaded()
    }

    constructor (c: Conf, smooth: bool)
      requires WellFormed(c)
      ensures Valid() && this.c == c && this.smooth == smooth && log.steps == []
    {
      this.c, this.smooth := c, smooth;
      disk, server, under, root, vis, spoolVis := State(0, None, None, -1), [], [], None, 0, 0;
      worker, sent, outs, log, named, gone := Down, [], [], Trace([START], []), [], {};
    }

    lemma {:induction false} InvNow()
      requires Valid()
      ensures Inv(c, Now())
    {
      ReachableOk(c, log);
    }

    lemma {:induction false} Bounds()
      requires Valid()
      ensures disk.offset <= vis <= |c.full| && Boundary(c.full, disk.offset) && spoolVis <= |c.spool|
      ensures worker.Up? ==> worker.at <= worker.stop <= |c.items|
    {
      InvNow();
    }

    /** Replaces the state file: one step of the protocol. */
    method Save(st: State, ghost step: Step)
      requires Valid() && Enabled(c, Now(), step)
      requires Do(c, Now(), step) == Now().(disk := st, worker := Do(c, Now(), step).worker)
      modifies this`disk, this`worker, this`log
      ensures Valid() && disk == st && Continues(old(log), log)
      ensures Now() == Do(c, old(Now()), step)
    {
      log := Extended(c, log, step);
      worker := Do(c, Now(), step).worker;
      disk := st;
    }

    /** A step that changes no file: what the worker has come to know. */
    ghost method Note(step: Step)
      requires Consistent() && Enabled(c, Now(), step)
      requires Do(c, Now(), step) == Now().(worker := Do(c, Now(), step).worker)
      modifies this`worker, this`log
      ensures Consistent() && Continues(old(log), log) && Now() == Do(c, old(Now()), step)
    {
      log := Extended(c, log, step);
      worker := Do(c, Now(), step).worker;
    }

    ghost method Die()
      requires Valid()
      modifies this`worker, this`log
      ensures Valid() && Continues(old(log), log) && worker.Down?
    {
      Note(Crash);
    }

    /** Meanwhile the session writes on, notifications arrive, and others write the thread map; and the worker may be
        killed. */
    method Meanwhile() returns (killed: bool)
      requires Valid()
      modifies this`vis, this`spoolVis, this`root, this`worker, this`log
      ensures Valid() && Continues(old(log), log)
      ensures old(vis) <= vis <= |c.full| && old(spoolVis) <= spoolVis <= |c.spool|
      ensures worker == if killed then Down else old(worker)
      ensures smooth ==> !killed
    {
      Grows();
      Elsewhere();
      killed := *;
      killed := killed && !smooth;
      if killed {
        Note(Crash);
      }
    }

    method Grows()
      requires Valid()
      modifies this`vis, this`spoolVis, this`log
      ensures Valid() && Continues(old(log), log)
      ensures old(vis) <= vis <= |c.full| && old(spoolVis) <= spoolVis <= |c.spool|
    {
      hide RunsTo, Before, Base, HasMarker;
      InvNow();
      var v: nat :| vis <= v <= |c.full|;
      var n: nat :| spoolVis <= n <= |c.spool|;
      log := Extended(c, log, Grow(v, n));
      vis, spoolVis := v, n;
    }

    /** Somebody else opens a thread for this session, or finds its root gone. */
    method Elsewhere()
      requires Threaded()
      modifies this`root
      ensures Threaded() && (root == old(root) || root.None? || root.value.Other?)
    {
      var written: bool := *;
      if written {
        var theirs: Option<nat> := *;
        root := if theirs.Some? then Some(Other(theirs.value)) else None;
      }
    }

    /** The worker's own deadline. */
    method Late() returns (late: bool)
      ensures smooth ==> !late
    {
      late := *;
      late := late && !smooth;
    }

    /** One request to create the announced post. The server creates it or not; the worker learns which, or gets
        no answer. */
    method Request(m: Marker, text: string, r: Option<Root>) returns (status: Status)
      requires Consistent() && worker.Up? && worker.flight.Announced? && disk.pending.Some? && m == PendingMarker(Now())
      requires Enabled(c, Now(), Delivered(text, true))
      modifies this`server, this`under, this`named, this`gone, this`worker, this`sent, this`outs, this`log
      ensures Consistent() && Continues(old(log), log)
      ensures status.Created? ==> Now() == Do(c, old(Now()), Delivered(text, true)) && server == old(server) + [Post(m, text)]
      ensures status.Created? ==> under == old(under) + [r] && named == old(named) + [root]
      ensures status.NoReply? ==> worker.Down?
      ensures status.NoReply? ==>
        || (server == old(server) && under == old(under) && named == old(named))
        || (server == old(server) + [Post(m, text)] && under == old(under) + [r] && named == old(named) + [root])
      ensures !status.Created? && !status.NoReply? ==>
        Now() == old(Now()) && under == old(under) && named == old(named)
      ensures status.RootGone? ==> r.Some?
      ensures gone == old(gone) + if status.RootGone? && r.Some? then {r.value} else {}
      ensures smooth ==> status.Created?
    {
      status := *;
      if smooth || (status.RootGone? && r.None?) {
        status := if smooth then Created else Rejected;
      }
      if status.Created? {
        Create(text, r, true);
      } else if status.NoReply? {
        var created: bool := *;
        if created {
          Create(text, r, false);
        } else {
          Note(NotCreated(false));
        }
      } else if status.RootGone? {
        gone := gone + {r.value};
      }
    }

    method Create(text: string, r: Option<Root>, known: bool)
      requires Consistent() && worker.Up? && worker.flight.Announced? && disk.pending.Some?
      requires Enabled(c, Now(), Delivered(text, known))
      modifies this`server, this`under, this`named, this`worker, this`sent, this`outs, this`log
      ensures Consistent() && Continues(old(log), log) && Now() == Do(c, old(Now()), Delivered(text, known))
      ensures under == old(under) + [r] && named == old(named) + [root]
    {
      hide RunsTo, WellFormed, Before, Boundary, HasMarker, Base;
      ghost var next := Do(c, Now(), Delivered(text, known));
      log := Extended(c, log, Delivered(text, known));
      server := server + [Post(Marker(disk.pending.value.uid, disk.pending.value.k), text)];
      under, named := under + [r], named + [root];
      worker, sent, outs := next.worker, next.sent, next.outs;
    }

    /** Looks the marker up among the posts. The server may answer with an error, or not at all. */
    method FindMarker(m: Marker) returns (found: Lookup)
      ensures found.IsThere? ==> found.id < |server| && server[found.id].marker == m
      ensures found.IsNot? ==> !HasMarker(server, m)
      ensures smooth ==> found.IsThere? || found.IsNot?
    {
      found := *;
      if smooth {
        found := IsNot;
      }
      if found.IsThere? || found.IsNot? {
        for i := 0 to |server|
          invariant forall j :: 0 <= j < i ==> server[j].marker != m
        {
          if server[i].marker == m {
            return IsThere(i);
          }
        }
        found := IsNot;
      }
    }
  }

  /** One worker's run. `st` is its copy of the state, ahead of the file between two saves. */
  class Run {
    const w: World
    var st: State

    constructor (w: World)
      ensures this.w == w && st == w.disk
    {
      this.w := w;
      st := w.disk;
    }

    ghost predicate Ready()
      reads this, w
    {
      w.Valid() && st == w.disk
    }

    /** A send announced by an earlier run and never confirmed is looked up before anything else is sent. */
    method ResolvePending() returns (r: Outcome)
      requires Ready() && w.worker.Down?
      modifies this, w
      ensures w.Valid() && Continues(old(w.log), w.log) && w.worker.Down? && w.server == old(w.server)
      ensures r.Done? ==> Ready() && w.disk.pending.None?
      ensures r.Done? && old(w.disk.pending).None? ==> w.disk == old(w.disk)
      ensures r.Done? && old(w.disk.pending).Some? && HasMarker(w.server, PendingMarker(old(w.Now()))) ==>
        w.disk == Settled(old(w.disk))
      ensures r.Done? && old(w.disk.pending).Some? && !HasMarker(w.server, PendingMarker(old(w.Now()))) ==>
        w.disk == old(w.disk).(pending := None)
        || (w.disk == Settled(old(w.disk)) && old(w.disk.pending).value.tries + 1 >= w.c.pendingTries)
      ensures w.smooth ==> r.Done?
      ensures old(w.vis) <= w.vis && old(w.spoolVis) <= w.spoolVis
      ensures r.Done? ==> w.disk.offset == old(w.disk.offset)
    {
      hide RunsTo, WellFormed, Settled, Do;
      if st.pending.None? {
        return Done;
      }
      var pend := st.pending.value;
      var found := w.FindMarker(Marker(pend.uid, pend.k));
      match found
      case NoLookup =>
        return Stopped;
      case AnsweredError =>
        var now: int := *;
        if !Expires(w.c, pend, now) {
          CountError(now);
          return Stopped;
        }
        r := SettlePending(LookupError(now));
      case IsThere(id) =>
        MarkerThere(w.server, id, PendingMarker(w.Now()));
        AdoptRoot(id);
        r := SettlePending(Found);
      case IsNot =>
        r := ForgetPending();
    }

    /** The post that was found opened the thread, and nobody has opened another one since. */
    method AdoptRoot(id: nat)
      requires Ready() && id < |w.server|
      modifies w`root
      ensures Ready() && w.Now() == old(w.Now())
      ensures w.root == if w.under[id].None? && old(w.root).None? then Some(Mirror(id)) else old(w.root)
      ensures old(w.vis) <= w.vis && old(w.spoolVis) <= w.spoolVis
    {
      if w.under[id].None? && w.root.None? {
        w.root := Some(Mirror(id));
      }
    }

    /** The server answered the lookup with an error, and not often enough yet: the next run looks again. */
    method CountError(now: int)
      requires Ready() && w.worker.Down? && w.disk.pending.Some? && !Expires(w.c, w.disk.pending.value, now)
      modifies this`st, w`disk, w`worker, w`log
      ensures w.Valid() && Continues(old(w.log), w.log) && w.worker.Down?
      ensures w.disk == old(w.disk).(pending := Some(FailedOnce(old(w.disk).pending.value, now)))
      ensures old(w.vis) <= w.vis && old(w.spoolVis) <= w.spoolVis
    {
      hide RunsTo, WellFormed, Expires, FailedOnce;
      st := st.(pending := Some(FailedOnce(st.pending.value, now)));
      w.Save(st, LookupError(now));
    }

    /** The pending post is found, or given up: its chunk or notification is recorded as done. */
    method SettlePending(ghost step: Step) returns (r: Outcome)
      requires Ready() && w.worker.Down? && w.disk.pending.Some? && Enabled(w.c, w.Now(), step)
      requires step.Found? || (step.LookupError? && Expires(w.c, w.disk.pending.value, step.now))
      modifies this`st, w`disk, w`vis, w`spoolVis, w`root, w`worker, w`log
      ensures w.Valid() && Continues(old(w.log), w.log) && w.worker.Down?
      ensures w.smooth ==> r.Done?
      ensures r.Done? ==> Ready() && w.disk == Settled(old(w.disk)) && w.disk.pending.None?
      ensures old(w.vis) <= w.vis && old(w.spoolVis) <= w.spoolVis
      ensures r.Done? ==> w.disk.offset == old(w.disk.offset)
    {
      hide RunsTo, WellFormed, Expires, HasMarker;
      var pend := st.pending.value;
      if pend.uid.Out? {
        st := st.(outboxLast := if st.outboxLast < pend.uid.name then pend.uid.name else st.outboxLast, pending := None);
      } else {
        st := st.(partial := Some(Partial(pend.uid, pend.k + 1)), pending := None);
      }
      w.Save(st, step);
      var killed := w.Meanwhile();
      return if killed then Killed else Done;
    }

    /** The pending post was not created: its marker is forgotten, and it is sent again. */
    method ForgetPending() returns (r: Outcome)
      requires Ready() && w.worker.Down? && w.disk.pending.Some? && !HasMarker(w.server, PendingMarker(w.Now()))
      modifies this`st, w`disk, w`vis, w`spoolVis, w`root, w`worker, w`log
      ensures w.Valid() && Continues(old(w.log), w.log) && w.worker.Down?
      ensures w.smooth ==> r.Done?
      ensures r.Done? ==> Ready() && w.disk == old(w.disk).(pending := None)
      ensures old(w.vis) <= w.vis && old(w.spoolVis) <= w.spoolVis
    {
      hide RunsTo, WellFormed, HasMarker;
      st := st.(pending := None);
      w.Save(st, Absent);
      var killed := w.Meanwhile();
      return if killed then Killed else Done;
    }

    /** Up to three requests: only an answer that says nothing was created is followed by another one. */
    method PostOnce(m: Marker, text: string, r: Option<Root>) returns (a: Answer)
      requires w.Consistent() && w.worker.Up? && w.worker.flight.Announced? && w.disk.pending.Some?
      requires m == PendingMarker(w.Now()) && Enabled(w.c, w.Now(), Delivered(text, true))
      modifies w`server, w`under, w`named, w`gone, w`worker, w`sent, w`outs, w`log
      ensures w.Consistent() && Continues(old(w.log), w.log)
      ensures a.Ok? ==>
        w.Now() == Do(w.c, old(w.Now()), Delivered(text, true)) && w.server == old(w.server) + [Post(m, text)]
      ensures a.Ok? ==> w.under == old(w.under) + [r] && w.named == old(w.named) + [w.root]
      ensures a.Unknown? ==> w.worker.Down?
      ensures a.Unknown? ==>
        || (w.server == old(w.server) && w.under == old(w.under) && w.named == old(w.named))
        || (w.server == old(w.server) + [Post(m, text)] && w.under == old(w.under) + [r] && w.named == old(w.named) + [w.root])
      ensures a.DeadRoot? || a.Fail? ==>
        w.Now() == old(w.Now()) && w.under == old(w.under) && w.named == old(w.named)
      ensures a.DeadRoot? ==> r.Some?
      ensures w.gone == old(w.gone) + if a.DeadRoot? && r.Some? then {r.value} else {}
      ensures w.smooth ==> a.Ok?
    {
      hide RunsTo, WellFormed, Enabled, Do, HasMarker;
      var attempt := 0;
      while attempt < 3
        invariant 0 <= attempt <= 3 && (w.smooth ==> attempt == 0)
        invariant w.Consistent() && Continues(old(w.log), w.log)
        invariant w.Now() == old(w.Now()) && w.under == old(w.under) && w.named == old(w.named) && w.gone == old(w.gone)
      {
        var status := w.Request(m, text, r);
        match status {
          case Created => return Ok;
          case NoReply => return Unknown;
          case NotSent => return Fail;
          case RootGone => return DeadRoot;
          case Rejected => return Fail;
          case Busy =>
            var timeLeft: bool := *;
            if attempt == 2 || !timeLeft {
              return Fail;
            }
        }
        attempt := attempt + 1;
      }
      return Fail;
    }

    /** Posts into the session's thread, opening one when there is none or the old one is gone. However many
        requests it takes, at most one post is created - under the root that the map names, which is the post itself
        if it opened the thread. The map loses a root only when the server said it is gone. */
    method Send(m: Marker, text: string) returns (a: Answer)
      requires w.Valid() && w.worker.Up? && w.worker.flight.Announced? && w.disk.pending.Some?
      requires m == PendingMarker(w.Now()) && Enabled(w.c, w.Now(), Delivered(text, true))
      modifies w`server, w`under, w`named, w`gone, w`root, w`worker, w`sent, w`outs, w`log
      ensures w.Valid() && Continues(old(w.log), w.log)
      ensures a.Ok? ==>
        w.Now() == Do(w.c, old(w.Now()), Delivered(text, true)) && w.server == old(w.server) + [Post(m, text)]
      ensures a.Ok? ==> w.root.Some? && |w.under| == |old(w.under)| + 1 && old(w.under) <= w.under
      ensures a.Ok? ==>
        w.under[|old(w.server)|] == if w.root == Some(Mirror(|old(w.server)|)) then None else w.root
      ensures a.Ok? && old(w.root).Some? && old(w.root).value !in w.gone ==>
        w.root == old(w.root) && w.under[|old(w.server)|] == w.root
      ensures w.root != old(w.root) && old(w.root).Some? ==> old(w.root).value in w.gone
      ensures a.Unknown? ==> w.worker.Down?
      ensures a.Unknown? ==>
        || (w.server == old(w.server) && w.under == old(w.under))
        || (w.server == old(w.server) + [Post(m, text)] && w.under == old(w.under) + [w.root])
      ensures a.DeadRoot? || a.Fail? ==> w.Now() == old(w.Now()) && w.under == old(w.under)
      ensures w.smooth ==> a.Ok?
    {
      hide RunsTo, WellFormed, Enabled, Do, HasMarker, Base;
      if w.root.Some? {
        a := PostOnce(m, text, w.root);
        if !a.DeadRoot? {
          return;
        }
        w.root := None;
      }
      a := SendLocked(m, text);
    }

    /** Under the announce lock, when the map named no root: somebody may have opened the thread in the meantime. */
    method SendLocked(m: Marker, text: string) returns (a: Answer)
      requires w.Valid() && w.worker.Up? && w.worker.flight.Announced? && w.disk.pending.Some? && w.root.None?
      requires m == PendingMarker(w.Now()) && Enabled(w.c, w.Now(), Delivered(text, true))
      modifies w`server, w`under, w`named, w`gone, w`root, w`worker, w`sent, w`outs, w`log
      ensures w.Valid() && Continues(old(w.log), w.log) && old(w.gone) <= w.gone
      ensures a.Ok? ==>
        w.Now() == Do(w.c, old(w.Now()), Delivered(text, true)) && w.server == old(w.server) + [Post(m, text)]
      ensures a.Ok? ==>
        w.root.Some?
        && w.under == old(w.under) + [if w.root == Some(Mirror(|old(w.server)|)) then None else w.root]
      ensures a.Unknown? ==> w.worker.Down?
      ensures a.Unknown? ==>
        || (w.server == old(w.server) && w.under == old(w.under))
        || (w.server == old(w.server) + [Post(m, text)] && w.under == old(w.under) + [w.root])
      ensures a.DeadRoot? || a.Fail? ==> w.Now() == old(w.Now()) && w.under == old(w.under)
      ensures w.smooth ==> a.Ok?
    {
      hide RunsTo, WellFormed, Enabled, Do, HasMarker, Base;
      w.Elsewhere();
      if w.root.Some? {
        a := PostOnce(m, text, w.root);
      } else {
        a := PostOnce(m, text, None);
        if a.Ok? {
          w.root := Some(Mirror(|w.server| - 1));
        }
      }
    }

    /** The step that announces chunk `k` of `uid`, and the message it is for. */
    ghost predicate MayAnnounce(announce: Step, uid: Uid, k: nat, message: string)
      reads this, w
    {
      w.Valid() && Announces(w.c, w.Now(), announce, uid, k, message)
    }

    /** The marker is written to the state file before the request is made. */
    method Announce(uid: Uid, k: nat, ghost message: string, ghost announce: Step) returns (killed: bool)
      requires Ready() && MayAnnounce(announce, uid, k, message)
      modifies this`st, w`disk, w`vis, w`spoolVis, w`root, w`worker, w`log
      ensures w.Valid() && Continues(old(w.log), w.log)
      ensures killed ==> w.worker.Down?
      ensures w.smooth ==> !killed
      ensures !killed ==> Ready() && w.disk == old(w.disk).(pending := Some(Pending(uid, k, 0, None)))
      ensures !killed ==> w.worker == old(w.worker).(flight := Announced)
      ensures !killed ==> Enabled(w.c, w.Now(), Delivered(message, true))
      ensures old(w.vis) <= w.vis && old(w.spoolVis) <= w.spoolVis
    {
      hide RunsTo, WellFormed, Flatten, Base, Before, Boundary, HasMarker;
      assert st.pending.None?;
      AnnouncePends(w.c, w.Now(), announce, uid, k, message);
      killed := w.Meanwhile();
      if killed {
        return;
      }
      AnnouncesLater(w.c, old(w.Now()), w.Now(), announce, uid, k, message);
      AnnouncePends(w.c, w.Now(), announce, uid, k, message);
      st := st.(pending := Some(Pending(uid, k, 0, None)));
      w.Save(st, announce);
      label saved:
      killed := w.Meanwhile();
      if !killed {
        DeliverLater(w.c, old@saved(w.Now()), w.Now(), message);
      }
    }

    /** One marked send. `Done` leaves the file with the marker still in it; the caller's next save replaces it by
        the new mark. */
    method SendMarked(uid: Uid, k: nat, message: string, ghost announce: Step) returns (r: Outcome)
      requires Ready() && MayAnnounce(announce, uid, k, message)
      modifies this`st, w
      ensures w.Valid() && Continues(old(w.log), w.log)
      ensures r.Done? ==> w.worker == old(w.worker).(flight := Acked)
      ensures r.Done? ==> w.disk == old(w.disk).(pending := Some(Pending(uid, k, 0, None))) && st == old(w.disk)
      ensures r.Done? ==> w.server == old(w.server) + [Post(Marker(uid, k), message)]
      ensures !r.Done? ==> w.worker.Down?
      ensures !r.Done? ==> w.server == old(w.server) || w.server == old(w.server) + [Post(Marker(uid, k), message)]
      ensures old(w.vis) <= w.vis && old(w.spoolVis) <= w.spoolVis
      ensures w.smooth ==> r.Done?
    {
      var killed := Announce(uid, k, message, announce);
      if killed {
        return Killed;
      }
      r := Transmit(uid, k, message);
    }

    /** The request for the announced post and what its answer does to the state. No answer leaves the marker. */
    method Transmit(uid: Uid, k: nat, message: string) returns (r: Outcome)
      requires Ready() && w.worker.Up? && w.worker.flight.Announced?
      requires w.disk.pending.Some? && PendingMarker(w.Now()) == Marker(uid, k)
      requires Enabled(w.c, w.Now(), Delivered(message, true))
      modifies this`st, w
      ensures w.Valid() && Continues(old(w.log), w.log)
      ensures r.Done? ==> w.worker == old(w.worker).(flight := Acked)
      ensures r.Done? ==> w.disk == old(w.disk) && st == w.disk.(pending := None)
      ensures r.Done? ==> w.server == old(w.server) + [Post(Marker(uid, k), message)]
      ensures !r.Done? ==> w.worker.Down?
      ensures !r.Done? ==> w.server == old(w.server) || w.server == old(w.server) + [Post(Marker(uid, k), message)]
      ensures old(w.vis) <= w.vis && old(w.spoolVis) <= w.spoolVis
      ensures w.smooth ==> r.Done?
    {
      hide RunsTo, WellFormed, Flatten, Base, Before, Boundary, HasMarker;
      var a := Send(Marker(uid, k), message);
      if a.Unknown? {
        return Stopped;
      }
      var killed := w.Meanwhile();
      if killed {
        return Killed;
      }
      st := st.(pending := None);
      if a.Ok? {
        return Done;
      }
      w.Save(st, NotCreated(true));
      return Stopped;
    }

    /** The worker is at item `a` of its read, with nothing announced. */
    ghost predicate At(a: nat)
      reads this, w
    {
      Ready() && Idle(w.Now()) && w.worker.at == a < w.worker.stop <= |w.c.items|
    }

    /** One chunk of item `a`: sent, then recorded as done. */
    method PostChunk(uid: Uid, k: nat, chunk: string, ghost a: nat) returns (r: Outcome)
      requires At(a) && uid == w.c.items[a].uid && DoneOf(w.c, a, w.disk) == k < |w.c.render(w.c.items[a])|
      requires chunk == w.c.render(w.c.items[a])[k]
      modifies this`st, w
      ensures w.Valid() && Continues(old(w.log), w.log)
      ensures r.Done? ==> At(a) && DoneOf(w.c, a, w.disk) == k + 1 && w.worker == old(w.worker)
      ensures r.Done? ==> w.disk == old(w.disk).(partial := w.disk.partial)
      ensures r.Done? ==> w.server == old(w.server) + [Post(Marker(uid, k), chunk)]
      ensures !r.Done? ==> w.worker.Down?
      ensures old(w.vis) <= w.vis && old(w.spoolVis) <= w.spoolVis
      ensures w.smooth ==> r.Done?
    {
      hide RunsTo, Flatten, ChunkPosts, Base, Before, Boundary, HasMarker;
      NotOut(w.c, a, uid);
      r := SendMarked(uid, k, chunk, AnnounceItem);
      if r.Done? {
        st := st.(partial := Some(Partial(uid, k + 1)));
        w.Save(st, Confirm);
      }
    }

    /** The chunks of item `a` that are not yet recorded as posted, in order. */
    method PostChunks(uid: Uid, chunks: seq<string>, ghost a: nat) returns (r: Outcome)
      requires At(a) && uid == w.c.items[a].uid && chunks == w.c.render(w.c.items[a])
      modifies this`st, w
      ensures w.Valid() && Continues(old(w.log), w.log)
      ensures r.Done? ==> At(a) && DoneOf(w.c, a, w.disk) >= |chunks| && w.worker == old(w.worker)
      ensures r.Done? ==> w.disk == old(w.disk).(partial := w.disk.partial)
      ensures r.Done? ==> w.server == old(w.server) + ChunkPosts(w.c, w.c.items[a])[ResumeAt(w.c, old(w.disk), a)..]
      ensures !r.Done? ==> w.worker.Down?
      ensures old(w.vis) <= w.vis && old(w.spoolVis) <= w.spoolVis
      ensures w.smooth ==> r.Done?
    {
      hide RunsTo, WellFormed, Inv, Do, Enabled, Flatten, Base, Settled, DoneOf;
      DoneNow(w, a);
      var k := if st.partial.Some? && st.partial.value.uid == uid then st.partial.value.done else 0;
      assert k == DoneOf(w.c, a, w.disk);
      ghost var before, posts, n := w.server, ChunkPosts(w.c, w.c.items[a]), k;
      while k < |chunks|
        invariant w.Valid() && Continues(old(w.log), w.log) && old(w.vis) <= w.vis && old(w.spoolVis) <= w.spoolVis
        invariant n <= k <= |chunks| == |posts|
        invariant At(a) && DoneOf(w.c, a, w.disk) == k && w.worker == old(w.worker)
        invariant w.disk == old(w.disk).(partial := w.disk.partial)
        invariant w.server == before + posts[n..k]
      {
        var late := w.Late();
        if late {
          w.Die();
          return Stopped;
        }
        r := PostChunk(uid, k, chunks[k], a);
        if !r.Done? {
          return;
        }
        OneMore(before, posts, n, k);
        k := k + 1;
      }
      return Done;
    }

    /** Notification `i`, the next in order: posted and recorded, or passed over when its file is no use. */
    method FlushOne(i: nat, prompts: seq<nat>) returns (r: Outcome)
      requires Ready() && Idle(w.Now()) && NextOut(w.c, w.Now(), i) && w.worker.at <= |w.c.items|
      modifies this`st, w
      ensures w.Valid() && Continues(old(w.log), w.log)
      ensures r.Done? ==> Ready() && w.worker == old(w.worker)
      ensures r.Done? ==> w.disk == old(w.disk).(outboxLast := w.c.spool[i].name)
      ensures r.Done? ==> w.server == old(w.server) + NoticePost(w.c, i, prompts)
      ensures !r.Done? ==> w.worker.Down?
      ensures old(w.vis) <= w.vis && old(w.spoolVis) <= w.spoolVis
      ensures w.smooth ==> r.Done?
    {
      hide RunsTo, WellFormed, Flatten, ChunkPosts, Base, Before, Boundary, HasMarker;
      var it := w.c.spool[i];
      if it.Readable() {
        r := SendMarked(Out(it.name), 0, NoticeText(it, prompts), AnnounceOut(i));
        if r.Done? {
          st := st.(outboxLast := it.name);
          w.Save(st, Confirm);
        }
      } else {
        st := st.(outboxLast := it.name);
        w.Save(st, SkipOut(i));
        return Done;
      }
    }

    /** Notification `i` of a scan that started after `last`, unless it was posted before. */
    method FlushFrom(i: nat, last: int, prompts: seq<nat>) returns (r: Outcome)
      requires Ready() && Idle(w.Now()) && i < w.spoolVis && i < |w.c.spool| && Reached(w.c, last, w.disk.outboxLast, i)
      modifies this`st, w
      ensures w.Valid() && Continues(old(w.log), w.log)
      ensures r.Done? ==> Ready() && w.worker == old(w.worker)
      ensures r.Done? ==> w.disk == old(w.disk).(outboxLast := w.disk.outboxLast)
      ensures r.Done? ==> Reached(w.c, last, w.disk.outboxLast, i + 1)
      ensures r.Done? ==> w.server == old(w.server) + NoticePostAfter(w.c, last, i, prompts)
      ensures !r.Done? ==> w.worker.Down?
      ensures old(w.vis) <= w.vis && old(w.spoolVis) <= w.spoolVis
      ensures w.smooth ==> r.Done?
    {
      hide RunsTo, Enabled, Do, HasMarker, NoticePost;
      if w.c.spool[i].name <= last {
        return Done;
      }
      w.Bounds();
      ReachedNext(w.c, last, w.disk.outboxLast, i);
      r := FlushOne(i, prompts);
    }

    /** The notifications stamped at or before `upto` (all when `None`), in order, after the last one posted. */
    method FlushSpool(upto: Option<nat>, prompts: seq<nat>) returns (r: Outcome)
      requires Ready() && Idle(w.Now())
      modifies this`st, w
      ensures w.Valid() && Continues(old(w.log), w.log)
      ensures r.Done? ==> Ready() && w.worker == old(w.worker)
      ensures r.Done? ==> w.disk == old(w.disk).(outboxLast := w.disk.outboxLast)
      ensures r.Done? ==>
        Flushed(w.c, old(w.disk.outboxLast), w.disk.outboxLast, old(w.spoolVis), upto, prompts, old(w.server), w.server)
      ensures !r.Done? ==> w.worker.Down?
      ensures old(w.vis) <= w.vis && old(w.spoolVis) <= w.spoolVis
      ensures w.smooth ==> r.Done?
    {
      hide RunsTo, WellFormed, Inv, Do, Enabled, Reached, StopsAt, NoticePostAfter;
      w.Bounds();
      NothingReached(w.c, st.outboxLast);
      var last, seen, i := st.outboxLast, w.spoolVis, 0;
      ghost var before := w.server;
      while i < seen && !StopsAt(w.c.spool[i], last, upto)
        invariant 0 <= i <= seen <= w.spoolVis && seen <= |w.c.spool| && old(w.vis) <= w.vis
        invariant Ready() && Continues(old(w.log), w.log)
        invariant w.worker == old(w.worker) && w.disk == old(w.disk).(outboxLast := w.disk.outboxLast)
        invariant Reached(w.c, last, w.disk.outboxLast, i) && forall j :: 0 <= j < i ==> !StopsAt(w.c.spool[j], last, upto)
        invariant w.server == before + NoticePosts(w.c, last, i, prompts)
      {
        r := FlushFrom(i, last, prompts);
        if !r.Done? {
          return;
        }
        i := i + 1;
      }
      ReachedIsFlushed(w.c, last, w.disk.outboxLast, seen, i, upto);
      return Done;
    }

    /** One item of the read: the notifications stamped before it, its chunks, then the mark moves past it. */
    method PostItem(item: Item, prompts: seq<nat>, ghost a: nat) returns (r: Outcome)
      requires At(a) && item == w.c.items[a]
      modifies this`st, w
      ensures w.Valid() && Continues(old(w.log), w.log)
      ensures r.Done? ==> Ready() && w.worker == old(w.worker).(at := a + 1)
      ensures r.Done? ==> w.disk == old(w.disk).(offset := item.end, partial := None, outboxLast := w.disk.outboxLast)
      ensures r.Done? ==> ItemPosted(w.c, old(w.disk), a, prompts, old(w.server), w.server, w.disk.outboxLast)
      ensures !r.Done? ==> w.worker.Down?
      ensures w.smooth ==> r.Done?
      ensures old(w.vis) <= w.vis && old(w.spoolVis) <= w.spoolVis
    {
      hide RunsTo, WellFormed, Flatten, Base, Before, Boundary, HasMarker, Flushed, ChunkPosts;
      r := FlushSpool(Some(item.start), prompts);
      if !r.Done? {
        return;
      }
      ghost var mid := w.server;
      var late := w.Late();
      if late {
        w.Die();
        return Stopped;
      }
      r := ChunksIfAny(item, a);
      if !r.Done? {
        return;
      }
      st := st.(offset := item.end, partial := None);
      w.Save(st, Advance);
      PostedBehind(w.c, old(w.disk), a, prompts, old(w.spoolVis), old(w.server), mid, w.server, w.disk.outboxLast);
      return Done;
    }

    method ChunksIfAny(item: Item, ghost a: nat) returns (r: Outcome)
      requires At(a) && item == w.c.items[a]
      modifies this`st, w
      ensures w.Valid() && Continues(old(w.log), w.log)
      ensures r.Done? ==> At(a) && DoneOf(w.c, a, w.disk) >= |w.c.render(item)| && w.worker == old(w.worker)
      ensures r.Done? ==> w.disk == old(w.disk).(partial := w.disk.partial)
      ensures r.Done? ==> w.server == old(w.server) + ChunkPosts(w.c, item)[ResumeAt(w.c, old(w.disk), a)..]
      ensures !r.Done? ==> w.worker.Down?
      ensures old(w.vis) <= w.vis && old(w.spoolVis) <= w.spoolVis
      ensures w.smooth ==> r.Done?
    {
      hide RunsTo, WellFormed, Enabled, Do, HasMarker;
      var chunks := w.c.render(item);
      if chunks == [] {
        return Done;
      }
      r := PostChunks(item.uid, chunks, a);
    }

    /** Posts, in order, every item of the new complete lines and every notification at its position. */
    method Drain() returns (r: Outcome)
      requires Ready() && w.disk.pending.None? && MayRead(w.Now())
      modifies this`st, w
      ensures w.Valid() && Continues(old(w.log), w.log)
      ensures r.Done? ==> Ready() && Drained(w.c, w.Now())
      ensures r.Done? && ExtrasSilent(w.c) && NeverExpires(w.c, w.log) ==>
        Flatten(w.c, Before(w.c, w.disk.offset)) <= ItemPosts(w.server) <= Master(w.c)
      ensures !r.Done? ==> w.worker.Down?
      ensures w.smooth ==> r.Done?
      ensures old(w.vis) <= w.vis && old(w.spoolVis) <= w.spoolVis
      ensures r.Done? ==> PassedTo(w.c, w.disk.outboxLast, old(w.spoolVis))
      ensures w.smooth ==> EndOfRead(w.c, old(w.disk.offset), old(w.vis), w.disk.offset)
    {
      var readable: bool := *;
      if !readable && !w.smooth {
        r := DrainSpoolOnly();
      } else {
        r := DrainTranscript();
      }
      if r.Done? {
        w.Bounds();
        AllPosted(w);
      }
    }

    method DrainSpoolOnly() returns (r: Outcome)
      requires Ready() && w.disk.pending.None? && MayRead(w.Now())
      modifies this`st, w
      ensures w.Valid() && Continues(old(w.log), w.log)
      ensures r.Done? ==> Ready() && Drained(w.c, w.Now())
      ensures !r.Done? ==> w.worker.Down?
      ensures w.smooth ==> r.Done?
      ensures old(w.vis) <= w.vis && old(w.spoolVis) <= w.spoolVis
      ensures r.Done? ==> PassedTo(w.c, w.disk.outboxLast, old(w.spoolVis))
    {
      w.Bounds();
      ReadNothing(w.c, w.disk.offset);
      w.Note(Read(w.disk.offset));
      r := FlushSpool(None, []);
      if r.Done? {
        AllFlushed(w.c, old(w.disk.outboxLast), w.disk.outboxLast, old(w.spoolVis), [], old(w.server), w.server);
      }
    }

    method DrainTranscript() returns (r: Outcome)
      requires Ready() && w.disk.pending.None? && MayRead(w.Now())
      modifies this`st, w
      ensures w.Valid() && Continues(old(w.log), w.log)
      ensures r.Done? ==> Ready() && Drained(w.c, w.Now())
      ensures r.Done? ==> EndOfRead(w.c, old(w.disk.offset), old(w.vis), w.disk.offset)
      ensures !r.Done? ==> w.worker.Down?
      ensures w.smooth ==> r.Done?
      ensures old(w.vis) <= w.vis && old(w.spoolVis) <= w.spoolVis
      ensures r.Done? ==> PassedTo(w.c, w.disk.outboxLast, old(w.spoolVis))
    {
      hide RunsTo, WellFormed, Enabled, Do, Before, Boundary, EndOfRead, Flushed, ItemsPosted, PromptStarts, MayRead;
      var msgs, end := BeginRead();
      r := PostAll(msgs, w.worker.at);
      if !r.Done? {
        return;
      }
      EndRead(end);
      ghost var last, seen, before := w.disk.outboxLast, w.spoolVis, w.server;
      r := FlushSpool(None, PromptStarts(msgs));
      if r.Done? {
        AllFlushed(w.c, last, w.disk.outboxLast, seen, PromptStarts(msgs), before, w.server);
      }
    }

    /** The complete lines behind the mark are read: their items are this worker's list. */
    method BeginRead() returns (msgs: seq<Item>, end: nat)
      requires Ready() && w.disk.pending.None? && MayRead(w.Now())
      modifies w`worker, w`log
      ensures Ready() && Continues(old(w.log), w.log) && Idle(w.Now())
      ensures w.worker.stop == w.worker.at + |msgs| <= |w.c.items| && msgs == w.c.items[w.worker.at..w.worker.stop]
      ensures w.worker.end == end <= |w.c.full| && w.worker.stop == Before(w.c, end)
      ensures EndOfRead(w.c, w.disk.offset, w.vis, end)
      ensures old(w.vis) <= w.vis && old(w.spoolVis) <= w.spoolVis
    {
      hide RunsTo, Before, Boundary, Items, End;
      w.Bounds();
      ReadIsSlice(w.c, st.offset, w.vis);
      msgs, end := ReadNew(w.c.full[..w.vis], st.offset, w.c.parse);
      w.Note(Read(w.vis));
    }

    /** The mark moves to the end of what was read. */
    method EndRead(end: nat)
      requires Ready() && Idle(w.Now()) && w.worker.at == w.worker.stop && end == w.worker.end
      modifies this`st, w`disk, w`worker, w`log
      ensures Ready() && Continues(old(w.log), w.log) && w.worker == old(w.worker)
      ensures w.disk == old(w.disk).(offset := end)
      ensures old(w.vis) <= w.vis && old(w.spoolVis) <= w.spoolVis
    {
      hide RunsTo, Before, Boundary, WellFormed;
      st := st.(offset := end);
      w.Save(st, Finish);
    }

    method PostAll(msgs: seq<Item>, ghost n: nat) returns (r: Outcome)
      requires Ready() && Idle(w.Now()) && w.worker.at == n && w.worker.stop == n + |msgs| <= |w.c.items|
      requires msgs == w.c.items[n..n + |msgs|]
      modifies this`st, w
      ensures w.Valid() && Continues(old(w.log), w.log)
      ensures r.Done? ==> Ready() && Idle(w.Now()) && w.worker == old(w.worker).(at := n + |msgs|)
      ensures r.Done? ==>
        ItemsPosted(w.c, old(w.disk), n, |msgs|, PromptStarts(msgs), old(w.server), w.server, w.disk.outboxLast)
      ensures !r.Done? ==> w.worker.Down?
      ensures w.smooth ==> r.Done?
      ensures old(w.vis) <= w.vis && old(w.spoolVis) <= w.spoolVis
    {
      hide RunsTo, WellFormed, ItemPosted, ItemsPosted;
      var prompts := PromptStarts(msgs);
      ghost var d, before := w.disk, w.server;
      NoItemsPosted(w.c, d, n, prompts, before);
      var i := 0;
      while i < |msgs|
        invariant 0 <= i <= |msgs| && old(w.vis) <= w.vis && old(w.spoolVis) <= w.spoolVis
        invariant Ready() && Continues(old(w.log), w.log)
        invariant Idle(w.Now()) && w.worker == old(w.worker).(at := n + i)
        invariant ItemsPosted(w.c, d, n, i, prompts, before, w.server, w.disk.outboxLast)
        invariant w.disk.partial == if i == 0 then d.partial else None
      {
        ghost var s, server := w.disk, w.server;
        r := PostItem(msgs[i], prompts, n + i);
        if !r.Done? {
          return;
        }
        OneMoreItem(w.c, d, n, i, prompts, before, server, s, w.server, w.disk.outboxLast);
        i := i + 1;
      }
      return Done;
    }

    /** A whole run: resolve, drain, drain again while waiting, and go away - or die anywhere on the way. When nothing
        goes wrong it ends with everything posted that was there to post when it began. */
    method Execute()
      requires Ready() && w.worker.Down?
      modifies this, w
      ensures w.Valid() && Continues(old(w.log), w.log) && w.worker.Down?
      ensures old(w.vis) <= w.vis && old(w.spoolVis) <= w.spoolVis
      ensures w.smooth ==> w.disk.pending.None? && PassedTo(w.c, w.disk.outboxLast, old(w.spoolVis))
      ensures w.smooth ==> ReadPast(w.c, old(w.disk.offset), old(w.vis), w.disk.offset)
    {
      hide RunsTo, WellFormed, Enabled, Do, HasMarker, Drained, MayRead, PassedTo, EndOfRead;
      var r := ResolvePending();
      if r.Done? {
        DownMayRead(w.Now());
        ghost var v, n := w.vis, w.spoolVis;
        r := Drain();
        if w.smooth {
          ReadFirst(w.c, old(w.disk.offset), old(w.vis), v, w.disk.offset);
          PassedFewer(w.c, w.disk.outboxLast, old(w.spoolVis), n);
        }
        var again: bool := *;
        var polls: nat := *;
        while r.Done? && again && polls > 0
          invariant w.Valid() && Continues(old(w.log), w.log)
          invariant old(w.vis) <= w.vis && old(w.spoolVis) <= w.spoolVis
          invariant if r.Done? then Ready() && Drained(w.c, w.Now()) else w.worker.Down?
          invariant w.smooth ==> r.Done? && PassedTo(w.c, w.disk.outboxLast, old(w.spoolVis))
          invariant w.smooth ==> ReadPast(w.c, old(w.disk.offset), old(w.vis), w.disk.offset)
          decreases polls
        {
          ghost var o, v', n' := w.disk.offset, w.vis, w.spoolVis;
          DrainedMayRead(w.c, w.Now());
          r := Drain();
          if w.smooth {
            ReadOn(w.c, old(w.disk.offset), old(w.vis), o, v', w.disk.offset);
            PassedFewer(w.c, w.disk.outboxLast, old(w.spoolVis), n');
          }
          again := *;
          polls := polls - 1;
        }
        if r.Done? {
          DrainedMayRead(w.c, w.Now());
        }
      }
      if r.Done? {
        w.Die();
      }
    }
  }

  /** Every complete line that was visible is behind the mark: it is where a read of that much or more ends. */
  ghost predicate ReadPast(c: Conf, o: nat, vis: nat, end: nat) {
    exists v: nat :: vis <= v && EndOfRead(c, o, v, end)
  }

  ghost predicate Opens(under: seq<Option<Root>>, post: nat, n: nat) {
    post < n <= |under| && under[post].None?
  }

  /** How many chunks of the current item are recorded, as the worker reads it off its state. */
  lemma {:induction false} DoneNow(w: World, a: nat)
    requires w.Valid() && Idle(w.Now()) && w.worker.at == a < w.worker.stop <= |w.c.items|
    ensures DoneOf(w.c, a, w.disk) <= |w.c.render(w.c.items[a])|
    ensures DoneOf(w.c, a, w.disk) == var part := w.disk.partial;
      if part.Some? && part.value.uid == w.c.items[a].uid then part.value.done else 0
  {
    hide RunsTo;
    w.InvNow();
    DoneBounded(w.c, w.Now());
  }

  /** What posting item `a` from state `d` adds: the notifications stamped up to its place, then its chunks from the
      first one not yet recorded. */
  ghost predicate ItemPosted(
    c: Conf, d: State, a: nat, prompts: seq<nat>, before: seq<Post>, after: seq<Post>, last: int)
    requires a < |c.items|
  {
    exists seen: nat, mid: seq<Post> ::
      Flushed(c, d.outboxLast, last, seen, Some(c.items[a].start), prompts, before, mid)
      && after == mid + ChunkPosts(c, c.items[a])[ResumeAt(c, d, a)..]
  }

  lemma {:induction false} PostedBehind(
    c: Conf, d: State, a: nat, prompts: seq<nat>, seen: nat, before: seq<Post>, mid: seq<Post>,
                     after: seq<Post>, last: int)
    requires a < |c.items| && Flushed(c, d.outboxLast, last, seen, Some(c.items[a].start), prompts, before, mid)
    requires after == mid + ChunkPosts(c, c.items[a])[ResumeAt(c, d, a)..]
    ensures ItemPosted(c, d, a, prompts, before, after, last)
  {
    hide Flushed, ChunkPosts;
  }

  /** The state in which item `n + i` of a read is reached. */
  function Reaching(d: State, i: nat, last: int): State {
    d.(outboxLast := last, partial := if i == 0 then d.partial else None)
  }

  /** What posting the `m` items from `n` on adds: one item behind the other. */
  ghost predicate ItemsPosted(c: Conf, d: State, n: nat, m: nat, prompts: seq<nat>, before: seq<Post>,
                              after: seq<Post>, last: int)
    requires n + m <= |c.items|
  {
    if m == 0 then after == before && last == d.outboxLast
    else
      var k := m - 1;
      exists mid: seq<Post>, at: int ::
        ItemsPosted(c, d, n, k, prompts, before, mid, at)
        && ItemPosted(c, Reaching(d, k, at), n + k, prompts, mid, after, last)
  }

  lemma {:induction false} NoItemsPosted(c: Conf, d: State, n: nat, prompts: seq<nat>, before: seq<Post>)
    requires n <= |c.items|
    ensures ItemsPosted(c, d, n, 0, prompts, before, before, d.outboxLast)
  {
  }

  lemma {:induction false} OneMoreItem(
    c: Conf, d: State, n: nat, i: nat, prompts: seq<nat>, before: seq<Post>, mid: seq<Post>, s: State,
                    after: seq<Post>, last: int)
    requires n + i < |c.items| && ItemsPosted(c, d, n, i, prompts, before, mid, s.outboxLast)
    requires s.partial == if i == 0 then d.partial else None
    requires ItemPosted(c, s, n + i, prompts, mid, after, last)
    ensures ItemsPosted(c, d, n, i + 1, prompts, before, after, last)
  {
    hide Flushed, ChunkPosts;
    var t := Reaching(d, i, s.outboxLast);
    assert ResumeAt(c, t, n + i) == ResumeAt(c, s, n + i);
    assert ItemPosted(c, t, n + i, prompts, mid, after, last);
  }

  lemma {:induction false} ItemPostsAppend(a: seq<Post>, b: seq<Post>)
    ensures ItemPosts(a + b) == ItemPosts(a) + ItemPosts(b)
    decreases |b|
  {
    if b == [] {
      assert a + b == a;
    } else {
      assert (a + b)[..|a + b| - 1] == a + b[..|b| - 1];
      ItemPostsAppend(a, b[..|b| - 1]);
    }
  }

  lemma {:induction false} NoticesAreNoItems(c: Conf, last: int, m: nat, prompts: seq<nat>)
    requires m <= |c.spool|
    ensures ItemPosts(NoticePosts(c, last, m, prompts)) == []
  {
    if m > 0 {
      NoticesAreNoItems(c, last, m - 1, prompts);
      ItemPostsAppend(NoticePosts(c, last, m - 1, prompts), NoticePostAfter(c, last, m - 1, prompts));
    }
  }

  lemma {:induction false} ChunksAreItems(posts: seq<Post>)
    requires forall i :: 0 <= i < |posts| ==> !posts[i].marker.uid.Out?
    ensures ItemPosts(posts) == posts
  {
    if posts != [] {
      ChunksAreItems(posts[..|posts| - 1]);
    }
  }

  lemma {:induction false} OneItemAdds(
    c: Conf, d: State, a: nat, prompts: seq<nat>, before: seq<Post>, after: seq<Post>, last: int)
    requires ItemsOfFull(c) && a < |c.items| && ItemPosted(c, d, a, prompts, before, after, last)
    ensures ItemPosts(after) == ItemPosts(before) + ChunkPosts(c, c.items[a])[ResumeAt(c, d, a)..]
  {
    hide NoticePosts, ItemPosts;
    var seen: nat, mid: seq<Post> :|
      Flushed(c, d.outboxLast, last, seen, Some(c.items[a].start), prompts, before, mid)
      && after == mid + ChunkPosts(c, c.items[a])[ResumeAt(c, d, a)..];
    var m: nat :| FlushedTo(c, d.outboxLast, last, seen, m, Some(c.items[a].start))
      && mid == before + NoticePosts(c, d.outboxLast, m, prompts);
    NoticesAreNoItems(c, d.outboxLast, m, prompts);
    ItemPostsAppend(before, NoticePosts(c, d.outboxLast, m, prompts));
    var posts := ChunkPosts(c, c.items[a])[ResumeAt(c, d, a)..];
    NotOut(c, a, c.items[a].uid);
    ChunksAreItems(posts);
    ItemPostsAppend(mid, posts);
  }

  /** Posting the items of a read adds to the conversation exactly their chunks, from the first one not yet recorded,
      in transcript order. */
  lemma {:induction false} ItemsPostedInOrder(c: Conf, d: State, n: nat, m: nat, prompts: seq<nat>, before: seq<Post>,
                                              after: seq<Post>, last: int)
    requires ItemsOfFull(c) && 0 < m && n + m <= |c.items| && ItemsPosted(c, d, n, m, prompts, before, after, last)
    ensures Base(c, n) + ResumeAt(c, d, n) <= |Flatten(c, n + m)|
    ensures ItemPosts(after) == ItemPosts(before) + Flatten(c, n + m)[Base(c, n) + ResumeAt(c, d, n)..]
    decreases m
  {
    hide ItemPosts, ItemPosted, ChunkPosts, ItemsOfFull;
    var k := m - 1;
    var mid: seq<Post>, at: int :|
      ItemsPosted(c, d, n, k, prompts, before, mid, at)
      && ItemPosted(c, Reaching(d, k, at), n + k, prompts, mid, after, last);
    OneItemAdds(c, Reaching(d, k, at), n + k, prompts, mid, after, last);
    var chunks, from := ChunkPosts(c, c.items[n + k]), Base(c, n) + ResumeAt(c, d, n);
    assert Flatten(c, n + m) == Flatten(c, n + k) + chunks;
    ChunkCount(c, n + k);
    if k > 0 {
      ItemsPostedInOrder(c, d, n, k, prompts, before, mid, at);
      assert chunks[0..] == chunks;
      assert Flatten(c, n + m)[from..] == Flatten(c, n + k)[from..] + chunks;
    } else {
      assert ResumeAt(c, Reaching(d, 0, at), n) == ResumeAt(c, d, n);
      assert Flatten(c, n + m)[from..] == chunks[ResumeAt(c, d, n)..];
    }
  }

  lemma {:induction false} ChunkCount(c: Conf, a: nat)
    requires a < |c.items|
    ensures |ChunkPosts(c, c.items[a])| == |c.render(c.items[a])|
  {
  }

  lemma {:induction false} MarkerThere(server: seq<Post>, id: nat, m: Marker)
    requires id < |server| && server[id].marker == m
    ensures HasMarker(server, m)
  {
  }

  lemma {:induction false} OneMore(before: seq<Post>, posts: seq<Post>, n: nat, k: nat)
    requires n <= k < |posts|
    ensures (before + posts[n..k]) + [posts[k]] == before + posts[n..k + 1]
  {
  }

  /** Where the posting of item `a` starts: at its first chunk, or after those recorded as done. */
  function ResumeAt(c: Conf, disk: State, a: nat): (n: nat)
    requires a < |c.items|
  {
    var n := DoneOf(c, a, disk);
    if n <= |c.render(c.items[a])| then n else |c.render(c.items[a])|
  }

  ghost predicate Announces(c: Conf, s: Sys, announce: Step, uid: Uid, k: nat, message: string) {
    && Enabled(c, s, announce) && (announce.AnnounceItem? || announce.AnnounceOut?) && s.worker.at <= |c.items|
    && Do(c, s, announce).disk.pending == Some(Pending(uid, k, 0, None))
    && (uid.Out? || message == c.render(c.items[s.worker.at])[k])
    && (announce.AnnounceItem? ==> !uid.Out?)
  }

  lemma {:induction false} AnnouncePends(c: Conf, s: Sys, announce: Step, uid: Uid, k: nat, message: string)
    requires Announces(c, s, announce, uid, k, message)
    ensures Idle(s)
    ensures Do(c, s, announce)
      == s.(disk := s.disk.(pending := Some(Pending(uid, k, 0, None))), worker := s.worker.(flight := Announced))
    ensures Enabled(c, Do(c, s, announce), Delivered(message, true))
  {
  }

  lemma {:induction false} AnnouncesLater(c: Conf, s: Sys, t: Sys, announce: Step, uid: Uid, k: nat, message: string)
    requires Announces(c, s, announce, uid, k, message)
    requires s.spoolVis <= t.spoolVis <= |c.spool| && t == s.(vis := t.vis, spoolVis := t.spoolVis)
    ensures Announces(c, t, announce, uid, k, message)
  {
  }

  lemma {:induction false} DeliverLater(c: Conf, s: Sys, t: Sys, message: string)
    requires Enabled(c, s, Delivered(message, true)) && t == s.(vis := t.vis, spoolVis := t.spoolVis)
    ensures Enabled(c, t, Delivered(message, true))
  {
  }

  // ---- the notifications ----------------------------------------------------------------------

  /** An operator prompt at or after the notification's place: the session has moved on, nobody is pinged. */
  predicate Stale(it: SpoolFile, prompts: seq<nat>) {
    exists i :: 0 <= i < |prompts| && it.at <= prompts[i]
  }

  function NoticeText(it: SpoolFile, prompts: seq<nat>): string {
    (if Stale(it, prompts) then "" else it.mention) + it.text
  }

  function NoticePost(c: Conf, i: nat, prompts: seq<nat>): seq<Post>
    requires i < |c.spool|
  {
    if c.spool[i].Readable() then [Post(Marker(Out(c.spool[i].name), 0), NoticeText(c.spool[i], prompts))] else []
  }

  function NoticePostAfter(c: Conf, last: int, i: nat, prompts: seq<nat>): seq<Post>
    requires i < |c.spool|
  {
    if last < c.spool[i].name then NoticePost(c, i, prompts) else []
  }

  /** The posts of the readable ones among the first `m` notifications that come after `last`. */
  function NoticePosts(c: Conf, last: int, m: nat, prompts: seq<nat>): seq<Post>
    requires m <= |c.spool|
  {
    if m == 0 then [] else NoticePosts(c, last, m - 1, prompts) + NoticePostAfter(c, last, m - 1, prompts)
  }

  /** A notification not yet posted whose stamp lies after the position being drained. */
  predicate StopsAt(it: SpoolFile, last: int, upto: Option<nat>) {
    last < it.name && upto.Some? && !it.bad && upto.value < it.at
  }

  ghost predicate Flushed(c: Conf, last: int, outboxLast: int, seen: nat, upto: Option<nat>, prompts: seq<nat>,
                          before: seq<Post>, after: seq<Post>) {
    exists m: nat :: FlushedTo(c, last, outboxLast, seen, m, upto) && after == before + NoticePosts(c, last, m, prompts)
  }

  ghost predicate PassedTo(c: Conf, outboxLast: int, m: nat) {
    m <= |c.spool| && forall j :: 0 <= j < m ==> c.spool[j].name <= outboxLast
  }

  /** The scan of the names has passed the first `i` of them; what it has recorded is `outboxLast`. */
  ghost predicate Reached(c: Conf, last: int, outboxLast: int, i: nat) {
    && PassedTo(c, outboxLast, i)
    && last <= outboxLast && (outboxLast == last || (i > 0 && outboxLast == c.spool[i - 1].name))
  }

  lemma {:induction false} ReachedNext(c: Conf, last: int, outboxLast: int, i: nat)
    requires WellFormed(c) && Reached(c, last, outboxLast, i) && i < |c.spool| && last < c.spool[i].name
    ensures outboxLast < c.spool[i].name && (i > 0 ==> c.spool[i - 1].name <= outboxLast)
    ensures Reached(c, last, c.spool[i].name, i + 1)
  {
  }

  lemma {:induction false} NothingReached(c: Conf, last: int)
    ensures Reached(c, last, last, 0)
  {
  }

  lemma {:induction false} ReachedIsFlushed(c: Conf, last: int, outboxLast: int, seen: nat, i: nat, upto: Option<nat>)
    requires WellFormed(c) && Reached(c, last, outboxLast, i) && i <= seen <= |c.spool|
    requires i < seen ==> StopsAt(c.spool[i], last, upto)
    requires forall j :: 0 <= j < i ==> !StopsAt(c.spool[j], last, upto)
    ensures FlushedTo(c, last, outboxLast, seen, i, upto)
  {
    if i < seen {
      ReachedNext(c, last, outboxLast, i);
    }
  }

  /** Of the `seen` notifications the first `m` are done with. None of those that come after `last` has a later stamp
      than the place to stop at; what stops there has one. */
  ghost predicate FlushedTo(c: Conf, last: int, outboxLast: int, seen: nat, m: nat, upto: Option<nat>) {
    && m <= seen && PassedTo(c, outboxLast, m)
    && (forall j :: 0 <= j < m && last < c.spool[j].name && upto.Some? && !c.spool[j].bad ==> c.spool[j].at <= upto.value)
    && (m < seen ==>
          && m < |c.spool| && upto.Some? && !c.spool[m].bad && upto.value < c.spool[m].at
          && outboxLast < c.spool[m].name)
  }

  /** Without a place to stop at all that were seen are done with. */
  lemma {:induction false} AllFlushed(
    c: Conf, last: int, outboxLast: int, seen: nat, prompts: seq<nat>, before: seq<Post>, after: seq<Post>)
    requires Flushed(c, last, outboxLast, seen, None, prompts, before, after)
    ensures forall n: nat :: n <= seen ==> PassedTo(c, outboxLast, n)
  {
  }

  /** What a flush posts: of the first `m` notifications the readable ones after `last`, each once and in order - `at`
      says which - with the mention exactly where every prompt of the read stands before the notification's place. */
  lemma {:induction false} NoticesAre(c: Conf, last: int, m: nat, prompts: seq<nat>) returns (at: seq<int>)
    requires m <= |c.spool|
    ensures Places(c.spool, last, m, at) && AreNotices(NoticePosts(c, last, m, prompts), c.spool, at, prompts)
  {
    hide NoticeText, IsNotice, NoticePosts, Places, AreNotices;
    at := [];
    if m == 0 {
      NoNotices(c, last, prompts);
    } else {
      NoticePostsStep(c, last, m - 1, prompts);
      at := NoticesAre(c, last, m - 1, prompts);
      OneMorePlace(c.spool, last, m - 1, at);
      var it := c.spool[m - 1];
      if last < it.name && it.Readable() {
        NoticeIs(it, prompts);
        OneMoreNotice(NoticePosts(c, last, m - 1, prompts), Post(Marker(Out(it.name), 0), NoticeText(it, prompts)),
                      c.spool, at, m - 1, prompts);
        at := at + [m - 1];
      }
    }
  }

  lemma {:induction false} NoNotices(c: Conf, last: int, prompts: seq<nat>)
    ensures NoticePosts(c, last, 0, prompts) == [] && Places(c.spool, last, 0, []) && AreNotices([], c.spool, [], prompts)
  {
  }

  ghost predicate AreNotices(posts: seq<Post>, spool: seq<SpoolFile>, at: seq<int>, prompts: seq<nat>) {
    |posts| == |at| && forall k :: 0 <= k < |at| ==> 0 <= at[k] < |spool| && IsNotice(posts[k], spool[at[k]], prompts)
  }

  lemma {:induction false} OneMoreNotice(
    posts: seq<Post>, post: Post, spool: seq<SpoolFile>, at: seq<int>, m: nat, prompts: seq<nat>)
    requires AreNotices(posts, spool, at, prompts) && m < |spool| && IsNotice(post, spool[m], prompts)
    ensures AreNotices(posts + [post], spool, at + [m], prompts)
  {
    hide IsNotice;
  }

  lemma {:induction false} NoticePostsStep(c: Conf, last: int, m: nat, prompts: seq<nat>)
    requires m < |c.spool|
    ensures var before, it := NoticePosts(c, last, m, prompts), c.spool[m];
      NoticePosts(c, last, m + 1, prompts)
        == if last < it.name && it.Readable() then before + [Post(Marker(Out(it.name), 0), NoticeText(it, prompts))] else before
  {
    hide NoticeText;
    var before := NoticePosts(c, last, m, prompts);
    assert before + [] == before;
  }

  /** `at` are the places of the readable ones among the first `m` notifications that come after `last`, in order. */
  ghost predicate Places(spool: seq<SpoolFile>, last: int, m: nat, at: seq<int>) {
    && m <= |spool|
    && (forall k :: 0 <= k < |at| ==> 0 <= at[k] < m)
    && (forall k, l :: 0 <= k < l < |at| ==> at[k] < at[l])
    && forall i :: 0 <= i < m ==> (i in at <==> last < spool[i].name && !spool[i].bad && spool[i].text != "")
  }

  lemma {:induction false} OneMorePlace(spool: seq<SpoolFile>, last: int, m: nat, at: seq<int>)
    requires m < |spool| && Places(spool, last, m, at)
    ensures Places(spool, last, m + 1, if last < spool[m].name && spool[m].Readable() then at + [m] else at)
  {
    assert m !in at;
  }

  ghost predicate IsNotice(post: Post, it: SpoolFile, prompts: seq<nat>) {
    && post.marker == Marker(Out(it.name), 0)
    && ((forall p :: p in prompts ==> p < it.at) ==> post.text == it.mention + it.text)
    && ((exists p :: p in prompts && it.at <= p) ==> post.text == it.text)
  }

  lemma {:induction false} NoticeIs(it: SpoolFile, prompts: seq<nat>)
    ensures IsNotice(Post(Marker(Out(it.name), 0), NoticeText(it, prompts)), it, prompts)
  {
    assert [] + it.text == it.text;
    if Stale(it, prompts) {
      var i :| 0 <= i < |prompts| && it.at <= prompts[i];
      assert prompts[i] in prompts;
    }
    if p :| p in prompts && it.at <= p {
      var i :| 0 <= i < |prompts| && prompts[i] == p;
      assert it.at <= prompts[i];
    }
  }

  /** The prompts of a read are where its operator prompts start. */
  lemma {:induction false} PromptsAre(msgs: seq<Item>, p: nat)
    ensures p in PromptStarts(msgs) <==> exists item :: item in msgs && item.kind.Prompt? && item.start == p
  {
    if msgs != [] {
      var front, item := msgs[..|msgs| - 1], msgs[|msgs| - 1];
      assert msgs == front + [item] && item in msgs;
      PromptsAre(front, p);
    }
  }

  // ---- drains and sessions --------------------------------------------------------------------

  function PromptStarts(msgs: seq<Item>): seq<nat> {
    if msgs == [] then []
    else PromptStarts(msgs[..|msgs| - 1]) + (if msgs[|msgs| - 1].kind.Prompt? then [msgs[|msgs| - 1].start] else [])
  }

  ghost predicate MayRead(s: Sys) {
    s.worker.Down? || (s.worker.flight.Quiet? && s.worker.at == s.worker.stop && s.worker.end == s.disk.offset)
  }

  /** The worker has nothing left of its read, and its mark is at the end of it. */
  ghost predicate Drained(c: Conf, s: Sys) {
    Idle(s) && s.worker.at == s.worker.stop && s.worker.end == s.disk.offset && s.worker.stop <= |c.items|
    && s.disk.offset <= |c.full| && s.worker.stop == Before(c, s.disk.offset)
  }

  /** `end` is where the complete lines of the visible transcript end. */
  predicate EndOfRead(c: Conf, o: nat, vis: nat, end: nat) {
    o <= vis <= |c.full| && end == End(c.full[..vis], o)
  }

  lemma {:induction false} DownMayRead(s: Sys)
    requires s.worker.Down?
    ensures MayRead(s)
  {
  }

  lemma {:induction false} DrainedMayRead(c: Conf, s: Sys)
    requires Drained(c, s)
    ensures MayRead(s) && s.disk.pending.None?
  {
  }

  lemma {:induction false} PassedFewer(c: Conf, outboxLast: int, m: nat, n: nat)
    requires PassedTo(c, outboxLast, n) && m <= n
    ensures PassedTo(c, outboxLast, m)
  {
  }

  lemma {:induction false} ReadFirst(c: Conf, o: nat, vis: nat, v: nat, end: nat)
    requires vis <= v && EndOfRead(c, o, v, end)
    ensures ReadPast(c, o, vis, end)
  {
  }

  /** Reading on from where a read ended. */
  lemma {:induction false} ReadOn(c: Conf, o: nat, vis: nat, mid: nat, v: nat, end: nat)
    requires ReadPast(c, o, vis, mid) && EndOfRead(c, mid, v, end) && vis <= v
    ensures ReadPast(c, o, vis, end)
  {
    hide End;
    var u: nat :| vis <= u && EndOfRead(c, o, u, mid);
    if u <= v {
      EndsCompose(c.full[..u], c.full[..v], o);
      assert EndOfRead(c, o, v, end);
    } else {
      ReadLess(c, o, u, v, mid);
      assert EndOfRead(c, o, u, end);
    }
  }

  /** Where a read of more has ended, a read of less finds nothing more. */
  lemma {:induction false} ReadLess(c: Conf, o: nat, u: nat, v: nat, mid: nat)
    requires EndOfRead(c, o, u, mid) && mid <= v <= u
    ensures End(c.full[..v], mid) == mid
  {
    var f, g := c.full[..v], c.full[..u];
    EndsCompose(g, g, o);
    NextEolGrows(f, g, mid);
  }

  lemma {:induction false} ReadNothing(c: Conf, o: nat)
    requires ItemsOfFull(c) && o <= |c.full| && Boundary(c.full, o)
    ensures Items(c.full[..o], o, c.parse) == [] && End(c.full[..o], o) == o && Before(c, o) <= |c.items|
  {
    BeforeSplits(c, o);
  }

  lemma {:induction false} AllPosted(w: World)
    requires w.Valid() && Drained(w.c, w.Now())
    ensures ExtrasSilent(w.c) && NeverExpires(w.c, w.log) ==>
      Flatten(w.c, Before(w.c, w.disk.offset)) <= ItemPosts(w.server) <= Master(w.c)
  {
    if ExtrasSilent(w.c) && NeverExpires(w.c, w.log) {
      DrainedIsPosted(w.c, w.log);
    }
  }

  /** A root that the map took from this mirror opened a thread; and of two posts requested while the map named the same
      root, both went under it and neither opened one. */
  lemma {:induction false} ThreadsHold(w: World, i: nat, j: nat)
    requires w.Valid() && i < |w.server| && j < |w.server|
    ensures forall post: nat :: w.root == Some(Mirror(post)) ==> post < |w.under| && w.under[post].None?
    ensures w.named[i].Some? && w.named[i] == w.named[j] ==> w.under[i] == w.under[j] == w.named[i]
    ensures w.under[i].None? <==> w.named[i].None?
    ensures forall post: nat :: w.under[i] == Some(Mirror(post)) ==> post < i && w.under[post].None?
  {
    hide RunsTo, WellFormed;
  }

  /** Any number of workers, one after the other, each dying wherever it may: no post is ever made twice, and the
      conversation on the server keeps the transcript's order. */
  method Sessions(w: World, n: nat)
    requires w.Valid() && w.worker.Down?
    modifies w
    ensures w.Valid() && Continues(old(w.log), w.log) && w.worker.Down?
    ensures NoMarkerTwice(w.server) && Selects(ItemPosts(w.server), Master(w.c), w.sent)
    ensures forall i :: 0 <= i < |w.server| ==> w.under[i] == w.named[i]
  {
    for i := 0 to n
      invariant w.Valid() && Continues(old(w.log), w.log) && w.worker.Down?
    {
      w.Grows();
      var run := new Run(w);
      run.Execute();
    }
    AtMostOnce(w.c, w.log);
    PostsKeepOrder(w.c, w.log);
  }
}
