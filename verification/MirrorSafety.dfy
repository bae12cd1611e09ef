/** What every reachable state of the mirror satisfies, whatever was killed, refused, lost or given up on the way. */
module MirrorSafety {
  import opened Options
  import opened Transcript
  import opened MirrorProtocol

  // ---- what every reachable state satisfies ---------------------------------------------------

  function ItemPosts(server: seq<Post>): seq<Post> {
    if server == [] then []
    else if server[|server| - 1].marker.uid.Out? then ItemPosts(server[..|server| - 1])
    else ItemPosts(server[..|server| - 1]) + [server[|server| - 1]]
  }

  function OutPosts(server: seq<Post>): seq<nat> {
    if server == [] then []
    else if server[|server| - 1].marker.uid.Out?
      then OutPosts(server[..|server| - 1]) + [server[|server| - 1].marker.uid.name]
    else OutPosts(server[..|server| - 1])
  }

  ghost predicate Increasing(s: seq<nat>) {
    forall i, j :: 0 <= i < j < |s| ==> s[i] < s[j]
  }

  /** `posts` is `master` with only the entries at `at` kept, in the same order. */
  ghost predicate Selects(posts: seq<Post>, master: seq<Post>, at: seq<nat>) {
    && |posts| == |at|
    && Increasing(at)
    && forall i :: 0 <= i < |at| ==> at[i] < |master| && posts[i] == master[at[i]]
  }

  /** The index of the next chunk to post: everything before it is behind the mark. */
  function Cur(c: Conf, s: Sys): nat
    requires s.disk.offset <= |c.full| && CurItem(c, s) <= |c.items|
  {
    Base(c, CurItem(c, s)) + DoneOf(c, CurItem(c, s), s.disk)
  }

  ghost predicate MarksOk(c: Conf, s: Sys) {
    && s.disk.offset <= s.vis <= |c.full| && s.spoolVis <= |c.spool|
    && Boundary(c.full, s.disk.offset)
    && Before(c, s.disk.offset) <= |c.items|
    && (s.worker.Up? ==>
          && s.disk.offset <= s.worker.end <= s.vis
          && Boundary(c.full, s.worker.end)
          && s.worker.at <= s.worker.stop == Before(c, s.worker.end) <= |c.items|
          && s.worker.at <= Before(c, s.disk.offset)
          && (s.worker.at < Before(c, s.disk.offset) ==>
                s.worker.at > 0 && s.disk.offset == c.items[s.worker.at - 1].end)
          && (s.worker.flight.Quiet? <==> s.disk.pending.None?))
  }

  /** The recorded partial item is one already reached, with no more chunks done than it has. */
  ghost predicate PartialOk(c: Conf, s: Sys)
    requires MarksOk(c, s)
  {
    s.disk.partial.Some? ==>
      exists a: nat :: a <= CurItem(c, s) && IsAt(c, a, s.disk.partial.value.uid)
        && s.disk.partial.value.done <= |c.render(c.items[a])|
  }

  /** A pending transcript post is the next chunk of the current item - or, after a worker died between two items
      of one line, a chunk of an item the mark has already passed. */
  ghost predicate PendingItemAt(c: Conf, s: Sys, a: nat)
    requires MarksOk(c, s) && s.disk.pending.Some?
  {
    var p := s.disk.pending.value;
    && IsAt(c, a, p.uid)
    && a <= CurItem(c, s)
    && p.k < |c.render(c.items[a])|
    && (if a == CurItem(c, s) then p.k == DoneOf(c, a, s.disk) else s.worker.Down? && DoneOf(c, CurItem(c, s), s.disk) == 0)
  }

  ghost predicate PendingOutAt(c: Conf, s: Sys, i: nat)
    requires s.disk.pending.Some?
  {
    NextOut(c, s, i) && c.spool[i].Readable() && s.disk.pending.value.uid == Out(c.spool[i].name)
    && s.disk.pending.value.k == 0
  }

  ghost predicate PendingOk(c: Conf, s: Sys)
    requires MarksOk(c, s)
  {
    s.disk.pending.Some? ==>
      if s.disk.pending.value.uid.Out? then exists i: nat :: PendingOutAt(c, s, i)
      else exists a: nat :: PendingItemAt(c, s, a)
  }

  /** The pending post is the chunk with index `i` and the mark has not passed it. */
  ghost predicate PendingIs(c: Conf, s: Sys, i: nat)
    requires MarksOk(c, s)
  {
    s.disk.pending.Some? && PendingItemAt(c, s, CurItem(c, s)) && i == Cur(c, s)
  }

  ghost predicate SentOk(c: Conf, s: Sys)
    requires MarksOk(c, s)
  {
    && Selects(ItemPosts(s.server), Master(c), s.sent)
    && (forall i :: i in s.sent ==> i < Cur(c, s) || (PendingIs(c, s, i) && !(s.worker.Up? && s.worker.flight.Announced?)))
    && (s.worker.Up? && s.worker.flight.Acked? && !s.disk.pending.value.uid.Out? ==> Cur(c, s) in s.sent)
  }

  ghost predicate OutsOk(c: Conf, s: Sys)
    requires MarksOk(c, s)
  {
    && OutPosts(s.server) == s.outs && Increasing(s.outs)
    && (forall i :: 0 <= i < |s.server| && s.server[i].marker.uid.Out? ==> s.server[i].marker.k == 0)
    && (forall n :: n in s.outs ==>
          n <= s.disk.outboxLast
          || (s.disk.pending.Some? && s.disk.pending.value.uid == Out(n) && !(s.worker.Up? && s.worker.flight.Announced?)))
    && (s.worker.Up? && s.worker.flight.Acked? && s.disk.pending.value.uid.Out? ==> s.disk.pending.value.uid.name in s.outs)
  }

  ghost predicate Inv(c: Conf, s: Sys) {
    MarksOk(c, s) && PartialOk(c, s) && PendingOk(c, s) && SentOk(c, s) && OutsOk(c, s)
  }

  // ---- facts about cursors and markers --------------------------------------------------------

  lemma {:induction false} BaseOrder(c: Conf, a: nat, b: nat, k: nat)
    requires a < b <= |c.items| && k < |c.render(c.items[a])|
    ensures Base(c, a) + k < Base(c, b)
  {
    hide Flatten, ChunkPosts;
    ChunkAt(c, a, k);
    FlattenGrows(c, a + 1, b);
  }

  lemma {:induction false} DoneBounded(c: Conf, s: Sys)
    requires WellFormed(c) && MarksOk(c, s) && PartialOk(c, s) && CurItem(c, s) < |c.items|
    ensures DoneOf(c, CurItem(c, s), s.disk) <= |c.render(c.items[CurItem(c, s)])|
  {
    if DoneOf(c, CurItem(c, s), s.disk) > 0 {
      var a: nat :| a <= CurItem(c, s) && IsAt(c, a, s.disk.partial.value.uid)
        && s.disk.partial.value.done <= |c.render(c.items[a])|;
      UidUnique(c, a, CurItem(c, s), s.disk.partial.value.uid);
    }
  }

  lemma {:induction false} NotOut(c: Conf, a: nat, uid: Uid)
    requires ItemsOfFull(c) && IsAt(c, a, uid)
    ensures !uid.Out?
  {
    ItemsAreEntries(c.full, 0, c.parse, a);
  }

  lemma {:induction false} ItemPostsHave(server: seq<Post>, m: Marker)
    requires !m.uid.Out?
    ensures HasMarker(server, m) <==> HasMarker(ItemPosts(server), m)
  {
    if server != [] {
      var front, last := server[..|server| - 1], server[|server| - 1];
      ItemPostsHave(front, m);
      HasMarkerSnoc(front, last, m);
      assert server == front + [last];
      if !last.marker.uid.Out? {
        HasMarkerSnoc(ItemPosts(front), last, m);
      }
    }
  }

  lemma {:induction false} HasMarkerSnoc(server: seq<Post>, p: Post, m: Marker)
    ensures HasMarker(server + [p], m) <==> HasMarker(server, m) || p.marker == m
  {
    var all := server + [p];
    assert all[|server|] == p;
    if HasMarker(server, m) {
      var i :| 0 <= i < |server| && server[i].marker == m;
      assert all[i] == server[i];
    }
  }

  /** A chunk's marker is on the server exactly when the chunk was delivered. */
  lemma {:induction false} MarkerMeansSent(c: Conf, s: Sys, a: nat, uid: Uid, k: nat)
    requires WellFormed(c) && MarksOk(c, s) && SentOk(c, s)
    requires IsAt(c, a, uid) && k < |c.render(c.items[a])|
    ensures HasMarker(s.server, Marker(uid, k)) <==> Base(c, a) + k in s.sent
  {
    hide Flatten, ChunkPosts, Base, Before, Boundary, ItemPosts, ItemsOfFull;
    var m := Marker(uid, k);
    NotOut(c, a, uid);
    ItemPostsHave(s.server, m);
    ChunkAt(c, a, k);
    var posts := ItemPosts(s.server);
    if HasMarker(posts, m) {
      var i :| 0 <= i < |posts| && posts[i].marker == m;
      MarkersDistinct(c, s.sent[i], Base(c, a) + k);
    }
    if Base(c, a) + k in s.sent {
      var i :| 0 <= i < |s.sent| && s.sent[i] == Base(c, a) + k;
      assert posts[i].marker == m;
    }
  }

  /** A notification's marker is on the server exactly when the notification was delivered. */
  lemma {:induction false} OutPostsHave(server: seq<Post>, n: nat)
    requires forall i :: 0 <= i < |server| && server[i].marker.uid.Out? ==> server[i].marker.k == 0
    ensures HasMarker(server, Marker(Out(n), 0)) <==> n in OutPosts(server)
  {
    if server != [] {
      var front, last := server[..|server| - 1], server[|server| - 1];
      OutPostsHave(front, n);
      HasMarkerSnoc(front, last, Marker(Out(n), 0));
      assert server == front + [last];
    }
  }

  // ---- every step keeps the invariant ---------------------------------------------------------

  lemma {:induction false} StartOk(c: Conf)
    requires WellFormed(c)
    ensures Inv(c, START)
  {
    BeforeSplits(c, 0);
  }

  lemma {:induction false} GrowKeeps(c: Conf, s: Sys, vis: nat, spoolVis: nat)
    requires WellFormed(c) && Inv(c, s) && Enabled(c, s, Grow(vis, spoolVis))
    ensures Inv(c, Do(c, s, Grow(vis, spoolVis)))
    ensures Cur(c, Do(c, s, Grow(vis, spoolVis))) == Cur(c, s)
  {
    hide ItemPosts, OutPosts, Selects, Increasing, Flatten, ChunkPosts, Base, Before, Boundary, WellFormed;
    var t := Do(c, s, Grow(vis, spoolVis));
    if s.disk.pending.Some? {
      if s.disk.pending.value.uid.Out? {
        var i: nat :| PendingOutAt(c, s, i);
        assert PendingOutAt(c, t, i);
      } else {
        var a: nat :| PendingItemAt(c, s, a);
        assert PendingItemAt(c, t, a);
      }
    }
    assert Cur(c, t) == Cur(c, s);
  }

  /** While a post is pending and not delivered, everything delivered is behind the mark. */
  lemma {:induction false} UndeliveredIsNext(c: Conf, s: Sys)
    requires WellFormed(c) && Inv(c, s) && s.disk.pending.Some? && !HasMarker(s.server, PendingMarker(s))
    ensures forall i :: i in s.sent ==> i < Cur(c, s)
    ensures forall n :: n in s.outs ==> n <= s.disk.outboxLast
  {
    var p := s.disk.pending.value;
    if p.uid.Out? {
      var i: nat :| PendingOutAt(c, s, i);
      OutPostsHave(s.server, p.uid.name);
      NoItemPending(c, s);
    } else if PendingItemAt(c, s, CurItem(c, s)) {
      MarkerMeansSent(c, s, CurItem(c, s), p.uid, p.k);
    }
  }

  lemma {:induction false} NoItemPending(c: Conf, s: Sys)
    requires WellFormed(c) && MarksOk(c, s) && s.disk.pending.Some? && s.disk.pending.value.uid.Out?
    ensures forall a: nat :: !PendingItemAt(c, s, a)
  {
    forall a: nat | PendingItemAt(c, s, a) ensures false {
      NotOut(c, a, s.disk.pending.value.uid);
    }
  }

  lemma {:induction false} AbsentKeeps(c: Conf, s: Sys)
    requires WellFormed(c) && Inv(c, s) && Enabled(c, s, Absent)
    ensures Inv(c, Do(c, s, Absent))
    ensures Cur(c, Do(c, s, Absent)) == Cur(c, s)
  {
    hide ItemPosts, OutPosts, Selects, Increasing, Flatten, ChunkPosts, Base, Before, Boundary, WellFormed;
    UndeliveredIsNext(c, s);
    assert Cur(c, Do(c, s, Absent)) == Cur(c, s);
  }

  /** A death between two items of one line moves the cursor past the rest of the line; any other leaves it. */
  lemma {:induction false} CrashCursor(c: Conf, s: Sys)
    requires WellFormed(c) && MarksOk(c, s) && PartialOk(c, s)
    ensures var t := Do(c, s, Crash);
      && MarksOk(c, t) && CurItem(c, s) <= CurItem(c, t) && PartialOk(c, t)
      && (CurItem(c, t) != CurItem(c, s) ==> DoneOf(c, CurItem(c, t), t.disk) == 0)
      && Cur(c, s) <= Cur(c, t)
      && (CurItem(c, t) == CurItem(c, s) ==> Cur(c, s) == Cur(c, t))
      && (CurItem(c, t) != CurItem(c, s) ==>
            DoneOf(c, CurItem(c, s), s.disk) < |c.render(c.items[CurItem(c, s)])| ==> Cur(c, s) < Cur(c, t))
  {
    var t := Do(c, s, Crash);
    var a, b := CurItem(c, s), CurItem(c, t);
    if a < b {
      DoneBounded(c, s);
      ChunkAtEnd(c, a, b);
    }
  }

  lemma {:induction false} ChunkAtEnd(c: Conf, a: nat, b: nat)
    requires a < b <= |c.items|
    ensures Base(c, a) + |c.render(c.items[a])| <= Base(c, b)
  {
    FlattenGrows(c, a + 1, b);
  }

  lemma {:induction false} CrashKeeps(c: Conf, s: Sys)
    requires WellFormed(c) && Inv(c, s) && Enabled(c, s, Crash)
    ensures Inv(c, Do(c, s, Crash))
  {
    hide ItemPosts, OutPosts, Selects, Increasing, Flatten, ChunkPosts, Base, Before, Boundary, WellFormed;
    var t := Do(c, s, Crash);
    CrashCursor(c, s);
    if s.disk.pending.Some? {
      if s.disk.pending.value.uid.Out? {
        var i: nat :| PendingOutAt(c, s, i);
        assert PendingOutAt(c, t, i);
        NoItemPending(c, s);
      } else {
        var a: nat :| PendingItemAt(c, s, a);
        assert PendingItemAt(c, t, a);
        if a == CurItem(c, s) && CurItem(c, t) != a {
          assert Cur(c, s) < Cur(c, t);
        } else if PendingItemAt(c, s, CurItem(c, s)) {
          UidUnique(c, a, CurItem(c, s), s.disk.pending.value.uid);
        }
      }
    }
  }

  lemma {:induction false} LookupErrorKeeps(c: Conf, s: Sys, now: int)
    requires WellFormed(c) && Inv(c, s) && Enabled(c, s, LookupError(now)) && !Expires(c, s.disk.pending.value, now)
    ensures Inv(c, Do(c, s, LookupError(now)))
    ensures Cur(c, Do(c, s, LookupError(now))) == Cur(c, s)
  {
    hide ItemPosts, OutPosts, Selects, Increasing, Flatten, ChunkPosts, Base, Before, Boundary, WellFormed;
    var t := Do(c, s, LookupError(now));
    assert Cur(c, t) == Cur(c, s);
    if s.disk.pending.value.uid.Out? {
      var i: nat :| PendingOutAt(c, s, i);
      assert PendingOutAt(c, t, i);
      NoItemPending(c, s);
    } else {
      var a: nat :| PendingItemAt(c, s, a);
      assert PendingItemAt(c, t, a);
    }
  }

  /** `t` is `s` with its pending post recorded as done. */
  ghost predicate SettledTo(s: Sys, t: Sys) {
    && s.disk.pending.Some? && t.disk == Settled(s.disk)
    && t.server == s.server && t.sent == s.sent && t.outs == s.outs && t.vis == s.vis && t.spoolVis == s.spoolVis
    && t.worker == (if s.worker.Up? then s.worker.(flight := Quiet) else s.worker)
    && (s.worker.Up? ==> s.worker.flight.Acked?)
  }

  lemma {:induction false} SettleOut(c: Conf, s: Sys, t: Sys)
    requires WellFormed(c) && Inv(c, s) && SettledTo(s, t) && s.disk.pending.value.uid.Out?
    ensures Inv(c, t) && CurItem(c, t) == CurItem(c, s) && Cur(c, t) == Cur(c, s)
  {
    hide ItemPosts, OutPosts, Selects, Increasing, Flatten, ChunkPosts, Base, Before, Boundary, WellFormed;
    var i: nat :| PendingOutAt(c, s, i);
    NoItemPending(c, s);
  }

  lemma {:induction false} SettleItem(c: Conf, s: Sys, t: Sys)
    requires WellFormed(c) && Inv(c, s) && SettledTo(s, t) && !s.disk.pending.value.uid.Out?
    ensures Inv(c, t) && CurItem(c, t) == CurItem(c, s)
    ensures Cur(c, t) == if PendingItemAt(c, s, CurItem(c, s)) then Cur(c, s) + 1 else Cur(c, s)
  {
    hide ItemPosts, OutPosts, Selects, Increasing, Flatten, ChunkPosts, Base, Before, Boundary, WellFormed;
    var p := s.disk.pending.value;
    var a: nat :| PendingItemAt(c, s, a);
    assert IsAt(c, a, t.disk.partial.value.uid) && t.disk.partial.value.done <= |c.render(c.items[a])|;
    if PendingItemAt(c, s, CurItem(c, s)) {
      UidUnique(c, a, CurItem(c, s), p.uid);
    } else if CurItem(c, s) < |c.items| && c.items[CurItem(c, s)].uid == p.uid {
      UidUnique(c, a, CurItem(c, s), p.uid);
    }
  }

  /** Recording the pending post as done moves the cursor past it, and past nothing else. */
  lemma {:induction false} SettleCursor(c: Conf, s: Sys, t: Sys)
    requires WellFormed(c) && Inv(c, s) && s.disk.pending.Some? && SettledTo(s, t)
    ensures Inv(c, t)
    ensures CurItem(c, t) == CurItem(c, s)
    ensures Cur(c, t) == if !s.disk.pending.value.uid.Out? && PendingItemAt(c, s, CurItem(c, s)) then Cur(c, s) + 1 else Cur(c, s)
  {
    hide Inv, SettledTo, PendingItemAt, WellFormed, Base, DoneOf;
    if s.disk.pending.value.uid.Out? {
      SettleOut(c, s, t);
    } else {
      SettleItem(c, s, t);
    }
  }

  lemma {:induction false} ReadKeeps(c: Conf, s: Sys, size: nat)
    requires WellFormed(c) && Inv(c, s) && Enabled(c, s, Read(size))
    ensures Inv(c, Do(c, s, Read(size)))
    ensures var t := Do(c, s, Read(size)); t.worker.stop == Before(c, t.worker.end)
    ensures Cur(c, Do(c, s, Read(size))) == Cur(c, s)
  {
    var t := Do(c, s, Read(size));
    ReadIsSlice(c, s.disk.offset, size);
    assert CurItem(c, t) == CurItem(c, s);
  }

  lemma {:induction false} AnnounceKeeps(c: Conf, s: Sys, step: Step)
    requires WellFormed(c) && Inv(c, s) && Enabled(c, s, step) && (step.AnnounceItem? || step.AnnounceOut?)
    ensures Inv(c, Do(c, s, step))
    ensures Cur(c, Do(c, s, step)) == Cur(c, s)
  {
    hide ItemPosts, OutPosts, Selects, Increasing, Flatten, ChunkPosts, Base, Before, Boundary;
    var t := Do(c, s, step);
    assert Cur(c, t) == Cur(c, s);
    if step.AnnounceItem? {
      NotOut(c, s.worker.at, c.items[s.worker.at].uid);
      assert PendingItemAt(c, t, s.worker.at);
    } else {
      assert PendingOutAt(c, t, step.i);
    }
  }

  lemma {:induction false} SkipOutKeeps(c: Conf, s: Sys, i: nat)
    requires WellFormed(c) && Inv(c, s) && Enabled(c, s, SkipOut(i))
    ensures Inv(c, Do(c, s, SkipOut(i)))
    ensures Cur(c, Do(c, s, SkipOut(i))) == Cur(c, s)
  {
    hide ItemPosts, OutPosts, Selects, Increasing, Flatten, ChunkPosts, Base, Before, Boundary, WellFormed;
  }

  lemma {:induction false} SameDeliveries(c: Conf, s: Sys, t: Sys)
    requires Inv(c, s) && MarksOk(c, t) && s.disk.pending.None? && t.disk.pending.None?
    requires t.server == s.server && t.sent == s.sent && t.outs == s.outs && t.disk.outboxLast == s.disk.outboxLast
    requires Cur(c, t) == Cur(c, s)
    ensures SentOk(c, t) && OutsOk(c, t)
  {
  }

  lemma {:induction false} AdvanceMarks(c: Conf, s: Sys)
    requires WellFormed(c) && MarksOk(c, s) && Enabled(c, s, Advance)
    ensures MarksOk(c, Do(c, s, Advance))
  {
    BeforeEndOfItem(c, s.worker.at);
    BeforeByPosition(c, s.worker.end);
  }

  lemma {:induction false} AdvanceKeeps(c: Conf, s: Sys)
    requires WellFormed(c) && Inv(c, s) && Enabled(c, s, Advance)
    ensures Inv(c, Do(c, s, Advance))
    ensures Cur(c, Do(c, s, Advance)) == Cur(c, s)
  {
    hide ItemPosts, OutPosts, Selects, Increasing, Boundary, WellFormed, SentOk, OutsOk;
    var t := Do(c, s, Advance);
    var a := s.worker.at;
    AdvanceMarks(c, s);
    assert Cur(c, t) == Cur(c, s) by {
      DoneBounded(c, s);
      assert Flatten(c, a + 1) == Flatten(c, a) + ChunkPosts(c, c.items[a]);
    }
    SameDeliveries(c, s, t);
  }

  lemma {:induction false} FinishKeeps(c: Conf, s: Sys)
    requires WellFormed(c) && Inv(c, s) && Enabled(c, s, Finish)
    ensures Inv(c, Do(c, s, Finish))
    ensures Cur(c, Do(c, s, Finish)) == Cur(c, s)
  {
    hide ItemPosts, OutPosts, Selects, Increasing, Flatten, ChunkPosts, Base, Before, Boundary, WellFormed;
  }

  lemma {:induction false} NotCreatedKeeps(c: Conf, s: Sys, known: bool)
    requires WellFormed(c) && Inv(c, s) && Enabled(c, s, NotCreated(known))
    ensures Inv(c, Do(c, s, NotCreated(known)))
    ensures Inv(c, Do(c, s, Crash)) && Cur(c, Do(c, s, NotCreated(known))) == Cur(c, Do(c, s, Crash))
  {
    hide Inv, Base, DoneOf, HasMarker;
    var down := Do(c, s, Crash);
    CrashKeeps(c, s);
    if known {
      if HasMarker(down.server, PendingMarker(down)) {
        AnnouncedIsFresh(c, s);
      }
      AbsentKeeps(c, down);
      assert Do(c, s, NotCreated(known)) == Do(c, down, Absent);
    } else {
      assert Do(c, s, NotCreated(known)) == down;
    }
  }

  /** A post that has only been announced is not on the server. */
  lemma {:induction false} AnnouncedIsFresh(c: Conf, s: Sys)
    requires WellFormed(c) && Inv(c, s) && s.worker.Up? && s.worker.flight.Announced?
    ensures !HasMarker(s.server, PendingMarker(s))
  {
    var p := s.disk.pending.value;
    if p.uid.Out? {
      OutPostsHave(s.server, p.uid.name);
    } else {
      var a: nat :| PendingItemAt(c, s, a);
      MarkerMeansSent(c, s, a, p.uid, p.k);
    }
  }

  lemma {:induction false} IncreasingOneMore(s: seq<nat>, x: nat)
    requires Increasing(s) && forall y :: y in s ==> y < x
    ensures Increasing(s + [x])
  {
    forall i, j | 0 <= i < j < |s + [x]| ensures (s + [x])[i] < (s + [x])[j] {
      if j == |s| {
        assert s[i] in s;
      }
    }
  }

  lemma {:induction false} DeliveredItemKeeps(c: Conf, s: Sys, text: string)
    requires WellFormed(c) && Inv(c, s) && Enabled(c, s, Delivered(text, true)) && !s.disk.pending.value.uid.Out?
    ensures Inv(c, Do(c, s, Delivered(text, true)))
  {
    hide Flatten, ChunkPosts, Base, Before, Boundary, ItemPosts, Selects, Increasing, SentOk;
    var t := Do(c, s, Delivered(text, true));
    var p := s.disk.pending.value;
    assert t.server[..|t.server| - 1] == s.server;
    var a: nat :| PendingItemAt(c, s, a);
    assert PendingItemAt(c, t, a);
    assert OutsOk(c, t);
    DeliveredItemSent(c, s, text);
  }

  lemma {:induction false} DeliveredItemSent(c: Conf, s: Sys, text: string)
    requires WellFormed(c) && Inv(c, s) && Enabled(c, s, Delivered(text, true)) && !s.disk.pending.value.uid.Out?
    requires MarksOk(c, Do(c, s, Delivered(text, true)))
    ensures SentOk(c, Do(c, s, Delivered(text, true)))
  {
    hide Flatten, ChunkPosts, OutPosts, OutsOk, Before, Boundary, WellFormed, PartialOk, Selects, Increasing;
    var t := Do(c, s, Delivered(text, true));
    var p := s.disk.pending.value;
    var q := Cur(c, s);
    assert Cur(c, t) == q == Base(c, s.worker.at) + p.k;
    UndeliveredIsNext(c, s) by { AnnouncedIsFresh(c, s); }
    assert Selects(ItemPosts(t.server), Master(c), t.sent) by {
      ChunkAt(c, s.worker.at, p.k);
      assert t.server[..|t.server| - 1] == s.server;
      SelectOneMore(ItemPosts(s.server), Master(c), s.sent, Post(PendingMarker(s), text), q);
    }
    assert PendingIs(c, t, q);
    assert forall i :: i in t.sent ==> i in s.sent || i == q;
    assert t.sent[|s.sent|] == q;
  }

  lemma {:induction false} SelectOneMore(posts: seq<Post>, master: seq<Post>, at: seq<nat>, p: Post, i: nat)
    requires Selects(posts, master, at) && i < |master| && master[i] == p
    requires forall j :: j in at ==> j < i
    ensures Selects(posts + [p], master, at + [i])
  {
    IncreasingOneMore(at, i);
  }

  lemma {:induction false} DeliveredOutKeeps(c: Conf, s: Sys, text: string)
    requires WellFormed(c) && Inv(c, s) && Enabled(c, s, Delivered(text, true)) && s.disk.pending.value.uid.Out?
    ensures Inv(c, Do(c, s, Delivered(text, true)))
  {
    hide ItemPosts, OutPosts, Selects, Increasing, Flatten, ChunkPosts, Base, Before, Boundary, SentOk, OutsOk;
    var t := Do(c, s, Delivered(text, true));
    var i: nat :| PendingOutAt(c, s, i);
    assert PendingOutAt(c, t, i);
    DeliveredOutSent(c, s, text);
    DeliveredOutOuts(c, s, text);
  }

  lemma {:induction false} DeliveredOutSent(c: Conf, s: Sys, text: string)
    requires WellFormed(c) && Inv(c, s) && Enabled(c, s, Delivered(text, true)) && s.disk.pending.value.uid.Out?
    requires MarksOk(c, Do(c, s, Delivered(text, true)))
    ensures SentOk(c, Do(c, s, Delivered(text, true)))
  {
    hide Selects, Increasing, Flatten, ChunkPosts, Base, Before, Boundary, OutsOk, OutPosts;
    var t := Do(c, s, Delivered(text, true));
    assert t.server[..|t.server| - 1] == s.server;
    assert Cur(c, t) == Cur(c, s);
    AnnouncedIsFresh(c, s);
    UndeliveredIsNext(c, s);
  }

  lemma {:induction false} DeliveredOutOuts(c: Conf, s: Sys, text: string)
    requires WellFormed(c) && Inv(c, s) && Enabled(c, s, Delivered(text, true)) && s.disk.pending.value.uid.Out?
    requires MarksOk(c, Do(c, s, Delivered(text, true)))
    ensures OutsOk(c, Do(c, s, Delivered(text, true)))
  {
    hide ItemPosts, Selects, Increasing, Flatten, ChunkPosts, Base, Before, Boundary, MarksOk, PartialOk;
    var t, name := Do(c, s, Delivered(text, true)), s.disk.pending.value.uid.name;
    assert t.server[..|t.server| - 1] == s.server;
    AnnouncedIsFresh(c, s);
    UndeliveredIsNext(c, s);
    var i: nat :| PendingOutAt(c, s, i);
    IncreasingOneMore(s.outs, name);
    assert t.outs[|s.outs|] == name;
  }

  lemma {:induction false} DeliveredKeeps(c: Conf, s: Sys, text: string, known: bool)
    requires WellFormed(c) && Inv(c, s) && Enabled(c, s, Delivered(text, known))
    ensures Inv(c, Do(c, s, Delivered(text, known)))
  {
    hide Inv, Base, DoneOf;
    CrashOfDelivered(c, s, text);
    if s.disk.pending.value.uid.Out? {
      DeliveredOutKeeps(c, s, text);
    } else {
      DeliveredItemKeeps(c, s, text);
    }
    CrashKeeps(c, Do(c, s, Delivered(text, true)));
  }

  lemma {:induction false} CrashOfDelivered(c: Conf, s: Sys, text: string)
    requires Enabled(c, s, Delivered(text, true))
    ensures Enabled(c, s, Delivered(text, false))
    ensures Do(c, s, Delivered(text, false)) == Do(c, Do(c, s, Delivered(text, true)), Crash)
  {
    hide Base;
  }

  lemma {:induction false} DeliveredCursor(c: Conf, s: Sys, text: string, known: bool)
    requires WellFormed(c) && Inv(c, s) && Inv(c, Do(c, s, Crash)) && Enabled(c, s, Delivered(text, known))
    requires Inv(c, Do(c, s, Delivered(text, known)))
    ensures Cur(c, Do(c, s, Delivered(text, known))) == Cur(c, if known then s else Do(c, s, Crash))
  {
  }

  /** The steps that record the pending post as done. */
  predicate Settles(c: Conf, s: Sys, step: Step)
    requires Enabled(c, s, step)
  {
    step.Found? || step.Confirm? || (step.LookupError? && Expires(c, s.disk.pending.value, step.now))
  }

  /** Every step keeps the invariant, and the cursor moves only when the pending post is recorded as done or a
      worker dies between two items of one line. */
  lemma {:induction false} StepKeeps(c: Conf, s: Sys, step: Step)
    requires WellFormed(c) && Inv(c, s) && Enabled(c, s, step)
    ensures Inv(c, Do(c, s, step)) && Inv(c, Do(c, s, Crash))
    ensures !Settles(c, s, step) ==>
      Cur(c, Do(c, s, step)) == Cur(c, if Do(c, s, step).worker.Down? then Do(c, s, Crash) else s)
  {
    hide Inv, Base, DoneOf;
    CrashKeeps(c, s);
    match step
    case Grow(vis, spoolVis) => GrowKeeps(c, s, vis, spoolVis);
    case Crash => CrashKeeps(c, s);
    case Found => SettleCursor(c, s, Do(c, s, step));
    case Absent =>
      AbsentKeeps(c, s);
      assert Do(c, s, Crash) == s;
    case LookupError(now) =>
      if Expires(c, s.disk.pending.value, now) {
        SettleCursor(c, s, Do(c, s, step));
      } else {
        LookupErrorKeeps(c, s, now);
        assert Do(c, s, Crash) == s;
      }
    case NoAnswer => assert Do(c, s, Crash) == s;
    case Read(size) => ReadKeeps(c, s, size);
    case AnnounceItem => AnnounceKeeps(c, s, step);
    case AnnounceOut(i) => AnnounceKeeps(c, s, step);
    case Delivered(text, known) =>
      DeliveredKeeps(c, s, text, known);
      DeliveredCursor(c, s, text, known);
    case NotCreated(known) => NotCreatedKeeps(c, s, known);
    case Confirm => SettleCursor(c, s, Do(c, s, step));
    case SkipOut(i) => SkipOutKeeps(c, s, i);
    case Advance => AdvanceKeeps(c, s);
    case Finish => FinishKeeps(c, s);
  }

  lemma {:induction false} ReachableFrom(c: Conf, r: Trace, n: nat)
    requires WellFormed(c) && RunsTo(c, r, n)
    ensures Inv(c, r.states[n])
  {
    if n == 0 {
      StartOk(c);
    } else {
      ReachableFrom(c, r, n - 1);
      StepKeeps(c, r.states[n - 1], r.steps[n - 1]);
    }
  }

  /** Every state any number of workers can reach, with a death between any two steps, satisfies the invariant. */
  lemma {:induction false} ReachableOk(c: Conf, r: Trace)
    requires WellFormed(c) && Runs(c, r)
    ensures Inv(c, After(r))
  {
    ReachableFrom(c, r, |r.steps|);
  }
}
