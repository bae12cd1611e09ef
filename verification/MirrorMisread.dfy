/** What becomes of at-most-once when a post was created but the answer could not be read: the worker takes it for a
    refusal and forgets the marker. */
module MirrorMisread {
  import opened Options
  import opened Transcript
  import opened MirrorProtocol
  import opened MirrorSafety
  import opened MirrorTheorems

  /** A step of the protocol, or a post that is created and reported as failed. */
  datatype Move = Plain(step: Step) | Misread(text: string)

  predicate MayMove(c: Conf, s: Sys, move: Move) {
    match move
    case Plain(step) => Enabled(c, s, step)
    case Misread(text) => Enabled(c, s, Delivered(text, false))
  }

  function Moved(c: Conf, s: Sys, move: Move): Sys
    requires MayMove(c, s, move)
  {
    match move
    case Plain(step) => Do(c, s, step)
    case Misread(text) => var t := Do(c, s, Delivered(text, false)); t.(disk := t.disk.(pending := None))
  }

  datatype WildTrace = WildTrace(states: seq<Sys>, moves: seq<Move>)

  predicate MovesTo(c: Conf, s: Sys, move: Move, t: Sys) {
    MayMove(c, s, move) && t == Moved(c, s, move)
  }

  ghost predicate WildRunsTo(c: Conf, r: WildTrace, n: nat) {
    && n < |r.states| && n <= |r.moves|
    && if n == 0 then r.states[0] == START
       else WildRunsTo(c, r, n - 1) && MovesTo(c, r.states[n - 1], r.moves[n - 1], r.states[n])
  }

  ghost predicate WildRuns(c: Conf, r: WildTrace) {
    |r.states| == |r.moves| + 1 && WildRunsTo(c, r, |r.moves|)
  }

  function Final(r: WildTrace): Sys
    requires |r.states| == |r.moves| + 1
  {
    r.states[|r.moves|]
  }

  function Misreads(moves: seq<Move>): nat {
    if moves == [] then 0 else Misreads(moves[..|moves| - 1]) + (if moves[|moves| - 1].Misread? then 1 else 0)
  }

  // ---- runs ---------------------------------------------------------------------------------------

  lemma {:induction false} WildRunsToSame(c: Conf, r: WildTrace, r': WildTrace, n: nat)
    requires WildRunsTo(c, r, n) && r.states <= r'.states && r.moves <= r'.moves
    ensures WildRunsTo(c, r', n)
  {
    if n > 0 {
      WildRunsToSame(c, r, r', n - 1);
    }
  }

  function Longer(c: Conf, r: WildTrace, move: Move): WildTrace
    requires |r.states| == |r.moves| + 1 && MayMove(c, Final(r), move)
  {
    WildTrace(r.states + [Moved(c, Final(r), move)], r.moves + [move])
  }

  lemma {:induction false} LongerRuns(c: Conf, r: WildTrace, move: Move)
    requires WildRuns(c, r) && MayMove(c, Final(r), move)
    ensures var r' := Longer(c, r, move);
      && WildRuns(c, r') && Final(r') == Moved(c, Final(r), move)
      && Misreads(r'.moves) == Misreads(r.moves) + if move.Misread? then 1 else 0
  {
    hide MayMove, Moved;
    var r' := Longer(c, r, move);
    WildRunsToSame(c, r, r', |r.moves|);
    assert r'.moves[..|r.moves|] == r.moves;
  }

  ghost function Then(c: Conf, r: WildTrace, move: Move): (r': WildTrace)
    requires WildRuns(c, r) && MayMove(c, Final(r), move)
    ensures WildRuns(c, r') && Final(r') == Moved(c, Final(r), move)
    ensures Misreads(r'.moves) == Misreads(r.moves) + if move.Misread? then 1 else 0
  {
    LongerRuns(c, r, move);
    Longer(c, r, move)
  }

  /** Every run of the protocol is one, and without a misread answer there are no others. */
  lemma {:induction false} RunIsWild(c: Conf, r: Trace, n: nat) returns (w: WildTrace)
    requires RunsTo(c, r, n)
    ensures WildRuns(c, w) && Final(w) == r.states[n] && Misreads(w.moves) == 0
  {
    if n == 0 {
      w := WildTrace([START], []);
    } else {
      w := RunIsWild(c, r, n - 1);
      w := Then(c, w, Plain(r.steps[n - 1]));
    }
  }

  lemma {:induction false} WildIsRun(c: Conf, w: WildTrace, n: nat) returns (r: Trace)
    requires WildRunsTo(c, w, n) && Misreads(w.moves[..n]) == 0
    ensures Runs(c, r) && After(r) == w.states[n]
  {
    if n == 0 {
      r := Trace([START], []);
    } else {
      assert w.moves[..n][..n - 1] == w.moves[..n - 1];
      r := WildIsRun(c, w, n - 1);
      r := Extended(c, r, w.moves[n - 1].step);
    }
  }

  /** As long as no created post is reported as failed, no marker is on the server twice. */
  lemma {:induction false} OnceUnlessMisread(c: Conf, w: WildTrace)
    requires WellFormed(c) && WildRuns(c, w) && Misreads(w.moves) == 0
    ensures NoMarkerTwice(Final(w).server)
  {
    assert w.moves[..|w.moves|] == w.moves;
    var r := WildIsRun(c, w, |w.moves|);
    AtMostOnce(c, r);
  }

  // ---- when a misread answer does no harm -----------------------------------------------------------

  /** Item `a` is the first of its line. */
  predicate OpensLine(c: Conf, a: nat)
    requires a < |c.items|
  {
    a > 0 ==> !SameLine(c.items[a - 1], c.items[a])
  }

  /** No notification is readable, and what opens a line renders to nothing. */
  ghost predicate NothingToRepeat(c: Conf) {
    && (forall i :: 0 <= i < |c.spool| ==> !c.spool[i].Readable())
    && forall a: nat :: a < |c.items| && OpensLine(c, a) ==> c.render(c.items[a]) == []
  }

  /** The mark cannot stand in front of an item that shares its line with an earlier one. */
  lemma {:induction false} MarkOpensLine(c: Conf, o: nat, a: nat)
    requires WellFormed(c) && o <= |c.full| && Boundary(c.full, o) && Before(c, o) == a < |c.items|
    ensures OpensLine(c, a)
  {
    BeforeByPosition(c, o);
    EndOfItemIsBoundary(c, a);
  }

  /** In front of an item that opens a line it can: the end of the item before it. */
  lemma {:induction false} MarkBefore(c: Conf, a: nat)
    requires WellFormed(c) && a < |c.items| && OpensLine(c, a)
    ensures var o := if a == 0 then 0 else c.items[a - 1].end;
      o <= |c.full| && Boundary(c.full, o) && Before(c, o) == a
  {
    if a > 0 {
      BeforeEndOfItem(c, a - 1);
    } else {
      BeforeSplits(c, 0);
      assert c.full[..0] == [];
    }
  }

  /** A post reported as failed lies behind the mark when the next worker starts. */
  lemma {:induction false} MisreadKeeps(c: Conf, s: Sys, text: string)
    requires WellFormed(c) && NothingToRepeat(c) && Inv(c, s) && Enabled(c, s, Delivered(text, false))
    ensures Inv(c, Moved(c, s, Misread(text)))
  {
    hide Base, Flatten, ItemPosts, OutPosts, Selects, Boundary;
    var t := Do(c, s, Delivered(text, false));
    DeliveredKeeps(c, s, text, false);
    NoneReadable(c, s);
    var a := s.worker.at;
    if Before(c, s.disk.offset) == a {
      MarkOpensLine(c, s.disk.offset, a);
    }
    assert !PendingItemAt(c, t, CurItem(c, t)) by {
      PassedIsNotPending(c, s, t, a);
    }
    assert Cur(c, Moved(c, s, Misread(text))) == Cur(c, t);
  }

  lemma {:induction false} NoneReadable(c: Conf, s: Sys)
    requires NothingToRepeat(c) && MarksOk(c, s) && PendingOk(c, s) && s.disk.pending.Some?
    ensures !s.disk.pending.value.uid.Out?
  {
  }

  lemma {:induction false} PassedIsNotPending(c: Conf, s: Sys, t: Sys, a: nat)
    requires WellFormed(c) && Inv(c, s) && s.disk.pending.Some? && MarksOk(c, t) && t.disk == s.disk && t.worker.Down?
    requires !s.disk.pending.value.uid.Out? && s.worker.Up? && a == s.worker.at < Before(c, s.disk.offset)
    ensures !PendingItemAt(c, t, CurItem(c, t))
  {
    var b: nat :| PendingItemAt(c, s, b);
    if PendingItemAt(c, t, CurItem(c, t)) {
      UidUnique(c, b, CurItem(c, t), s.disk.pending.value.uid);
    }
  }

  lemma {:induction false} WildKeeps(c: Conf, w: WildTrace, n: nat)
    requires WellFormed(c) && NothingToRepeat(c) && WildRunsTo(c, w, n)
    ensures Inv(c, w.states[n])
  {
    hide Inv;
    if n == 0 {
      StartOk(c);
    } else {
      WildKeeps(c, w, n - 1);
      match w.moves[n - 1]
      case Plain(step) => StepKeeps(c, w.states[n - 1], step);
      case Misread(text) => MisreadKeeps(c, w.states[n - 1], text);
    }
  }

  // ---- when it does -----------------------------------------------------------------------------------

  /** The marker of the pending post, twice. */
  lemma {:induction false} TwiceIsTwice(server: seq<Post>, more: seq<Post>, p: Post, q: Post)
    requires p.marker == q.marker
    ensures !NoMarkerTwice(server + [p] + more + [q])
  {
    var all := server + [p] + more + [q];
    assert all[|server|] == p && all[|all| - 1] == q;
  }

  /** A worker that is about to post the first chunk of item `a`, its mark in front of it. */
  ghost predicate AtItem(c: Conf, s: Sys, a: nat) {
    && a < |c.items| && c.render(c.items[a]) != [] && Idle(s) && s.worker.at == a < s.worker.stop <= |c.items|
    && s.disk.partial.None? && s.disk.offset <= |c.full| && Boundary(c.full, s.disk.offset)
    && Before(c, s.disk.offset) == a && s.disk.offset <= s.vis <= |c.full| && s.spoolVis <= |c.spool|
  }

  function ChunkPost(c: Conf, a: nat): Post
    requires a < |c.items| && c.render(c.items[a]) != []
  {
    Post(Marker(c.items[a].uid, 0), c.render(c.items[a])[0])
  }

  lemma {:induction false} ChunkMisread(c: Conf, s: Sys, a: nat)
    requires WellFormed(c) && AtItem(c, s, a)
    ensures Enabled(c, s, AnnounceItem)
    ensures var s1, move := Do(c, s, AnnounceItem), Misread(ChunkPost(c, a).text);
      && MayMove(c, s1, move)
      && var t := Moved(c, s1, move);
      t.server == s.server + [ChunkPost(c, a)] && t.disk == s.disk && t.worker.Down? && t.vis == s.vis
      && t.spoolVis == s.spoolVis
  {
    hide Before;
    NotOut(c, a, c.items[a].uid);
  }

  lemma {:induction false} ReadAgain(c: Conf, s: Sys, t: Sys, a: nat)
    requires WellFormed(c) && AtItem(c, s, a) && t.disk == s.disk && t.worker.Down?
    requires t.vis == s.vis && t.spoolVis == s.spoolVis
    ensures Enabled(c, t, Grow(|c.full|, t.spoolVis))
    ensures Enabled(c, Do(c, t, Grow(|c.full|, t.spoolVis)), Read(|c.full|))
    ensures var u := Do(c, Do(c, t, Grow(|c.full|, t.spoolVis)), Read(|c.full|));
      AtItem(c, u, a) && u.server == t.server
  {
    hide Before;
    ReadsOn(c, s.disk.offset);
  }

  /** Posts the chunk, to a worker that takes the answer for a refusal. */
  lemma {:induction false} PostUnread(c: Conf, w: WildTrace, a: nat) returns (w': WildTrace)
    requires WellFormed(c) && WildRuns(c, w) && a < |c.items| && c.render(c.items[a]) != [] && AtItem(c, Final(w), a)
    ensures WildRuns(c, w') && AtItem(c, Final(w'), a) && Misreads(w'.moves) == Misreads(w.moves) + 1
    ensures Final(w').server == Final(w).server + [ChunkPost(c, a)]
  {
    hide Enabled, Do, AtItem, ChunkPost, Boundary, Before;
    var s := Final(w);
    ChunkMisread(c, s, a);
    w' := Then(c, w, Plain(AnnounceItem));
    w' := Then(c, w', Misread(ChunkPost(c, a).text));
    var t := Final(w');
    ReadAgain(c, s, t, a);
    w' := Then(c, w', Plain(Grow(|c.full|, t.spoolVis)));
    w' := Then(c, w', Plain(Read(|c.full|)));
  }

  /** The first chunk of an item that opens a line is posted, reported as failed, and posted again. */
  lemma {:induction false} ChunkRepeats(c: Conf, a: nat) returns (w: WildTrace)
    requires WellFormed(c) && a < |c.items| && OpensLine(c, a) && c.render(c.items[a]) != []
    ensures WildRuns(c, w) && Misreads(w.moves) == 1 && !NoMarkerTwice(Final(w).server)
  {
    hide Enabled, Do, AtItem, ChunkPost, Boundary, Before, Inv, PostingAt, NoMarkerTwice;
    var r := PostUpTo(c, a, 0);
    PostingIsAt(c, r, a);
    w := RunIsWild(c, r, |r.steps|);
    var server, p := After(r).server, ChunkPost(c, a);
    w := PostUnread(c, w, a);
    var s := Final(w);
    Redelivered(c, s, a);
    w := Then(c, w, Plain(AnnounceItem));
    w := Then(c, w, Plain(Delivered(ChunkPost(c, a).text, true)));
    TwiceIsTwice(server, [], p, p);
    assert Final(w).server == server + [p] + [] + [p];
  }

  lemma {:induction false} PostingIsAt(c: Conf, r: Trace, a: nat)
    requires WellFormed(c) && Runs(c, r) && PostingAt(c, After(r), a, 0)
    requires a < |c.items| && OpensLine(c, a) && c.render(c.items[a]) != []
    ensures AtItem(c, After(r), a)
  {
    hide Before, Boundary;
    ReachableOk(c, r);
    MarkBefore(c, a);
  }

  lemma {:induction false} Redelivered(c: Conf, s: Sys, a: nat)
    requires WellFormed(c) && AtItem(c, s, a)
    ensures Enabled(c, s, AnnounceItem)
    ensures var s1 := Do(c, s, AnnounceItem); var step := Delivered(ChunkPost(c, a).text, true);
      Enabled(c, s1, step) && Do(c, s1, step).server == s.server + [ChunkPost(c, a)]
  {
    hide Before;
    NotOut(c, a, c.items[a].uid);
  }

  lemma {:induction false} ReadsOn(c: Conf, o: nat)
    requires WellFormed(c) && o <= |c.full| && Boundary(c.full, o)
    ensures Before(c, o) <= |c.items|
    ensures Before(c, o) + |Items(c.full[..|c.full|], o, c.parse)| == |c.items|
  {
    BeforeSplits(c, o);
    assert c.full[..|c.full|] == c.full;
  }

  /** A worker with nothing to post that has passed over the first `i` notifications. */
  ghost predicate SkippedTo(c: Conf, s: Sys, i: nat) {
    && i <= |c.spool| == s.spoolVis && s.vis <= |c.full| && Idle(s) && s.worker.at <= |c.items|
    && s.disk.offset == 0 && s.disk.partial.None?
    && s.disk.outboxLast == if i == 0 then -1 else c.spool[i - 1].name
  }

  lemma {:induction false} SkipUpTo(c: Conf, i: nat) returns (r: Trace)
    requires WellFormed(c) && i <= |c.spool| && forall j :: 0 <= j < i ==> !c.spool[j].Readable()
    ensures Runs(c, r) && SkippedTo(c, After(r), i)
  {
    if i == 0 {
      r := Extended(c, Trace([START], []), Grow(0, |c.spool|));
      BeforeSplits(c, 0);
      r := Extended(c, r, Read(0));
    } else {
      hide Enabled, Do, SkippedTo;
      r := SkipUpTo(c, i - 1);
      SkipOne(c, After(r), i - 1);
      r := Extended(c, r, SkipOut(i - 1));
    }
  }

  lemma {:induction false} SkipOne(c: Conf, s: Sys, i: nat)
    requires WellFormed(c) && SkippedTo(c, s, i) && i < |c.spool| && !c.spool[i].Readable()
    ensures Enabled(c, s, SkipOut(i)) && SkippedTo(c, Do(c, s, SkipOut(i)), i + 1)
  {
    hide Before, Base, Items, End;
  }

  function OutPost(f: SpoolFile, text: string): Post {
    Post(Marker(Out(f.name), 0), text)
  }

  lemma {:induction false} OutMisread(c: Conf, s: Sys, i: nat, text: string)
    requires WellFormed(c) && SkippedTo(c, s, i) && i < |c.spool| && c.spool[i].Readable()
    ensures Enabled(c, s, AnnounceOut(i))
    ensures var s1 := Do(c, s, AnnounceOut(i));
      && MayMove(c, s1, Misread(text)) && MayMove(c, s1, Plain(Delivered(text, false)))
      && Moved(c, s1, Plain(Delivered(text, false))).server == s.server + [OutPost(c.spool[i], text)]
      && var t := Moved(c, s1, Misread(text));
      t.server == s.server + [OutPost(c.spool[i], text)] && t.disk == s.disk && t.worker.Down?
      && t.spoolVis == s.spoolVis && t.vis == s.vis
  {
  }

  lemma {:induction false} OutReadAgain(c: Conf, s: Sys, t: Sys, i: nat)
    requires WellFormed(c) && SkippedTo(c, s, i) && t.disk == s.disk && t.worker.Down? && t.spoolVis == s.spoolVis
    requires t.vis == s.vis
    ensures Enabled(c, t, Read(0))
    ensures var u := Do(c, t, Read(0)); SkippedTo(c, u, i) && u.server == t.server
  {
    BeforeSplits(c, 0);
  }

  /** So is the first readable notification. */
  lemma {:induction false} NotificationRepeats(c: Conf, i: nat) returns (w: WildTrace)
    requires WellFormed(c) && i < |c.spool| && c.spool[i].Readable()
    requires forall j :: 0 <= j < i ==> !c.spool[j].Readable()
    ensures WildRuns(c, w) && Misreads(w.moves) == 1 && !NoMarkerTwice(Final(w).server)
  {
    hide Enabled, Do, SkippedTo, OutPost, Inv, NoMarkerTwice;
    var r := SkipUpTo(c, i);
    var s, text := After(r), c.spool[i].text;
    w := RunIsWild(c, r, |r.steps|);
    OutMisread(c, s, i, text);
    w := Then(c, w, Plain(AnnounceOut(i)));
    w := Then(c, w, Misread(text));
    OutReadAgain(c, s, Final(w), i);
    w := Then(c, w, Plain(Read(0)));
    OutMisread(c, Final(w), i, text);
    w := Then(c, w, Plain(AnnounceOut(i)));
    w := Then(c, w, Plain(Delivered(text, false)));
    var p := OutPost(c.spool[i], text);
    TwiceIsTwice(s.server, [], p, p);
    assert Final(w).server == s.server + [p] + [] + [p];
  }

  lemma {:induction false} FirstReadable(c: Conf, n: nat) returns (i: nat)
    requires n < |c.spool| && c.spool[n].Readable()
    ensures i <= n && c.spool[i].Readable() && forall j :: 0 <= j < i ==> !c.spool[j].Readable()
  {
    if j: nat :| j < n && c.spool[j].Readable() {
      i := FirstReadable(c, j);
    } else {
      i := n;
    }
  }

  // ---- the condition is exact -------------------------------------------------------------------------

  ghost predicate AlwaysOnce(c: Conf) {
    forall w: WildTrace :: WildRuns(c, w) ==> NoMarkerTwice(Final(w).server)
  }

  /** At-most-once survives misread answers exactly when there is nothing they could repeat; otherwise one of them is
      enough to break it. */
  lemma {:induction false} OnceWithMisreadsIff(c: Conf)
    requires WellFormed(c)
    ensures AlwaysOnce(c) <==> NothingToRepeat(c)
    ensures !NothingToRepeat(c) ==>
      exists w: WildTrace :: WildRuns(c, w) && Misreads(w.moves) == 1 && !NoMarkerTwice(Final(w).server)
  {
    if NothingToRepeat(c) {
      forall w: WildTrace | WildRuns(c, w) ensures NoMarkerTwice(Final(w).server) {
        WildKeeps(c, w, |w.moves|);
        MarkersOnce(c, Final(w));
      }
    } else if n: nat :| n < |c.spool| && c.spool[n].Readable() {
      var i := FirstReadable(c, n);
      var w := NotificationRepeats(c, i);
    } else {
      var a: nat :| a < |c.items| && OpensLine(c, a) && c.render(c.items[a]) != [];
      var w := ChunkRepeats(c, a);
    }
  }
}
