/** What the outbox promises, over every run: at most once, in order, and - exactly when no line holds a second
    rendered item - nothing lost. */
module MirrorTheorems {
  import opened Options
  import opened Transcript
  import opened MirrorProtocol
  import opened MirrorSafety

  // ---- at most once, in order -----------------------------------------------------------------

  ghost predicate NoMarkerTwice(server: seq<Post>) {
    forall i, j :: 0 <= i < j < |server| ==> server[i].marker != server[j].marker
  }

  lemma {:induction false} DistinctHalves(server: seq<Post>)
    requires NoMarkerTwice(ItemPosts(server)) && Increasing(OutPosts(server))
    requires forall i :: 0 <= i < |server| && server[i].marker.uid.Out? ==> server[i].marker.k == 0
    ensures NoMarkerTwice(server)
  {
    if server != [] {
      var front, last := server[..|server| - 1], server[|server| - 1];
      assert server == front + [last];
      var m := last.marker;
      if m.uid.Out? {
        assert OutPosts(server) == OutPosts(front) + [m.uid.name];
        assert forall i :: 0 <= i < |OutPosts(front)| ==> OutPosts(server)[i] == OutPosts(front)[i];
        assert OutPosts(server)[|OutPosts(front)|] == m.uid.name;
        OutPostsHave(front, m.uid.name);
      } else {
        assert ItemPosts(server) == ItemPosts(front) + [last];
        assert forall i :: 0 <= i < |ItemPosts(front)| ==> ItemPosts(server)[i] == ItemPosts(front)[i];
        assert ItemPosts(server)[|ItemPosts(front)|] == last;
        ItemPostsHave(front, m);
      }
      DistinctHalves(front);
      assert !HasMarker(front, m);
    }
  }

  lemma {:induction false} MarkersOnce(c: Conf, s: Sys)
    requires WellFormed(c) && Inv(c, s)
    ensures NoMarkerTwice(s.server)
  {
    var posts := ItemPosts(s.server);
    forall i, j | 0 <= i < j < |posts| ensures posts[i].marker != posts[j].marker {
      if posts[i].marker == posts[j].marker {
        MarkersDistinct(c, s.sent[i], s.sent[j]);
      }
    }
    DistinctHalves(s.server);
  }

  /** No marker is ever on the server twice, whatever was killed, unanswered, refused or given up. */
  lemma {:induction false} AtMostOnce(c: Conf, r: Trace)
    requires WellFormed(c) && Runs(c, r)
    ensures NoMarkerTwice(After(r).server)
  {
    ReachableOk(c, r);
    MarkersOnce(c, After(r));
  }

  /** The conversation on the server is the transcript's chunks in transcript order, some perhaps missing, with
      the rendered text of each; the notifications are in order of arrival. */
  lemma {:induction false} PostsKeepOrder(c: Conf, r: Trace)
    requires WellFormed(c) && Runs(c, r)
    ensures Selects(ItemPosts(After(r).server), Master(c), After(r).sent)
    ensures Increasing(OutPosts(After(r).server))
  {
    ReachableOk(c, r);
  }

  // ---- nothing lost ---------------------------------------------------------------------------

  /** No item that shares its line with an earlier one renders to anything. */
  ghost predicate ExtrasSilent(c: Conf) {
    forall a {:trigger c.render(c.items[a])} ::
      0 < a < |c.items| && SameLine(c.items[a - 1], c.items[a]) ==> c.render(c.items[a]) == []
  }

  /** No pending post is ever given up. */
  ghost predicate NeverExpires(c: Conf, r: Trace)
    requires |r.states| == |r.steps| + 1
  {
    forall i :: 0 <= i < |r.steps| && r.steps[i].LookupError? ==> !GivesUp(c, r.states[i], r.steps[i].now)
  }

  predicate GivesUp(c: Conf, s: Sys, now: int) {
    s.disk.pending.Some? && Expires(c, s.disk.pending.value, now)
  }

  /** Every chunk behind the mark is on the server. */
  ghost predicate NoGaps(c: Conf, s: Sys)
    requires MarksOk(c, s)
  {
    forall i :: 0 <= i < Cur(c, s) ==> i in s.sent
  }

  lemma {:induction false} SilentStretch(c: Conf, a: nat, b: nat)
    requires ExtrasSilent(c) && 0 < a <= b <= |c.items|
    requires forall j :: a <= j < b ==> SameLine(c.items[a - 1], c.items[j])
    ensures Base(c, b) == Base(c, a)
    decreases b
  {
    if a < b {
      SilentStretch(c, a, b - 1);
      assert SameLine(c.items[b - 2], c.items[b - 1]);
      assert c.render(c.items[b - 1]) == [];
      assert Flatten(c, b) == Flatten(c, b - 1) + ChunkPosts(c, c.items[b - 1]);
    }
  }

  /** What a dying worker had not reached of the line its mark has passed is the rest of that line. */
  lemma {:induction false} SkippedShareALine(c: Conf, s: Sys)
    requires WellFormed(c) && MarksOk(c, s) && s.worker.Up? && s.worker.at < Before(c, s.disk.offset)
    ensures forall j :: s.worker.at <= j < Before(c, s.disk.offset) ==> SameLine(c.items[s.worker.at - 1], c.items[j])
  {
    BeforeEndOfItem(c, s.worker.at - 1);
  }

  /** With silent extras a death moves the mark past no chunk. */
  lemma {:induction false} CrashLosesNothing(c: Conf, s: Sys)
    requires WellFormed(c) && ExtrasSilent(c) && MarksOk(c, s) && PartialOk(c, s)
    ensures MarksOk(c, Do(c, s, Crash)) && Cur(c, Do(c, s, Crash)) == Cur(c, s)
  {
    CrashCursor(c, s);
    if s.worker.Up? && s.worker.at < Before(c, s.disk.offset) {
      SkippedShareALine(c, s);
      var a := s.worker.at;
      SilentStretch(c, a, Before(c, s.disk.offset));
      assert SameLine(c.items[a - 1], c.items[a]);
      assert c.render(c.items[a]) == [];
      DoneBounded(c, s);
    }
  }

  lemma {:induction false} SettledWasSent(c: Conf, s: Sys)
    requires WellFormed(c) && Inv(c, s) && s.disk.pending.Some? && HasMarker(s.server, PendingMarker(s))
    ensures PendingItemAt(c, s, CurItem(c, s)) ==> Cur(c, s) in s.sent
  {
    if PendingItemAt(c, s, CurItem(c, s)) {
      MarkerMeansSent(c, s, CurItem(c, s), s.disk.pending.value.uid, s.disk.pending.value.k);
    }
  }

  lemma {:induction false} StepLosesNothing(c: Conf, s: Sys, step: Step)
    requires WellFormed(c) && ExtrasSilent(c) && Inv(c, s) && NoGaps(c, s) && Enabled(c, s, step)
    requires step.LookupError? ==> !Expires(c, s.disk.pending.value, step.now)
    ensures Inv(c, Do(c, s, step)) && NoGaps(c, Do(c, s, step))
  {
    hide Before, Flatten, Selects, ItemPosts, OutPosts, Increasing, Boundary, ExtrasSilent, WellFormed, OutsOk;
    var t := Do(c, s, step);
    if step.Found? || step.Confirm? {
      if step.Found? {
        SettledWasSent(c, s);
      }
      SettleCursor(c, s, t);
    } else {
      StepKeeps(c, s, step);
      CrashLosesNothing(c, s);
      SentStays(c, s, step);
    }
  }

  lemma {:induction false} SentStays(c: Conf, s: Sys, step: Step)
    requires Enabled(c, s, step)
    ensures forall i :: i in s.sent ==> i in Do(c, s, step).sent
  {
  }

  lemma {:induction false} NothingSkippedUpTo(c: Conf, r: Trace, n: nat)
    requires WellFormed(c) && ExtrasSilent(c) && RunsTo(c, r, n) && |r.states| == |r.steps| + 1 && NeverExpires(c, r)
    ensures Inv(c, r.states[n]) && NoGaps(c, r.states[n])
  {
    if n == 0 {
      StartOk(c);
      BeforeSplits(c, 0);
    } else {
      NothingSkippedUpTo(c, r, n - 1);
      StepLosesNothing(c, r.states[n - 1], r.steps[n - 1]);
    }
  }

  lemma {:induction false} DenseIsAll(at: seq<nat>, n: nat)
    requires Increasing(at) && (forall i :: i in at <==> 0 <= i < n)
    ensures |at| == n && forall i :: 0 <= i < n ==> at[i] == i
    decreases n
  {
    forall j | 0 <= j < |at| ensures 0 <= at[j] < n {
      assert at[j] in at;
    }
    if n > 0 {
      var last := |at| - 1;
      assert n - 1 in at;
      var j :| 0 <= j < |at| && at[j] == n - 1;
      assert at[last] in at;
      assert j == last;
      var front := at[..last];
      forall i ensures i in front <==> 0 <= i < n - 1 {
        if 0 <= i < n - 1 {
          assert i in at;
          var m :| 0 <= m < |at| && at[m] == i;
          assert front[m] == i;
        }
        if i in front {
          var m :| 0 <= m < |front| && front[m] == i;
          assert at[m] in at && at[m] < at[last];
        }
      }
      DenseIsAll(front, n - 1);
      assert forall i :: 0 <= i < last ==> at[i] == front[i];
    }
  }

  /** The transcript posts on the server are exactly a beginning of all chunks in transcript order: those the
      persisted marks record as done, and at most the one pending chunk more. */
  lemma {:induction false} NothingLost(c: Conf, r: Trace)
    requires WellFormed(c) && ExtrasSilent(c) && Runs(c, r) && NeverExpires(c, r)
    ensures var s := After(r);
      && Inv(c, s)
      && var n := |ItemPosts(s.server)|;
      && n <= |Master(c)| && ItemPosts(s.server) == Master(c)[..n]
      && (n == Cur(c, s) || (n == Cur(c, s) + 1 && PendingIs(c, s, n - 1)))
  {
    NothingSkippedUpTo(c, r, |r.steps|);
    SentIsPrefix(c, After(r));
  }

  lemma {:induction false} SentIsPrefix(c: Conf, s: Sys)
    requires WellFormed(c) && Inv(c, s) && NoGaps(c, s)
    ensures var n := |ItemPosts(s.server)|;
      && n <= |Master(c)| && ItemPosts(s.server) == Master(c)[..n]
      && (n == Cur(c, s) || (n == Cur(c, s) + 1 && PendingIs(c, s, n - 1)))
  {
    var n := SentCount(c, s);
    DenseIsAll(s.sent, n);
    SelectPrefix(ItemPosts(s.server), Master(c), s.sent);
  }

  lemma {:induction false} SelectPrefix(posts: seq<Post>, master: seq<Post>, at: seq<nat>)
    requires Selects(posts, master, at) && forall i :: 0 <= i < |at| ==> at[i] == i
    ensures |posts| <= |master| && posts == master[..|posts|]
  {
    if posts != [] {
      assert at[|at| - 1] < |master|;
    }
  }

  /** With no gaps the delivered chunks are the first n, and n is the cursor or one more. */
  lemma {:induction false} SentCount(c: Conf, s: Sys) returns (n: nat)
    requires WellFormed(c) && Inv(c, s) && NoGaps(c, s)
    ensures forall i :: i in s.sent <==> 0 <= i < n
    ensures n == Cur(c, s) || (n == Cur(c, s) + 1 && PendingIs(c, s, n - 1))
  {
    var q := Cur(c, s);
    n := if q in s.sent then q + 1 else q;
    assert forall i :: i in s.sent && i >= q ==> PendingIs(c, s, i);
  }

  /** A drain that has reached the end of its read has posted every item of every complete line it read. */
  lemma {:induction false} DrainedIsPosted(c: Conf, r: Trace)
    requires WellFormed(c) && ExtrasSilent(c) && Runs(c, r) && NeverExpires(c, r)
    requires var s := After(r); Idle(s) && s.worker.at == s.worker.stop
    ensures MarksOk(c, After(r))
    ensures Flatten(c, Before(c, After(r).worker.end)) <= ItemPosts(After(r).server) <= Master(c)
  {
    NothingLost(c, r);
    FlattenGrows(c, After(r).worker.at, |c.items|);
  }

  // ---- exactly when nothing is lost -----------------------------------------------------------

  /** In every run in which no post is given up, every chunk behind the mark is on the server. */
  ghost predicate LossFree(c: Conf) {
    forall r: Trace :: Runs(c, r) && NeverExpires(c, r) ==>
      MarksOk(c, After(r)) && NoGaps(c, After(r))
  }

  ghost function Quietly(c: Conf, r: Trace, step: Step): (r': Trace)
    requires Runs(c, r) && NeverExpires(c, r) && Enabled(c, After(r), step) && !step.LookupError?
    ensures Runs(c, r') && NeverExpires(c, r') && After(r') == Do(c, After(r), step)
  {
    var r' := Extended(c, r, step);
    assert forall i :: 0 <= i < |r.steps| ==> r'.steps[i] == r.steps[i] && r'.states[i] == r.states[i];
    r'
  }

  /** A worker that reads the whole transcript and has posted `k` chunks of item `a`, with nothing pending. */
  ghost predicate PostingAt(c: Conf, s: Sys, a: nat, k: nat) {
    && a <= |c.items|
    && s.worker.Up? && s.worker.at == a && s.worker.stop == |c.items| && s.worker.flight.Quiet?
    && s.disk.pending.None?
    && s.disk.offset == (if a == 0 then 0 else c.items[a - 1].end)
    && (if k == 0 then s.disk.partial.None? else a < |c.items| && s.disk.partial == Some(Partial(c.items[a].uid, k)))
  }

  lemma {:induction false} OneChunk(c: Conf, s: Sys, a: nat, k: nat)
    requires WellFormed(c) && PostingAt(c, s, a, k) && a < |c.items| && k < |c.render(c.items[a])|
    ensures Enabled(c, s, AnnounceItem)
    ensures var s1 := Do(c, s, AnnounceItem);
      var sent := Delivered(c.render(c.items[a])[k], true);
      && Enabled(c, s1, sent)
      && Enabled(c, Do(c, s1, sent), Confirm)
      && PostingAt(c, Do(c, Do(c, s1, sent), Confirm), a, k + 1)
  {
    NotOut(c, a, c.items[a].uid);
  }

  lemma {:induction false} PostOneChunk(c: Conf, r: Trace, a: nat, k: nat) returns (r': Trace)
    requires WellFormed(c) && Runs(c, r) && NeverExpires(c, r) && PostingAt(c, After(r), a, k)
    requires a < |c.items| && k < |c.render(c.items[a])|
    ensures Runs(c, r') && NeverExpires(c, r') && PostingAt(c, After(r'), a, k + 1)
  {
    OneChunk(c, After(r), a, k);
    r' := Quietly(c, r, AnnounceItem);
    r' := Quietly(c, r', Delivered(c.render(c.items[a])[k], true));
    r' := Quietly(c, r', Confirm);
  }

  lemma {:induction false} PostUpTo(c: Conf, a: nat, k: nat) returns (r: Trace)
    requires WellFormed(c) && a <= |c.items|
    requires if a < |c.items| then k <= |c.render(c.items[a])| else k == 0
    ensures Runs(c, r) && NeverExpires(c, r) && PostingAt(c, After(r), a, k)
    decreases a, k
  {
    if k > 0 {
      var before := PostUpTo(c, a, k - 1);
      r := PostOneChunk(c, before, a, k - 1);
    } else if a > 0 {
      var before := PostUpTo(c, a - 1, |c.render(c.items[a - 1])|);
      r := AdvanceOne(c, before, a - 1);
    } else {
      r := ReadAll(c);
    }
  }

  lemma {:induction false} OneAdvance(c: Conf, s: Sys, a: nat)
    requires WellFormed(c) && a < |c.items| && PostingAt(c, s, a, |c.render(c.items[a])|)
    ensures Enabled(c, s, Advance) && PostingAt(c, Do(c, s, Advance), a + 1, 0)
  {
  }

  lemma {:induction false} AdvanceOne(c: Conf, r: Trace, a: nat) returns (r': Trace)
    requires WellFormed(c) && Runs(c, r) && NeverExpires(c, r)
    requires a < |c.items| && PostingAt(c, After(r), a, |c.render(c.items[a])|)
    ensures Runs(c, r') && NeverExpires(c, r') && PostingAt(c, After(r'), a + 1, 0)
  {
    OneAdvance(c, After(r), a);
    r' := Quietly(c, r, Advance);
  }

  lemma {:induction false} ReadAll(c: Conf) returns (r: Trace)
    requires WellFormed(c)
    ensures Runs(c, r) && NeverExpires(c, r) && PostingAt(c, After(r), 0, 0)
  {
    hide End, Boundary, Flatten, ItemsOfFull;
    r := Quietly(c, Trace([START], []), Grow(|c.full|, 0));
    r := Quietly(c, r, Read(|c.full|));
    BeforeSplits(c, 0);
    assert c.full[..|c.full|] == c.full;
    assert c.full[..0] == [];
  }

  /** A rendered item behind another one on its line is lost when the worker dies between the two. */
  lemma {:induction false} ExtraIsLost(c: Conf, a: nat) returns (r: Trace)
    requires WellFormed(c) && 0 < a < |c.items| && SameLine(c.items[a - 1], c.items[a]) && c.render(c.items[a]) != []
    ensures Runs(c, r) && NeverExpires(c, r) && MarksOk(c, After(r)) && !NoGaps(c, After(r))
  {
    var posting := PostUpTo(c, a, 0);
    var s := After(posting);
    ReachableOk(c, posting);
    r := Quietly(c, posting, Crash);
    CrashPassesExtra(c, s, a);
  }

  lemma {:induction false} CrashPassesExtra(c: Conf, s: Sys, a: nat)
    requires WellFormed(c) && 0 < a < |c.items| && SameLine(c.items[a - 1], c.items[a]) && c.render(c.items[a]) != []
    requires Inv(c, s) && PostingAt(c, s, a, 0)
    ensures MarksOk(c, Do(c, s, Crash)) && !NoGaps(c, Do(c, s, Crash))
  {
    assert Cur(c, s) == Base(c, a);
    CrashCursor(c, s);
    BeforeEndOfItem(c, a);
    BaseOrder(c, a, Before(c, s.disk.offset), 0);
    assert Base(c, a) !in s.sent;
  }

  /** Nothing is ever lost exactly when no item behind another one on its line renders to anything. */
  lemma {:induction false} LossFreeIff(c: Conf)
    requires WellFormed(c)
    ensures LossFree(c) <==> ExtrasSilent(c)
  {
    if ExtrasSilent(c) {
      forall r: Trace | Runs(c, r) && NeverExpires(c, r)
        ensures MarksOk(c, After(r)) && NoGaps(c, After(r)) {
        NothingSkippedUpTo(c, r, |r.steps|);
      }
    } else {
      var a :| 0 < a < |c.items| && SameLine(c.items[a - 1], c.items[a]) && c.render(c.items[a]) != [];
      var r := ExtraIsLost(c, a);
    }
  }

  // ---- when a post is given up ----------------------------------------------------------------

  function LookupErrors(steps: seq<Step>): nat {
    if steps == [] then 0
    else LookupErrors(steps[..|steps| - 1]) + (if steps[|steps| - 1].LookupError? then 1 else 0)
  }

  lemma {:induction false} LookupErrorsGrow(steps: seq<Step>, n: nat)
    requires n <= |steps|
    ensures LookupErrors(steps[..n]) <= LookupErrors(steps)
  {
    if n < |steps| {
      LookupErrorsGrow(steps[..|steps| - 1], n);
      assert steps[..|steps| - 1][..n] == steps[..n];
    } else {
      assert steps[..n] == steps;
    }
  }

  lemma {:induction false} TriesAreErrors(c: Conf, r: Trace, n: nat)
    requires RunsTo(c, r, n)
    ensures r.states[n].disk.pending.Some? ==> r.states[n].disk.pending.value.tries <= LookupErrors(r.steps[..n])
  {
    if n > 0 {
      hide Do, Enabled, LookupErrors;
      TriesAreErrors(c, r, n - 1);
      TriesStep(c, r.states[n - 1], r.steps[n - 1]);
      assert r.steps[..n] == r.steps[..n - 1] + [r.steps[n - 1]];
      LookupErrorsSnoc(r.steps[..n - 1], r.steps[n - 1]);
    }
  }

  lemma {:induction false} LookupErrorsSnoc(steps: seq<Step>, step: Step)
    ensures LookupErrors(steps + [step]) == LookupErrors(steps) + if step.LookupError? then 1 else 0
  {
    assert (steps + [step])[..|steps|] == steps;
  }

  /** Only an error answer adds a try to a pending post. */
  lemma {:induction false} TriesStep(c: Conf, s: Sys, step: Step)
    requires Enabled(c, s, step)
    ensures var t := Do(c, s, step);
      t.disk.pending.Some? ==>
        t.disk.pending.value.tries == 0
        || (s.disk.pending.Some?
            && t.disk.pending.value.tries <= s.disk.pending.value.tries + if step.LookupError? then 1 else 0)
  {
    hide Before, Base, Items, End, HasMarker;
  }

  lemma {:induction false} RunsToLess(c: Conf, r: Trace, m: nat, n: nat)
    requires RunsTo(c, r, n) && m <= n
    ensures RunsTo(c, r, m)
    decreases n
  {
    if m < n {
      RunsToLess(c, r, m, n - 1);
    }
  }

  /** Timeouts and refused connections never count: with fewer answered lookup errors than the limit, however
      many lookups failed and however long it took, no post is given up. */
  lemma {:induction false} FewErrorsNeverExpire(c: Conf, r: Trace)
    requires Runs(c, r) && LookupErrors(r.steps) < c.pendingTries
    ensures NeverExpires(c, r)
  {
    forall i | 0 <= i < |r.steps| && r.steps[i].LookupError? ensures !GivesUp(c, r.states[i], r.steps[i].now) {
      RunsToLess(c, r, i, |r.steps|);
      TriesAreErrors(c, r, i);
      LookupErrorsGrow(r.steps, i + 1);
      assert r.steps[..i + 1][..i] == r.steps[..i];
    }
  }

  /** The times of the lookup errors since the last announcement. */
  function ErrorTimes(steps: seq<Step>): seq<int> {
    if steps == [] then []
    else
      var before := ErrorTimes(steps[..|steps| - 1]);
      match steps[|steps| - 1]
      case LookupError(now) => before + [now]
      case AnnounceItem => []
      case AnnounceOut(i) => []
      case _ => before
  }

  lemma {:induction false} TimesAreKept(c: Conf, r: Trace, n: nat)
    requires RunsTo(c, r, n)
    ensures r.states[n].disk.pending.Some? ==>
      var p, times := r.states[n].disk.pending.value, ErrorTimes(r.steps[..n]);
      p.tries == |times| && p.firstFail == if times == [] then None else Some(times[0])
  {
    hide HasMarker, Before, Base, DoneOf, Items, End;
    if n > 0 {
      TimesAreKept(c, r, n - 1);
      assert r.steps[..n][..n - 1] == r.steps[..n - 1];
    }
  }

  /** In every run a lookup that the server answers with an error gives the post up exactly when that makes enough
      errors since it was announced, the first of them long enough ago. */
  lemma {:induction false} GivenUpIff(c: Conf, r: Trace, i: nat)
    requires Runs(c, r) && i < |r.steps| && r.steps[i].LookupError?
    ensures var times, now := ErrorTimes(r.steps[..i + 1]), r.steps[i].now;
      r.states[i].disk.pending.Some? && times != [] &&
      (r.states[i + 1].disk.pending.None? <==> |times| >= c.pendingTries && times[0] + c.pendingSecs <= now)
  {
    hide HasMarker, Before, Base, DoneOf, RunsTo;
    RunsToLess(c, r, i, |r.steps|);
    RunsToLess(c, r, i + 1, |r.steps|);
    TimesAreKept(c, r, i);
    RunStep(c, r, i);
    assert r.steps[..i + 1][..i] == r.steps[..i];
  }

  lemma {:induction false} RunStep(c: Conf, r: Trace, i: nat)
    requires RunsTo(c, r, i + 1)
    ensures StepTo(c, r.states[i], r.steps[i], r.states[i + 1])
  {
  }

  // ---- the notifications ----------------------------------------------------------------------

  /** Every readable notification at or before the last one recorded was posted. */
  ghost predicate OutsComplete(c: Conf, s: Sys) {
    forall i :: 0 <= i < |c.spool| && c.spool[i].Readable() && c.spool[i].name <= s.disk.outboxLast ==> c.spool[i].name in s.outs
  }

  lemma {:induction false} NamesUpTo(c: Conf, s: Sys, i: nat, j: nat)
    requires WellFormed(c) && NextOut(c, s, i) && j < |c.spool|
    ensures c.spool[j].name <= c.spool[i].name ==> j == i || c.spool[j].name <= s.disk.outboxLast
  {
  }

  lemma {:induction false} StepKeepsOuts(c: Conf, s: Sys, step: Step)
    requires WellFormed(c) && Inv(c, s) && OutsComplete(c, s) && Enabled(c, s, step)
    requires step.LookupError? ==> !Expires(c, s.disk.pending.value, step.now)
    ensures OutsComplete(c, Do(c, s, step))
  {
    hide Flatten, Base, Before, Boundary, ItemPosts, OutPosts, Selects;
    var t := Do(c, s, step);
    assert forall n :: n in s.outs ==> n in t.outs;
    if (step.Found? || step.Confirm?) && s.disk.pending.value.uid.Out? {
      var i: nat :| PendingOutAt(c, s, i);
      OutPostsHave(s.server, c.spool[i].name);
      forall j | 0 <= j < |c.spool| && c.spool[j].Readable() && c.spool[j].name <= t.disk.outboxLast
        ensures c.spool[j].name in t.outs {
        NamesUpTo(c, s, i, j);
      }
    } else if step.SkipOut? {
      forall j | 0 <= j < |c.spool| && c.spool[j].Readable() && c.spool[j].name <= t.disk.outboxLast
        ensures c.spool[j].name in t.outs {
        NamesUpTo(c, s, step.i, j);
      }
    }
  }

  lemma {:induction false} OutsCompleteUpTo(c: Conf, r: Trace, n: nat)
    requires WellFormed(c) && RunsTo(c, r, n) && |r.states| == |r.steps| + 1 && NeverExpires(c, r)
    ensures OutsComplete(c, r.states[n])
  {
    if n > 0 {
      OutsCompleteUpTo(c, r, n - 1);
      ReachableFrom(c, r, n - 1);
      StepKeepsOuts(c, r.states[n - 1], r.steps[n - 1]);
    }
  }

  /** Every readable notification recorded as done is on the server, once, and they are in order of arrival. */
  lemma {:induction false} NotificationsAllPosted(c: Conf, r: Trace)
    requires WellFormed(c) && Runs(c, r) && NeverExpires(c, r)
    ensures forall i :: 0 <= i < |c.spool| && c.spool[i].Readable() && c.spool[i].name <= After(r).disk.outboxLast ==>
      c.spool[i].name in OutPosts(After(r).server)
    ensures Increasing(OutPosts(After(r).server))
  {
    ReachableOk(c, r);
    OutsCompleteUpTo(c, r, |r.steps|);
  }
}
