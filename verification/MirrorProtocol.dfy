/** The outbox of the conversation mirror as a step system: what one announced, sent and confirmed post does to
    the persisted state and to the server, what a killed worker leaves behind, and what the next one makes of it. */
module MirrorProtocol {
  import opened Options
  import opened Transcript

  /** A spooled notification: its name, which sorts in order of arrival, and what its file holds - nothing usable,
      or the transcript size at the moment it arrived, the mention and the text. */
  datatype SpoolFile = SpoolFile(name: nat, bad: bool, at: nat, mention: string, text: string) {
    predicate Readable() { !bad && text != "" }
  }

  /** Everything a run cannot influence. `full` is the transcript as it will be in the end, `items` what there is
      in it to mirror, and `spool` every notification that will ever arrive; at any moment only a beginning of
      the transcript and of the spool is visible. */
  datatype Conf = Conf(
    full: seq<byte>, parse: Parser, items: seq<Item>, render: Item -> seq<string>, spool: seq<SpoolFile>,
    pendingTries: nat, pendingSecs: nat)

  datatype Marker = Marker(uid: Uid, k: nat)
  datatype Post = Post(marker: Marker, text: string)

  datatype Partial = Partial(uid: Uid, done: nat)
  datatype Pending = Pending(uid: Uid, k: nat, tries: nat, firstFail: Option<int>)

  /** The state file: replaced as a whole or not at all. `outboxLast` is -1 before the first spooled post. */
  datatype State = State(offset: nat, partial: Option<Partial>, pending: Option<Pending>, outboxLast: int)

  /** How far a worker's own send has got. */
  datatype Flight = Quiet | Announced | Acked

  /** The worker that holds the session lock: it has the items [at..stop) of its last read still to post, and
      that read ended at byte `end`. `Down` is a worker that has not read yet, or no worker at all. */
  datatype Worker = Down | Up(at: nat, stop: nat, end: nat, flight: Flight)

  /** `sent` and `outs` record, for the theorems only, what reached the server: the transcript's chunks by their
      index among all chunks, and the spooled notifications by name. */
  datatype Sys = Sys(disk: State, server: seq<Post>, vis: nat, spoolVis: nat, worker: Worker,
                     sent: seq<nat>, outs: seq<nat>)

  datatype Step =
    | Grow(vis: nat, spoolVis: nat)   // the session writes on, notifications arrive
    | Crash                           // the worker is killed, or stops
    | Found | Absent                  // the marker of the pending post was looked up
    | LookupError(now: int)           // the server answered the lookup with an error
    | NoAnswer                        // the lookup timed out or was refused
    | Read(size: nat)                 // the complete lines among the first `size` bytes are read
    | AnnounceItem | AnnounceOut(i: nat)
    | Delivered(text: string, known: bool)
    | NotCreated(known: bool)
    | Confirm
    | SkipOut(i: nat)                 // an unreadable notification is passed over
    | Advance | Finish                // the mark moves past an item; to the end of the read

  // ---- the transcript as one list of chunks ---------------------------------------------------

  predicate ItemsOfFull(c: Conf) {
    c.items == Items(c.full, 0, c.parse)
  }

  /** How many items lie before the line start `o`. */
  function Before(c: Conf, o: nat): nat
    requires o <= |c.full|
  {
    |Items(c.full[..o], 0, c.parse)|
  }

  function ChunkPosts(c: Conf, item: Item): (posts: seq<Post>) {
    seq(|c.render(item)|, k requires 0 <= k < |c.render(item)| => Post(Marker(item.uid, k), c.render(item)[k]))
  }

  /** Every post of the first `a` items, in transcript order. */
  function Flatten(c: Conf, a: nat): seq<Post>
    requires a <= |c.items|
  {
    if a == 0 then [] else Flatten(c, a - 1) + ChunkPosts(c, c.items[a - 1])
  }

  function Master(c: Conf): seq<Post> {
    Flatten(c, |c.items|)
  }

  function Base(c: Conf, a: nat): nat
    requires a <= |c.items|
  {
    |Flatten(c, a)|
  }

  ghost predicate IsAt(c: Conf, a: nat, uid: Uid) {
    a < |c.items| && c.items[a].uid == uid
  }

  ghost predicate WellFormed(c: Conf) {
    && ItemsOfFull(c)
    && (forall a, b :: 0 <= a < b < |c.items| ==> c.items[a].uid != c.items[b].uid)
    && (forall i, j :: 0 <= i < j < |c.spool| ==> c.spool[i].name < c.spool[j].name)
  }

  lemma {:induction false} BeforeSplits(c: Conf, o: nat)
    requires ItemsOfFull(c) && o <= |c.full| && Boundary(c.full, o)
    ensures Before(c, o) <= |c.items|
    ensures Items(c.full, o, c.parse) == c.items[Before(c, o)..]
    ensures Items(c.full[..o], 0, c.parse) == c.items[..Before(c, o)]
  {
    SplitAtBoundary(c.full, o, c.parse);
  }

  /** What a read of the visible part returns: the items up to the end of its last complete line. */
  lemma {:induction false} ReadIsSlice(c: Conf, o: nat, vis: nat)
    requires ItemsOfFull(c) && o <= vis <= |c.full| && Boundary(c.full, o)
    ensures var end := End(c.full[..vis], o);
      && Boundary(c.full, end) && o <= end <= vis
      && Before(c, o) <= Before(c, end) <= |c.items|
      && Items(c.full[..vis], o, c.parse) == c.items[Before(c, o)..Before(c, end)]
  {
    hide Items, End;
    var f := c.full[..vis];
    var end := End(f, o);
    assert Boundary(f, o);
    EndIsBoundary(f, o);
    assert Boundary(c.full, end);
    BeforeSplits(c, o);
    BeforeSplits(c, end);
    ReadsCompose(f, c.full, o, c.parse);
    EndAtBoundary(c.full, 0, o);
    assert f[..o] == c.full[..o];
    assert c.full[..end] == f[..end];
    BeforeMonotone(c, o, end);
    SliceFromSuffixes(c.items, Items(f, o, c.parse), Before(c, o), Before(c, end));
  }

  lemma {:induction false} SliceFromSuffixes<T>(all: seq<T>, read: seq<T>, n: nat, m: nat)
    requires n <= m <= |all| && all[n..] == read + all[m..]
    ensures read == all[n..m]
  {
    assert |read| == m - n;
    assert all[n..m] == all[n..][..|read|];
  }

  lemma {:induction false} BeforeMonotone(c: Conf, o: nat, o': nat)
    requires o <= o' <= |c.full| && Boundary(c.full, o) && Boundary(c.full, o')
    ensures Before(c, o) <= Before(c, o')
  {
    ReadsCompose(c.full[..o], c.full[..o'], 0, c.parse);
  }

  lemma {:induction false} EndOfItemIsBoundary(c: Conf, a: nat)
    requires ItemsOfFull(c) && a < |c.items|
    ensures c.items[a].end <= |c.full| && Boundary(c.full, c.items[a].end)
    ensures c.items[a].start < c.items[a].end
  {
    ItemsInFileOrder(c.full, 0, c.parse);
    ItemEndsAtLineStart(c.full, 0, c.parse, a);
  }

  /** The line start `o` separates the items by where they lie. */
  lemma {:induction false} BeforeByPosition(c: Conf, o: nat)
    requires ItemsOfFull(c) && o <= |c.full| && Boundary(c.full, o)
    ensures Before(c, o) <= |c.items|
    ensures forall i :: 0 <= i < Before(c, o) ==> c.items[i].end <= o
    ensures forall i :: Before(c, o) <= i < |c.items| ==> o <= c.items[i].start
  {
    var n := Before(c, o);
    BeforeSplits(c, o);
    EndAtBoundary(c.full, 0, o);
    ItemsInFileOrder(c.full[..o], 0, c.parse);
    ItemsInFileOrder(c.full, o, c.parse);
    forall i | 0 <= i < n ensures c.items[i].end <= o {
      assert c.items[i] == c.items[..n][i];
    }
    forall i | n <= i < |c.items| ensures o <= c.items[i].start {
      assert c.items[i] == c.items[n..][i - n];
    }
  }

  /** An item's line end is after the item, and exactly after it when no other item shares the line. */
  lemma {:induction false} BeforeEndOfItem(c: Conf, a: nat)
    requires ItemsOfFull(c) && a < |c.items|
    ensures c.items[a].end <= |c.full| && Boundary(c.full, c.items[a].end)
    ensures a + 1 <= Before(c, c.items[a].end) <= |c.items|
    ensures forall j :: a < j < Before(c, c.items[a].end) ==> SameLine(c.items[a], c.items[j])
  {
    EndOfItemIsBoundary(c, a);
    BeforeByPosition(c, c.items[a].end);
    ItemsInFileOrder(c.full, 0, c.parse);
  }

  lemma {:induction false} FlattenGrows(c: Conf, a: nat, b: nat)
    requires a <= b <= |c.items|
    ensures Flatten(c, a) <= Flatten(c, b)
    decreases b
  {
    if a < b {
      FlattenGrows(c, a, b - 1);
    }
  }

  lemma {:induction false} ChunkAt(c: Conf, a: nat, k: nat)
    requires a < |c.items| && k < |c.render(c.items[a])|
    ensures Base(c, a + 1) == Base(c, a) + |c.render(c.items[a])| <= |Master(c)|
    ensures Master(c)[Base(c, a) + k] == Post(Marker(c.items[a].uid, k), c.render(c.items[a])[k])
  {
    FlattenGrows(c, a + 1, |c.items|);
    assert Flatten(c, a + 1) == Flatten(c, a) + ChunkPosts(c, c.items[a]);
    assert Master(c)[Base(c, a) + k] == Flatten(c, a + 1)[Base(c, a) + k];
  }

  lemma {:induction false} Locate(c: Conf, n: nat, i: nat) returns (a: nat, k: nat)
    requires n <= |c.items| && i < Base(c, n)
    ensures a < n && k < |c.render(c.items[a])| && i == Base(c, a) + k
    decreases n
  {
    if i < Base(c, n - 1) {
      a, k := Locate(c, n - 1, i);
    } else {
      a, k := n - 1, i - Base(c, n - 1);
    }
  }

  lemma {:induction false} UidUnique(c: Conf, a: nat, b: nat, uid: Uid)
    requires WellFormed(c) && IsAt(c, a, uid) && IsAt(c, b, uid)
    ensures a == b
  {
  }

  lemma {:induction false} LocatePost(c: Conf, i: nat) returns (a: nat, k: nat)
    requires i < |Master(c)|
    ensures IsAt(c, a, Master(c)[i].marker.uid) && k == Master(c)[i].marker.k && i == Base(c, a) + k
  {
    a, k := Locate(c, |c.items|, i);
    ChunkAt(c, a, k);
  }

  /** No two chunks of the transcript carry the same marker. */
  lemma {:induction false} MarkersDistinct(c: Conf, i: nat, j: nat)
    requires WellFormed(c) && i < |Master(c)| && j < |Master(c)|
    requires Master(c)[i].marker == Master(c)[j].marker
    ensures i == j
  {
    var a, k := LocatePost(c, i);
    var b, l := LocatePost(c, j);
    UidUnique(c, a, b, Master(c)[i].marker.uid);
  }

  // ---- the steps ------------------------------------------------------------------------------

  predicate HasMarker(server: seq<Post>, m: Marker) {
    exists i :: 0 <= i < |server| && server[i].marker == m
  }

  /** How many chunks of item `at` are already recorded as posted. */
  function DoneOf(c: Conf, at: nat, disk: State): nat {
    if at < |c.items| && disk.partial.Some? && disk.partial.value.uid == c.items[at].uid
    then disk.partial.value.done else 0
  }

  /** The first item not yet behind the mark: of the worker's own list, or of what a new worker would read. */
  function CurItem(c: Conf, s: Sys): nat
    requires s.disk.offset <= |c.full|
  {
    if s.worker.Up? then s.worker.at else Before(c, s.disk.offset)
  }

  /** Notification `i` is the next one in name order after the last one posted. */
  predicate NextOut(c: Conf, s: Sys, i: nat) {
    && i < s.spoolVis <= |c.spool|
    && s.disk.outboxLast < c.spool[i].name
    && (i > 0 ==> c.spool[i - 1].name <= s.disk.outboxLast)
  }

  /** The pending post counts as posted: its chunk or its notification is recorded as done. */
  function Settled(d: State): State
    requires d.pending.Some?
  {
    var p := d.pending.value;
    if p.uid.Out?
    then d.(outboxLast := if d.outboxLast < p.uid.name then p.uid.name else d.outboxLast, pending := None)
    else d.(partial := Some(Partial(p.uid, p.k + 1)), pending := None)
  }

  function FailedOnce(p: Pending, now: int): Pending {
    p.(tries := p.tries + 1, firstFail := if p.firstFail.Some? then p.firstFail else Some(now))
  }

  /** Enough answered lookup errors over enough time: the post is given up as posted. */
  predicate Expires(c: Conf, p: Pending, now: int) {
    var q := FailedOnce(p, now);
    q.tries >= c.pendingTries && now - q.firstFail.value >= c.pendingSecs
  }

  predicate Idle(s: Sys) {
    s.worker.Up? && s.worker.flight.Quiet? && s.disk.pending.None?
  }

  predicate Enabled(c: Conf, s: Sys, step: Step) {
    match step
    case Grow(vis, spoolVis) => s.vis <= vis <= |c.full| && s.spoolVis <= spoolVis <= |c.spool|
    case Crash => true
    case Found => s.worker.Down? && s.disk.pending.Some? && HasMarker(s.server, PendingMarker(s))
    case Absent => s.worker.Down? && s.disk.pending.Some? && !HasMarker(s.server, PendingMarker(s))
    case LookupError(now) => s.worker.Down? && s.disk.pending.Some?
    case NoAnswer => s.worker.Down? && s.disk.pending.Some?
    case Read(size) =>
      && s.disk.pending.None?
      && (s.worker.Down? || (s.worker.flight.Quiet? && s.worker.at == s.worker.stop && s.worker.end == s.disk.offset))
      && s.disk.offset <= size <= s.vis <= |c.full|
    case AnnounceItem =>
      Idle(s) && s.worker.at < s.worker.stop <= |c.items|
      && DoneOf(c, s.worker.at, s.disk) < |c.render(c.items[s.worker.at])|
    case AnnounceOut(i) => Idle(s) && NextOut(c, s, i) && c.spool[i].Readable()
    case Delivered(text, known) =>
      && s.worker.Up? && s.worker.flight.Announced? && s.disk.pending.Some?
      && s.worker.at <= |c.items|
      && (s.disk.pending.value.uid.Out? ||
          (s.worker.at < |c.items| && s.disk.pending.value.k < |c.render(c.items[s.worker.at])|
           && text == c.render(c.items[s.worker.at])[s.disk.pending.value.k]))
    case NotCreated(known) => s.worker.Up? && s.worker.flight.Announced? && s.disk.pending.Some?
    case Confirm => s.worker.Up? && s.worker.flight.Acked? && s.disk.pending.Some?
    case SkipOut(i) => Idle(s) && NextOut(c, s, i) && !c.spool[i].Readable()
    case Advance =>
      Idle(s) && s.worker.at < s.worker.stop <= |c.items|
      && DoneOf(c, s.worker.at, s.disk) >= |c.render(c.items[s.worker.at])|
    case Finish => Idle(s) && s.worker.at == s.worker.stop
  }

  function PendingMarker(s: Sys): Marker
    requires s.disk.pending.Some?
  {
    Marker(s.disk.pending.value.uid, s.disk.pending.value.k)
  }

  function Do(c: Conf, s: Sys, step: Step): Sys
    requires Enabled(c, s, step)
  {
    match step
    case Grow(vis, spoolVis) => s.(vis := vis, spoolVis := spoolVis)
    case Crash => s.(worker := Down)
    case Found => s.(disk := Settled(s.disk))
    case Absent => s.(disk := s.disk.(pending := None))
    case LookupError(now) =>
      if Expires(c, s.disk.pending.value, now) then s.(disk := Settled(s.disk))
      else s.(disk := s.disk.(pending := Some(FailedOnce(s.disk.pending.value, now))))
    case NoAnswer => s
    case Read(size) =>
      var o := s.disk.offset;
      var n := Before(c, o);
      s.(worker := Up(n, n + |Items(c.full[..size], o, c.parse)|, End(c.full[..size], o), Quiet))
    case AnnounceItem =>
      var a := s.worker.at;
      s.(disk := s.disk.(pending := Some(Pending(c.items[a].uid, DoneOf(c, a, s.disk), 0, None))),
         worker := s.worker.(flight := Announced))
    case AnnounceOut(i) =>
      s.(disk := s.disk.(pending := Some(Pending(Out(c.spool[i].name), 0, 0, None))),
         worker := s.worker.(flight := Announced))
    case Delivered(text, known) =>
      var p := s.disk.pending.value;
      s.(server := s.server + [Post(PendingMarker(s), text)],
         worker := if known then s.worker.(flight := Acked) else Down,
         sent := if p.uid.Out? then s.sent else s.sent + [Base(c, s.worker.at) + p.k],
         outs := if p.uid.Out? then s.outs + [p.uid.name] else s.outs)
    case NotCreated(known) =>
      s.(disk := if known then s.disk.(pending := None) else s.disk, worker := Down)
    case Confirm => s.(disk := Settled(s.disk), worker := s.worker.(flight := Quiet))
    case SkipOut(i) => s.(disk := s.disk.(outboxLast := c.spool[i].name))
    case Advance =>
      s.(disk := s.disk.(offset := c.items[s.worker.at].end, partial := None),
         worker := s.worker.(at := s.worker.at + 1))
    case Finish => s.(disk := s.disk.(offset := s.worker.end))
  }

  const START: Sys := Sys(State(0, None, None, -1), [], 0, 0, Down, [], [])

  /** A run: the states passed through and the steps between them. */
  datatype Trace = Trace(states: seq<Sys>, steps: seq<Step>)

  predicate StepTo(c: Conf, s: Sys, step: Step, t: Sys) {
    Enabled(c, s, step) && t == Do(c, s, step)
  }

  /** The first `n` steps of `r` are steps of the system, taken from its start. */
  ghost predicate RunsTo(c: Conf, r: Trace, n: nat) {
    && n < |r.states| && n <= |r.steps|
    && if n == 0 then r.states[0] == START
       else RunsTo(c, r, n - 1) && StepTo(c, r.states[n - 1], r.steps[n - 1], r.states[n])
  }

  ghost predicate Runs(c: Conf, r: Trace) {
    |r.states| == |r.steps| + 1 && RunsTo(c, r, |r.steps|)
  }

  function After(r: Trace): Sys
    requires |r.states| == |r.steps| + 1
  {
    r.states[|r.steps|]
  }

  /** `r` goes on with `r'`. */
  ghost predicate Continues(r: Trace, r': Trace) {
    r.states <= r'.states && r.steps <= r'.steps
  }

  lemma {:induction false} RunsToSame(c: Conf, r: Trace, r': Trace, n: nat)
    requires RunsTo(c, r, n) && Continues(r, r')
    ensures RunsTo(c, r', n)
  {
    if n > 0 {
      RunsToSame(c, r, r', n - 1);
    }
  }

  ghost function Extended(c: Conf, r: Trace, step: Step): (r': Trace)
    requires Runs(c, r) && Enabled(c, After(r), step)
    ensures Runs(c, r') && After(r') == Do(c, After(r), step)
    ensures r'.steps == r.steps + [step] && Continues(r, r')
  {
    var r' := Trace(r.states + [Do(c, After(r), step)], r.steps + [step]);
    RunsToSame(c, r, r', |r.steps|);
    r'
  }
}
