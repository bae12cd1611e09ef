/** The two append-only files behind one inbox, as what can be read back from them - after a torn append too. */
module InboxLog {
  import opened Options
  import opened Text
  import opened LineFile

  datatype Rec = Rec(id: string, root: string, kind: string, prompt: string, ts: int)

  type RecCodec = Codec<Rec>

  datatype Box = Box(entries: File, consumed: File)

  const COMPACT_AFTER := 200

  function Ids(recs: seq<Rec>): set<string> {
    set r | r in recs :: r.id
  }

  function ConsumedIds(c: RecCodec, b: Box): set<string> {
    Ids(Recs(c, b.consumed))
  }

  /** The entries that are not consumed, each id once, in order. */
  function Pending(entries: seq<Rec>, consumed: set<string>): seq<Rec> {
    if entries == [] then []
    else
      var front, r := Pending(entries[..|entries| - 1], consumed), entries[|entries| - 1];
      if r.id == "" || r.id in consumed || r.id in Ids(front) then front else front + [r]
  }

  function PendingIn(c: RecCodec, b: Box): seq<Rec> {
    Pending(Recs(c, b.entries), ConsumedIds(c, b))
  }

  predicate Readable(b: Box) {
    !b.entries.broken && !b.consumed.broken
  }

  /** What `pending` returns; it raises when either file does not decode. */
  function PendingRead(c: RecCodec, b: Box): Option<seq<Rec>> {
    if Readable(b) then Some(PendingIn(c, b)) else None
  }

  // ---- the operations -------------------------------------------------------------------------

  predicate Appends(c: RecCodec, b: Box, r: Rec) {
    r.id != "" && !b.entries.broken && r.id !in Ids(Recs(c, b.entries))
  }

  /** A record that raises changes nothing. */
  function Recorded(c: RecCodec, b: Box, r: Rec): Box {
    if Appends(c, b, r) then b.(entries := Append(b.entries, c.enc(r))) else b
  }

  function Mark(id: string, ts: int): Rec {
    Rec(id, "", "", "", ts)
  }

  function Marked(c: RecCodec, b: Box, id: string, ts: int): Box {
    b.(consumed := Append(b.consumed, c.enc(Mark(id, ts))))
  }

  predicate IsLong(c: RecCodec, b: Box) {
    |Recs(c, b.entries)| >= COMPACT_AFTER
  }

  /** Compaction reads both files before it replaces one. */
  predicate Compacts(c: RecCodec, b: Box) {
    Readable(b) && IsLong(c, b)
  }

  /** A consume that has appended its mark reads the entries, and both files when they are long. */
  predicate RaisesIn(c: RecCodec, b: Box) {
    b.entries.broken || (IsLong(c, b) && b.consumed.broken)
  }

  /** Compaction after its first file replacement, and after both. */
  function HalfCompacted(c: RecCodec, b: Box): Box {
    b.(entries := File(Encode(c, PendingIn(c, b)), "", false))
  }

  function Compacted(c: RecCodec, b: Box): Box {
    HalfCompacted(c, b).(consumed := EMPTY)
  }

  function Consumed(c: RecCodec, b: Box, id: string, ts: int): Box {
    if id == "" then b
    else
      var m := Marked(c, b, id, ts);
      if Compacts(c, m) then Compacted(c, m) else m
  }

  // ---- compaction -----------------------------------------------------------------------------

  ghost predicate DistinctIds(recs: seq<Rec>) {
    && (forall i :: 0 <= i < |recs| ==> recs[i].id != "")
    && (forall i, j :: 0 <= i < j < |recs| ==> recs[i].id != recs[j].id)
  }

  lemma {:induction false} IdsSnoc(recs: seq<Rec>, r: Rec)
    ensures Ids(recs + [r]) == Ids(recs) + {r.id}
  {
    assert (recs + [r])[|recs|] == r;
    assert forall x :: x in recs ==> x in recs + [r];
  }

  lemma {:induction false} PendingDistinct(entries: seq<Rec>, consumed: set<string>)
    ensures DistinctIds(Pending(entries, consumed))
    ensures forall r :: r in Pending(entries, consumed) ==> r in entries && r.id !in consumed
  {
    if entries != [] {
      var front, r := entries[..|entries| - 1], entries[|entries| - 1];
      PendingDistinct(front, consumed);
      var out := Pending(front, consumed);
      assert forall i :: 0 <= i < |out| ==> out[i].id in Ids(out);
    }
  }

  lemma {:induction false} PendingOfDistinct(entries: seq<Rec>, consumed: set<string>)
    requires DistinctIds(entries) && forall r :: r in entries ==> r.id !in consumed
    ensures Pending(entries, consumed) == entries
  {
    if entries != [] {
      var front, r := entries[..|entries| - 1], entries[|entries| - 1];
      assert entries == front + [r];
      PendingOfDistinct(front, consumed);
      assert r.id !in Ids(front);
    }
  }

  /** Compaction is invisible at every point it can be interrupted: before it, between its two file replacements,
      and after both, the same messages are pending. */
  lemma {:induction false} CompactionInvisible(c: RecCodec, b: Box)
    requires Lawful(c)
    ensures PendingIn(c, HalfCompacted(c, b)) == PendingIn(c, b)
    ensures PendingIn(c, Compacted(c, b)) == PendingIn(c, b)
  {
    var keep := PendingIn(c, b);
    DecodeEncode(c, keep);
    PendingDistinct(Recs(c, b.entries), ConsumedIds(c, b));
    PendingOfDistinct(keep, ConsumedIds(c, b));
    PendingOfDistinct(keep, {});
    assert ConsumedIds(c, Compacted(c, b)) == {};
  }

  /** After a finished consume the entries file is short, or holds exactly what is pending. */
  lemma {:induction false} ConsumeBounds(c: RecCodec, b: Box, id: string, ts: int)
    requires Lawful(c) && id != "" && !RaisesIn(c, b)
    ensures var after := Consumed(c, b, id, ts);
      |Recs(c, after.entries)| < COMPACT_AFTER || Recs(c, after.entries) == PendingIn(c, after)
  {
    var m := Marked(c, b, id, ts);
    if Compacts(c, m) {
      CompactionInvisible(c, m);
      DecodeEncode(c, PendingIn(c, m));
    }
  }

  /** A consume rewrites the files only when there are 200 records and both can be read; otherwise it only adds its
      mark. It raises when it cannot read the entries, or has to find what is pending and cannot. */
  lemma {:induction false} CompactsIff(c: RecCodec, b: Box, id: string, ts: int)
    requires Lawful(c) && id != ""
    ensures var after, mark := Consumed(c, b, id, ts), Append(b.consumed, c.enc(Rec(id, "", "", "", ts)));
      if |Recs(c, b.entries)| >= 200 && PendingRead(c, Box(b.entries, mark)).Some? then
        Recs(c, after.entries) == PendingRead(c, Box(b.entries, mark)).value && after.consumed == EMPTY
      else after == Box(b.entries, mark)
    ensures RaisesIn(c, b) <==> b.entries.broken || (|Recs(c, b.entries)| >= 200 && PendingRead(c, b).None?)
  {
    hide Pending;
    DecodeEncode(c, PendingIn(c, Marked(c, b, id, ts)));
  }

  // ---- histories ------------------------------------------------------------------------------

  /** What can happen to one inbox: calls that returned or raised, and calls a crash stopped - after `n` characters of
      an append or inside the next one, or after it, before or between the file replacements of a compaction. */
  datatype Event =
    | Record(r: Rec)
    | RecordTorn(r: Rec, n: nat, inside: bool)
    | Consume(id: string, ts: int)
    | ConsumeTorn(id: string, ts: int, n: nat, inside: bool)
    | ConsumeCut(id: string, ts: int, half: bool)

  function Step(c: RecCodec, b: Box, e: Event): Box {
    match e
    case Record(r) => Recorded(c, b, r)
    case RecordTorn(r, n, inside) =>
      if Appends(c, b, r) && n <= |c.enc(r)| then b.(entries := Torn(b.entries, c.enc(r), n, inside)) else b
    case Consume(id, ts) => Consumed(c, b, id, ts)
    case ConsumeTorn(id, ts, n, inside) =>
      var line := c.enc(Mark(id, ts));
      if id != "" && n <= |line| then b.(consumed := Torn(b.consumed, line, n, inside)) else b
    case ConsumeCut(id, ts, half) =>
      if id == "" then b
      else
        var m := Marked(c, b, id, ts);
        if half && Compacts(c, m) then HalfCompacted(c, m) else m
  }

  function Run(c: RecCodec, events: seq<Event>): Box {
    if events == [] then Box(EMPTY, EMPTY)
    else Step(c, Run(c, events[..|events| - 1]), events[|events| - 1])
  }

  /** The simple view: the messages in the order they were first recorded, and the ids whose turn is over. */
  datatype Plain = Plain(order: seq<Rec>, done: set<string>)

  function PlainStep(c: RecCodec, p: Plain, e: Event): Plain {
    match e
    case Record(r) => if r.id == "" || r.id in Ids(p.order) then p else p.(order := p.order + [r])
    case RecordTorn(r, n, inside) =>
      if r.id == "" || r.id in Ids(p.order) || n != |c.enc(r)| then p else p.(order := p.order + [r])
    case Consume(id, ts) => if id == "" then p else p.(done := p.done + {id})
    case ConsumeTorn(id, ts, n, inside) =>
      if id == "" || n != |c.enc(Mark(id, ts))| then p else p.(done := p.done + {id})
    case ConsumeCut(id, ts, half) => if id == "" then p else p.(done := p.done + {id})
  }

  function PlainRun(c: RecCodec, events: seq<Event>): Plain {
    if events == [] then Plain([], {})
    else PlainStep(c, PlainRun(c, events[..|events| - 1]), events[|events| - 1])
  }

  function Keep(recs: seq<Rec>, ids: set<string>): seq<Rec> {
    if recs == [] then []
    else
      var front, r := Keep(recs[..|recs| - 1], ids), recs[|recs| - 1];
      if r.id in ids then front + [r] else front
  }

  function PlainPending(p: Plain): seq<Rec> {
    Keep(p.order, Ids(p.order) - p.done)
  }

  /** Every append starts at a line boundary and none is cut inside a character, only recorded ids are consumed, and no
      id is recorded again after a compaction dropped it. */
  predicate Orderly(c: RecCodec, b: Box, p: Plain, e: Event) {
    match e
    case Record(r) => RecordOrderly(c, b, p, r)
    case RecordTorn(r, n, inside) => RecordOrderly(c, b, p, r) && !Splits(c.enc(r), n, inside)
    case Consume(id, ts) => ConsumeOrderly(b, p, id)
    case ConsumeTorn(id, ts, n, inside) => ConsumeOrderly(b, p, id) && !Splits(c.enc(Mark(id, ts)), n, inside)
    case ConsumeCut(id, ts, half) => ConsumeOrderly(b, p, id)
  }

  predicate RecordOrderly(c: RecCodec, b: Box, p: Plain, r: Rec) {
    Appends(c, b, r) ==> b.entries.tail == "" && r.id !in Ids(p.order)
  }

  predicate ConsumeOrderly(b: Box, p: Plain, id: string) {
    id != "" ==> b.consumed.tail == "" && id in Ids(p.order)
  }

  predicate AllOrderly(c: RecCodec, events: seq<Event>) {
    events == [] ||
    (AllOrderly(c, events[..|events| - 1]) &&
     Orderly(c, Run(c, events[..|events| - 1]), PlainRun(c, events[..|events| - 1]), events[|events| - 1]))
  }

  /** The entries file holds the messages of `kept`, which are all unfinished ones and some finished ones. */
  ghost predicate Agrees(c: RecCodec, b: Box, p: Plain) {
    && Readable(b)
    && DistinctIds(p.order)
    && (var kept := Ids(Recs(c, b.entries));
        var consumed := ConsumedIds(c, b);
        && Recs(c, b.entries) == Keep(p.order, kept)
        && kept <= Ids(p.order)
        && consumed <= p.done <= Ids(p.order)
        && kept - consumed == Ids(p.order) - p.done)
  }

  lemma {:induction false} KeepSnoc(recs: seq<Rec>, r: Rec, ids: set<string>)
    ensures Keep(recs + [r], ids) == if r.id in ids then Keep(recs, ids) + [r] else Keep(recs, ids)
  {
    assert (recs + [r])[..|recs|] == recs;
  }

  lemma {:induction false} KeepIds(recs: seq<Rec>, ids: set<string>)
    ensures Ids(Keep(recs, ids)) == Ids(recs) * ids
  {
    if recs != [] {
      var front, r := recs[..|recs| - 1], recs[|recs| - 1];
      KeepIds(front, ids);
      assert recs == front + [r];
      IdsSnoc(front, r);
      IdsSnoc(Keep(front, ids), r);
    }
  }

  lemma {:induction false} KeepSame(recs: seq<Rec>, ids: set<string>, ids': set<string>)
    requires forall r :: r in recs ==> (r.id in ids <==> r.id in ids')
    ensures Keep(recs, ids) == Keep(recs, ids')
  {
    if recs != [] {
      KeepSame(recs[..|recs| - 1], ids, ids');
      assert recs[|recs| - 1] in recs;
    }
  }

  lemma {:induction false} KeepKeep(recs: seq<Rec>, ids: set<string>, ids': set<string>)
    ensures Keep(Keep(recs, ids), ids') == Keep(recs, ids * ids')
  {
    if recs != [] {
      var front, r := recs[..|recs| - 1], recs[|recs| - 1];
      KeepKeep(front, ids, ids');
      KeepSnoc(Keep(front, ids), r, ids');
    }
  }

  lemma {:induction false} KeepDistinct(recs: seq<Rec>, ids: set<string>)
    requires DistinctIds(recs)
    ensures DistinctIds(Keep(recs, ids))
  {
    if recs != [] {
      hide DistinctIds, Ids;
      var front, r := recs[..|recs| - 1], recs[|recs| - 1];
      DistinctFront(recs);
      KeepDistinct(front, ids);
      KeepIds(front, ids);
      if r.id in ids {
        DistinctSnoc(Keep(front, ids), r);
      }
    }
  }

  lemma {:induction false} DistinctFront(recs: seq<Rec>)
    requires recs != [] && DistinctIds(recs)
    ensures var front, r := recs[..|recs| - 1], recs[|recs| - 1];
      DistinctIds(front) && r.id != "" && r.id !in Ids(front)
  {
  }

  lemma {:induction false} PendingIsKeep(entries: seq<Rec>, consumed: set<string>)
    requires DistinctIds(entries)
    ensures Pending(entries, consumed) == Keep(entries, Ids(entries) - consumed)
  {
    if entries != [] {
      var front, r := entries[..|entries| - 1], entries[|entries| - 1];
      assert entries == front + [r];
      IdsSnoc(front, r);
      PendingIsKeep(front, consumed);
      KeepIds(front, Ids(front) - consumed);
      assert r.id !in Ids(front);
      KeepSame(front, Ids(front) - consumed, Ids(entries) - consumed);
    }
  }

  /** What is read as pending is what the simple view calls unfinished. */
  lemma {:induction false} AgreesPending(c: RecCodec, b: Box, p: Plain)
    requires Agrees(c, b, p)
    ensures PendingRead(c, b) == Some(PlainPending(p))
  {
    var entries := Recs(c, b.entries);
    var kept, consumed := Ids(entries), ConsumedIds(c, b);
    KeepDistinct(p.order, kept);
    PendingIsKeep(entries, consumed);
    KeepKeep(p.order, kept, kept - consumed);
    assert kept * (kept - consumed) == kept - consumed;
  }

  lemma {:induction false} RecordAgrees(c: RecCodec, b: Box, p: Plain, r: Rec, after: Box)
    requires Lawful(c) && Agrees(c, b, p) && Appends(c, b, r) && r.id !in Ids(p.order)
    requires after.consumed == b.consumed && Recs(c, after.entries) == Recs(c, b.entries) + [r] && Readable(after)
    ensures Agrees(c, after, p.(order := p.order + [r]))
  {
    hide Keep, Recs;
    var entries, order := Recs(c, b.entries), p.order;
    var kept, consumed := Ids(entries), ConsumedIds(c, b);
    IdsSnoc(entries, r);
    IdsSnoc(order, r);
    KeepSnoc(order, r, kept + {r.id});
    KeepSame(order, kept, kept + {r.id}) by { NotAmong(order, r); }
    DistinctSnoc(order, r);
    assert (kept + {r.id}) - consumed == (kept - consumed) + {r.id};
    assert (Ids(order) + {r.id}) - p.done == (Ids(order) - p.done) + {r.id};
  }

  lemma {:induction false} NotAmong(recs: seq<Rec>, r: Rec)
    requires r.id !in Ids(recs)
    ensures forall q :: q in recs ==> q.id != r.id
  {
    forall q | q in recs ensures q.id != r.id {
      assert q.id in Ids(recs);
    }
  }

  lemma {:induction false} DistinctSnoc(recs: seq<Rec>, r: Rec)
    requires DistinctIds(recs) && r.id != "" && r.id !in Ids(recs)
    ensures DistinctIds(recs + [r])
  {
    assert forall i :: 0 <= i < |recs| ==> recs[i].id in Ids(recs);
  }

  lemma {:induction false} MarkAgrees(c: RecCodec, b: Box, p: Plain, id: string, ts: int, after: Box)
    requires Lawful(c) && Agrees(c, b, p) && id in Ids(p.order)
    requires after.entries == b.entries && Recs(c, after.consumed) == Recs(c, b.consumed) + [Mark(id, ts)]
    requires Readable(after)
    ensures Agrees(c, after, p.(done := p.done + {id}))
  {
    IdsSnoc(Recs(c, b.consumed), Mark(id, ts));
    var kept, consumed := Ids(Recs(c, b.entries)), ConsumedIds(c, b);
    assert ConsumedIds(c, after) == consumed + {id};
    assert kept - (consumed + {id}) == (kept - consumed) - {id};
    assert Ids(p.order) - (p.done + {id}) == (Ids(p.order) - p.done) - {id};
  }

  lemma {:induction false} CompactAgrees(c: RecCodec, b: Box, p: Plain)
    requires Lawful(c) && Agrees(c, b, p)
    ensures Agrees(c, HalfCompacted(c, b), p) && Agrees(c, Compacted(c, b), p)
  {
    var entries := Recs(c, b.entries);
    var kept, consumed := Ids(entries), ConsumedIds(c, b);
    DecodeEncode(c, PendingIn(c, b));
    KeepDistinct(p.order, kept);
    PendingIsKeep(entries, consumed);
    KeepIds(entries, kept - consumed);
    KeepKeep(p.order, kept, kept - consumed);
    assert kept * (kept - consumed) == kept - consumed;
    assert ConsumedIds(c, Compacted(c, b)) == {};
  }

  lemma {:induction false} AgreesReadable(c: RecCodec, b: Box, p: Plain)
    requires Agrees(c, b, p)
    ensures Readable(b)
  {
  }

  lemma {:induction false} StepAgrees(c: RecCodec, b: Box, p: Plain, e: Event)
    requires Lawful(c) && Agrees(c, b, p) && Orderly(c, b, p, e)
    ensures Agrees(c, Step(c, b, e), PlainStep(c, p, e))
  {
    hide Recs, Pending, Keep, Encode, DistinctIds, Ids;
    AgreesReadable(c, b, p);
    match e
    case Record(r) =>
      if Appends(c, b, r) {
        AppendReads(c, b.entries, r);
        RecordAgrees(c, b, p, r, Step(c, b, e));
      }
    case RecordTorn(r, n, inside) =>
      if Appends(c, b, r) && n <= |c.enc(r)| {
        TornReads(c, b.entries, r, n, inside);
        if n == |c.enc(r)| {
          RecordAgrees(c, b, p, r, Step(c, b, e));
        }
      }
    case Consume(id, ts) =>
      if id != "" {
        AppendReads(c, b.consumed, Mark(id, ts));
        MarkAgrees(c, b, p, id, ts, Marked(c, b, id, ts));
        CompactAgrees(c, Marked(c, b, id, ts), PlainStep(c, p, e));
      }
    case ConsumeTorn(id, ts, n, inside) =>
      if id != "" && n <= |c.enc(Mark(id, ts))| {
        TornReads(c, b.consumed, Mark(id, ts), n, inside);
        if n == |c.enc(Mark(id, ts))| {
          MarkAgrees(c, b, p, id, ts, Step(c, b, e));
        }
      }
    case ConsumeCut(id, ts, half) =>
      if id != "" {
        AppendReads(c, b.consumed, Mark(id, ts));
        MarkAgrees(c, b, p, id, ts, Marked(c, b, id, ts));
        CompactAgrees(c, Marked(c, b, id, ts), PlainStep(c, p, e));
      }
  }

  lemma {:induction false} RunAgrees(c: RecCodec, events: seq<Event>)
    requires Lawful(c) && AllOrderly(c, events)
    ensures Agrees(c, Run(c, events), PlainRun(c, events))
  {
    if events != [] {
      var front := events[..|events| - 1];
      RunAgrees(c, front);
      StepAgrees(c, Run(c, front), PlainRun(c, front), events[|events| - 1]);
    }
  }

  /** Over any history of calls and crashes that is orderly, exactly the recorded and unfinished messages are
      pending: in the order they were first recorded, each once. */
  lemma {:induction false} PendingIsExact(c: RecCodec, events: seq<Event>)
    requires Lawful(c) && AllOrderly(c, events)
    ensures PendingRead(c, Run(c, events)) == Some(PlainPending(PlainRun(c, events)))
    ensures DistinctIds(PendingIn(c, Run(c, events)))
    ensures forall r :: r in PendingIn(c, Run(c, events)) <==>
      r in PlainRun(c, events).order && r.id !in PlainRun(c, events).done
  {
    RunAgrees(c, events);
    var p := PlainRun(c, events);
    AgreesPending(c, Run(c, events), p);
    KeepDistinct(p.order, Ids(p.order) - p.done);
    forall r ensures r in PlainPending(p) <==> r in p.order && r.id !in p.done {
      KeepHas(p.order, Ids(p.order) - p.done, r);
    }
  }

  lemma {:induction false} KeepHas(recs: seq<Rec>, ids: set<string>, r: Rec)
    ensures r in Keep(recs, ids) <==> r in recs && r.id in ids
  {
    if recs != [] {
      KeepHas(recs[..|recs| - 1], ids, r);
      assert recs == recs[..|recs| - 1] + [recs[|recs| - 1]];
    }
  }

  // ---- every history --------------------------------------------------------------------------

  /** The two files as records. */
  datatype View = View(entries: Log<Rec>, marks: Log<Rec>)

  function Unfinished(v: View): seq<Rec> {
    Pending(v.entries.recs, Ids(v.marks.recs))
  }

  predicate Decodes(v: View) {
    !v.entries.tail.Broken? && !v.marks.tail.Broken?
  }

  predicate Admits(v: View, r: Rec) {
    r.id != "" && !v.entries.tail.Broken? && r.id !in Ids(v.entries.recs)
  }

  predicate Rewrites(v: View) {
    Decodes(v) && |v.entries.recs| >= COMPACT_AFTER
  }

  function Trimmed(v: View): View {
    v.(entries := Log(Unfinished(v), Clean))
  }

  function ViewStep(c: RecCodec, v: View, e: Event): View {
    match e
    case Record(r) => if Admits(v, r) then v.(entries := Added(v.entries, r)) else v
    case RecordTorn(r, n, inside) =>
      if Admits(v, r) && n <= |c.enc(r)| then v.(entries := AddedTorn(v.entries, r, c.enc(r), n, inside)) else v
    case Consume(id, ts) =>
      if id == "" then v
      else
        var m := v.(marks := Added(v.marks, Mark(id, ts)));
        if Rewrites(m) then Trimmed(m).(marks := Log([], Clean)) else m
    case ConsumeTorn(id, ts, n, inside) =>
      var line := c.enc(Mark(id, ts));
      if id != "" && n <= |line| then v.(marks := AddedTorn(v.marks, Mark(id, ts), line, n, inside)) else v
    case ConsumeCut(id, ts, half) =>
      if id == "" then v
      else
        var m := v.(marks := Added(v.marks, Mark(id, ts)));
        if half && Rewrites(m) then Trimmed(m) else m
  }

  function ViewRun(c: RecCodec, events: seq<Event>): View {
    if events == [] then View(Log([], Clean), Log([], Clean))
    else ViewStep(c, ViewRun(c, events[..|events| - 1]), events[|events| - 1])
  }

  ghost predicate Shows(c: RecCodec, b: Box, v: View) {
    Reads(c, b.entries, v.entries) && Reads(c, b.consumed, v.marks)
  }

  lemma {:induction false} StepShows(c: RecCodec, b: Box, v: View, e: Event)
    requires Lawful(c) && Shows(c, b, v)
    ensures Shows(c, Step(c, b, e), ViewStep(c, v, e))
  {
    hide Decode, Reads, Pending, Lawful, Append, Torn, Added, AddedTorn, Recs, Encode;
    ReadsRecs(c, b.entries, v.entries);
    ReadsRecs(c, b.consumed, v.marks);
    match e
    case Record(r) => AddedReads(c, b.entries, v.entries, r);
    case RecordTorn(r, n, inside) =>
      if n <= |c.enc(r)| {
        AddedTornReads(c, b.entries, v.entries, r, n, inside);
      }
    case Consume(id, ts) => MarkShows(c, b, v, id, ts);
    case ConsumeTorn(id, ts, n, inside) =>
      if n <= |c.enc(Mark(id, ts))| {
        AddedTornReads(c, b.consumed, v.marks, Mark(id, ts), n, inside);
      }
    case ConsumeCut(id, ts, half) => MarkShows(c, b, v, id, ts);
  }

  lemma {:induction false} MarkShows(c: RecCodec, b: Box, v: View, id: string, ts: int)
    requires Lawful(c) && Shows(c, b, v)
    ensures var m, w := Marked(c, b, id, ts), v.(marks := Added(v.marks, Mark(id, ts)));
      && Shows(c, m, w) && (Compacts(c, m) <==> Rewrites(w))
      && (Compacts(c, m) ==>
            && Shows(c, HalfCompacted(c, m), Trimmed(w))
            && Shows(c, Compacted(c, m), Trimmed(w).(marks := Log([], Clean))))
  {
    hide Decode, Reads, Pending, Lawful, Append, Added, Recs, Encode;
    AddedReads(c, b.consumed, v.marks, Mark(id, ts));
    var m, w := Marked(c, b, id, ts), v.(marks := Added(v.marks, Mark(id, ts)));
    ReadsRecs(c, m.entries, w.entries);
    ReadsRecs(c, m.consumed, w.marks);
    RewrittenReads(c, PendingIn(c, m));
    RewrittenReads(c, []);
    assert Encode(c, []) == [] by {
      EncodeNothing(c);
    }
  }

  /** Whatever was called and wherever it died, the two files read as the view says. */
  lemma {:induction false} EveryRunShows(c: RecCodec, events: seq<Event>)
    requires Lawful(c)
    ensures Shows(c, Run(c, events), ViewRun(c, events))
  {
    if events == [] {
      assert Decode(c, []) == [];
    } else {
      hide Step, ViewStep, Shows, Lawful;
      EveryRunShows(c, events[..|events| - 1]);
      StepShows(c, Run(c, events[..|events| - 1]), ViewRun(c, events[..|events| - 1]), events[|events| - 1]);
    }
  }

  /** Over every history: `pending` raises exactly when an append that took effect was cut inside a character;
      otherwise what is pending is what the records say, where an append that did not start a line is lost and takes an
      unterminated record with it. */
  lemma {:induction false} PendingOfEveryHistory(c: RecCodec, events: seq<Event>)
    requires Lawful(c)
    ensures PendingRead(c, Run(c, events))
      == if EntriesCut(c, events) || MarksCut(c, events) then None else Some(Unfinished(ViewRun(c, events)))
    ensures PendingRead(c, Run(c, events)).Some? <==> Decodes(ViewRun(c, events))
  {
    hide Run, ViewRun, Reads, Lawful, Recs, Pending, EntriesCut, MarksCut;
    BrokenIff(c, events);
    EveryRunShows(c, events);
    ReadsRecs(c, Run(c, events).entries, ViewRun(c, events).entries);
    ReadsRecs(c, Run(c, events).consumed, ViewRun(c, events).marks);
  }

  /** After every history a recorded message can be read back if and only if its append started at a line boundary. */
  lemma {:induction false} RecordIsDurableIff(c: RecCodec, events: seq<Event>, r: Rec)
    requires Lawful(c) && Appends(c, Run(c, events), r)
    ensures var read := ReadBack(c, Recorded(c, Run(c, events), r).entries);
      read.Some? && (r in read.value <==> Run(c, events).entries.tail == "")
  {
    hide Run, ViewRun, Reads, Lawful, Recs;
    EveryRunShows(c, events);
    var b, v := Run(c, events), ViewRun(c, events);
    ReadsRecs(c, b.entries, v.entries);
    AddedReads(c, b.entries, v.entries, r);
    ReadsRecs(c, Append(b.entries, c.enc(r)), Added(v.entries, r));
    NotAmong(v.entries.recs, r);
    SafeAreRecs(v.entries);
    if v.entries.tail.Clean? {
      assert (v.entries.recs + [r])[|v.entries.recs|] == r;
    }
  }

  // ---- when a file can be read --------------------------------------------------------------------

  /** An append to the entries that took effect and was cut inside a character. */
  predicate CutsEntries(c: RecCodec, b: Box, e: Event) {
    e.RecordTorn? && Appends(c, b, e.r) && Splits(c.enc(e.r), e.n, e.inside)
  }

  predicate CutsMarks(c: RecCodec, e: Event) {
    e.ConsumeTorn? && e.id != "" && Splits(c.enc(Mark(e.id, e.ts)), e.n, e.inside)
  }

  /** There was one in this history. */
  predicate EntriesCut(c: RecCodec, events: seq<Event>) {
    events != [] &&
    (EntriesCut(c, events[..|events| - 1]) || CutsEntries(c, Run(c, events[..|events| - 1]), events[|events| - 1]))
  }

  predicate MarksCut(c: RecCodec, events: seq<Event>) {
    events != [] && (MarksCut(c, events[..|events| - 1]) || CutsMarks(c, events[|events| - 1]))
  }

  /** A file that does not decode stays so: the entries are not even touched again, since whatever would change them
      reads them first and raises. */
  lemma {:induction false} BrokenStays(c: RecCodec, b: Box, e: Event)
    ensures b.entries.broken ==> Step(c, b, e).entries == b.entries
    ensures Step(c, b, e).entries.broken <==> b.entries.broken || CutsEntries(c, b, e)
    ensures Step(c, b, e).consumed.broken <==> b.consumed.broken || CutsMarks(c, e)
  {
    hide Recs, Pending, Ids;
  }

  /** A file can be read if and only if no append to it that took effect was cut inside a character. */
  lemma {:induction false} BrokenIff(c: RecCodec, events: seq<Event>)
    ensures ReadBack(c, Run(c, events).entries).None? <==> EntriesCut(c, events)
    ensures ReadBack(c, Run(c, events).consumed).None? <==> MarksCut(c, events)
  {
    if events != [] {
      hide Step, Recs, CutsEntries, CutsMarks;
      BrokenIff(c, events[..|events| - 1]);
      BrokenStays(c, Run(c, events[..|events| - 1]), events[|events| - 1]);
    }
  }

  lemma {:induction false} CutMore(c: RecCodec, events: seq<Event>, later: seq<Event>)
    requires EntriesCut(c, events)
    ensures EntriesCut(c, events + later)
    decreases |later|
  {
    if later == [] {
      assert events + later == events;
    } else {
      hide CutsEntries, Run;
      var front := later[..|later| - 1];
      CutMore(c, events, front);
      assert |events + later| > 0;
      assert (events + later)[..|events + later| - 1] == events + front;
    }
  }

  /** A message that was durable is lost to every reader when the next append dies inside a character, and stays so. */
  lemma {:induction false} CutLosesAll(c: RecCodec, r: Rec, q: Rec, n: nat, later: seq<Event>)
    requires Lawful(c) && r.id != "" && q.id != "" && q.id != r.id && Splits(c.enc(q), n, true)
    ensures PendingRead(c, Run(c, [Record(r)])) == Some([r])
    ensures PendingRead(c, Run(c, [Record(r), RecordTorn(q, n, true)] + later)).None?
  {
    hide Lawful, CutsEntries, EntriesCut, MarksCut, Run, Recs, Pending, Ids;
    FirstRecord(c, r);
    SecondCut(c, r, q, n);
    CutIsThere(c, [Record(r)], RecordTorn(q, n, true));
    var both := [Record(r), RecordTorn(q, n, true)];
    assert both == [Record(r)] + [RecordTorn(q, n, true)];
    CutMore(c, both, later);
    BrokenIff(c, both + later);
  }

  lemma {:induction false} CutIsThere(c: RecCodec, events: seq<Event>, e: Event)
    requires CutsEntries(c, Run(c, events), e)
    ensures EntriesCut(c, events + [e])
  {
    hide CutsEntries, Run;
    assert (events + [e])[..|events|] == events;
  }

  lemma {:induction false} SecondCut(c: RecCodec, r: Rec, q: Rec, n: nat)
    requires Lawful(c) && r.id != "" && q.id != "" && q.id != r.id && Splits(c.enc(q), n, true)
    ensures CutsEntries(c, Run(c, [Record(r)]), RecordTorn(q, n, true))
  {
    hide Run, Lawful, Recs;
    FirstRecord(c, r);
    assert Ids([r]) == {r.id};
  }

  lemma {:induction false} FirstRecord(c: RecCodec, r: Rec)
    requires Lawful(c) && r.id != ""
    ensures var b := Run(c, [Record(r)]);
      && !b.entries.broken && Recs(c, b.entries) == [r] && PendingRead(c, b) == Some([r])
  {
    assert [Record(r)][..0] == [];
    AppendReads(c, EMPTY, r);
    var b := Run(c, []);
    assert b == Box(EMPTY, EMPTY);
    assert Recs(c, EMPTY) == [];
    assert [] + [r] == [r] && Recs(c, Run(c, [Record(r)]).consumed) == [];
    assert ConsumedIds(c, Run(c, [Record(r)])) == {};
    PendingOfDistinct([r], {});
  }

  // ---- how long a message stays pending -----------------------------------------------------------

  predicate Consumes(e: Event, id: string) {
    (e.Consume? || e.ConsumeTorn? || e.ConsumeCut?) && e.id == id
  }

  /** Pending, and nothing appended later can spoil it. */
  ghost predicate Held(v: View, r: Rec) {
    && r in Safe(v.entries) && r.id != "" && r.id !in Ids(v.marks.recs)
    && DistinctIds(v.entries.recs)
  }

  lemma {:induction false} PendingHas(entries: seq<Rec>, consumed: set<string>, r: Rec)
    requires DistinctIds(entries)
    ensures r in Pending(entries, consumed) <==> r in entries && r.id !in consumed
  {
    PendingIsKeep(entries, consumed);
    KeepHas(entries, Ids(entries) - consumed, r);
    assert r in entries ==> r.id in Ids(entries);
  }

  lemma {:induction false} AddedDistinct(l: Log<Rec>, r: Rec)
    requires DistinctIds(l.recs) && r.id != "" && r.id !in Ids(l.recs)
    ensures DistinctIds(Safe(l)) && DistinctIds(l.recs + [r])
  {
    DistinctSnoc(l.recs, r);
  }

  lemma {:induction false} NoneDistinct()
    ensures DistinctIds([])
  {
  }

  /** The readable entries of every history carry distinct ids. */
  lemma {:induction false} StepDistinct(c: RecCodec, v: View, e: Event)
    requires DistinctIds(v.entries.recs)
    ensures DistinctIds(ViewStep(c, v, e).entries.recs)
  {
    hide Pending, DistinctIds;
    assert DistinctIds([]) by {
      NoneDistinct();
    }
    match e
    case Record(r) =>
      if Admits(v, r) {
        AddedDistinct(v.entries, r);
      }
    case RecordTorn(r, n, inside) =>
      if Admits(v, r) {
        AddedDistinct(v.entries, r);
      }
    case Consume(id, ts) =>
      PendingDistinct(v.entries.recs, Ids(v.(marks := Added(v.marks, Mark(id, ts))).marks.recs));
    case ConsumeTorn(id, ts, n, inside) =>
    case ConsumeCut(id, ts, half) =>
      PendingDistinct(v.entries.recs, Ids(v.(marks := Added(v.marks, Mark(id, ts))).marks.recs));
  }

  lemma {:induction false} EntriesDistinct(c: RecCodec, events: seq<Event>)
    ensures DistinctIds(ViewRun(c, events).entries.recs)
  {
    if events != [] {
      hide ViewStep;
      EntriesDistinct(c, events[..|events| - 1]);
      StepDistinct(c, ViewRun(c, events[..|events| - 1]), events[|events| - 1]);
    }
  }

  lemma {:induction false} MarkKeepsOthers(l: Log<Rec>, m: Rec, line: string, n: nat, inside: bool, id: string)
    requires id !in Ids(l.recs) && m.id != id
    ensures id !in Ids(Added(l, m).recs) && id !in Ids(AddedTorn(l, m, line, n, inside).recs)
  {
    IdsSnoc(l.recs, m);
    SafeAreRecs(l);
    assert Ids(Safe(l)) <= Ids(l.recs);
  }

  lemma {:induction false} TrimKeeps(v: View, r: Rec)
    requires Held(v, r)
    ensures Held(Trimmed(v), r) && Held(Trimmed(v).(marks := Log([], Clean)), r)
  {
    hide Pending;
    SafeAreRecs(v.entries);
    PendingHas(v.entries.recs, Ids(v.marks.recs), r);
    PendingDistinct(v.entries.recs, Ids(v.marks.recs));
  }

  /** Pending as long as there is anything to read. */
  ghost predicate HeldIfRead(v: View, r: Rec) {
    Decodes(v) ==> Held(v, r)
  }

  lemma {:induction false} StepHolds(c: RecCodec, v: View, e: Event, r: Rec)
    requires HeldIfRead(v, r) && !Consumes(e, r.id)
    ensures HeldIfRead(ViewStep(c, v, e), r)
  {
    hide Pending, DistinctIds, Ids;
    if Decodes(v) {
      StepDistinct(c, v, e);
      match e
      case Record(q) => AddedKeeps(v.entries, q, "", 0, false, r);
      case RecordTorn(q, n, inside) => AddedKeeps(v.entries, q, c.enc(q), n, inside, r);
      case Consume(id, ts) => MarkHolds(v, id, ts, r);
      case ConsumeTorn(id, ts, n, inside) =>
        var line := c.enc(Mark(id, ts));
        MarkKeepsOthers(v.marks, Mark(id, ts), line, n, inside, r.id);
      case ConsumeCut(id, ts, half) => MarkHolds(v, id, ts, r);
    }
  }

  lemma {:induction false} MarkHolds(v: View, id: string, ts: int, r: Rec)
    requires Held(v, r) && id != r.id
    ensures var m := v.(marks := Added(v.marks, Mark(id, ts)));
      Held(m, r) && Held(Trimmed(m), r) && Held(Trimmed(m).(marks := Log([], Clean)), r)
  {
    hide Pending, DistinctIds, Ids, Added;
    MarkKeepsOthers(v.marks, Mark(id, ts), "", 0, false, r.id);
    TrimKeeps(v.(marks := Added(v.marks, Mark(id, ts))), r);
  }

  ghost predicate NoneConsumes(events: seq<Event>, id: string) {
    forall e :: e in events ==> !Consumes(e, id)
  }

  lemma {:induction false} NoneConsumesSnoc(events: seq<Event>, e: Event, id: string)
    requires NoneConsumes(events + [e], id)
    ensures NoneConsumes(events, id) && !Consumes(e, id)
  {
    assert (events + [e])[|events|] == e;
    assert forall x :: x in events ==> x in events + [e];
  }

  lemma {:induction false} HeldOn(c: RecCodec, events: seq<Event>, later: seq<Event>, r: Rec)
    requires HeldIfRead(ViewRun(c, events), r) && NoneConsumes(later, r.id)
    ensures HeldIfRead(ViewRun(c, events + later), r)
    decreases |later|
  {
    if later == [] {
      assert events + later == events;
    } else {
      hide ViewRun, ViewStep, HeldIfRead, Run, NoneConsumes;
      var front, e := later[..|later| - 1], later[|later| - 1];
      assert later == front + [e];
      NoneConsumesSnoc(front, e, r.id);
      HeldOn(c, events, front, r);
      assert events + later == (events + front) + [e];
      ViewSnoc(c, events + front, e);
      StepHolds(c, ViewRun(c, events + front), e, r);
    }
  }

  /** What `record` promises, exactly where it holds: a message that was recorded at a line boundary is pending from
      then on - whatever dies, tears or is compacted later - until a call consumes its id, or an append is cut inside
      a character: from then on nobody reads anything. */
  lemma {:induction false} PendingUntilConsumed(c: RecCodec, events: seq<Event>, r: Rec, later: seq<Event>)
    requires Lawful(c) && Appends(c, Run(c, events), r) && Run(c, events).entries.tail == ""
    requires !Run(c, events).consumed.broken ==> r.id !in ConsumedIds(c, Run(c, events))
    requires NoneConsumes(later, r.id)
    ensures var all := events + [Record(r)] + later; var read := PendingRead(c, Run(c, all));
      && (read.Some? <==> !EntriesCut(c, all) && !MarksCut(c, all))
      && (read.Some? ==> r in read.value)
  {
    hide Run, ViewRun, Reads, Lawful, Recs, Pending, DistinctIds, NoneConsumes, EntriesCut, MarksCut;
    var b, v, first := Run(c, events), ViewRun(c, events), events + [Record(r)];
    EveryRunShows(c, events);
    ReadsRecs(c, b.entries, v.entries);
    ReadsRecs(c, b.consumed, v.marks);
    EntriesDistinct(c, events);
    ViewSnoc(c, events, Record(r));
    AddedDistinct(v.entries, r);
    assert (v.entries.recs + [r])[|v.entries.recs|] == r;
    HeldOn(c, first, later, r);
    PendingOfEveryHistory(c, first + later);
    BrokenIff(c, first + later);
    HeldIsPending(ViewRun(c, first + later), r);
  }

  lemma {:induction false} HeldIsPending(v: View, r: Rec)
    requires HeldIfRead(v, r)
    ensures Decodes(v) ==> r in Unfinished(v)
  {
    hide Pending;
    if Decodes(v) {
      SafeAreRecs(v.entries);
      PendingHas(v.entries.recs, Ids(v.marks.recs), r);
    }
  }

  lemma {:induction false} ViewSnoc(c: RecCodec, events: seq<Event>, e: Event)
    ensures ViewRun(c, events + [e]) == ViewStep(c, ViewRun(c, events), e)
    ensures Run(c, events + [e]) == Step(c, Run(c, events), e)
  {
    hide Step, ViewStep;
    assert (events + [e])[..|events|] == events;
  }

  // ---- what is forgotten ----------------------------------------------------------------------------

  lemma {:induction false} PendingIds(entries: seq<Rec>, consumed: set<string>)
    ensures Ids(Pending(entries, consumed)) == Ids(entries) - consumed - {""}
  {
    if entries != [] {
      var front, r := entries[..|entries| - 1], entries[|entries| - 1];
      assert entries == front + [r];
      PendingIds(front, consumed);
      IdsSnoc(front, r);
      IdsSnoc(Pending(front, consumed), r);
    }
  }

  /** Recording a message that is not pending makes it pending exactly when neither file knows its id - so a second
      record of a finished message is without effect exactly as long as one of them still does. */
  lemma {:induction false} PendingAgainIff(c: RecCodec, b: Box, r: Rec)
    requires Lawful(c) && Readable(b) && b.entries.tail == "" && r.id != "" && r.id !in Ids(PendingIn(c, b))
    ensures Readable(Recorded(c, b, r))
    ensures r.id in Ids(PendingIn(c, Recorded(c, b, r)))
      <==> r.id !in Ids(Recs(c, b.entries)) && r.id !in ConsumedIds(c, b)
  {
    hide Pending, Recs;
    PendingIds(Recs(c, b.entries), ConsumedIds(c, b));
    if Appends(c, b, r) {
      AppendReads(c, b.entries, r);
      IdsSnoc(Recs(c, b.entries), r);
      PendingIds(Recs(c, b.entries) + [r], ConsumedIds(c, b));
    }
  }

  /** In an orderly history: a message recorded before and finished since becomes pending again when it is recorded
      again, exactly when a compaction has dropped it from both files. */
  lemma {:induction false} FinishedIsForgottenIff(c: RecCodec, b: Box, p: Plain, r: Rec)
    requires Lawful(c) && Agrees(c, b, p) && b.entries.tail == "" && r.id in Ids(p.order) && r.id in p.done
    ensures r.id in Ids(PendingIn(c, Recorded(c, b, r)))
      <==> r.id !in Ids(Recs(c, b.entries)) && r.id !in ConsumedIds(c, b)
  {
    hide Keep, Recs;
    AgreesPending(c, b, p);
    KeepIds(p.order, Ids(p.order) - p.done);
    assert r.id != "" by {
      var q :| q in p.order && q.id == r.id;
    }
    PendingAgainIff(c, b, r);
  }

  // ---- a history that forgets -------------------------------------------------------------------------

  function Numbered(n: nat): Rec {
    Rec(Decimal(n), "", "", "", 0)
  }

  /** Messages 0 to n - 1 are recorded. */
  function Arrivals(n: nat): seq<Event> {
    if n == 0 then [] else Arrivals(n - 1) + [Record(Numbered(n - 1))]
  }

  function NumberedUpTo(n: nat): seq<Rec> {
    if n == 0 then [] else NumberedUpTo(n - 1) + [Numbered(n - 1)]
  }

  lemma {:induction false} NumberedIds(n: nat, k: nat)
    ensures |NumberedUpTo(n)| == n
    ensures Decimal(k) in Ids(NumberedUpTo(n)) <==> k < n
  {
    hide Decimal;
    if n > 0 {
      NumberedIds(n - 1, k);
      IdsSnoc(NumberedUpTo(n - 1), Numbered(n - 1));
      if Decimal(k) == Decimal(n - 1) {
        DecimalInjective(k, n - 1);
      }
    }
  }

  lemma {:induction false} ArrivalsAreOrderly(c: RecCodec, n: nat)
    requires Lawful(c)
    ensures AllOrderly(c, Arrivals(n))
    ensures PlainRun(c, Arrivals(n)) == Plain(NumberedUpTo(n), {})
    ensures ViewRun(c, Arrivals(n)) == View(Log(NumberedUpTo(n), Clean), Log([], Clean))
  {
    hide Decimal, PlainRun, ViewRun, AllOrderly, Lawful, Numbered;
    if n == 0 {
      NothingArrived(c);
    } else {
      ArrivalsAreOrderly(c, n - 1);
      OneMoreArrival(c, Arrivals(n - 1), n - 1);
    }
  }

  lemma {:induction false} NothingArrived(c: RecCodec)
    ensures AllOrderly(c, []) && PlainRun(c, []) == Plain([], {})
    ensures ViewRun(c, []) == View(Log([], Clean), Log([], Clean))
  {
  }

  lemma {:induction false} OneMoreArrival(c: RecCodec, front: seq<Event>, n: nat)
    requires Lawful(c) && AllOrderly(c, front) && PlainRun(c, front) == Plain(NumberedUpTo(n), {})
    requires ViewRun(c, front) == View(Log(NumberedUpTo(n), Clean), Log([], Clean))
    ensures var events := front + [Record(Numbered(n))];
      && AllOrderly(c, events)
      && PlainRun(c, events) == Plain(NumberedUpTo(n + 1), {})
      && ViewRun(c, events) == View(Log(NumberedUpTo(n + 1), Clean), Log([], Clean))
  {
    hide Decimal, Step, Run, PlainRun, ViewRun, AllOrderly, Lawful, Reads, Recs;
    var e := Record(Numbered(n));
    PlainSnoc(c, front, e);
    ViewSnoc(c, front, e);
    NumberedIds(n, n);
    DecimalLength(n);
    EveryRunShows(c, front);
    ReadsRecs(c, Run(c, front).entries, ViewRun(c, front).entries);
  }

  lemma {:induction false} PlainSnoc(c: RecCodec, events: seq<Event>, e: Event)
    ensures PlainRun(c, events + [e]) == PlainStep(c, PlainRun(c, events), e)
    ensures AllOrderly(c, events + [e]) <==>
      AllOrderly(c, events) && Orderly(c, Run(c, events), PlainRun(c, events), e)
  {
    hide Run, PlainStep, Orderly;
    assert (events + [e])[..|events|] == events;
  }

  /** Two hundred messages arrive and the first one is finished: the compaction drops it, and recording it again
      makes it pending again. Nothing in this history is out of order but that second record. */
  lemma {:induction false} FinishedMessageComesBack(c: RecCodec) returns (events: seq<Event>, r: Rec)
    requires Lawful(c)
    ensures AllOrderly(c, events) && r.id in PlainRun(c, events).done
    ensures var read := PendingRead(c, Run(c, events + [Record(r)])); read.Some? && r.id in Ids(read.value)
  {
    hide Decimal, Step, Run, ViewRun, PlainRun, AllOrderly, Arrivals, NumberedUpTo, Pending, Lawful, Recs;
    var arrived := Arrivals(COMPACT_AFTER);
    r := Numbered(0);
    var e := Consume(r.id, 0);
    events := arrived + [e];
    ArrivalsAreOrderly(c, COMPACT_AFTER);
    NumberedIds(COMPACT_AFTER, 0);
    DecimalLength(0);
    OneMoreOrderly(c, arrived, e);
    CompactedAway(c, arrived, r);
    ViewSnoc(c, events, Record(r));
    PendingOfEveryHistory(c, events + [Record(r)]);
  }

  lemma {:induction false} OneMoreOrderly(c: RecCodec, events: seq<Event>, e: Event)
    requires Lawful(c) && AllOrderly(c, events) && e.Consume?
    requires e.id in Ids(PlainRun(c, events).order) && ViewRun(c, events).marks.tail.Clean? && e.id != ""
    ensures AllOrderly(c, events + [e]) && e.id in PlainRun(c, events + [e]).done
  {
    hide Step, Run, ViewRun, PlainRun, AllOrderly, Reads, Lawful;
    PlainSnoc(c, events, e);
    EveryRunShows(c, events);
    ReadsRecs(c, Run(c, events).consumed, ViewRun(c, events).marks);
  }

  lemma {:induction false} CompactedAway(c: RecCodec, arrived: seq<Event>, r: Rec)
    requires ViewRun(c, arrived) == View(Log(NumberedUpTo(COMPACT_AFTER), Clean), Log([], Clean))
    requires r == Numbered(0) && r.id != ""
    ensures var v := ViewRun(c, arrived + [Consume(r.id, 0)]);
      && v.entries.tail.Clean? && v.marks.recs == [] && r.id !in Ids(v.entries.recs)
      && Decodes(ViewStep(c, v, Record(r))) && r.id in Ids(Unfinished(ViewStep(c, v, Record(r))))
  {
    hide Decimal, ViewRun, NumberedUpTo, Pending;
    var e := Consume(r.id, 0);
    ViewSnoc(c, arrived, e);
    NumberedIds(COMPACT_AFTER, 0);
    var m := ViewRun(c, arrived).(marks := Added(Log([], Clean), Mark(r.id, 0)));
    assert Ids([] + [Mark(r.id, 0)]) == {r.id};
    PendingIds(m.entries.recs, Ids(m.marks.recs));
    var v := ViewRun(c, arrived + [e]);
    IdsSnoc(v.entries.recs, r);
    assert Ids(v.marks.recs) == {};
    PendingIds(v.entries.recs + [r], {});
  }

  // ---- which thread a record belongs to -------------------------------------------------------

  /** Every message recorded in this box names a thread whose file this is. */
  ghost predicate FiledUnder(safe: string -> string, name: string, events: seq<Event>) {
    forall e :: e in events ==>
      (e.Record? ==> safe(e.r.root) == name) && (e.RecordTorn? ==> safe(e.r.root) == name)
  }

  lemma {:induction false} FiledSnoc(safe: string -> string, name: string, events: seq<Event>, e: Event)
    requires FiledUnder(safe, name, events)
    requires (e.Record? ==> safe(e.r.root) == name) && (e.RecordTorn? ==> safe(e.r.root) == name)
    ensures FiledUnder(safe, name, events + [e])
  {
  }

  lemma {:induction false} NothingHappened(c: RecCodec)
    ensures Run(c, []) == Box(EMPTY, EMPTY)
  {
  }

  /** So do the records in its entries file, after every history. */
  lemma {:induction false} ViewIsFiled(c: RecCodec, safe: string -> string, name: string, events: seq<Event>)
    requires FiledUnder(safe, name, events)
    ensures forall r :: r in ViewRun(c, events).entries.recs ==> safe(r.root) == name
  {
    if events != [] {
      hide Pending, ViewRun;
      var front, e := events[..|events| - 1], events[|events| - 1];
      assert events == front + [e];
      assert forall x :: x in front ==> x in events;
      assert e in events;
      ViewIsFiled(c, safe, name, front);
      ViewSnoc(c, front, e);
      var v := ViewRun(c, front);
      SafeAreRecs(v.entries);
      if e.Consume? || e.ConsumeCut? {
        PendingDistinct(v.entries.recs, Ids(Added(v.marks, Mark(e.id, e.ts)).recs));
      }
    } else {
      assert ViewRun(c, events).entries.recs == [];
    }
  }

  lemma {:induction false} EntriesAreFiled(c: RecCodec, safe: string -> string, name: string, events: seq<Event>)
    requires Lawful(c) && FiledUnder(safe, name, events)
    ensures var read := ReadBack(c, Run(c, events).entries);
      read.Some? ==> forall r :: r in read.value ==> safe(r.root) == name
  {
    hide Run, ViewRun, Reads, Lawful, Recs, FiledUnder;
    EveryRunShows(c, events);
    ReadsRecs(c, Run(c, events).entries, ViewRun(c, events).entries);
    ViewIsFiled(c, safe, name, events);
  }
}
