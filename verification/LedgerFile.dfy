/** The escalation ledger as the file it is: a row that is appended is seen by the next reader only if it starts a
    line. */
module LedgerFile {
  import opened Options
  import opened LineFile
  import opened StallDetector
  import opened EscalationLedger

  /** Rows are written in ASCII: an append is never cut inside a character. */
  type RowCodec = Codec<Row>

  /** A firing or a consumption, finished or stopped by a crash after `n` characters of its row. */
  datatype Event =
    | Fire(item: string, v: Verdict, outcome: string)
    | FireTorn(item: string, v: Verdict, outcome: string, n: nat)
    | Serve(item: string, who: string)
    | ServeTorn(item: string, who: string, n: nat)

  function FiredRow(rows: seq<Row>, item: string, v: Verdict, outcome: string): Option<Row> {
    match Recorded(rows, item, v, outcome)
    case Written(row) => Some(row)
    case _ => None
  }

  function ServedRow(rows: seq<Row>, item: string, who: string): Option<Row> {
    match Pending(rows, item)
    case Some(row) => Some(row.(consumedBy := who))
    case None => None
  }

  /** The row a call appends when it has read `rows`, if any. */
  function RowOf(rows: seq<Row>, e: Event): Option<Row> {
    match e
    case Fire(item, v, outcome) => FiredRow(rows, item, v, outcome)
    case FireTorn(item, v, outcome, n) => FiredRow(rows, item, v, outcome)
    case Serve(item, who) => ServedRow(rows, item, who)
    case ServeTorn(item, who, n) => ServedRow(rows, item, who)
  }

  /** How far the append got, if it did not get through. */
  function TornAt(e: Event): Option<nat> {
    match e
    case FireTorn(item, v, outcome, n) => Some(n)
    case ServeTorn(item, who, n) => Some(n)
    case _ => None
  }

  function Step(c: RowCodec, f: File, e: Event): File {
    match RowOf(Recs(c, f), e)
    case None => f
    case Some(row) =>
      if TornAt(e).None? then Append(f, c.enc(row))
      else if TornAt(e).value <= |c.enc(row)| then Torn(f, c.enc(row), TornAt(e).value, false)
      else f
  }

  function Run(c: RowCodec, events: seq<Event>): File {
    if events == [] then EMPTY else Step(c, Run(c, events[..|events| - 1]), events[|events| - 1])
  }

  /** The same on the readable rows and the state of the last line. */
  function LogStep(c: RowCodec, l: Log<Row>, e: Event): Log<Row> {
    match RowOf(l.recs, e)
    case None => l
    case Some(row) =>
      if TornAt(e).None? then Added(l, row)
      else if TornAt(e).value <= |c.enc(row)| then AddedTorn(l, row, c.enc(row), TornAt(e).value, false)
      else l
  }

  function LogRun(c: RowCodec, events: seq<Event>): Log<Row> {
    if events == [] then Log([], Clean) else LogStep(c, LogRun(c, events[..|events| - 1]), events[|events| - 1])
  }

  lemma {:induction false} StepReads(c: RowCodec, f: File, l: Log<Row>, e: Event)
    requires Lawful(c) && Reads(c, f, l) && !f.broken
    ensures Reads(c, Step(c, f, e), LogStep(c, l, e)) && !Step(c, f, e).broken
  {
    hide Recs, Reads, RowOf, Lawful, Added, AddedTorn;
    ReadsRecs(c, f, l);
    var row := RowOf(l.recs, e);
    if row.Some? {
      if TornAt(e).None? {
        AddedReads(c, f, l, row.value);
      } else if TornAt(e).value <= |c.enc(row.value)| {
        AddedTornReads(c, f, l, row.value, TornAt(e).value, false);
      }
    }
  }

  lemma {:induction false} RunReads(c: RowCodec, events: seq<Event>)
    requires Lawful(c)
    ensures Reads(c, Run(c, events), LogRun(c, events)) && !Run(c, events).broken
  {
    if events == [] {
      assert Decode(c, []) == [];
    } else {
      hide Step, LogStep, Reads, Lawful;
      RunReads(c, events[..|events| - 1]);
      StepReads(c, Run(c, events[..|events| - 1]), LogRun(c, events[..|events| - 1]), events[|events| - 1]);
    }
  }

  lemma {:induction false} RunSnoc(c: RowCodec, events: seq<Event>, e: Event)
    ensures Run(c, events + [e]) == Step(c, Run(c, events), e)
    ensures LogRun(c, events + [e]) == LogStep(c, LogRun(c, events), e)
  {
    hide Step, LogStep;
    assert (events + [e])[..|events|] == events;
  }

  /** A firing that is to be written is not in the ledger yet. */
  lemma {:induction false} NotThereYet(rows: seq<Row>, item: string, v: Verdict, outcome: string, row: Row)
    requires Recorded(rows, item, v, outcome) == Written(row)
    ensures row !in rows
  {
    hide Read;
    ReadIsMine(rows, item);
    NoneWithId(Read(rows, item), row.id);
  }

  lemma {:induction false} NoneWithId(rows: seq<Row>, id: string)
    ensures !HasId(rows, id) ==> forall q :: q in rows ==> q.id != id
  {
  }

  /** After every history: a firing that is written is seen by the next reader, and handed to him, if and only if its
      append started a line. Behind a torn row it is lost, though the call returned it. */
  lemma {:induction false} WrittenIsSeenIff(c: RowCodec, events: seq<Event>, item: string, v: Verdict, row: Row)
    requires Lawful(c) && Recorded(Recs(c, Run(c, events)), item, v, "escalate") == Written(row)
    ensures var after := Recs(c, Run(c, events + [Fire(item, v, "escalate")]));
      && (row in after <==> Run(c, events).tail == "")
      && (Pending(after, item) == Some(row) <==> Run(c, events).tail == "")
  {
    hide Run, LogRun, Recs, Reads, Lawful, Recorded, Read, OpenOf;
    var f, l := Run(c, events), LogRun(c, events);
    var e := Fire(item, v, "escalate");
    RunReads(c, events);
    ReadsRecs(c, f, l);
    RunSnoc(c, events, e);
    AddedReads(c, f, l, row);
    ReadsRecs(c, Append(f, c.enc(row)), Added(l, row));
    NotThereYet(l.recs, item, v, "escalate", row);
    SafeAreRecs(l);
    if f.tail == "" {
      WrittenIsPending(l.recs, item, v);
      AfterWritten(l.recs, item, v, row);
      assert (l.recs + [row])[|l.recs|] == row;
    } else {
      PendingIsThere(Safe(l), item);
    }
  }

  lemma {:induction false} AfterWritten(rows: seq<Row>, item: string, v: Verdict, row: Row)
    requires Recorded(rows, item, v, "escalate") == Written(row)
    ensures AfterRecord(rows, item, v, "escalate") == rows + [row]
  {
  }

  lemma {:induction false} PendingIsThere(rows: seq<Row>, item: string)
    ensures Pending(rows, item).Some? ==> Pending(rows, item).value in rows
  {
    hide OpenOf;
    if OpenOf(rows, item) != [] {
      PendingIsMine(rows, item);
    }
  }

  /** The row is read, and nothing appended later can spoil it. */
  predicate Lasts(l: Log<Row>, row: Row) {
    row in Safe(l) && !l.tail.Broken?
  }

  /** Nothing appended later, and no append that is cut short, takes a safe row away. */
  lemma {:induction false} StepKeepsSafe(c: RowCodec, l: Log<Row>, e: Event, row: Row)
    requires Lasts(l, row)
    ensures Lasts(LogStep(c, l, e), row)
  {
    hide RowOf;
    match RowOf(l.recs, e)
    case None =>
    case Some(q) =>
      AddedKeeps(l, q, c.enc(q), if TornAt(e).Some? then TornAt(e).value else 0, false, row);
  }

  lemma {:induction false} SafeOn(c: RowCodec, events: seq<Event>, later: seq<Event>, row: Row)
    requires Lasts(LogRun(c, events), row)
    ensures Lasts(LogRun(c, events + later), row)
    decreases |later|
  {
    if later == [] {
      assert events + later == events;
    } else {
      hide LogRun, LogStep, Run, Step, Lasts, TornAt;
      var front, e := later[..|later| - 1], later[|later| - 1];
      SafeOn(c, events, front, row);
      assert events + later == (events + front) + [e];
      RunSnoc(c, events + front, e);
      StepKeepsSafe(c, LogRun(c, events + front), e, row);
    }
  }

  /** A row that landed on a line of its own is read for ever, whatever is torn behind it. */
  lemma {:induction false} LandedIsReadForEver(c: RowCodec, events: seq<Event>, e: Event, later: seq<Event>)
    requires Lawful(c) && TornAt(e).None? && RowOf(Recs(c, Run(c, events)), e).Some? && Run(c, events).tail == ""
    ensures RowOf(Recs(c, Run(c, events)), e).value in Recs(c, Run(c, events + [e] + later))
  {
    hide Run, LogRun, Recs, Reads, Lawful, RowOf;
    var l := LogRun(c, events);
    RunReads(c, events);
    ReadsRecs(c, Run(c, events), l);
    var row := RowOf(l.recs, e).value;
    RunSnoc(c, events, e);
    assert (l.recs + [row])[|l.recs|] == row;
    SafeOn(c, events + [e], later, row);
    RunReads(c, events + [e] + later);
    ReadsRecs(c, Run(c, events + [e] + later), LogRun(c, events + [e] + later));
    SafeAreRecs(LogRun(c, events + [e] + later));
  }

  // ---- without a crash the file is the ledger ---------------------------------------------------------

  function EventOf(op: Op): Event {
    match op
    case RecordOp(item, v, outcome) => Fire(item, v, outcome)
    case ConsumeOp(item, who) => Serve(item, who)
  }

  function EventsOf(ops: seq<Op>): seq<Event> {
    seq(|ops|, i requires 0 <= i < |ops| => EventOf(ops[i]))
  }

  lemma {:induction false} ApplyIsLogStep(c: RowCodec, rows: seq<Row>, op: Op)
    ensures LogStep(c, Log(rows, Clean), EventOf(op)) == Log(Apply(rows, op), Clean)
  {
    hide Recorded, OpenOf;
  }

  lemma {:induction false} HistoryStep(ops: seq<Op>)
    requires ops != []
    ensures History(ops) == Apply(History(ops[..|ops| - 1]), ops[|ops| - 1])
  {
    hide Apply;
  }

  lemma {:induction false} NoHistory(c: RowCodec)
    ensures LogRun(c, EventsOf([])) == Log(History([]), Clean)
  {
  }

  lemma {:induction false} EventsSnoc(ops: seq<Op>)
    requires ops != []
    ensures EventsOf(ops) == EventsOf(ops[..|ops| - 1]) + [EventOf(ops[|ops| - 1])]
  {
    hide EventOf;
  }

  lemma {:induction false} WholeLog(c: RowCodec, ops: seq<Op>)
    ensures LogRun(c, EventsOf(ops)) == Log(History(ops), Clean)
  {
    if ops == [] {
      NoHistory(c);
    } else {
      hide LogRun, LogStep, Apply, Run, Step, History, EventOf, EventsOf;
      HistoryStep(ops);
      var front, op := ops[..|ops| - 1], ops[|ops| - 1];
      WholeLog(c, front);
      EventsSnoc(ops);
      RunSnoc(c, EventsOf(front), EventOf(op));
      ApplyIsLogStep(c, History(front), op);
    }
  }

  /** When no append is torn, what a reader finds is the list of whole rows. */
  lemma {:induction false} WholeRowsAreLedger(c: RowCodec, ops: seq<Op>)
    requires Lawful(c)
    ensures Recs(c, Run(c, EventsOf(ops))) == History(ops) && Run(c, EventsOf(ops)).tail == ""
  {
    hide Run, LogRun, Recs, Reads, Lawful;
    RunReads(c, EventsOf(ops));
    WholeLog(c, ops);
    ReadsRecs(c, Run(c, EventsOf(ops)), LogRun(c, EventsOf(ops)));
  }
}
