/** The ledger of stall escalations: an append-only list of rows that every reader folds. */
module EscalationLedger {
  import opened Options
  import opened StallDetector
  import opened Text

  /** One line of the ledger. A consumed escalation is a second line with the same id. */
  datatype Row = Row(id: string, item: string, outcome: string, verdict: Verdict, consumedBy: string)

  datatype Outcome = Refused | OnRecord | Written(row: Row)

  // ---- ids ------------------------------------------------------------------------------------

  /** What the escalation id is the hash of; the hash itself is taken to be injective. */
  function EscalationId(item: string, rounds: nat): string {
    item + "@" + Decimal(rounds)
  }

  /** The last "@" of an id is the one before the round count. */
  lemma {:induction false} LastAt(item: string, rounds: nat)
    ensures var s := EscalationId(item, rounds);
      |item| < |s| && s[|item|] == '@' && forall k :: |item| < k < |s| ==> s[k] != '@'
    ensures EscalationId(item, rounds)[..|item|] == item
    ensures EscalationId(item, rounds)[|item| + 1..] == Decimal(rounds)
  {
    hide Decimal;
    DecimalIsDigits(rounds);
    var s := EscalationId(item, rounds);
    forall k | |item| < k < |s| ensures s[k] != '@' {
      assert s[k] == Decimal(rounds)[k - |item| - 1];
    }
  }

  /** Even an item whose name holds an "@" shares no id with another item or another round count. */
  lemma {:induction false} IdInjective(item: string, rounds: nat, other: string, others: nat)
    ensures EscalationId(item, rounds) == EscalationId(other, others) <==> item == other && rounds == others
  {
    hide EscalationId;
    LastAt(item, rounds);
    LastAt(other, others);
    if EscalationId(item, rounds) == EscalationId(other, others) {
      DecimalInjective(rounds, others);
    }
  }

  // ---- reading --------------------------------------------------------------------------------

  predicate Mine(row: Row, item: string) {
    item == "" || row.item == item
  }

  /** The rows of one item, or all of them for "". */
  function Read(rows: seq<Row>, item: string): seq<Row> {
    if rows == [] then []
    else
      var front, row := rows[..|rows| - 1], rows[|rows| - 1];
      if Mine(row, item) then Read(front, item) + [row] else Read(front, item)
  }

  /** What inserting into an insertion-ordered dictionary does: a known id keeps its place. */
  function Put(f: seq<Row>, row: Row): seq<Row> {
    if f == [] then [row]
    else if f[0].id == row.id then [row] + f[1..]
    else [f[0]] + Put(f[1..], row)
  }

  /** One row per firing, in the order the firings first appear: the latest row of each. */
  function Fold(rows: seq<Row>): seq<Row> {
    if rows == [] then [] else Put(Fold(rows[..|rows| - 1]), rows[|rows| - 1])
  }

  predicate Open(row: Row) {
    row.outcome == "escalate" && row.consumedBy == ""
  }

  function Opens(f: seq<Row>): seq<Row> {
    if f == [] then []
    else
      var front, row := f[..|f| - 1], f[|f| - 1];
      if Open(row) then Opens(front) + [row] else Opens(front)
  }

  /** The open escalations of an item, oldest firing first. */
  function OpenOf(rows: seq<Row>, item: string): seq<Row> {
    Opens(Fold(Read(rows, item)))
  }

  function Pending(rows: seq<Row>, item: string): Option<Row> {
    var open := OpenOf(rows, item);
    if open == [] then None else Some(open[|open| - 1])
  }

  lemma {:induction false} ReadSnoc(rows: seq<Row>, row: Row, item: string)
    ensures Read(rows + [row], item) == if Mine(row, item) then Read(rows, item) + [row] else Read(rows, item)
  {
    assert (rows + [row])[..|rows|] == rows;
  }

  lemma {:induction false} FoldSnoc(rows: seq<Row>, row: Row)
    ensures Fold(rows + [row]) == Put(Fold(rows), row)
  {
    hide Put;
    assert (rows + [row])[..|rows|] == rows;
  }

  lemma {:induction false} OpensSnoc(f: seq<Row>, row: Row)
    ensures Opens(f + [row]) == if Open(row) then Opens(f) + [row] else Opens(f)
  {
    assert (f + [row])[..|f|] == f;
  }

  predicate HasId(f: seq<Row>, id: string) {
    exists k :: 0 <= k < |f| && f[k].id == id
  }

  predicate DistinctIds(f: seq<Row>) {
    forall j, k :: 0 <= j < k < |f| ==> f[j].id != f[k].id
  }

  /** Putting a known id replaces that entry in place; a new one goes to the end. */
  lemma {:induction false} PutAt(f: seq<Row>, row: Row) returns (k: nat)
    ensures HasId(f, row.id) ==> k < |f| && f[k].id == row.id && Put(f, row) == f[k := row]
    ensures !HasId(f, row.id) ==> Put(f, row) == f + [row]
  {
    if f == [] {
      k := 0;
    } else if f[0].id == row.id {
      k := 0;
      assert f[0 := row] == [row] + f[1..];
    } else {
      k := PutAt(f[1..], row);
      if HasId(f[1..], row.id) {
        assert f[k + 1].id == row.id;
        assert f[k + 1 := row] == [f[0]] + f[1..][k := row];
        k := k + 1;
      } else {
        assert forall i :: 0 < i < |f| ==> f[i] == f[1..][i - 1];
        assert f + [row] == [f[0]] + (f[1..] + [row]);
      }
    }
  }

  lemma {:induction false} FoldIsDistinct(rows: seq<Row>)
    ensures DistinctIds(Fold(rows))
  {
    if rows != [] {
      hide Fold, Put;
      var front, row := rows[..|rows| - 1], rows[|rows| - 1];
      assert rows == front + [row];
      FoldSnoc(front, row);
      FoldIsDistinct(front);
      var k := PutAt(Fold(front), row);
    } else {
      assert Fold(rows) == [];
    }
  }

  /** The fold of an insertion-ordered dictionary, filled row by row. */
  method FoldRows(rows: seq<Row>) returns (latest: seq<Row>)
    ensures latest == Fold(rows)
  {
    hide Put, Fold;
    var keys: seq<string>, values: map<string, Row> := [], map[];
    latest := [];
    var i := 0;
    assert rows[..0] == [];
    FoldNothing();
    while i < |rows|
      invariant 0 <= i <= |rows|
      invariant |keys| == |Fold(rows[..i])|
      invariant forall k :: 0 <= k < |keys| ==> Fold(rows[..i])[k].id == keys[k]
      invariant forall k :: 0 <= k < |keys| ==> keys[k] in values && values[keys[k]] == Fold(rows[..i])[k]
      invariant values.Keys == set key | key in keys
    {
      var row := rows[i];
      ghost var f := Fold(rows[..i]);
      assert rows[..i + 1] == rows[..i] + [row];
      FoldSnoc(rows[..i], row);
      FoldIsDistinct(rows[..i]);
      ghost var at := PutAt(f, row);
      if row.id in values {
        assert row.id in keys;
        assert HasId(f, row.id);
      } else {
        assert !HasId(f, row.id) by {
          assert forall k :: 0 <= k < |keys| ==> keys[k] in values;
        }
        keys := keys + [row.id];
      }
      values := values[row.id := row];
      i := i + 1;
    }
    assert rows[..|rows|] == rows;
    i := 0;
    while i < |keys|
      invariant 0 <= i <= |keys|
      invariant latest == Fold(rows)[..i]
    {
      latest := latest + [values[keys[i]]];
      i := i + 1;
    }
  }

  lemma {:induction false} FoldNothing()
    ensures Fold([]) == []
  {
  }

  // ---- the two operations ---------------------------------------------------------------------

  /** A verdict no run of the detector gives, or one whose trail is not its rounds. */
  predicate Impossible(v: Verdict) {
    || v.stall > (if v.rounds == 0 then 0 else v.rounds - 1)
    || (v.stall >= v.threshold && v.rounds <= v.threshold)
    || |v.trail| != v.rounds
  }

  function Recorded(rows: seq<Row>, item: string, v: Verdict, outcome: string): Outcome {
    var id := EscalationId(item, v.rounds);
    if Impossible(v) then Refused
    else if HasId(Read(rows, item), id) then OnRecord
    else Written(Row(id, item, outcome, v, ""))
  }

  function AfterRecord(rows: seq<Row>, item: string, v: Verdict, outcome: string): seq<Row> {
    match Recorded(rows, item, v, outcome)
    case Written(row) => rows + [row]
    case _ => rows
  }

  function AfterConsume(rows: seq<Row>, item: string, who: string): seq<Row> {
    match Pending(rows, item)
    case Some(row) => rows + [row.(consumedBy := who)]
    case None => rows
  }

  class Ledger {
    var rows: seq<Row>

    constructor ()
      ensures rows == []
    {
      rows := [];
    }

    method ReadLedger(item: string) returns (mine: seq<Row>)
      ensures mine == Read(rows, item)
    {
      hide Read;
      mine := [];
      var i := 0;
      assert rows[..0] == [] && Read([], item) == [] by {
        ReadNothing(item);
      }
      while i < |rows|
        invariant 0 <= i <= |rows|
        invariant mine == Read(rows[..i], item)
      {
        assert rows[..i + 1] == rows[..i] + [rows[i]];
        ReadSnoc(rows[..i], rows[i], item);
        if item == "" || rows[i].item == item {
          mine := mine + [rows[i]];
        }
        i := i + 1;
      }
      assert rows[..|rows|] == rows;
    }

    /** Writes a firing once. It raises on an impossible verdict and does nothing for a firing already written. */
    method Record(item: string, v: Verdict, outcome: string) returns (result: Outcome)
      modifies this
      ensures result == Recorded(old(rows), item, v, outcome)
      ensures rows == AfterRecord(old(rows), item, v, outcome)
    {
      hide Read;
      if v.stall > (if v.rounds == 0 then 0 else v.rounds - 1) || (v.stall >= v.threshold && v.rounds <= v.threshold) {
        return Refused;
      }
      if |v.trail| != v.rounds {
        return Refused;
      }
      var id := EscalationId(item, v.rounds);
      var mine := ReadLedger(item);
      var i := 0;
      while i < |mine|
        invariant 0 <= i <= |mine|
        invariant forall k :: 0 <= k < i ==> mine[k].id != id
      {
        if mine[i].id == id {
          return OnRecord;
        }
        i := i + 1;
      }
      var row := Row(id, item, outcome, v, "");
      rows := rows + [row];
      return Written(row);
    }

    /** The newest firing of the item that is still open. */
    method FindPending(item: string) returns (row: Option<Row>)
      ensures row == Pending(rows, item)
    {
      hide Read, Fold, Opens;
      var mine := ReadLedger(item);
      var f := FoldRows(mine);
      var i := |f|;
      assert f[..|f|] == f;
      while i > 0
        invariant 0 <= i <= |f|
        invariant Opens(f) == Opens(f[..i])
      {
        i := i - 1;
        assert f[..i + 1] == f[..i] + [f[i]];
        OpensSnoc(f[..i], f[i]);
        if f[i].outcome == "escalate" && f[i].consumedBy == "" {
          return Some(f[i]);
        }
      }
      assert f[..0] == [];
      NoOpens();
      row := None;
    }

    /** Closes the pending firing by appending a copy of its row. */
    method Consume(item: string, who: string) returns (done: Option<Row>)
      modifies this
      ensures rows == AfterConsume(old(rows), item, who)
      ensures done.None? <==> Pending(old(rows), item).None?
      ensures done.Some? ==> done.value == Pending(old(rows), item).value.(consumedBy := who)
    {
      hide OpenOf;
      var row := FindPending(item);
      if row.None? {
        return None;
      }
      done := Some(row.value.(consumedBy := who));
      rows := rows + [done.value];
    }
  }

  lemma {:induction false} ReadNothing(item: string)
    ensures Read([], item) == []
  {
  }

  lemma {:induction false} NoOpens()
    ensures Opens([]) == []
  {
  }

  // ---- what an open escalation is -------------------------------------------------------------

  /** Where the last open entry stands. */
  lemma {:induction false} LastOpenAt(f: seq<Row>) returns (k: nat)
    requires Opens(f) != []
    ensures k < |f| && Open(f[k]) && f[k] == Opens(f)[|Opens(f)| - 1]
    ensures forall j :: k < j < |f| ==> !Open(f[j])
    ensures Opens(f[..k]) == Opens(f)[..|Opens(f)| - 1]
    decreases |f|
  {
    hide Opens;
    NoOpens();
    var front, row := f[..|f| - 1], f[|f| - 1];
    assert f == front + [row];
    OpensSnoc(front, row);
    if Open(row) {
      k := |front|;
    } else {
      k := LastOpenAt(front);
      assert f[..k] == front[..k];
    }
  }

  lemma {:induction false} NoOpenAfter(f: seq<Row>, k: nat)
    requires k <= |f| && forall j :: k <= j < |f| ==> !Open(f[j])
    ensures Opens(f) == Opens(f[..k])
    decreases |f|
  {
    hide Opens;
    if k == |f| {
      assert f[..k] == f;
    } else {
      var front, row := f[..|f| - 1], f[|f| - 1];
      assert f == front + [row];
      OpensSnoc(front, row);
      NoOpenAfter(front, k);
      assert front[..k] == f[..k];
    }
  }

  /** A consumption is served from the newest open firing, and takes exactly that one off the open list - if and
      only if it names who consumed it: an empty name leaves the escalation open, to be served again. */
  lemma {:induction false} ConsumeClosesOne(rows: seq<Row>, item: string, who: string)
    requires OpenOf(rows, item) != []
    ensures who != "" ==> OpenOf(AfterConsume(rows, item, who), item) == OpenOf(rows, item)[..|OpenOf(rows, item)| - 1]
    ensures who == "" ==> OpenOf(AfterConsume(rows, item, who), item) == OpenOf(rows, item)
  {
    hide Read, Fold, Opens, Put;
    var f := Fold(Read(rows, item));
    var k := LastOpenAt(f);
    var done := f[k].(consumedBy := who);
    PendingIsMine(rows, item);
    ReadSnoc(rows, done, item);
    FoldSnoc(Read(rows, item), done);
    FoldIsDistinct(Read(rows, item));
    var at := PutAt(f, done);
    assert f[k].id == done.id;
    assert HasId(f, done.id);
    assert at == k;
    if who == "" {
      assert f[k := done] == f;
    } else {
      NoOpenAfter(f[k := done], k);
      assert f[k := done][..k] == f[..k];
    }
  }

  /** What an item's fold shows are rows of that item. */
  lemma {:induction false} FoldIsFrom(rows: seq<Row>)
    ensures forall row :: row in Fold(rows) ==> row in rows
  {
    if rows != [] {
      hide Fold, Put;
      var front, row := rows[..|rows| - 1], rows[|rows| - 1];
      assert rows == front + [row];
      FoldSnoc(front, row);
      FoldIsFrom(front);
      var k := PutAt(Fold(front), row);
    } else {
      FoldNothing();
    }
  }

  lemma {:induction false} ReadIsMine(rows: seq<Row>, item: string)
    ensures forall row :: row in Read(rows, item) <==> row in rows && Mine(row, item)
  {
    if rows != [] {
      hide Read, Mine;
      var front, row := rows[..|rows| - 1], rows[|rows| - 1];
      assert rows == front + [row];
      ReadSnoc(front, row, item);
      ReadIsMine(front, item);
    }
  }

  lemma {:induction false} PendingIsMine(rows: seq<Row>, item: string)
    requires OpenOf(rows, item) != []
    ensures Pending(rows, item).Some? && Mine(Pending(rows, item).value, item) && Pending(rows, item).value in rows
  {
    hide Read, Fold, Opens, Mine;
    var f := Fold(Read(rows, item));
    var k := LastOpenAt(f);
    FoldIsFrom(Read(rows, item));
    ReadIsMine(rows, item);
    assert f[k] in f;
  }

  /** Work on one item leaves what another item's readers see as it was. */
  lemma {:induction false} OthersUntouched(rows: seq<Row>, item: string, other: string, who: string)
    requires item != "" && other != "" && item != other
    ensures Read(AfterConsume(rows, item, who), other) == Read(rows, other)
  {
    hide Read, Fold, Opens;
    if OpenOf(rows, item) != [] {
      PendingIsMine(rows, item);
      ReadSnoc(rows, Pending(rows, item).value.(consumedBy := who), other);
    }
  }

  /** The rows that `n` consumptions in a row hand out, and the ledger they leave. */
  function Serve(rows: seq<Row>, item: string, who: string, n: nat): (seq<Row>, seq<Option<Row>>) {
    if n == 0 then (rows, [])
    else
      var (before, served) := Serve(rows, item, who, n - 1);
      (AfterConsume(before, item, who), served + [Pending(before, item)])
  }

  /** Consumed one after the other, the open escalations come out once each, newest firing first, and then none. */
  lemma {:induction false} ServedNewestFirst(rows: seq<Row>, item: string, who: string, n: nat)
    requires who != ""
    ensures var open := OpenOf(rows, item); var (after, served) := Serve(rows, item, who, n);
      && |served| == n
      && OpenOf(after, item) == (if n <= |open| then open[..|open| - n] else [])
      && forall k :: 0 <= k < n ==> served[k] == if k < |open| then Some(open[|open| - 1 - k]) else None
  {
    hide OpenOf;
    if n > 0 {
      ServedNewestFirst(rows, item, who, n - 1);
      var open := OpenOf(rows, item);
      var (before, served) := Serve(rows, item, who, n - 1);
      if n <= |open| {
        ConsumeClosesOne(before, item, who);
        assert open[..|open| - (n - 1)][..|open| - n] == open[..|open| - n];
      }
    }
  }

  // ---- whole histories ------------------------------------------------------------------------

  datatype Op = RecordOp(item: string, v: Verdict, outcome: string) | ConsumeOp(item: string, who: string)

  function Apply(rows: seq<Row>, op: Op): seq<Row> {
    match op
    case RecordOp(item, v, outcome) => AfterRecord(rows, item, v, outcome)
    case ConsumeOp(item, who) => AfterConsume(rows, item, who)
  }

  /** The ledger after a history, starting empty. */
  function History(ops: seq<Op>): seq<Row> {
    if ops == [] then [] else Apply(History(ops[..|ops| - 1]), ops[|ops| - 1])
  }

  predicate Named(ops: seq<Op>) {
    forall k :: 0 <= k < |ops| && ops[k].ConsumeOp? ==> ops[k].who != ""
  }

  /** Nothing a reader has seen is ever taken back or rewritten. */
  lemma {:induction false} OnlyGrows(ops: seq<Op>, k: nat)
    requires k <= |ops|
    ensures History(ops[..k]) <= History(ops)
    decreases |ops|
  {
    if k == |ops| {
      assert ops[..k] == ops;
    } else {
      hide Recorded, OpenOf;
      var front := ops[..|ops| - 1];
      OnlyGrows(front, k);
      assert front[..k] == ops[..k];
    }
  }

  /** The rows of one firing, oldest first. */
  function RowsOf(rows: seq<Row>, id: string): seq<Row> {
    if rows == [] then []
    else
      var front, row := rows[..|rows| - 1], rows[|rows| - 1];
      if row.id == id then RowsOf(front, id) + [row] else RowsOf(front, id)
  }

  lemma {:induction false} RowsOfSnoc(rows: seq<Row>, row: Row, id: string)
    ensures RowsOf(rows + [row], id) == if row.id == id then RowsOf(rows, id) + [row] else RowsOf(rows, id)
  {
    assert (rows + [row])[..|rows|] == rows;
  }

  /** A firing is written once, and every later row of it is a copy that only says who consumed it; none but the last
      names anyone. */
  predicate Shaped(rows: seq<Row>) {
    rows != [] ==>
      && rows[0].consumedBy == "" && (|rows| > 1 ==> Open(rows[0]))
      && (forall k :: 0 < k < |rows| ==> rows[k] == rows[0].(consumedBy := rows[k].consumedBy))
      && forall k :: 0 <= k < |rows| - 1 ==> rows[k].consumedBy == ""
  }

  ghost predicate AllShaped(rows: seq<Row>) {
    forall id :: Shaped(RowsOf(rows, id))
  }

  /** At most one later row, and that one names its consumer. */
  predicate ConsumedOnce(rows: seq<Row>) {
    |rows| <= 2 && (|rows| == 2 ==> rows[1].consumedBy != "")
  }

  ghost predicate AllConsumedOnce(rows: seq<Row>) {
    forall id :: ConsumedOnce(RowsOf(rows, id))
  }

  predicate OwnIds(rows: seq<Row>) {
    forall row :: row in rows ==> row.id == EscalationId(row.item, row.verdict.rounds)
  }

  /** The fold shows the last row of each firing. */
  lemma {:induction false} FoldShowsLatest(rows: seq<Row>, id: string)
    ensures HasId(Fold(rows), id) <==> RowsOf(rows, id) != []
    ensures forall row :: row in Fold(rows) && row.id == id ==> row == RowsOf(rows, id)[|RowsOf(rows, id)| - 1]
  {
    if rows != [] {
      hide Fold, Put, RowsOf;
      var front, row := rows[..|rows| - 1], rows[|rows| - 1];
      assert rows == front + [row];
      FoldSnoc(front, row);
      RowsOfSnoc(front, row, id);
      FoldShowsLatest(front, id);
      FoldIsDistinct(front);
      var f := Fold(front);
      var k := PutAt(f, row);
      if HasId(f, row.id) {
        KeepsIds(f, k, row, id);
      } else {
        KeepsIdsAdded(f, row, id);
      }
    }
  }

  lemma {:induction false} KeepsIds(f: seq<Row>, k: nat, row: Row, id: string)
    requires k < |f| && f[k].id == row.id && DistinctIds(f)
    ensures HasId(f[k := row], id) <==> HasId(f, id)
    ensures forall x :: x in f[k := row] && x.id == id ==> if row.id == id then x == row else x in f
  {
    if HasId(f, id) {
      var j :| 0 <= j < |f| && f[j].id == id;
      assert f[k := row][j].id == id;
    }
  }

  lemma {:induction false} KeepsIdsAdded(f: seq<Row>, row: Row, id: string)
    requires !HasId(f, row.id)
    ensures HasId(f + [row], id) <==> HasId(f, id) || row.id == id
    ensures forall x :: x in f + [row] && x.id == id ==> if row.id == id then x == row else x in f
  {
    if HasId(f, id) {
      var j :| 0 <= j < |f| && f[j].id == id;
      assert (f + [row])[j].id == id;
    }
    assert (f + [row])[|f|] == row;
  }

  /** Rows of an item carry its ids only, so reading one item keeps every row of its firings. */
  lemma {:induction false} ReadKeepsFirings(rows: seq<Row>, item: string, row: Row)
    requires OwnIds(rows) && row.id == EscalationId(row.item, row.verdict.rounds) && Mine(row, item)
    ensures RowsOf(Read(rows, item), row.id) == RowsOf(rows, row.id)
  {
    if rows != [] {
      hide Read, RowsOf, EscalationId;
      var front, last := rows[..|rows| - 1], rows[|rows| - 1];
      assert rows == front + [last];
      assert forall x :: x in front ==> x in rows;
      ReadKeepsFirings(front, item, row);
      ReadSnoc(front, last, item);
      RowsOfSnoc(front, last, row.id);
      RowsOfSnoc(Read(front, item), last, row.id);
      assert last in rows;
      IdInjective(last.item, last.verdict.rounds, row.item, row.verdict.rounds);
    }
  }

  /** One record keeps every firing written once. */
  lemma {:induction false} RecordKeepsShape(rows: seq<Row>, item: string, v: Verdict, outcome: string)
    requires AllShaped(rows) && OwnIds(rows)
    ensures AllShaped(AfterRecord(rows, item, v, outcome)) && OwnIds(AfterRecord(rows, item, v, outcome))
    ensures AllConsumedOnce(rows) ==> AllConsumedOnce(AfterRecord(rows, item, v, outcome))
  {
    hide Read, RowsOf, EscalationId, Impossible;
    var result := Recorded(rows, item, v, outcome);
    if result.Written? {
      NewFiring(rows, item, v, outcome);
      forall id
        ensures Shaped(RowsOf(rows + [result.row], id))
        ensures ConsumedOnce(RowsOf(rows, id)) ==> ConsumedOnce(RowsOf(rows + [result.row], id))
      {
        RowsOfSnoc(rows, result.row, id);
        assert Shaped(RowsOf(rows, id));
      }
    }
  }

  lemma {:induction false} NewFiring(rows: seq<Row>, item: string, v: Verdict, outcome: string)
    requires OwnIds(rows) && Recorded(rows, item, v, outcome).Written?
    ensures RowsOf(rows, EscalationId(item, v.rounds)) == []
  {
    hide Read, RowsOf, EscalationId, Impossible;
    var row := Recorded(rows, item, v, outcome).row;
    ReadKeepsFirings(rows, item, row);
    NoRowsOf(Read(rows, item), row.id);
  }

  lemma {:induction false} NoRowsOf(rows: seq<Row>, id: string)
    requires !HasId(rows, id)
    ensures RowsOf(rows, id) == []
  {
    if rows != [] {
      assert rows[|rows| - 1].id != id;
      NoRowsOf(rows[..|rows| - 1], id);
    }
  }

  /** A consumption adds a copy of a row nobody is named in. */
  lemma {:induction false} ConsumeKeepsShape(rows: seq<Row>, item: string, who: string)
    requires AllShaped(rows) && OwnIds(rows)
    ensures AllShaped(AfterConsume(rows, item, who)) && OwnIds(AfterConsume(rows, item, who))
    ensures AllConsumedOnce(rows) && who != "" ==> AllConsumedOnce(AfterConsume(rows, item, who))
  {
    hide Read, RowsOf, EscalationId, Fold, Opens, Shaped;
    if OpenOf(rows, item) != [] {
      PendingIsMine(rows, item);
      var row := Pending(rows, item).value;
      LatestIsPending(rows, item);
      var done := row.(consumedBy := who);
      forall id
        ensures Shaped(RowsOf(rows + [done], id))
        ensures ConsumedOnce(RowsOf(rows, id)) && who != "" ==> ConsumedOnce(RowsOf(rows + [done], id))
      {
        RowsOfSnoc(rows, done, id);
        assert Shaped(RowsOf(rows, id));
        if id == row.id {
          CopyKeepsShape(RowsOf(rows, id), done);
        }
      }
    }
  }

  lemma {:induction false} CopyKeepsShape(rows: seq<Row>, done: Row)
    requires Shaped(rows) && rows != [] && Open(rows[|rows| - 1])
    requires done == rows[|rows| - 1].(consumedBy := done.consumedBy)
    ensures Shaped(rows + [done])
    ensures ConsumedOnce(rows) && done.consumedBy != "" ==> ConsumedOnce(rows + [done])
  {
    var all, last := rows + [done], |rows| - 1;
    forall k | 0 < k < |all| ensures all[k] == all[0].(consumedBy := all[k].consumedBy) {
      if k == |rows| && last > 0 {
        assert rows[last] == rows[0].(consumedBy := rows[last].consumedBy);
      }
    }
  }

  /** The pending row is the last row of its firing in the whole ledger. */
  lemma {:induction false} LatestIsPending(rows: seq<Row>, item: string)
    requires OwnIds(rows) && OpenOf(rows, item) != []
    ensures var row := Pending(rows, item).value; var all := RowsOf(rows, row.id);
      Open(row) && all != [] && all[|all| - 1] == row
  {
    hide Read, RowsOf, EscalationId, Fold, Opens;
    PendingIsMine(rows, item);
    var f := Fold(Read(rows, item));
    var k := LastOpenAt(f);
    assert f[k] in f;
    ReadKeepsFirings(rows, item, f[k]);
    FoldShowsLatest(Read(rows, item), f[k].id);
    assert HasId(f, f[k].id);
  }

  /** Whatever the history, a firing is written once, and its later rows are copies that only say who consumed it, none
      but the last naming anyone; when every consumption names someone, there is at most one of them. */
  lemma {:induction false} FiredOnceConsumedOnce(ops: seq<Op>)
    ensures AllShaped(History(ops)) && OwnIds(History(ops))
    ensures Named(ops) ==> AllConsumedOnce(History(ops))
  {
    if ops == [] {
      assert forall id :: RowsOf([], id) == [];
    } else {
      hide AllShaped, AllConsumedOnce, OwnIds, AfterRecord, AfterConsume;
      FiredOnceConsumedOnce(ops[..|ops| - 1]);
      var rows := History(ops[..|ops| - 1]);
      match ops[|ops| - 1] {
        case RecordOp(item, v, outcome) => RecordKeepsShape(rows, item, v, outcome);
        case ConsumeOp(item, who) => ConsumeKeepsShape(rows, item, who);
      }
    }
  }

  // ---- what a reader is handed, from the rows alone -------------------------------------------

  ghost predicate Of(rows: seq<Row>, item: string, k: int) {
    0 <= k < |rows| && (item == "" || rows[k].item == item)
  }

  /** The item's rows with the id of `row` stand between `first` and `last`, both of which are such rows, and `row` is
      the last. */
  ghost predicate Spans(rows: seq<Row>, item: string, row: Row, first: nat, last: nat) {
    && Of(rows, item, first) && Of(rows, item, last) && rows[first].id == row.id && rows[last] == row
    && forall k :: Of(rows, item, k) && rows[k].id == row.id ==> first <= k <= last
  }

  /** What a fold shows: for each firing of the item where its first row stands and where its last. */
  ghost predicate Shows(rows: seq<Row>, item: string, f: seq<Row>, first: seq<nat>, last: seq<nat>) {
    && |first| == |last| == |f|
    && (forall p :: 0 <= p < |f| ==> Spans(rows, item, f[p], first[p], last[p]))
    && (forall p, q :: 0 <= p < q < |f| ==> first[p] < first[q])
    && forall k :: Of(rows, item, k) ==> HasId(f, rows[k].id)
  }

  lemma {:induction false} SpanKept(rows: seq<Row>, row: Row, item: string, shown: Row, first: nat, last: nat)
    requires Spans(rows, item, shown, first, last)
    ensures first < |rows|
    ensures shown.id != row.id || !Mine(row, item) ==> Spans(rows + [row], item, shown, first, last)
    ensures shown.id == row.id && Mine(row, item) ==> Spans(rows + [row], item, row, first, |rows|)
  {
    var all := rows + [row];
    assert forall k :: 0 <= k < |rows| ==> all[k] == rows[k];
    assert all[|rows|] == row;
    assert forall k :: Of(all, item, k) ==> Of(rows, item, k) || k == |rows|;
    assert Of(all, item, first) && Of(all, item, last);
    assert Mine(row, item) ==> Of(all, item, |rows|);
  }

  lemma {:induction false} SpanNew(rows: seq<Row>, row: Row, item: string, f: seq<Row>)
    requires Mine(row, item) && !HasId(f, row.id) && forall k :: Of(rows, item, k) ==> HasId(f, rows[k].id)
    ensures Spans(rows + [row], item, row, |rows|, |rows|)
  {
    hide HasId;
    var all := rows + [row];
    assert forall k :: 0 <= k < |rows| ==> all[k] == rows[k];
    assert forall k :: Of(all, item, k) ==> Of(rows, item, k) || k == |rows|;
  }

  lemma {:induction false} AllShown(rows: seq<Row>, row: Row, item: string, f: seq<Row>, g: seq<Row>)
    requires forall k :: Of(rows, item, k) ==> HasId(f, rows[k].id)
    requires |f| <= |g| && (forall p :: 0 <= p < |f| ==> g[p].id == f[p].id) && (Mine(row, item) ==> HasId(g, row.id))
    ensures forall k :: Of(rows + [row], item, k) ==> HasId(g, (rows + [row])[k].id)
  {
    hide HasId;
    var all := rows + [row];
    forall k | Of(all, item, k) ensures HasId(g, all[k].id) {
      if k < |rows| {
        assert Of(rows, item, k) && all[k] == rows[k];
        var p := EntryOfId(f, rows[k].id);
        HasIt(g, p);
      }
    }
  }

  lemma {:induction false} HasIt(f: seq<Row>, p: nat)
    requires p < |f|
    ensures HasId(f, f[p].id)
  {
  }

  lemma {:induction false} FoldPlaces(rows: seq<Row>, item: string) returns (first: seq<nat>, last: seq<nat>)
    ensures Shows(rows, item, Fold(Read(rows, item)), first, last)
  {
    hide Fold, Read, Put, HasId, DistinctIds, Shows, Mine;
    if rows == [] {
      ReadNothing(item);
      FoldNothing();
      first, last := [], [];
      ShowsNothing(item);
    } else {
      var front, row := rows[..|rows| - 1], rows[|rows| - 1];
      assert rows == front + [row];
      first, last := FoldPlaces(front, item);
      var f := Fold(Read(front, item));
      ReadSnoc(front, row, item);
      if Mine(row, item) {
        FoldSnoc(Read(front, item), row);
        FoldIsDistinct(Read(front, item));
        var at := PutAt(f, row);
        if HasId(f, row.id) {
          OldFiring(front, row, item, f, first, last, at);
          last := last[at := |front|];
        } else {
          NewPlace(front, row, item, f, first, last);
          first, last := first + [|front|], last + [|front|];
        }
      } else {
        NotMine(front, row, item, f, first, last);
      }
    }
  }

  lemma {:induction false} ShowsNothing(item: string)
    ensures Shows([], item, [], [], [])
  {
  }

  lemma {:induction false} NotMine(rows: seq<Row>, row: Row, item: string, f: seq<Row>, first: seq<nat>, last: seq<nat>)
    requires Shows(rows, item, f, first, last) && !Mine(row, item)
    ensures Shows(rows + [row], item, f, first, last)
  {
    hide Spans, HasId, Mine;
    forall p | 0 <= p < |f| ensures Spans(rows + [row], item, f[p], first[p], last[p]) {
      SpanKept(rows, row, item, f[p], first[p], last[p]);
    }
    AllShown(rows, row, item, f, f);
  }

  lemma {:induction false} OldFiring(
    rows: seq<Row>, row: Row, item: string, f: seq<Row>, first: seq<nat>, last: seq<nat>, at: nat)
    requires Shows(rows, item, f, first, last) && DistinctIds(f) && at < |f| && f[at].id == row.id && Mine(row, item)
    ensures at < |last| && Shows(rows + [row], item, f[at := row], first, last[at := |rows|])
  {
    hide Spans, HasId, Mine;
    var g := f[at := row];
    forall p | 0 <= p < |f| ensures Spans(rows + [row], item, g[p], first[p], last[at := |rows|][p]) {
      SpanKept(rows, row, item, f[p], first[p], last[p]);
    }
    HasIt(g, at);
    AllShown(rows, row, item, f, g);
  }

  lemma {:induction false} NewPlace(
    rows: seq<Row>, row: Row, item: string, f: seq<Row>, first: seq<nat>, last: seq<nat>)
    requires Shows(rows, item, f, first, last) && !HasId(f, row.id) && Mine(row, item)
    ensures Shows(rows + [row], item, f + [row], first + [|rows|], last + [|rows|])
  {
    hide Spans, HasId, Mine;
    var g := f + [row];
    forall p | 0 <= p < |f| ensures Spans(rows + [row], item, f[p], first[p], last[p]) && first[p] < |rows| {
      HasIt(f, p);
      SpanKept(rows, row, item, f[p], first[p], last[p]);
    }
    SpanNew(rows, row, item, f);
    HasIt(g, |f|);
    AllShown(rows, row, item, f, g);
  }

  /** Row `k` waits: it is the item's last row with its id, escalates, and names nobody who consumed it. */
  ghost predicate Waits(rows: seq<Row>, item: string, k: int) {
    && Of(rows, item, k) && rows[k].outcome == "escalate" && rows[k].consumedBy == ""
    && forall j :: k < j && Of(rows, item, j) ==> rows[j].id != rows[k].id
  }

  /** Of the item's rows the first with id `a` comes before any with id `z`. */
  ghost predicate FiredBefore(rows: seq<Row>, item: string, a: string, z: string) {
    exists i :: Of(rows, item, i) && rows[i].id == a && forall j :: j <= i && Of(rows, item, j) ==> rows[j].id != z
  }

  /** A reader is handed a row exactly when one waits, and of those the one that fired last: never a firing that does
      not escalate, one that is consumed, or one of another item. */
  lemma {:induction false} HandedOutIs(rows: seq<Row>, item: string)
    ensures Pending(rows, item).None? <==> forall k :: !Waits(rows, item, k)
    ensures Pending(rows, item).Some? ==>
      exists k :: Waits(rows, item, k) && rows[k] == Pending(rows, item).value
        && forall j :: Waits(rows, item, j) && j != k ==> FiredBefore(rows, item, rows[j].id, rows[k].id)
  {
    hide Fold, Read, Opens, HasId, FiredBefore, Spans, Open, Shows;
    var first, last := FoldPlaces(rows, item);
    var f := Fold(Read(rows, item));
    if Opens(f) == [] {
      NoneOpen(f);
      forall k ensures !Waits(rows, item, k) {
        if Waits(rows, item, k) {
          var p := WaitsIsOpen(rows, item, f, first, last, k);
        }
      }
    } else {
      var q := LastOpenAt(f);
      EntryWaits(rows, item, f, first, last, q);
      var k := last[q];
      forall j | Waits(rows, item, j) && j != k ensures FiredBefore(rows, item, rows[j].id, rows[k].id) {
        var p := WaitsIsOpen(rows, item, f, first, last, j);
        FiresBefore(rows, item, f, first, last, p, q);
      }
    }
  }

  lemma {:induction false} WaitsIsOpen(
    rows: seq<Row>, item: string, f: seq<Row>, first: seq<nat>, last: seq<nat>, k: int) returns (p: nat)
    requires Shows(rows, item, f, first, last) && Waits(rows, item, k)
    ensures 0 <= k < |rows| && p < |f| == |last| && last[p] == k && f[p] == rows[k] && Open(f[p])
  {
    hide HasId;
    p := EntryOfId(f, rows[k].id);
    assert Spans(rows, item, f[p], first[p], last[p]);
  }

  lemma {:induction false} FiresBefore(
    rows: seq<Row>, item: string, f: seq<Row>, first: seq<nat>, last: seq<nat>, p: nat, q: nat)
    requires Shows(rows, item, f, first, last) && p < q < |f|
    ensures FiredBefore(rows, item, f[p].id, f[q].id)
  {
    hide HasId;
    assert Spans(rows, item, f[p], first[p], last[p]) && Spans(rows, item, f[q], first[q], last[q]);
  }

  lemma {:induction false} EntryOfId(f: seq<Row>, id: string) returns (p: nat)
    requires HasId(f, id)
    ensures p < |f| && f[p].id == id
  {
    p :| 0 <= p < |f| && f[p].id == id;
  }

  lemma {:induction false} NoneOpen(f: seq<Row>)
    requires Opens(f) == []
    ensures forall p :: 0 <= p < |f| ==> !Open(f[p])
  {
    if f != [] {
      NoneOpen(f[..|f| - 1]);
    }
  }

  lemma {:induction false} EntryWaits(
    rows: seq<Row>, item: string, f: seq<Row>, first: seq<nat>, last: seq<nat>, q: nat)
    requires Shows(rows, item, f, first, last) && q < |f| && Open(f[q])
    ensures q < |last| && last[q] < |rows| && Waits(rows, item, last[q]) && rows[last[q]] == f[q]
  {
    hide HasId;
    assert Spans(rows, item, f[q], first[q], last[q]);
  }

  // ---- recording ------------------------------------------------------------------------------

  /** A verdict the detector gave is refused in one case only: no rounds at all under a threshold of zero. So no
      stalled verdict under a threshold of one or more ever raises. */
  lemma {:induction false} RefusedIff(rows: seq<Row>, item: string, rounds: seq<Round>, threshold: nat, outcome: string)
    ensures Recorded(rows, item, Evaluated(rounds, threshold), outcome).Refused? <==> rounds == [] && threshold == 0
  {
    hide After, Trail, Read;
    StallBelowRounds(rounds);
    TrailLength(rounds);
    NoRounds();
  }

  /** A verdict is refused exactly when no run could have given it: the counter reaches the rounds, or a threshold that
      there are not more rounds than, or the trail is not one entry a round. */
  lemma {:induction false} RefusedExactly(rows: seq<Row>, item: string, v: Verdict, outcome: string)
    ensures !Recorded(rows, item, v, outcome).Refused?
      <==> |v.trail| == v.rounds && (v.stall < v.rounds || v.stall == v.rounds == 0) && (v.threshold <= v.stall ==> v.threshold < v.rounds)
  {
    hide Read, EscalationId;
  }

  /** A firing is written exactly when the ledger holds no row of that item with that many rounds - whoever wrote
      it and whether or not it was consumed since. */
  lemma {:induction false} WrittenIff(rows: seq<Row>, item: string, v: Verdict, outcome: string)
    requires OwnIds(rows) && !Impossible(v)
    ensures Recorded(rows, item, v, outcome).Written?
      <==> !exists row :: row in rows && row.item == item && row.verdict.rounds == v.rounds
    ensures Recorded(rows, item, v, outcome).Written? ==>
      var row := Recorded(rows, item, v, outcome).row;
      row.item == item && row.outcome == outcome && row.verdict == v && row.consumedBy == ""
  {
    hide Read, EscalationId, Impossible;
    var id := EscalationId(item, v.rounds);
    ReadIsMine(rows, item);
    forall row | row in rows ensures row.id == id <==> row.item == item && row.verdict.rounds == v.rounds {
      IdInjective(row.item, row.verdict.rounds, item, v.rounds);
    }
    var mine := Read(rows, item);
    if HasId(mine, id) {
      var k :| 0 <= k < |mine| && mine[k].id == id;
      assert mine[k] in mine;
    } else {
      forall row | row in rows && row.item == item ensures row.id != id {
        assert row in mine;
      }
    }
  }

  /** A firing just written with a target is what the next reader of that item is handed. */
  lemma {:induction false} WrittenIsPending(rows: seq<Row>, item: string, v: Verdict)
    requires Recorded(rows, item, v, "escalate").Written?
    ensures Pending(AfterRecord(rows, item, v, "escalate"), item) == Some(Recorded(rows, item, v, "escalate").row)
  {
    hide Read, Fold, Opens, Put, Impossible, EscalationId;
    var row := Recorded(rows, item, v, "escalate").row;
    var mine := Read(rows, item);
    ReadSnoc(rows, row, item);
    FoldSnoc(mine, row);
    var k := PutAt(Fold(mine), row);
    FoldShowsFirings(mine, row.id);
    OpensSnoc(Fold(mine), row);
  }

  lemma {:induction false} FoldShowsFirings(rows: seq<Row>, id: string)
    requires !HasId(rows, id)
    ensures !HasId(Fold(rows), id)
  {
    hide Fold;
    FoldIsFrom(rows);
    var f := Fold(rows);
    forall k | 0 <= k < |f| ensures f[k].id != id {
      assert f[k] in f;
    }
  }

  lemma {:induction false} ReadKeepsId(rows: seq<Row>, later: seq<Row>, item: string, id: string)
    requires HasId(Read(rows, item), id)
    ensures HasId(Read(rows + later, item), id)
    decreases |later|
  {
    if later == [] {
      assert rows + later == rows;
    } else {
      hide Read, Mine;
      var front, row := later[..|later| - 1], later[|later| - 1];
      ReadKeepsId(rows, front, item, id);
      assert rows + later == (rows + front) + [row];
      ReadSnoc(rows + front, row, item);
      var mine := Read(rows + front, item);
      var k :| 0 <= k < |mine| && mine[k].id == id;
      assert (mine + [row])[k].id == id;
    }
  }

  /** Escalating the same stall again writes nothing, whatever was written since - its consumption included. */
  lemma {:induction false} RecordedOnce(
    rows: seq<Row>, item: string, v: Verdict, outcome: string, later: seq<Row>, again: string)
    requires Recorded(rows, item, v, outcome).Written?
    ensures Recorded(AfterRecord(rows, item, v, outcome) + later, item, v, again).OnRecord?
  {
    hide Read, Impossible, EscalationId;
    var row := Recorded(rows, item, v, outcome).row;
    ReadSnoc(rows, row, item);
    assert (Read(rows, item) + [row])[|Read(rows, item)|].id == row.id;
    ReadKeepsId(rows + [row], later, item, row.id);
  }

  /** The fold keeps firings in the order they were written: what is written later - rows of old firings as well -
      never moves an earlier firing. */
  lemma {:induction false} FoldKeepsOrder(rows: seq<Row>, later: seq<Row>)
    ensures |Fold(rows)| <= |Fold(rows + later)|
    ensures forall k :: 0 <= k < |Fold(rows)| ==> Fold(rows + later)[k].id == Fold(rows)[k].id
    decreases |later|
  {
    if later == [] {
      assert rows + later == rows;
    } else {
      hide Fold, Put;
      var front, row := later[..|later| - 1], later[|later| - 1];
      FoldKeepsOrder(rows, front);
      assert rows + later == (rows + front) + [row];
      FoldSnoc(rows + front, row);
      var k := PutAt(Fold(rows + front), row);
    }
  }
}
