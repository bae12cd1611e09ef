/** The durable inbox: two files per thread, and a death possible inside and between any two file operations. */
module Inbox {
  import opened Options
  import opened LineFile
  import opened InboxLog

  /** How a call ended: it returned, a file it read did not decode, or the process died in it. */
  datatype Outcome<+T> = Returned(value: T) | Raised | Died

  /** The files are what their histories make of them. */
  ghost predicate Follows(
    c: RecCodec, safe: string -> string, boxes: map<string, Box>, events: map<string, seq<Event>>) {
    && boxes.Keys == events.Keys
    && forall n :: n in boxes ==> boxes[n] == Run(c, events[n]) && FiledUnder(safe, n, events[n])
  }

  lemma {:induction false} FollowsOn(
    c: RecCodec, safe: string -> string, boxes: map<string, Box>, events: map<string, seq<Event>>,
                  name: string, e: Event)
    requires Follows(c, safe, boxes, events)
    requires (e.Record? ==> safe(e.r.root) == name) && (e.RecordTorn? ==> safe(e.r.root) == name)
    ensures var before := if name in events then events[name] else [];
      var box := if name in boxes then boxes[name] else Box(EMPTY, EMPTY);
      Follows(c, safe, boxes[name := Step(c, box, e)], events[name := before + [e]])
  {
    hide Step, Run, FiledUnder;
    var before := if name in events then events[name] else [];
    var box := if name in boxes then boxes[name] else Box(EMPTY, EMPTY);
    NothingHappened(c);
    NothingFiled(safe, name);
    ViewSnoc(c, before, e);
    FiledSnoc(safe, name, before, e);
    FollowsWith(c, safe, boxes, events, name, Step(c, box, e), before + [e]);
  }

  lemma {:induction false} FollowsWith(
    c: RecCodec, safe: string -> string, boxes: map<string, Box>, events: map<string, seq<Event>>,
                    name: string, box: Box, history: seq<Event>)
    requires Follows(c, safe, boxes, events) && box == Run(c, history) && FiledUnder(safe, name, history)
    ensures Follows(c, safe, boxes[name := box], events[name := history])
  {
    hide Run, FiledUnder;
  }

  lemma {:induction false} NothingFiled(safe: string -> string, name: string)
    ensures FiledUnder(safe, name, [])
  {
  }

  class Inbox {
    const c: RecCodec
    const safe: string -> string       // a thread root as a file name
    var boxes: map<string, Box>
    ghost var events: map<string, seq<Event>>

    ghost predicate Valid()
      reads this
    {
      Lawful(c) && Follows(c, safe, boxes, events)
    }

    constructor (c: RecCodec, safe: string -> string)
      requires Lawful(c)
      ensures Valid() && this.c == c && this.safe == safe && boxes == map[]
    {
      this.c, this.safe := c, safe;
      boxes, events := map[], map[];
    }

    function BoxOf(root: string): Box
      reads this
    {
      if safe(root) in boxes then boxes[safe(root)] else Box(EMPTY, EMPTY)
    }

    ghost function EventsOf(root: string): seq<Event>
      reads this
    {
      if safe(root) in events then events[safe(root)] else []
    }

    /** One event happened to one thread's files, and nothing to any other's. */
    twostate predicate Happened(root: string, e: Event)
      reads this
    {
      && events == old(events)[safe(root) := old(EventsOf(root)) + [e]]
      && boxes == old(boxes)[safe(root) := Step(c, old(BoxOf(root)), e)]
    }

    /** The readable records of a file: one pass over its lines, the unterminated last one included. A character cut
        short anywhere in it raises. */
    method ReadJsonl(f: File) returns (read: Option<seq<Rec>>)
      ensures read == ReadBack(c, f)
    {
      if f.broken {
        return None;
      }
      var out: seq<Rec> := [];
      var lines := if f.tail == "" then f.lines else f.lines + [f.tail];
      var i := 0;
      while i < |lines|
        invariant 0 <= i <= |lines|
        invariant out == Decode(c, lines[..i])
      {
        var rec := c.dec(lines[i]);
        if rec.Some? {
          out := out + [rec.value];
        }
        assert lines[..i + 1][..i] == lines[..i];
        i := i + 1;
      }
      assert lines[..|lines|] == lines;
      return Some(out);
    }

    method Put(root: string, box: Box, ghost e: Event)
      requires Valid() && box == Step(c, BoxOf(root), e)
      requires (e.Record? ==> e.r.root == root) && (e.RecordTorn? ==> e.r.root == root)
      modifies this
      ensures Valid() && Happened(root, e) && BoxOf(root) == box
    {
      hide Step, Lawful, Follows;
      FollowsOn(c, safe, boxes, events, safe(root), e);
      events := events[safe(root) := EventsOf(root) + [e]];
      boxes := boxes[safe(root) := box];
    }

    /** Records an admitted message: `true` when it was written, `false` when it was there already. It raises before it
        writes when the entries do not decode. */
    method Record(root: string, id: string, prompt: string, kind: string, ts: int) returns (r: Outcome<bool>)
      requires Valid()
      modifies this
      ensures Valid()
      ensures r.Raised? ==> id != "" && old(BoxOf(root)).entries.broken && boxes == old(boxes) && events == old(events)
      ensures id != "" && old(BoxOf(root)).entries.broken ==> r.Raised?
      ensures r.Returned? ==> r.value == Appends(c, old(BoxOf(root)), Rec(id, root, kind, prompt, ts))
      ensures r.Returned? && r.value ==> Happened(root, InboxLog.Record(Rec(id, root, kind, prompt, ts)))
      ensures r.Returned? && !r.value ==> boxes == old(boxes) && events == old(events)
      ensures r.Died? ==>
        exists n: nat, inside: bool :: Happened(root, RecordTorn(Rec(id, root, kind, prompt, ts), n, inside))
    {
      if id == "" {
        return Returned(false);
      }
      var box := BoxOf(root);
      var read := ReadJsonl(box.entries);
      if read.None? {
        return Raised;
      }
      var recs := read.value;
      var i := 0;
      while i < |recs|
        invariant 0 <= i <= |recs|
        invariant forall j :: 0 <= j < i ==> recs[j].id != id
      {
        if recs[i].id == id {
          return Returned(false);
        }
        i := i + 1;
      }
      var rec := Rec(id, root, kind, prompt, ts);
      assert Appends(c, box, rec);
      var killed: bool := *;
      if killed {
        var n: nat :| n <= |c.enc(rec)| by { assert 0 <= |c.enc(rec)|; }
        var inside: bool := *;
        Put(root, box.(entries := Torn(box.entries, c.enc(rec), n, inside)), RecordTorn(rec, n, inside));
        return Died;
      }
      Put(root, box.(entries := Append(box.entries, c.enc(rec))), InboxLog.Record(rec));
      return Returned(true);
    }

    /** The admitted and unfinished messages of one thread, oldest first; None when it raises. */
    method Pending(root: string) returns (out: Option<seq<Rec>>)
      requires Valid()
      ensures out == PendingRead(c, BoxOf(root))
      ensures out.None? <==> EntriesCut(c, EventsOf(root)) || MarksCut(c, EventsOf(root))
      ensures out.Some? ==> out.value == Unfinished(ViewRun(c, EventsOf(root)))
      ensures AllOrderly(c, EventsOf(root)) ==> out == Some(PlainPending(PlainRun(c, EventsOf(root))))
    {
      out := PendingLocked(BoxOf(root));
      PendingOfEveryHistory(c, EventsOf(root));
      if AllOrderly(c, EventsOf(root)) {
        PendingIsExact(c, EventsOf(root));
      }
    }

    method PendingLocked(box: Box) returns (result: Option<seq<Rec>>)
      ensures result == PendingRead(c, box)
    {
      var marks := ReadJsonl(box.consumed);
      if marks.None? {
        return None;
      }
      var consumed := set r | r in marks.value :: r.id;
      var read := ReadJsonl(box.entries);
      if read.None? {
        return None;
      }
      var entries := read.value;
      var seen: set<string> := {};
      var out: seq<Rec> := [];
      var i := 0;
      while i < |entries|
        invariant 0 <= i <= |entries|
        invariant out == InboxLog.Pending(entries[..i], consumed) && seen == Ids(out)
      {
        var rec := entries[i];
        assert entries[..i + 1][..i] == entries[..i];
        if !(rec.id == "" || rec.id in consumed || rec.id in seen) {
          IdsSnoc(out, rec);
          seen := seen + {rec.id};
          out := out + [rec];
        }
        i := i + 1;
      }
      assert entries[..|entries|] == entries;
      return Some(out);
    }

    /** Records that a message's turn is over, and compacts when enough entries have gathered. The mark is written
        before the files are read: a file that does not decode raises behind it. */
    method MarkConsumed(root: string, id: string, ts: int) returns (r: Outcome<()>)
      requires Valid()
      modifies this
      ensures Valid()
      ensures r.Returned? && id == "" ==> boxes == old(boxes)
      ensures (r.Returned? && id != "") || r.Raised? ==> Happened(root, Consume(id, ts))
      ensures r.Raised? ==> id != "" && RaisesIn(c, old(BoxOf(root)))
      ensures r.Returned? && id != "" ==> !RaisesIn(c, old(BoxOf(root)))
      ensures r.Returned? && id != "" ==>
        |Recs(c, BoxOf(root).entries)| < COMPACT_AFTER || Recs(c, BoxOf(root).entries) == PendingIn(c, BoxOf(root))
      ensures r.Died? ==>
        (exists n: nat, inside: bool :: Happened(root, ConsumeTorn(id, ts, n, inside)))
        || (exists h: bool :: Happened(root, ConsumeCut(id, ts, h)))
    {
      if id == "" {
        return Returned(());
      }
      var box := BoxOf(root);
      if !RaisesIn(c, box) {
        ConsumeBounds(c, box, id, ts);
      }
      var line := c.enc(Mark(id, ts));
      var killed: bool := *;
      if killed {
        var n: nat :| n <= |line| by { assert 0 <= |line|; }
        var inside: bool := *;
        Put(root, box.(consumed := Torn(box.consumed, line, n, inside)), ConsumeTorn(id, ts, n, inside));
        return Died;
      }
      box := box.(consumed := Append(box.consumed, line));
      killed := *;
      if killed {
        Put(root, box, ConsumeCut(id, ts, false));
        return Died;
      }
      var entries := ReadJsonl(box.entries);
      if entries.None? {
        Put(root, box, Consume(id, ts));
        return Raised;
      }
      if |entries.value| < COMPACT_AFTER {
        Put(root, box, Consume(id, ts));
        return Returned(());
      }
      var keep := PendingLocked(box);
      if keep.None? {
        Put(root, box, Consume(id, ts));
        return Raised;
      }
      var lines := EncodeAll(keep.value);
      box := box.(entries := File(lines, "", false));
      killed := *;
      if killed {
        Put(root, box, ConsumeCut(id, ts, true));
        return Died;
      }
      Put(root, box.(consumed := EMPTY), Consume(id, ts));
      return Returned(());
    }

    method EncodeAll(recs: seq<Rec>) returns (lines: seq<string>)
      ensures lines == Encode(c, recs)
    {
      lines := [];
      var i := 0;
      while i < |recs|
        invariant 0 <= i <= |recs|
        invariant lines == Encode(c, recs[..i])
      {
        lines := lines + [c.enc(recs[i])];
        assert recs[..i + 1][..i] == recs[..i];
        i := i + 1;
      }
      assert recs[..|recs|] == recs;
    }

    /** The root a file is replayed under: that of its first readable record. */
    ghost predicate ReplayedAs(name: string, root: string)
      reads this
    {
      && name in boxes && !boxes[name].entries.broken && Recs(c, boxes[name].entries) != []
      && Recs(c, boxes[name].entries)[0].root == root && root != ""
    }

    /** `out` lists the files outside `rest`, each root once, and they all decode. */
    ghost predicate Listed(rest: set<string>, out: seq<string>)
      requires boxes.Keys == events.Keys
      reads this
    {
      && (forall n :: n in boxes && n !in rest ==> !EntriesCut(c, events[n]))
      && (forall t :: t in out <==> exists n :: n !in rest && ReplayedAs(n, t))
      && forall i, j :: 0 <= i < j < |out| ==> out[i] != out[j]
    }

    /** The replay set: one root for every file with a readable record, except an empty one, each root once. One file
        of entries that does not decode, and the whole listing raises. */
    method Threads() returns (result: Option<seq<string>>)
      requires Valid()
      ensures result.None? <==> exists n :: n in boxes && EntriesCut(c, events[n])
      ensures result.Some? ==> forall t :: t in result.value <==> exists n :: ReplayedAs(n, t)
      ensures result.Some? ==> forall i, j :: 0 <= i < j < |result.value| ==> result.value[i] != result.value[j]
    {
      hide Recs, Run, Lawful, EntriesCut, Listed;
      var out: seq<string> := [];
      var names := boxes.Keys;
      NothingListed();
      while names != {}
        invariant names <= boxes.Keys && Listed(names, out)
        decreases |names|
      {
        var n :| n in names;
        BrokenIff(c, events[n]);
        var read := ReadJsonl(boxes[n].entries);
        if read.None? {
          return None;
        }
        NewRoot(n, names, out);
        if read.value != [] && read.value[0].root != "" {
          out := out + [read.value[0].root];
        }
        names := names - {n};
      }
      AllListed(out);
      return Some(out);
    }

    lemma {:induction false} NothingListed()
      requires Valid()
      ensures Listed(boxes.Keys, [])
    {
    }

    lemma {:induction false} AllListed(out: seq<string>)
      requires Valid() && Listed({}, out)
      ensures !exists n :: n in boxes && EntriesCut(c, events[n])
      ensures forall t :: t in out <==> exists n :: ReplayedAs(n, t)
      ensures forall i, j :: 0 <= i < j < |out| ==> out[i] != out[j]
    {
      hide EntriesCut;
      forall t ensures t in out <==> exists n :: ReplayedAs(n, t) {
        if n :| ReplayedAs(n, t) {
          assert n !in {};
        }
      }
    }

    /** One more file lists its own root, which is a new one, and nothing else. */
    lemma {:induction false} NewRoot(n: string, rest: set<string>, out: seq<string>)
      requires Valid() && n in rest && rest <= boxes.Keys && Listed(rest, out) && ReadBack(c, boxes[n].entries).Some?
      ensures var recs := ReadBack(c, boxes[n].entries).value;
        Listed(rest - {n}, if recs != [] && recs[0].root != "" then out + [recs[0].root] else out)
    {
      hide Recs, Run, Lawful, EntriesCut;
      BrokenIff(c, events[n]);
      var recs := ReadBack(c, boxes[n].entries).value;
      var out' := if recs != [] && recs[0].root != "" then out + [recs[0].root] else out;
      if recs != [] && recs[0].root != "" {
        assert ReplayedAs(n, recs[0].root);
        NotListed(n, recs[0].root, rest, out);
      }
      forall t ensures t in out' <==> exists m :: m !in rest - {n} && ReplayedAs(m, t) {
        if t in out {
          var m :| m !in rest && ReplayedAs(m, t);
          assert m !in rest - {n};
        }
        if m :| m !in rest - {n} && ReplayedAs(m, t) {
          assert m == n || m !in rest;
        }
      }
    }

    /** A root names its file, so another file never lists it. */
    lemma {:induction false} NotListed(n: string, t: string, rest: set<string>, out: seq<string>)
      requires Valid() && n in rest && ReplayedAs(n, t)
      requires forall u :: u in out ==> exists m :: m !in rest && ReplayedAs(m, u)
      ensures t !in out
    {
      RootNamesFile(n, t);
      if t in out {
        var m :| m !in rest && ReplayedAs(m, t);
        RootNamesFile(m, t);
      }
    }

    lemma {:induction false} RootNamesFile(n: string, t: string)
      requires Valid() && ReplayedAs(n, t)
      ensures safe(t) == n
    {
      EntriesAreFiled(c, safe, n, events[n]);
      var recs := Recs(c, boxes[n].entries);
      assert recs[0] in recs;
    }

    /** A pending message is found by replaying the listed roots exactly when its file's first readable record
        names a thread at all. */
    lemma {:induction false} PendingIsReachable(name: string, q: Rec)
      requires Valid() && name in boxes && Readable(boxes[name]) && q in PendingIn(c, boxes[name])
      ensures Recs(c, boxes[name].entries) != []
      ensures (exists t :: ReplayedAs(name, t) && PendingRead(c, BoxOf(t)).Some? && q in PendingIn(c, BoxOf(t)))
        <==> Recs(c, boxes[name].entries)[0].root != ""
    {
      var recs := Recs(c, boxes[name].entries);
      PendingDistinct(recs, ConsumedIds(c, boxes[name]));
      EntriesAreFiled(c, safe, name, events[name]);
      var t := recs[0].root;
      assert recs[0] in recs;
      assert BoxOf(t) == boxes[name];
      if t != "" {
        assert ReplayedAs(name, t);
      }
    }
  }
}
