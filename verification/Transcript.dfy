/** The session transcript: an append-only JSONL file, read a bit further by every run. */
module Transcript {

  newtype byte = x: int | 0 <= x < 256

  const EOL: byte := 10

  /** A mirror-wide identity. A transcript item carries its entry's uuid, or the byte offset of its line when
      the entry has none, plus its index within the entry; a spooled notification carries its file name. */
  datatype Uid = Entry(uuid: string, i: nat) | AtOffset(start: nat, i: nat) | Out(name: nat)

  datatype Kind = Prompt | Reply | Question

  datatype Item = Item(start: nat, end: nat, uid: Uid, kind: Kind, payload: string)

  /** What decoding and classifying one line gives: the entry's uuid ("" when absent) and its mirrored parts.
      A blank line, a line that is not JSON and an entry of an unknown shape all have no parts. */
  datatype Parsed = Parsed(uuid: string, parts: seq<(Kind, string)>)

  type Parser = seq<byte> -> Parsed

  /** The index of the first line end at or after `o`, or |data| when there is none. */
  function NextEol(data: seq<byte>, o: nat): (e: nat)
    requires o <= |data|
    ensures o <= e <= |data|
    ensures e < |data| ==> data[e] == EOL
    ensures forall i :: o <= i < e ==> data[i] != EOL
    decreases |data| - o
  {
    if o == |data| || data[o] == EOL then o else NextEol(data, o + 1)
  }

  function LineItem(p: Parsed, start: nat, end: nat, i: nat): Item
    requires i < |p.parts|
  {
    Item(start, end, if p.uuid != "" then Entry(p.uuid, i) else AtOffset(start, i), p.parts[i].0, p.parts[i].1)
  }

  function LineItems(p: Parsed, start: nat, end: nat): (items: seq<Item>) {
    seq(|p.parts|, i requires 0 <= i < |p.parts| => LineItem(p, start, end, i))
  }

  /** The items of the complete lines of `data` after byte `o`. */
  function Items(data: seq<byte>, o: nat, parse: Parser): seq<Item>
    requires o <= |data|
    decreases |data| - o
  {
    var e := NextEol(data, o);
    if e == |data| then [] else LineItems(parse(data[o..e]), o, e + 1) + Items(data, e + 1, parse)
  }

  /** The end of the last complete line after `o`; `o` itself when there is none. */
  function End(data: seq<byte>, o: nat): (e: nat)
    requires o <= |data|
    ensures o <= e <= |data|
    decreases |data| - o
  {
    var e := NextEol(data, o);
    if e == |data| then o else End(data, e + 1)
  }

  /** `o` is a place where a line starts. */
  predicate Boundary(data: seq<byte>, o: nat) {
    o == 0 || (o <= |data| && data[o - 1] == EOL)
  }

  lemma {:induction false} NextEolGrows(f: seq<byte>, g: seq<byte>, o: nat)
    requires f <= g && o <= |f|
    ensures NextEol(f, o) < |f| ==> NextEol(g, o) == NextEol(f, o)
    ensures NextEol(f, o) == |f| ==> NextEol(g, o) >= |f|
    decreases |f| - o
  {
    if o < |f| && f[o] != EOL {
      NextEolGrows(f, g, o + 1);
    }
  }

  lemma {:induction false} Regroup<T>(a: seq<T>, b: seq<T>, c: seq<T>)
    ensures (a + b) + c == a + (b + c)
  {
  }

  lemma {:induction false} EndsCompose(f: seq<byte>, g: seq<byte>, o: nat)
    requires f <= g && o <= |f|
    ensures End(g, End(f, o)) == End(g, o)
    decreases |f| - o
  {
    NextEolGrows(f, g, o);
    var e := NextEol(f, o);
    if e < |f| {
      EndsCompose(f, g, e + 1);
    }
  }

  /** What a read that starts at `o` returns first. */
  lemma {:induction false} ItemsFrom(data: seq<byte>, o: nat, parse: Parser)
    requires o <= |data|
    ensures var e := NextEol(data, o);
      && (e == |data| ==> Items(data, o, parse) == [] && End(data, o) == o)
      && (e < |data| ==>
            && Items(data, o, parse) == LineItems(parse(data[o..e]), o, e + 1) + Items(data, e + 1, parse)
            && End(data, o) == End(data, e + 1))
  {
    hide LineItems;
  }

  /** Reading the grown file from the previous mark gives exactly what one read of it would have added. */
  lemma {:induction false} ReadsCompose(f: seq<byte>, g: seq<byte>, o: nat, parse: Parser)
    requires f <= g && o <= |f|
    ensures Items(g, o, parse) == Items(f, o, parse) + Items(g, End(f, o), parse)
    ensures End(g, End(f, o)) == End(g, o)
    decreases |f| - o
  {
    hide Items, End, NextEol, LineItems;
    EndsCompose(f, g, o);
    NextEolGrows(f, g, o);
    ItemsFrom(f, o, parse);
    var e := NextEol(f, o);
    if e < |f| {
      ItemsFrom(g, o, parse);
      assert f[o..e] == g[o..e];
      ReadsCompose(f, g, e + 1, parse);
      Regroup(LineItems(parse(f[o..e]), o, e + 1), Items(f, e + 1, parse), Items(g, End(f, o), parse));
    }
  }

  /** A mark is always the start of a line, so the next read starts at one. */
  lemma {:induction false} EndIsBoundary(data: seq<byte>, o: nat)
    requires o <= |data| && Boundary(data, o)
    ensures Boundary(data, End(data, o))
    decreases |data| - o
  {
    var e := NextEol(data, o);
    if e < |data| {
      EndIsBoundary(data, e + 1);
    }
  }

  /** Reading up to a line start ends at that line start. */
  lemma {:induction false} EndAtBoundary(data: seq<byte>, o: nat, b: nat)
    requires o <= b <= |data| && Boundary(data, b)
    ensures End(data[..b], o) == b
    decreases b - o
  {
    var f := data[..b];
    var e := NextEol(f, o);
    if e < b {
      EndAtBoundary(data, e + 1, b);
    }
  }

  /** The transcript splits at every line start into what is before it and what is read from it. */
  lemma {:induction false} SplitAtBoundary(data: seq<byte>, b: nat, parse: Parser)
    requires b <= |data| && Boundary(data, b)
    ensures Items(data, 0, parse) == Items(data[..b], 0, parse) + Items(data, b, parse)
  {
    EndAtBoundary(data, 0, b);
    ReadsCompose(data[..b], data, 0, parse);
  }

  predicate SameLine(a: Item, b: Item) {
    a.start == b.start && a.end == b.end
  }

  /** Items come in file order: each lies within one line of the part read, and a later item is on the same
      line or on a later one. */
  ghost predicate InFileOrder(items: seq<Item>, lo: nat, hi: nat) {
    && (forall i :: 0 <= i < |items| ==> lo <= items[i].start < items[i].end <= hi)
    && (forall i, j :: 0 <= i < j < |items| ==> SameLine(items[i], items[j]) || items[i].end <= items[j].start)
  }

  lemma {:induction false} LineThenLater(here: seq<Item>, rest: seq<Item>, lo: nat, mid: nat, hi: nat)
    requires lo < mid <= hi
    requires forall i :: 0 <= i < |here| ==> here[i].start == lo && here[i].end == mid
    requires InFileOrder(rest, mid, hi)
    ensures InFileOrder(here + rest, lo, hi)
  {
    var items := here + rest;
    forall i, j | 0 <= i < j < |items| ensures SameLine(items[i], items[j]) || items[i].end <= items[j].start {
      if i >= |here| {
        assert items[i] == rest[i - |here|] && items[j] == rest[j - |here|];
      } else if j >= |here| {
        assert items[j] == rest[j - |here|];
      }
    }
  }

  lemma {:induction false} ItemsInFileOrder(data: seq<byte>, o: nat, parse: Parser)
    requires o <= |data|
    ensures InFileOrder(Items(data, o, parse), o, End(data, o))
    decreases |data| - o
  {
    hide Items, End, NextEol, InFileOrder;
    ItemsFrom(data, o, parse);
    var e := NextEol(data, o);
    if e < |data| {
      ItemsInFileOrder(data, e + 1, parse);
      LineThenLater(LineItems(parse(data[o..e]), o, e + 1), Items(data, e + 1, parse), o, e + 1, End(data, o));
    } else {
      NoneInOrder(o);
    }
  }

  lemma {:induction false} NoneInOrder(o: nat)
    ensures InFileOrder([], o, o)
  {
  }

  lemma {:induction false} ItemEndsAtLineStart(data: seq<byte>, o: nat, parse: Parser, i: nat)
    requires o <= |data| && i < |Items(data, o, parse)|
    ensures Items(data, o, parse)[i].end <= |data| && Boundary(data, Items(data, o, parse)[i].end)
    decreases |data| - o
  {
    var e := NextEol(data, o);
    var here := LineItems(parse(data[o..e]), o, e + 1);
    if i >= |here| {
      ItemEndsAtLineStart(data, e + 1, parse, i - |here|);
    }
  }

  lemma {:induction false} ItemsAreEntries(data: seq<byte>, o: nat, parse: Parser, i: nat)
    requires o <= |data| && i < |Items(data, o, parse)|
    ensures !Items(data, o, parse)[i].uid.Out?
    decreases |data| - o
  {
    var e := NextEol(data, o);
    var here := LineItems(parse(data[o..e]), o, e + 1);
    if i >= |here| {
      ItemsAreEntries(data, e + 1, parse, i - |here|);
    }
  }

  /** What the line that starts at `s` says. */
  function LineAt(data: seq<byte>, s: nat, parse: Parser): Parsed
    requires s <= |data|
  {
    parse(data[s..NextEol(data, s)])
  }

  /** Each item is a part of its line, named by the entry's id, or by the place of the line when the entry has none. */
  lemma {:induction false} ItemIs(data: seq<byte>, o: nat, parse: Parser, i: nat) returns (k: nat)
    requires o <= |data| && Boundary(data, o) && i < |Items(data, o, parse)|
    ensures var item := Items(data, o, parse)[i];
      && o <= item.start < |data| && Boundary(data, item.start)
      && var line := LineAt(data, item.start, parse);
        && k < |line.parts| && (item.kind, item.payload) == line.parts[k]
        && (line.uuid == "" ==> item.uid == AtOffset(item.start, k))
        && (line.uuid != "" ==> item.uid == Entry(line.uuid, k))
    decreases |data| - o
  {
    var e := NextEol(data, o);
    var here := LineItems(parse(data[o..e]), o, e + 1);
    if i < |here| {
      k := i;
    } else {
      k := ItemIs(data, e + 1, parse, i - |here|);
    }
  }

  ghost predicate IdsDiffer(data: seq<byte>, o: nat, parse: Parser) {
    forall s: nat, t: nat :: o <= s < t < |data| && Boundary(data, s) && Boundary(data, t) ==>
      LineAt(data, s, parse).uuid == "" || LineAt(data, s, parse).uuid != LineAt(data, t, parse).uuid
  }

  /** No two items have the same name when no two lines have the same entry id. */
  lemma {:induction false} NamesDiffer(data: seq<byte>, o: nat, parse: Parser, i: nat, j: nat)
    requires o <= |data| && Boundary(data, o) && IdsDiffer(data, o, parse) && i < j < |Items(data, o, parse)|
    ensures Items(data, o, parse)[i].uid != Items(data, o, parse)[j].uid
    decreases |data| - o
  {
    hide Boundary, IdsDiffer;
    ItemsFrom(data, o, parse);
    var e := NextEol(data, o);
    var here := LineItems(parse(data[o..e]), o, e + 1);
    LineEnds(data, e);
    if i >= |here| {
      IdsDifferLater(data, o, e + 1, parse);
      NamesDiffer(data, e + 1, parse, i - |here|, j - |here|);
    } else if j >= |here| {
      var k := ItemIs(data, e + 1, parse, j - |here|);
      NotBoth(data, o, Items(data, o, parse)[j].start, parse);
    }
  }

  lemma {:induction false} LineEnds(data: seq<byte>, e: nat)
    ensures e < |data| && data[e] == EOL ==> Boundary(data, e + 1)
  {
  }

  lemma {:induction false} IdsDifferLater(data: seq<byte>, o: nat, p: nat, parse: Parser)
    requires IdsDiffer(data, o, parse) && o <= p
    ensures IdsDiffer(data, p, parse)
  {
  }

  lemma {:induction false} NotBoth(data: seq<byte>, s: nat, t: nat, parse: Parser)
    requires IdsDiffer(data, s, parse) && s < t < |data| && Boundary(data, s) && Boundary(data, t)
    ensures LineAt(data, s, parse).uuid == "" || LineAt(data, s, parse).uuid != LineAt(data, t, parse).uuid
  {
  }

  /** One read: the loop over the complete lines after `offset`, with a trailing unfinished line left alone. */
  method ReadNew(data: seq<byte>, offset: nat, parse: Parser) returns (out: seq<Item>, pos: nat)
    requires offset <= |data|
    ensures out == Items(data, offset, parse) && pos == End(data, offset)
  {
    out, pos := [], offset;
    while NextEol(data, pos) < |data|
      invariant offset <= pos <= |data|
      invariant Items(data, offset, parse) == out + Items(data, pos, parse)
      invariant End(data, offset) == End(data, pos)
      decreases |data| - pos
    {
      var start, e := pos, NextEol(data, pos);
      var here := ReadLine(data[start..e], start, e + 1, parse);
      Regroup(out, here, Items(data, e + 1, parse));
      out, pos := out + here, e + 1;
    }
  }

  method ReadLine(raw: seq<byte>, start: nat, end: nat, parse: Parser) returns (out: seq<Item>)
    ensures out == LineItems(parse(raw), start, end)
  {
    var p := parse(raw);
    out := [];
    for i := 0 to |p.parts|
      invariant out == LineItems(p, start, end)[..i]
    {
      out := out + [LineItem(p, start, end, i)];
    }
  }
}
