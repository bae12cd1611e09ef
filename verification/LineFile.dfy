/** An append-only file of one record a line, and what can be read back from it - after a torn append too. */
module LineFile {
  import opened Options

  /** How a record is written as one line, and what a line reads as. */
  datatype Codec<!R> = Codec(enc: R -> string, dec: string -> Option<R>)

  /** What an append that was cut short, or was not, has written. */
  ghost predicate IsPart<R(!new)>(c: Codec<R>, s: string) {
    s != "" && exists r: R :: s <= c.enc(r)
  }

  /** What any number of appends have written one behind the other, none of them with its line feed. */
  ghost predicate Glued<R(!new)>(c: Codec<R>, s: string)
    decreases |s|
  {
    IsPart(c, s) || exists n :: 0 < n < |s| && Glued(c, s[..n]) && IsPart(c, s[n..])
  }

  /** A record's line reads back; no line cut short does, nor does one written on behind parts of others. */
  ghost predicate Lawful<R(!new)>(c: Codec<R>) {
    && (forall r: R :: c.enc(r) != "" && c.dec(c.enc(r)) == Some(r))
    && (forall r: R, n: nat {:trigger c.enc(r)[..n]} :: n < |c.enc(r)| ==> c.dec(c.enc(r)[..n]) == None)
    && (forall s: string, t: string :: Glued(c, s) && IsPart(c, t) ==> c.dec(s + t) == None)
  }

  /** A file: its complete lines, the unterminated rest a crash may have left, and whether a character in it was cut
      short - then it does not decode, whatever is appended behind. */
  datatype File = File(lines: seq<string>, tail: string, broken: bool)

  const EMPTY := File([], "", false)

  function Decode<R>(c: Codec<R>, lines: seq<string>): seq<R> {
    if lines == [] then []
    else
      var front := Decode(c, lines[..|lines| - 1]);
      match c.dec(lines[|lines| - 1])
      case None => front
      case Some(r) => front + [r]
  }

  /** Every line that parses; an unterminated last line counts like any other. */
  function Recs<R>(c: Codec<R>, f: File): seq<R> {
    Decode(c, if f.tail == "" then f.lines else f.lines + [f.tail])
  }

  /** What reading a file gives: its records, or nothing - the read raises. */
  function ReadBack<R>(c: Codec<R>, f: File): Option<seq<R>> {
    if f.broken then None else Some(Recs(c, f))
  }

  function Append(f: File, line: string): File {
    File(f.lines + [f.tail + line], "", f.broken)
  }

  /** Some bytes of character `n`, which has more than one, may be written without the rest. */
  predicate Splits(line: string, n: nat, inside: bool) {
    inside && n < |line| && line[n] as int >= 128
  }

  /** An append of `line` and its line feed that a crash stopped after `n` characters, or inside the next one. */
  function Torn(f: File, line: string, n: nat, inside: bool): File
    requires n <= |line|
  {
    File(f.lines, f.tail + line[..n], f.broken || Splits(line, n, inside))
  }

  function Encode<R>(c: Codec<R>, recs: seq<R>): seq<string> {
    if recs == [] then [] else Encode(c, recs[..|recs| - 1]) + [c.enc(recs[|recs| - 1])]
  }

  // ---- reading back ---------------------------------------------------------------------------

  lemma {:induction false} DecodeSnoc<R(!new)>(c: Codec<R>, lines: seq<string>, line: string)
    ensures Decode(c, lines + [line]) == Decode(c, lines) + match c.dec(line) { case None => [] case Some(r) => [r] }
  {
    assert (lines + [line])[..|lines|] == lines;
  }

  lemma {:induction false} DecodeEncode<R(!new)>(c: Codec<R>, recs: seq<R>)
    requires Lawful(c)
    ensures Decode(c, Encode(c, recs)) == recs
  {
    if recs != [] {
      var front, r := recs[..|recs| - 1], recs[|recs| - 1];
      DecodeEncode(c, front);
      DecodeSnoc(c, Encode(c, front), c.enc(r));
      assert recs == front + [r];
    }
  }

  /** At a line boundary an append adds exactly its record. */
  lemma {:induction false} AppendReads<R(!new)>(c: Codec<R>, f: File, r: R)
    requires Lawful(c) && f.tail == ""
    ensures Recs(c, Append(f, c.enc(r))) == Recs(c, f) + [r]
  {
    DecodeSnoc(c, f.lines, c.enc(r));
    assert "" + c.enc(r) == c.enc(r);
  }

  /** At a line boundary a torn append adds nothing, or its record when only the line feed is missing; cut inside a
      character it makes the file unreadable. */
  lemma {:induction false} TornReads<R(!new)>(c: Codec<R>, f: File, r: R, n: nat, inside: bool)
    requires Lawful(c) && f.tail == "" && n <= |c.enc(r)|
    ensures Recs(c, Torn(f, c.enc(r), n, inside)) == if n == |c.enc(r)| then Recs(c, f) + [r] else Recs(c, f)
    ensures ReadBack(c, Torn(f, c.enc(r), n, inside)).None? <==> f.broken || Splits(c.enc(r), n, inside)
  {
    assert "" + c.enc(r)[..n] == c.enc(r)[..n];
    assert c.enc(r)[..|c.enc(r)|] == c.enc(r);
    DecodeSnoc(c, f.lines, c.enc(r)[..n]);
  }

  // ---- a file as its readable records -----------------------------------------------------------

  /** How a file ends: after a line feed; behind characters that read as nothing; behind a record without its line
      feed, which reads but is not safe yet. Or a character in it was cut short, and it does not decode. */
  datatype Tail = Clean | Cut | Whole | Broken

  /** A file as its readable records. */
  datatype Log<R> = Log(recs: seq<R>, tail: Tail)

  function ButLast<R>(recs: seq<R>): seq<R> {
    if recs == [] then [] else recs[..|recs| - 1]
  }

  /** The records that nothing appended later can spoil. */
  function Safe<R>(l: Log<R>): seq<R> {
    if l.tail.Whole? then ButLast(l.recs) else l.recs
  }

  /** An append ends the line it lands on. On anything but a line start it is lost, and so is a record that stood
      there without its line feed. */
  function Added<R>(l: Log<R>, r: R): Log<R> {
    if l.tail.Broken? then l else Log(if l.tail.Clean? then l.recs + [r] else Safe(l), Clean)
  }

  /** An append of `line` that got as far as character `n`, or into it. */
  function AddedTorn<R>(l: Log<R>, r: R, line: string, n: nat, inside: bool): Log<R> {
    if l.tail.Broken? || Splits(line, n, inside) then Log([], Broken)
    else if n == 0 then l
    else if !l.tail.Clean? then Log(Safe(l), Cut)
    else if n < |line| then Log(l.recs, Cut)
    else Log(l.recs + [r], Whole)
  }

  /** The text of a file and its view. */
  ghost predicate Reads<R(!new)>(c: Codec<R>, f: File, l: Log<R>) {
    match l.tail
    case Broken => f.broken && l.recs == []
    case Clean => !f.broken && f.tail == "" && Decode(c, f.lines) == l.recs
    case Cut => !f.broken && Glued(c, f.tail) && c.dec(f.tail) == None && Decode(c, f.lines) == l.recs
    case Whole => !f.broken && exists r :: f.tail == c.enc(r) && Decode(c, f.lines) + [r] == l.recs
  }

  lemma {:induction false} GluedMore<R(!new)>(c: Codec<R>, s: string, t: string)
    requires Glued(c, s) && IsPart(c, t)
    ensures Glued(c, s + t)
  {
    assert (s + t)[..|s|] == s && (s + t)[|s|..] == t;
    assert s != "";
  }

  lemma {:induction false} PartOf<R(!new)>(c: Codec<R>, r: R, n: nat)
    requires 0 < n <= |c.enc(r)|
    ensures IsPart(c, c.enc(r)[..n])
  {
    assert c.enc(r)[..n] <= c.enc(r);
  }

  lemma {:induction false} WholeIsPart<R(!new)>(c: Codec<R>, r: R)
    requires Lawful(c)
    ensures c.enc(r) != "" && IsPart(c, c.enc(r)) && Glued(c, c.enc(r))
  {
    PartOf(c, r, |c.enc(r)|);
    assert c.enc(r)[..|c.enc(r)|] == c.enc(r);
  }

  /** The view's records are what the file reads as. */
  lemma {:induction false} ReadsRecs<R(!new)>(c: Codec<R>, f: File, l: Log<R>)
    requires Lawful(c) && Reads(c, f, l)
    ensures ReadBack(c, f) == if l.tail.Broken? then None else Some(l.recs)
    ensures !f.broken ==> Decode(c, f.lines) == Safe(l) && (f.tail == "" <==> l.tail.Clean?)
    ensures !f.broken && f.tail != "" ==> Glued(c, f.tail)
  {
    hide Decode, Glued;
    DecodeSnoc(c, f.lines, f.tail);
    if l.tail.Whole? {
      var r :| f.tail == c.enc(r) && Decode(c, f.lines) + [r] == l.recs;
      WholeIsPart(c, r);
      assert ButLast(l.recs) == Decode(c, f.lines);
      assert Recs(c, f) == l.recs;
    } else if l.tail.Cut? {
      GluedNotEmpty(c, f.tail);
      assert l.recs + [] == l.recs;
    } else if l.tail.Clean? {
      assert Recs(c, f) == l.recs;
    }
  }

  lemma {:induction false} GluedNotEmpty<R(!new)>(c: Codec<R>, s: string)
    requires Glued(c, s)
    ensures s != ""
  {
  }

  lemma {:induction false} AddedReads<R(!new)>(c: Codec<R>, f: File, l: Log<R>, r: R)
    requires Lawful(c) && Reads(c, f, l)
    ensures Reads(c, Append(f, c.enc(r)), Added(l, r))
  {
    hide Decode, Glued, IsPart;
    ReadsRecs(c, f, l);
    DecodeSnoc(c, f.lines, f.tail + c.enc(r));
    WholeIsPart(c, r);
    if f.tail == "" {
      assert f.tail + c.enc(r) == c.enc(r);
    }
  }

  lemma {:induction false} AddedTornReads<R(!new)>(c: Codec<R>, f: File, l: Log<R>, r: R, n: nat, inside: bool)
    requires Lawful(c) && Reads(c, f, l) && n <= |c.enc(r)|
    ensures Reads(c, Torn(f, c.enc(r), n, inside), AddedTorn(l, r, c.enc(r), n, inside))
  {
    hide Decode, Glued, IsPart;
    ReadsRecs(c, f, l);
    var part := c.enc(r)[..n];
    if n == 0 {
      assert f.tail + part == f.tail;
    } else if !f.broken {
      PartOf(c, r, n);
      if f.tail == "" {
        assert f.tail + part == part;
        if n == |c.enc(r)| {
          assert part == c.enc(r);
        } else {
          PartIsGlued(c, part);
        }
      } else {
        GluedMore(c, f.tail, part);
      }
    }
  }

  lemma {:induction false} PartIsGlued<R(!new)>(c: Codec<R>, s: string)
    requires IsPart(c, s)
    ensures Glued(c, s)
  {
  }

  lemma {:induction false} RewrittenReads<R(!new)>(c: Codec<R>, recs: seq<R>)
    requires Lawful(c)
    ensures Reads(c, File(Encode(c, recs), "", false), Log(recs, Clean))
  {
    DecodeEncode(c, recs);
  }

  lemma {:induction false} EncodeNothing<R(!new)>(c: Codec<R>)
    ensures Encode(c, []) == []
  {
  }

  lemma {:induction false} SafeAreRecs<R(!new)>(l: Log<R>)
    ensures forall r :: r in Safe(l) ==> r in l.recs
  {
  }

  lemma {:induction false} AddedKeeps<R(!new)>(l: Log<R>, q: R, line: string, n: nat, inside: bool, r: R)
    requires r in Safe(l)
    ensures r in Safe(Added(l, q))
    ensures var t := AddedTorn(l, q, line, n, inside); t.tail.Broken? || r in Safe(t)
  {
    SafeAreRecs(l);
    assert r in l.recs + [q];
    assert ButLast(l.recs + [q]) == l.recs;
  }
}
