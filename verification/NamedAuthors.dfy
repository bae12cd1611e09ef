/** Authors and items that are called like a kind: the check counts them as returns. */
module NamedAuthors {
  import opened Options
  import opened Text
  import opened Normalise
  import opened ReturnKinds
  import opened Blanking
  import opened ReturnReasons
  import opened ReasonPlaces
  import opened ReturnAgreement

  /** A token spelled in ASCII, in whatever case. */
  predicate PlainToken(s: string, t: nat) {
    TokenAt(s, t).Some? && Plain(s, TokenAt(s, t).value)
  }

  // ---- no span of a reason that names no kind takes such a token ------------------------------------

  lemma {:induction false} StepWord(a: string, b: Traced, c: char, i: int, j: int, at: seq<int>)
    requires b.text != []
    ensures Step(Traced(a + b.text, at), c, i).text == a + Step(b, c, j).text && Step(b, c, j).text != []
  {
  }

  lemma {:induction false} FirstLetterFed(o: Traced, c: char, i: int)
    requires Shows(c)
    ensures Feed(Traced([], []), c, 0).text != []
    ensures Feed(o, c, i).text == o.text + Feed(Traced([], []), c, 0).text
  {
  }

  /** What starts with a letter or digit is normalised as if it stood alone. */
  lemma {:induction false} WordAppends(a: string, b: string)
    requires b != [] && Shows(b[0])
    ensures Trace(b).text != [] && Trace(a + b).text == Trace(a).text + Trace(b).text
    decreases |b|
  {
    hide Trace, Step, Shows;
    var front, c := b[..|b| - 1], b[|b| - 1];
    assert b == front + [c] && a + b == (a + front) + [c];
    TraceSnoc(front, c);
    TraceSnoc(a + front, c);
    if front == [] {
      TraceNothing();
      assert a + front == a;
      FirstLetterFed(Trace(a), c, |a|);
    } else {
      WordAppends(a, front);
      var x, y, low := Trace(a + front), Trace(front), Lower(c);
      StepWord(Trace(a).text, y, low[0], |a + front|, |front|, x.at);
      if |low| == 2 {
        var x', y' := Step(x, low[0], |a + front|), Step(y, low[0], |front|);
        StepWord(Trace(a).text, y', low[1], |a + front|, |front|, x'.at);
      }
    }
  }

  lemma {:induction false} LowerName(part: string, w: string)
    requires |part| == |w| && forall i :: 0 <= i < |w| ==> Lower(part[i]) == [w[i]] == Lower(w[i])
    ensures LowerAll(part) == LowerAll(w)
  {
    hide Lower;
    if part != [] {
      LowerName(part[..|part| - 1], w[..|w| - 1]);
    }
  }

  lemma {:induction false} PlainLower(c: char, w: char)
    requires c as int < 128 && Folded(c) == w && ('a' <= w <= 'z' || w == '-')
    ensures Lower(c) == [w] == Lower(w)
  {
  }

  /** A plain token normalises like its name. */
  lemma {:induction false} TokenNormalises(s: string, t: nat)
    requires PlainToken(s, t)
    ensures var m := TokenAt(s, t).value;
      t == m.start < m.end <= |s| && Shows(s[t]) && NormText(s[t..m.end]) == NormText(Name(m.kind))
  {
    hide KindAt, Name, Lower, Folded, LowerAll, Shows;
    TokenEnds(s, t);
    NameEndsShow(s, t);
    var m := TokenAt(s, t).value;
    var part, w := s[t..m.end], Name(m.kind);
    KindIff(s, t, m.kind);
    NameLetters(m.kind);
    forall i | 0 <= i < |w| ensures Lower(part[i]) == [w[i]] == Lower(w[i]) {
      assert part[i] == s[t + i] && Folded(s[t + i]) == w[i];
      PlainLower(part[i], w[i]);
    }
    LowerName(part, w);
  }

  lemma {:induction false} WordWithin(x: string, part: string, y: string)
    requires part != [] && Shows(part[0]) && NormText(part) != []
    ensures Within(NormText(x + part + y), NormText(part))
  {
    hide Trace, NormText, Shows;
    var s, q, n := x + part + y, |Trace(x).text|, NormText(part);
    WordAppends(x, part);
    assert s[..|x + part|] == x + part;
    TraceGrows(s, |x + part|);
    NormIsTrace(s);
    NormIsTrace(part);
    var t, whole := Trace(s).text, NormText(s);
    assert n <= Trace(part).text;
    assert t[q..q + |n|] == n;
    assert t[q + |n| - 1] == n[|n| - 1];
    assert whole[q..q + |n|] == n;
    assert StandsAt(whole, n, q);
  }

  lemma {:induction false} TokenInQuote(red: string, reason: string, span: Span, t: nat)
    requires Quotes(red, reason, span) && PlainToken(red, t)
    requires span.start <= t && TokenAt(red, t).value.end <= span.end
    ensures !Unnamed(reason)
  {
    hide TokenAt, Entries, Tokens, KindAt, Name, Variants, NormText, ContextOf, Whole, Plain, Shows, Lower;
    TokenNormalises(red, t);
    var m := TokenAt(red, t).value;
    NameNormalises(m.kind);
    var x, part, y := red[span.start..t], red[t..m.end], red[m.end..span.end];
    assert red[span.start..span.end] == x + part + y;
    WordWithin(x, part, y);
    var v, needle := NormText(red[span.start..span.end]), NormText(Name(m.kind));
    VariantsAreFronts(reason, v);
    var i :| 0 <= i <= |v| && StandsAt(v, needle, i);
    assert NormText(reason)[i..i + |needle|] == v[i..i + |needle|];
    assert StandsAt(NormText(reason), needle, i);
  }

  ghost predicate AllUnnamed(rets: seq<Ret>) {
    forall j :: 0 <= j < |rets| ==> Unnamed(rets[j].reason)
  }

  /** So no span meets one. */
  lemma {:induction false} TokenUntouched(red: string, rets: seq<Ret>, t: nat)
    requires AllUnnamed(rets) && PlainToken(red, t)
    ensures forall s :: s in SpansOf(red, rets) ==> !Meets(s, t, TokenAt(red, t).value.end) && s.start < s.end
  {
    hide TokenAt, Tokens, Entries, Normed, Choice, Taken, Sorted, Ascending, Unnamed, Variants, NormText, Plain;
    var choice, m := Choice(ContextOf(red), rets), TokenAt(red, t).value;
    TokenEnds(red, t);
    TokenAmong(red, 0, t);
    assert m in ContextOf(red).kept;
    ChoiceIsSound(red, rets);
    SortedAscends(Taken(choice), |red|);
    forall s | s in SpansOf(red, rets) ensures !Meets(s, t, m.end) && s.start < s.end {
      TakenFrom(choice, s);
      var j :| 0 <= j < |choice| && choice[j] == Some(s);
      assert Quotes(red, rets[j].reason, s) && Unnamed(rets[j].reason);
      if Meets(s, t, m.end) {
        TokenInQuote(red, rets[j].reason, s, t);
      }
    }
  }

  lemma {:induction false} TokenAmong(s: string, i: nat, p: nat)
    requires i <= p && TokenAt(s, p).Some?
    ensures TokenAt(s, p).value in Tokens(s, i)
    decreases p - i
  {
    hide TokenAt;
    TokenEnds(s, p);
    if i < p {
      TokenAmong(s, i + 1, p);
    }
  }

  // ---- a token that no span meets is a token of what is left ----------------------------------------

  ghost predicate Uncovered(spans: seq<Span>, i: int) {
    forall s :: s in spans ==> i < s.start || s.end <= i
  }

  /** What stands before a character that stays: a blank, or what stood there. */
  lemma {:induction false} BeforeKept(red: string, spans: seq<Span>, i: nat)
    requires Ascending(spans, |red|) && i < |red| && Uncovered(spans, i)
    ensures 0 <= Moved(spans, i) < |Blanked(red, spans)|
    ensures var x := Moved(spans, i);
      x > 0 ==> Blanked(red, spans)[x - 1] == ' ' || (i > 0 && Blanked(red, spans)[x - 1] == red[i - 1])
    decreases |spans|
  {
    Survives(red, spans, i);
    if spans != [] {
      var front, last := spans[..|spans| - 1], spans[|spans| - 1];
      assert last in spans;
      BlankedLength(red[..last.start], front);
      var a := Blanked(red[..last.start], front);
      if i < last.start {
        BeforeKept(red[..last.start], front, i);
        assert Blanked(red, spans)[..|a|] == a;
      } else {
        assert Blanked(red, spans)[|a| + |BLANK|..] == red[last.end..];
        assert Blanked(red, spans)[|a| + |BLANK| - 1] == BLANK[|BLANK| - 1];
      }
    }
  }

  /** And what stands behind it. */
  lemma {:induction false} AfterKept(red: string, spans: seq<Span>, i: nat)
    requires Ascending(spans, |red|) && i < |red| && Uncovered(spans, i)
    ensures 0 <= Moved(spans, i) < |Blanked(red, spans)|
    ensures var x := Moved(spans, i) + 1;
      x < |Blanked(red, spans)| ==>
        Blanked(red, spans)[x] == ' ' || (i + 1 < |red| && Blanked(red, spans)[x] == red[i + 1])
    decreases |spans|
  {
    Survives(red, spans, i);
    if spans != [] {
      var front, last := spans[..|spans| - 1], spans[|spans| - 1];
      assert last in spans;
      BlankedLength(red[..last.start], front);
      var a := Blanked(red[..last.start], front);
      if i < last.start {
        AfterKept(red[..last.start], front, i);
        assert Blanked(red, spans)[..|a|] == a;
        assert Blanked(red, spans)[|a|] == BLANK[0];
      } else {
        assert Blanked(red, spans)[|a| + |BLANK|..] == red[last.end..];
      }
    }
  }

  lemma {:induction false} SpelledThere(s: string, p: nat, v: string, q: nat, k: Kind)
    requires KindAt(s, p) == Some(k) && p + |Name(k)| <= |s| && q + |Name(k)| <= |v|
    requires s[p..p + |Name(k)|] == v[q..q + |Name(k)|]
    ensures KindAt(v, q) == Some(k)
  {
    hide KindAt, Name, Folded;
    KindIff(s, p, k);
    KindIff(v, q, k);
    forall i | 0 <= i < |Name(k)| ensures Folded(v[q + i]) == Name(k)[i] {
      assert s[p..p + |Name(k)|][i] == v[q..q + |Name(k)|][i];
      assert Folded(s[p + i]) == Name(k)[i];
    }
  }

  lemma {:induction false} TokenSurvives(red: string, spans: seq<Span>, t: nat)
    requires Ascending(spans, |red|) && TokenAt(red, t).Some?
    requires forall s :: s in spans ==> !Meets(s, t, TokenAt(red, t).value.end) && s.start < s.end
    ensures 0 <= Moved(spans, t) && TokenAt(Blanked(red, spans), Moved(spans, t)).Some?
  {
    hide KindAt, Name, Wordy, Ascending, Moved, Blanked;
    TokenEnds(red, t);
    var m, at, out := TokenAt(red, t).value, Moved(spans, t), Blanked(red, spans);
    RangeSurvives(red, spans, t, m.end);
    SpelledThere(red, t, out, at, m.kind);
    BeforeKept(red, spans, t);
    AfterKept(red, spans, m.end - 1);
    MovesTogether(spans, |red|, t, m.end - 1);
    FoldedSpace();
  }

  // ---- counting tokens ------------------------------------------------------------------------------

  /** Where tokens start. */
  ghost function Starts(s: string, i: nat): (starts: set<nat>)
    ensures forall p: nat :: p in starts <==> i <= p < |s| && TokenAt(s, p).Some?
    decreases |s| - i
  {
    if i >= |s| then {}
    else (if TokenAt(s, i).Some? then {i} else {}) + Starts(s, i + 1)
  }

  lemma {:induction false} StartsCount(s: string, i: nat)
    ensures |Starts(s, i)| == |Tokens(s, i)|
    decreases |s| - i
  {
    hide TokenAt;
    if i < |s| {
      StartsCount(s, i + 1);
      assert i !in Starts(s, i + 1);
    }
  }

  lemma {:induction false} ImageFits(a: set<nat>, b: set<nat>, f: nat -> int)
    requires forall x :: x in a ==> f(x) >= 0 && f(x) as nat in b
    requires forall x, y :: x in a && y in a && x != y ==> f(x) != f(y)
    ensures |a| <= |b|
    decreases a
  {
    if a != {} {
      var x :| x in a;
      ImageFits(a - {x}, b - {f(x) as nat}, f);
    }
  }

  lemma {:induction false} TimesSum(ks: seq<Kind>)
    ensures Times(ks, TesterFail) + Times(ks, ReviewerRequeue) + Times(ks, DeveloperRequeue) + Times(ks, ReviewerReject)
      == |ks|
  {
    if ks != [] {
      TimesSum(ks[..|ks| - 1]);
    }
  }

  lemma {:induction false} CountsOnlyOff(kinds: seq<Kind>, named: seq<Kind>, have: seq<Kind>, k: Kind)
    requires CountsOff(kinds, named, have) == [] && k in kinds
    ensures Times(named, k) == Times(have, k)
  {
    hide Times;
    var front, last := kinds[..|kinds| - 1], kinds[|kinds| - 1];
    assert kinds == front + [last];
    if k != last {
      CountsOnlyOff(front, named, have, k);
    }
  }

  /** Another number of tokens than of returns is found. */
  lemma {:induction false} MoreTokensAreOff(named: seq<Kind>, have: seq<Kind>)
    requires |named| != |have|
    ensures CountsOff(KINDS, named, have) != []
  {
    hide Times, CountsOff;
    if CountsOff(KINDS, named, have) == [] {
      CountsOnlyOff(KINDS, named, have, TesterFail);
      CountsOnlyOff(KINDS, named, have, ReviewerRequeue);
      CountsOnlyOff(KINDS, named, have, DeveloperRequeue);
      CountsOnlyOff(KINDS, named, have, ReviewerReject);
      TimesSum(named);
      TimesSum(have);
    }
  }

  // ---- the printed names --------------------------------------------------------------------------

  /** The list with all that stands behind its kinds covered. */
  function DottedPieces(ps: seq<Piece>): (qs: seq<Piece>)
    ensures |qs| == |ps| && forall i :: 0 <= i < |ps| ==> qs[i] == Piece(ps[i].kind, Dots(|ps[i].rest|))
  {
    seq(|ps|, i requires 0 <= i < |ps| => Piece(ps[i].kind, Dots(|ps[i].rest|)))
  }

  ghost function Dotted(rets: seq<Ret>, own: string): string {
    TextOf(DottedPieces(Pieces(rets, own)))
  }

  lemma {:induction false} DottedNames(rets: seq<Ret>, own: string)
    ensures Framed(Dotted(rets, own)) && |Starts(Dotted(rets, own), 0)| == |rets|
    ensures Veils(Dotted(rets, own), Red(rets, own))
  {
    hide Clear, Framed, TextOf, Lead, Quoted, Named, Tokens, Starts;
    var ps := Pieces(rets, own);
    var qs, v := DottedPieces(ps), Dotted(rets, own);
    forall i | 0 <= i < |qs| ensures Clear(qs[i].rest) {
      NoHyphenIsClear(qs[i].rest);
    }
    TextNames(qs);
    FramedTokens(v, 0);
    StartsCount(v, 0);
    RedIsText(rets, own);
    VeilsText(qs, ps);
  }

  /** A name on the covered list is a plain token of the list. */
  lemma {:induction false} DottedToken(rets: seq<Ret>, own: string, t: nat)
    requires t in Starts(Dotted(rets, own), 0)
    ensures t < |Dotted(rets, own)| && Dotted(rets, own)[t] != '.' && PlainToken(Red(rets, own), t)
  {
    hide KindAt, Name, EntryAt, Red, Dotted, Veils;
    var v, red := Dotted(rets, own), Red(rets, own);
    DottedNames(rets, own);
    assert TokenAt(v, t).Some?;
    assert Headed(v, t);
    var p: nat :| 1 <= p < t && HeadedBy(v, p, t);
    VeiledEntry(v, red, p, t);
    var q := EntryHasShape(v, p);
    HeadedIsToken(red, t);
    HeadedIsPlain(red, p, t);
  }

  lemma {:induction false} HeadedIsPlain(s: string, p: nat, t: nat)
    requires HeadedBy(s, p, t) && TokenAt(s, t).Some?
    ensures Plain(s, TokenAt(s, t).value)
  {
    hide KindAt, Name, EntryAt, Wordy;
    var q := EntryHasShape(s, p);
    TokenEnds(s, t);
    var m := TokenAt(s, t).value;
    NameLetters(m.kind);
    forall i | m.start <= i < m.end ensures s[i] as int < 128 {
      assert s[i] == s[m.start..m.end][i - m.start];
    }
  }

  /** One plain token behind a kind is one token too many. */
  lemma {:induction false} ExtraTokenIsCounted(rets: seq<Ret>, own: string, t: nat)
    requires AllUnnamed(rets) && PlainToken(Red(rets, own), t)
    requires t < |Dotted(rets, own)| && Dotted(rets, own)[t] == '.'
    ensures |Tokens(WithoutReasons(Red(rets, own), rets), 0)| > |rets|
  {
    hide Red, Dotted, PlainToken, Starts, TokenAt, SpansOf, Blanked, Moved, Ascending, Unnamed, Tokens;
    var red, spans := Red(rets, own), SpansOf(Red(rets, own), rets);
    var scan, heads := WithoutReasons(red, rets), Starts(Dotted(rets, own), 0);
    DottedNames(rets, own);
    forall x | x in heads + {t} ensures PlainToken(red, x) {
      if x in heads {
        DottedToken(rets, own, x);
      }
    }
    if t in heads {
      DottedToken(rets, own, t);
    }
    TokensMove(red, rets, heads + {t});
    StartsCount(scan, 0);
  }

  /** Plain tokens stay apart and stay tokens. */
  lemma {:induction false} TokensMove(red: string, rets: seq<Ret>, at: set<nat>)
    requires AllUnnamed(rets) && forall x :: x in at ==> PlainToken(red, x)
    ensures |at| <= |Starts(WithoutReasons(red, rets), 0)|
  {
    hide TokenAt, SpansOf, Blanked, Moved, Ascending, Unnamed, Starts, Plain;
    var spans, scan := SpansOf(red, rets), WithoutReasons(red, rets);
    forall x | x in at
      ensures Moved(spans, x) >= 0 && Moved(spans, x) as nat in Starts(scan, 0) && Uncovered(spans, x)
    {
      TokenEnds(red, x);
      TokenUntouched(red, rets, x);
      TokenSurvives(red, spans, x);
      TokenInRange(scan, Moved(spans, x));
    }
    forall x, y | x in at && y in at && x != y ensures Moved(spans, x) != Moved(spans, y) {
      if x < y {
        MovesInOrder(spans, |red|, x, y);
      } else {
        MovesInOrder(spans, |red|, y, x);
      }
    }
    ImageFits(at, Starts(scan, 0), (i: nat) => Moved(spans, i));
  }

  lemma {:induction false} TokenInRange(s: string, p: nat)
    requires TokenAt(s, p).Some?
    ensures p in Starts(s, 0)
  {
    TokenEnds(s, p);
  }

  // ---- authors and items --------------------------------------------------------------------------

  /** A token of a part is a token of the whole where no letter stands beside the part. */
  lemma {:induction false} TokenInPart(s: string, at: nat, b: string, u: nat)
    requires at + |b| <= |s| && s[at..at + |b|] == b && PlainToken(b, u)
    requires (at > 0 ==> !Wordy(s[at - 1])) && (at + |b| < |s| ==> !Wordy(s[at + |b|]))
    ensures u < |b| && PlainToken(s, at + u)
  {
    hide KindAt, Name, Wordy, TokenAt;
    TokenEnds(b, u);
    SameThere(s, at, b);
    TokenMoves(s, at, b, u);
    var m := TokenAt(b, u).value;
    forall i | at + u <= i < at + m.end ensures s[i] as int < 128 {
      assert s[at + (i - at)] == b[i - at];
    }
  }

  lemma {:induction false} TokenMoves(s: string, at: nat, b: string, u: nat)
    requires at + |b| <= |s| && s[at..at + |b|] == b && TokenAt(b, u).Some?
    requires (at > 0 ==> !Wordy(s[at - 1])) && (at + |b| < |s| ==> !Wordy(s[at + |b|]))
    ensures var m := TokenAt(b, u).value;
      m.start == u && TokenAt(s, at + u) == Some(Match(at + u, at + u, at + m.end, m.kind))
  {
    hide KindAt, Name, Wordy;
    var k := TokenAt(b, u).value.kind;
    var end := u + |Name(k)|;
    CoversWord(b, u, u);
    SameThere(s, at, b);
    assert s[at + u..at + end] == b[u..end];
    SpelledThere(b, u, s, at + u, k);
    if u > 0 {
      assert s[at + (u - 1)] == b[u - 1];
    }
    if end < |b| {
      assert s[at + end] == b[end];
    }
  }

  /** A token between the kind and the reason. */
  lemma {:induction false} TokenInLead(rets: seq<Ret>, own: string, j: nat, at: nat, part: string, u: nat)
    requires j < |rets| && at + |part| < |Lead(rets[j], own)| && PlainToken(part, u)
    requires Lead(rets[j], own)[at..at + |part|] == part
    requires 0 < at && Lead(rets[j], own)[at - 1] == ' ' && !Wordy(Lead(rets[j], own)[at + |part|])
    requires AllUnnamed(rets)
    ensures |Tokens(WithoutReasons(Red(rets, own), rets), 0)| > |rets|
  {
    hide Lead, Quoted, TextOf, RestAt, PlainToken, Unnamed, Red, Wordy, Tokens;
    var ps, qs, lead := Pieces(rets, own), DottedPieces(Pieces(rets, own)), Lead(rets[j], own);
    RedIsText(rets, own);
    RestFollowed(ps, j);
    var s, start, rest := TextOf(ps), RestAt(ps, j), ps[j].rest;
    forall i | 0 <= i < |lead| ensures s[start + i] == lead[i] {
      assert s[start..start + |rest|][i] == rest[i];
    }
    FoldedSpace();
    PartThere(s, start, lead, at, part);
    TokenInPart(s, start + at, part, u);
    forall i | 0 <= i < |ps| ensures Veils(qs[i].rest, ps[i].rest) {
    }
    SameRestAt(qs, ps, j);
    RestFollowed(qs, j);
    assert |rest| == |lead| + |Quoted(rets[j])| && |qs[j].rest| == |rest|;
    assert Dotted(rets, own)[start..start + |rest|] == qs[j].rest;
    assert qs[j].rest[at + u] == '.';
    ExtraTokenIsCounted(rets, own, start + at + u);
  }

  lemma {:induction false} PartThere(s: string, start: nat, lead: string, at: nat, part: string)
    requires start + |lead| <= |s| && forall i :: 0 <= i < |lead| ==> s[start + i] == lead[i]
    requires at + |part| <= |lead| && lead[at..at + |part|] == part
    ensures s[start + at..start + at + |part|] == part
  {
    forall i | 0 <= i < |part| ensures s[start + at + i] == part[i] {
      assert s[start + (at + i)] == lead[at + i] == lead[at..at + |part|][i];
    }
  }

  lemma {:induction false} AuthorInLead(r: Ret, own: string) returns (at: nat)
    ensures 0 < at && at + |r.who| < |Lead(r, own)| && Lead(r, own)[at..at + |r.who|] == r.who
    ensures Lead(r, own)[at - 1] == ' ' && Lead(r, own)[at + |r.who|] == ':'
  {
    hide OnText, AtText;
    var l := OnText(r, own) + AtText(r) + " by ";
    assert l[|l| - 1] == ' ' && |l| >= 4;
    at := |l| - 1;
    assert Lead(r, own) == l[1..] + r.who + ": ";
  }

  lemma {:induction false} ItemInLead(r: Ret, own: string) returns (at: nat)
    requires r.item != own
    ensures 0 < at && at + |r.item| < |Lead(r, own)| && Lead(r, own)[at..at + |r.item|] == r.item
    ensures Lead(r, own)[at - 1] == ' ' && Lead(r, own)[at + |r.item|] == ' '
  {
    hide Decimal;
    var c := AtText(r) + " by ";
    assert c[0] == ' ';
    at := 3;
    var l := OnText(r, own) + AtText(r) + " by ";
    assert l == " on " + r.item + c;
    assert l[1..] == "on " + r.item + c;
    assert Lead(r, own) == "on " + r.item + (c + r.who + ": ");
  }

  /** An author or a printed item that holds a kind's name as a word. */
  predicate NamesAKind(r: Ret, own: string, u: nat) {
    PlainToken(r.who, u) || (r.item != own && PlainToken(r.item, u))
  }

  /** When no reason names a kind, the check turns down every list in which an author or a printed item does. */
  lemma {:induction false} NamedAuthorIsCounted(rets: seq<Ret>, own: string, j: nat, u: nat)
    requires AllUnnamed(rets) && j < |rets| && NamesAKind(rets[j], own, u)
    ensures Checked(Red(rets, own), rets) != Findings([])
  {
    hide Red, WithoutReasons, Tokens, Entries, MissingReasons, AllPlain, CountsOff, PlainToken, Lead, Unnamed, Wordy;
    var r := rets[j];
    NoWordBeside();
    if PlainToken(r.who, u) {
      var at := AuthorInLead(r, own);
      TokenInLead(rets, own, j, at, r.who, u);
    } else {
      var at := ItemInLead(r, own);
      TokenInLead(rets, own, j, at, r.item, u);
    }
    MoreTokensAreOff(Kinds(Tokens(WithoutReasons(Red(rets, own), rets), 0)), RetKinds(rets));
  }

  lemma {:induction false} NoWordBeside()
    ensures !Wordy(' ') && !Wordy(':')
  {
  }

  /** Every kind named in `s` stands there as a word of its own, in ASCII. */
  ghost predicate NamesAreWords(s: string) {
    forall t: nat :: KindAt(s, t).Some? ==> PlainToken(s, t)
  }

  ghost predicate AllTame(rets: seq<Ret>) {
    forall j :: 0 <= j < |rets| ==> Tame(rets[j].reason)
  }

  ghost predicate NobodyNamed(rets: seq<Ret>, own: string) {
    forall j :: 0 <= j < |rets| ==> Clear(rets[j].who) && ClearItem(rets[j], own)
  }

  /** When no reason names a kind, a printed list is accepted exactly when no author and no printed item does. */
  lemma {:induction false} AcceptedIffNobodyNamed(rets: seq<Ret>, own: string)
    requires AllTame(rets)
    requires forall j :: 0 <= j < |rets| ==>
      NamesAreWords(rets[j].who) && (rets[j].item != own ==> NamesAreWords(rets[j].item))
    ensures Checked(Red(rets, own), rets) == Findings([]) <==> NobodyNamed(rets, own)
  {
    hide Red, Checked, PlainToken, KindAt, Unnamed, StaysHome;
    if NobodyNamed(rets, own) {
      PrinterAndCheckerAgree(rets, own);
    } else {
      var j :| 0 <= j < |rets| && !(Clear(rets[j].who) && ClearItem(rets[j], own));
      var u := NameWithin(rets[j], own);
      NamedAuthorIsCounted(rets, own, j, u);
    }
  }

  lemma {:induction false} NameWithin(r: Ret, own: string) returns (u: nat)
    requires NamesAreWords(r.who) && (r.item != own ==> NamesAreWords(r.item))
    requires !(Clear(r.who) && ClearItem(r, own))
    ensures NamesAKind(r, own, u)
  {
    hide PlainToken, KindAt;
    if !Clear(r.who) {
      u :| KindAt(r.who, u).Some?;
    } else {
      u :| KindAt(r.item, u).Some?;
    }
  }
}
