/** A reason that quotes a printed entry: the search finds the entry before the quotation. */
module QuotedEntry {
  import opened Options
  import opened Text
  import opened Normalise
  import opened ReturnKinds
  import opened Blanking
  import opened ReturnReasons
  import opened ReasonPlaces
  import opened ReturnAgreement

  /** Entry `n` as it is printed, without the spaces around it. */
  function Quotation(n: nat, k: Kind): string {
    Decimal(n) + ") " + Name(k)
  }

  lemma {:induction false} QuotationSpelled(n: nat, k: Kind)
    ensures EntryText(n, k) == " " + Quotation(n, k) + " "
    ensures var q, d := Quotation(n, k), |Decimal(n)|;
      && 0 < d && |q| == d + 2 + |Name(k)| && (forall i :: 0 <= i < d ==> IsDigit(q[i])) && q[d] == ')'
      && q[d + 1] == ' ' && q[d + 2..] == Name(k)
  {
    hide Decimal, Name;
    DecimalIsDigits(n);
    DecimalLength(n);
    var d := Decimal(n);
    assert EntryText(n, k) == " " + (d + ") " + Name(k)) + " ";
    forall i | 0 <= i < |d| ensures IsDigit(Quotation(n, k)[i]) {
      assert Quotation(n, k)[i] == d[i];
    }
  }

  // ---- the list in parts ------------------------------------------------------------------------------

  /** Pieces numbered on from `base`. */
  function Chain(ps: seq<Piece>, base: nat): string {
    if ps == [] then "" else Chain(ps[..|ps| - 1], base) + PieceText(base + |ps|, ps[|ps| - 1])
  }

  lemma {:induction false} BodySplit(ps: seq<Piece>, i: nat)
    requires i <= |ps|
    ensures Body(ps) == Body(ps[..i]) + Chain(ps[i..], i)
    decreases |ps|
  {
    hide EntryText;
    if i == |ps| {
      assert ps[..i] == ps && ps[i..] == [];
    } else {
      var front := ps[..|ps| - 1];
      BodySplit(front, i);
      assert front[..i] == ps[..i] && ps[i..][..|ps| - i - 1] == front[i..];
    }
  }

  lemma {:induction false} ChainHead(ps: seq<Piece>, base: nat)
    requires ps != []
    ensures Chain(ps, base) == PieceText(base + 1, ps[0]) + Chain(ps[1..], base + 1)
    decreases |ps|
  {
    hide PieceText;
    var front, last := ps[..|ps| - 1], ps[|ps| - 1];
    if front == [] {
      assert ps[1..] == [];
    } else {
      ChainHead(front, base);
      assert ps[1..][..|ps| - 2] == front[1..];
    }
  }

  lemma {:induction false} ChainSnoc(ps: seq<Piece>, base: nat)
    requires ps != []
    ensures Chain(ps, base) == Chain(ps[..|ps| - 1], base) + PieceText(base + |ps|, ps[|ps| - 1])
  {
    hide PieceText;
  }

  lemma {:induction false} ChainNames(ps: seq<Piece>, base: nat)
    requires ClearRests(ps)
    ensures Framed(Chain(ps, base)) && Named(Chain(ps, base), 0) == PieceKinds(ps)
    ensures ps != [] ==> Chain(ps, base) != [] && Chain(ps, base)[0] == ' '
  {
    hide Clear, Framed, Named, PieceText, Chain;
    if ps == [] {
      NoChain(base);
      ClearPart("");
      assert PieceKinds(ps) == [];
    } else {
      var front, p := ps[..|ps| - 1], ps[|ps| - 1];
      ChainNames(front, base);
      ChainSnoc(ps, base);
      PieceNamed(base + |ps|, p);
      Join2(Chain(front, base), PieceText(base + |ps|, p));
      NoChain(base);
      assert PieceKinds(ps) == PieceKinds(front) + [p.kind];
    }
  }

  lemma {:induction false} Join2(a: string, b: string)
    requires Framed(a) && Framed(b)
    requires a == [] || b == [] || a[|a| - 1] == ' ' || b[0] == ' ' || b[0] == ':'
    ensures Framed(a + b) && Named(a + b, 0) == Named(a, 0) + Named(b, 0)
  {
    hide Framed, Named, Breaks;
    SpaceBreaks(a, b);
    FramedJoin(a, b);
    NamedJoin(a, b);
  }

  lemma {:induction false} ClearPart(s: string)
    requires '-' !in s
    ensures Framed(s) && Named(s, 0) == []
  {
    hide Framed, Named, Clear;
    NoHyphenIsClear(s);
    ClearIsFramed(s);
    ClearNamesNothing(s);
  }

  /** Two texts that share a space. */
  lemma {:induction false} OverlapJoin(a: string, b: string)
    requires Framed(a + " ") && Framed(" " + b)
    ensures Framed(a + " " + b) && Named(a + " " + b, 0) == Named(a + " ", 0) + Named(" " + b, 0)
  {
    hide Framed, Named, Breaks, Clear;
    SpaceBreaks(a + " ", b);
    NamedJoin(a + " ", b);
    SpaceBreaks(" ", b);
    NamedJoin(" ", b);
    ClearPart(" ");
    OverlapFramed(a, b);
  }

  lemma {:induction false} OverlapFramed(a: string, b: string)
    requires Framed(a + " ") && Framed(" " + b)
    ensures Framed(a + " " + b)
  {
    hide KindAt, Name, EntryAt, Breaks, HeadedBy;
    var s, f, e := a + " " + b, a + " ", " " + b;
    assert a + e == s;
    SpaceBreaks(f, b);
    forall t: nat | KindAt(s, t).Some? ensures Headed(s, t) {
      if t < |f| {
        NoneAcross(f, b, t);
        KindOfFront(f, b, t);
        var p: nat :| 1 <= p < t && HeadedBy(f, p, t);
        HeadedInPart([], f, b, p, t);
        assert [] + f + b == s;
      } else {
        KindOfBack(a, e, t - |a|);
        var p: nat :| 1 <= p < t - |a| && HeadedBy(e, p, t - |a|);
        HeadedInPart(a, e, [], p, t - |a|);
        assert a + e + [] == s;
        assert HeadedBy(s, |a| + p, t);
      }
    }
  }

  // ---- the quoted entry may be blanked ------------------------------------------------------------------

  /** A printed entry with a space on both sides. */
  ghost predicate EntryStands(s: string, at: nat, n: nat, k: Kind) {
    var end := at + |Quotation(n, k)|;
    0 < at && end < |s| && s[at - 1] == ' ' && s[at..end] == Quotation(n, k) && s[end] == ' '
  }

  lemma {:induction false} EntryCharacters(s: string, at: nat, n: nat, k: Kind)
    requires EntryStands(s, at, n, k)
    ensures var d := |Decimal(n)|; var end := at + |Quotation(n, k)|;
      && 0 < d && end == at + d + 2 + |Name(k)| && (forall i :: at <= i < at + d ==> IsDigit(s[i])) && s[at + d] == ')'
      && s[at + d + 1] == ' ' && s[at + d + 2..end] == Name(k)
    ensures forall i :: at <= i < at + |Quotation(n, k)| && s[i] == ')' ==> i == at + |Decimal(n)|
  {
    hide Decimal, Name, IsDigit, Quotation;
    QuotationSpelled(n, k);
    var q, d := Quotation(n, k), |Decimal(n)|;
    SameThere(s, at, q);
    forall i | at <= i < at + d ensures IsDigit(s[i]) {
      assert s[at + (i - at)] == q[i - at];
    }
    assert s[at + (d + 1)] == ' ';
    assert s[at + d + 2..at + |q|] == s[at..at + |q|][d + 2..];
    NameLetters(k);
    forall x | 0 <= x < |q| && x != d ensures q[x] != ')' {
      if x >= d + 2 {
        assert q[x] == q[d + 2..][x - d - 2];
      } else if x < d {
        DigitIsNoBracket(q[x]);
      }
    }
    forall i | at <= i < at + |q| && s[i] == ')' ensures i == at + d {
      assert s[at + (i - at)] == q[i - at];
    }
  }

  lemma {:induction false} DigitIsNoBracket(c: char)
    requires IsDigit(c)
    ensures c != ')'
  {
  }

  lemma {:induction false} StandingIsHeaded(s: string, at: nat, n: nat, k: Kind)
    requires EntryStands(s, at, n, k)
    ensures HeadedBy(s, at, at + |Decimal(n)| + 2)
    ensures EntryAt(s, at).value.end == at + |Quotation(n, k)| && EntryAt(s, at).value.kind == k
  {
    hide KindAt, Name, EntryAt, Wordy, IsDigit, Decimal, Quotation;
    EntryCharacters(s, at, n, k);
    var q, t := at + |Decimal(n)|, at + |Decimal(n)| + 2;
    NameThere(s, t, k);
    FoldedSpace();
    ShapeIsEntry(s, at, q, t, k);
  }

  lemma {:induction false} NameThere(s: string, t: nat, k: Kind)
    requires t + |Name(k)| <= |s| && s[t..t + |Name(k)|] == Name(k)
    ensures KindAt(s, t) == Some(k)
  {
    hide Name, KindAt, Folded;
    KindIff(s, t, k);
    NameLetters(k);
    forall i | 0 <= i < |Name(k)| ensures Folded(s[t + i]) == Name(k)[i] {
      assert s[t..t + |Name(k)|][i] == s[t + i];
      SmallFolded(s[t + i]);
    }
  }

  lemma {:induction false} SmallFolded(c: char)
    requires 'a' <= c <= 'z' || c == '-'
    ensures Folded(c) == c
  {
  }

  /** It cuts no token and no entry. */
  lemma {:induction false} StandingIsWhole(s: string, at: nat, n: nat, k: Kind)
    requires EntryStands(s, at, n, k)
    ensures Whole(Span(at, at + |Quotation(n, k)|), ContextOf(s).kept)
  {
    hide Tokens, Entries, TokenAt, EntryAt, Normed, Quotation;
    var span := Span(at, at + |Quotation(n, k)|);
    forall m | m in ContextOf(s).kept && Meets(span, m.start, m.end)
      ensures span.start <= m.start && m.end <= span.end
    {
      if m in Tokens(s, 0) {
        TokenListed(s, 0, m);
        QuotationSpelled(n, k);
        TokenBetween(s, at, at + |Quotation(n, k)|, m);
      } else {
        EntryListedAt(s, 0, m);
        EntryBetween(s, at, n, k, m.start);
      }
    }
  }

  lemma {:induction false} TokenBetween(s: string, at: nat, end: nat, m: Match)
    requires 0 < at < end < |s| && s[at - 1] == ' ' && s[end] == ' '
    requires TokenAt(s, m.start) == Some(m) && Meets(Span(at, end), m.start, m.end)
    ensures at <= m.start && m.end <= end
  {
    hide KindAt, Name, Wordy;
    FoldedSpace();
    if m.start < at {
      CoversWord(s, m.start, at - 1);
    }
    if m.end > end {
      CoversWord(s, m.start, end);
    }
  }

  lemma {:induction false} EntryBetween(s: string, at: nat, n: nat, k: Kind, p: nat)
    requires EntryStands(s, at, n, k) && EntryAt(s, p).Some?
    requires Meets(Span(at, at + |Quotation(n, k)|), p, EntryAt(s, p).value.end)
    ensures at <= p && EntryAt(s, p).value.end <= at + |Quotation(n, k)|
  {
    hide KindAt, Name, Wordy, EntryAt, IsDigit, IsSpace, Decimal, Quotation;
    EntryCharacters(s, at, n, k);
    FoldedSpace();
    var q := EntryHasShape(s, p);
    var e, end := EntryAt(s, p).value, at + |Quotation(n, k)|;
    PlainPunctuation(' ');
    PlainPunctuation(s[at]);
    if p < at {
      if e.at < at {
        CoversWord(s, e.at, at - 1);
      } else if e.at == at {
        CoversWord(s, e.at, at);
      }
    } else if e.end > end {
      if e.at <= end {
        CoversWord(s, e.at, end);
      }
      NameHasNoSpace(s, at + |Decimal(n)| + 2, k);
    }
  }

  lemma {:induction false} NameHasNoSpace(s: string, t: nat, k: Kind)
    requires t + |Name(k)| <= |s| && s[t..t + |Name(k)|] == Name(k)
    ensures !IsSpace(s[t])
  {
    hide Name;
    NameLetters(k);
    assert s[t] == s[t..t + |Name(k)|][0];
  }

  /** A quotation shows from its first character to its last. */
  lemma {:induction false} QuotationShows(n: nat, k: Kind)
    ensures Skip(Quotation(n, k)) == 0 && Keep(Quotation(n, k)) == |Quotation(n, k)| && NormText(Quotation(n, k)) != []
  {
    hide Decimal, Name, NormText, Quotation, Shows, Trace;
    QuotationSpelled(n, k);
    var q := Quotation(n, k);
    DigitShows(q[0]);
    NameShows(k);
    assert q[|q| - 1] == q[|Decimal(n)| + 2..][|Name(k)| - 1];
    FirstShows(q);
    NormIsTrace(q);
  }

  lemma {:induction false} FirstShows(s: string)
    requires s != [] && Shows(s[0])
    ensures Trace(s).text != []
  {
    FirstLetter(s);
  }

  lemma {:induction false} NameShows(k: Kind)
    ensures Shows(Name(k)[|Name(k)| - 1])
  {
  }

  // ---- a list with one such reason ----------------------------------------------------------------------

  /** The reason of return `j` quotes entry `i`, which stands before it; nothing else names a kind. */
  ghost predicate QuotesEntry(rets: seq<Ret>, own: string, i: nat, j: nat)
    requires i <= j < |rets|
  {
    && rets[j].reason == Quotation(i + 1, rets[i].kind)
    && (forall m :: 0 <= m < |rets| ==> Clear(rets[m].who) && ClearItem(rets[m], own))
    && forall m :: 0 <= m < |rets| && m != j ==> Tame(rets[m].reason)
  }

  /** Everything before entry `i`. */
  function Above(rets: seq<Ret>, own: string, i: nat): string
    requires i <= |rets|
  {
    Body(Pieces(rets, own)[..i])
  }

  /** The pieces up to return `j`, without the reason of the last. */
  function Opening(rets: seq<Ret>, own: string, j: nat): seq<Piece>
    requires j < |rets|
  {
    Pieces(rets, own)[..j] + [Piece(rets[j].kind, Lead(rets[j], own))]
  }

  /** What stands between entry `i` and the reason of return `j`. */
  function Between(rets: seq<Ret>, own: string, i: nat, j: nat): string
    requires i <= j < |rets|
  {
    var ps := Opening(rets, own, j);
    ps[i].rest + Chain(ps[i + 1..], i + 1)
  }

  /** What follows that reason. */
  function Below(rets: seq<Ret>, own: string, j: nat): string
    requires j < |rets|
  {
    Chain(Pieces(rets, own)[j + 1..], j + 1) + (" " + FILL)
  }

  lemma {:induction false} RedInParts(rets: seq<Ret>, own: string, i: nat, j: nat)
    requires i <= j < |rets| && rets[j].reason != ""
    ensures Red(rets, own) == Above(rets, own, i) + EntryText(i + 1, rets[i].kind) + Between(rets, own, i, j)
      + rets[j].reason + Below(rets, own, j)
  {
    hide Lead, EntryText, Body, Chain, Red, Opening, Between, Above;
    RedIsText(rets, own);
    BodySplit(Pieces(rets, own), j + 1);
    UpToReason(rets, own, j);
    OpeningInParts(rets, own, i, j);
  }

  lemma {:induction false} UpToReason(rets: seq<Ret>, own: string, j: nat)
    requires j < |rets| && rets[j].reason != ""
    ensures Body(Pieces(rets, own)[..j + 1]) == Body(Opening(rets, own, j)) + rets[j].reason
  {
    hide Lead, EntryText, Body;
    var ps, lead := Pieces(rets, own), Lead(rets[j], own);
    assert ps[..j + 1] == ps[..j] + [ps[j]];
    BodySnoc(ps[..j], ps[j]);
    BodySnoc(ps[..j], Piece(rets[j].kind, lead));
  }

  lemma {:induction false} OpeningInParts(rets: seq<Ret>, own: string, i: nat, j: nat)
    requires i <= j < |rets|
    ensures Body(Opening(rets, own, j))
      == Above(rets, own, i) + EntryText(i + 1, rets[i].kind) + Between(rets, own, i, j)
  {
    hide Lead, Quoted, EntryText, Body, Chain;
    var qs := Opening(rets, own, j);
    BodySplit(qs, i);
    assert qs[..i] == Pieces(rets, own)[..i];
    ChainHead(qs[i..], i);
    assert qs[i..][1..] == qs[i + 1..];
    assert qs[i].kind == rets[i].kind;
  }

  lemma {:induction false} PartsNamed(rets: seq<Ret>, own: string, i: nat, j: nat)
    requires i <= j < |rets| && QuotesEntry(rets, own, i, j)
    ensures Framed(Above(rets, own, i)) && Named(Above(rets, own, i), 0) == RetKinds(rets)[..i]
    ensures Framed(Between(rets, own, i, j)) && Named(Between(rets, own, i, j), 0) == RetKinds(rets)[i + 1..j + 1]
  {
    hide Lead, Body, Chain, Framed, Named, Clear, Quoted, QuotesEntry;
    var ps, qs, ks := Pieces(rets, own), Opening(rets, own, j), RetKinds(rets);
    forall m | 0 <= m < |qs| ensures Clear(qs[m].rest) {
      RestsClear(rets, own, i, j, m);
    }
    forall m | 0 <= m < i ensures Clear(ps[..i][m].rest) {
      assert ps[..i][m] == qs[m];
    }
    BodyNames(ps[..i]);
    assert PieceKinds(ps[..i]) == ks[..i];
    ChainNames(qs[i + 1..], i + 1);
    assert PieceKinds(qs[i + 1..]) == ks[i + 1..j + 1];
    ClearIsFramed(qs[i].rest);
    ClearNamesNothing(qs[i].rest);
    assert qs[i + 1..] == [] ==> Chain(qs[i + 1..], i + 1) == [] by {
      NoChain(i + 1);
    }
    Join2(qs[i].rest, Chain(qs[i + 1..], i + 1));
  }

  lemma {:induction false} NoChain(base: nat)
    ensures Chain([], base) == ""
  {
  }

  lemma {:induction false} RestsClear(rets: seq<Ret>, own: string, i: nat, j: nat, m: nat)
    requires i <= j < |rets| && QuotesEntry(rets, own, i, j) && m < |rets|
    ensures Clear(Lead(rets[m], own)) && (m != j ==> Clear(Pieces(rets, own)[m].rest))
  {
    hide Lead, Clear, Unnamed, Quotation;
    var r := rets[m];
    LeadIsClear(r, own);
    LeadEnds(r, own);
    NoHyphenIsClear(NO_REASON);
    if m != j {
      ClearWords(Lead(r, own), Quoted(r));
    }
  }

  lemma {:induction false} BelowNamed(rets: seq<Ret>, own: string, i: nat, j: nat)
    requires i <= j < |rets| && QuotesEntry(rets, own, i, j)
    ensures Framed(Below(rets, own, j)) && Named(Below(rets, own, j), 0) == RetKinds(rets)[j + 1..]
    ensures Below(rets, own, j) != [] && Below(rets, own, j)[0] == ' '
  {
    hide Lead, Chain, Framed, Named, Clear, Quoted, QuotesEntry;
    var ps := Pieces(rets, own)[j + 1..];
    forall m | 0 <= m < |ps| ensures Clear(ps[m].rest) {
      RestsClear(rets, own, i, j, j + 1 + m);
    }
    ChainNames(ps, j + 1);
    NoChain(j + 1);
    assert PieceKinds(ps) == RetKinds(rets)[j + 1..];
    ClearPart(" " + FILL);
    Join2(Chain(ps, j + 1), " " + FILL);
  }

  lemma {:induction false} ChainEnds(ps: seq<Piece>, base: nat)
    requires ps != [] && ps[|ps| - 1].rest != []
    ensures Chain(ps, base) != []
    ensures Chain(ps, base)[|Chain(ps, base)| - 1] == ps[|ps| - 1].rest[|ps[|ps| - 1].rest| - 1]
  {
    hide EntryText;
  }

  lemma {:induction false} BetweenEnds(rets: seq<Ret>, own: string, i: nat, j: nat)
    requires i <= j < |rets|
    ensures var t := Between(rets, own, i, j); t != [] && t[|t| - 1] == ' '
  {
    hide Lead, Chain, Quoted;
    var qs := Opening(rets, own, j);
    LeadEnds(rets[j], own);
    NoChain(i + 1);
    if i < j {
      ChainEnds(qs[i + 1..], i + 1);
    } else {
      assert qs[i + 1..] == [];
    }
  }

  // ---- what is blanked ----------------------------------------------------------------------------------

  function EntryStart(rets: seq<Ret>, own: string, i: nat): nat
    requires i <= |rets|
  {
    |Above(rets, own, i)| + 1
  }

  function EntrySpan(rets: seq<Ret>, own: string, i: nat): Span
    requires i < |rets|
  {
    Span(EntryStart(rets, own, i), EntryStart(rets, own, i) + |Quotation(i + 1, rets[i].kind)|)
  }

  lemma {:induction false} QuotedStands(rets: seq<Ret>, own: string, i: nat, j: nat)
    requires i <= j < |rets| && rets[j].reason != ""
    ensures EntryStands(Red(rets, own), EntryStart(rets, own, i), i + 1, rets[i].kind)
  {
    hide Red, Above, Between, Below, Quotation, EntryText;
    RedInParts(rets, own, i, j);
    QuotationSpelled(i + 1, rets[i].kind);
    var a, q := Above(rets, own, i), Quotation(i + 1, rets[i].kind);
    var rest := Between(rets, own, i, j) + rets[j].reason + Below(rets, own, j);
    StandsBetween(a, q, rest);
    assert Red(rets, own) == a + (" " + q + " ") + rest;
  }

  lemma {:induction false} StandsBetween(a: string, q: string, rest: string)
    ensures var s, at := a + (" " + q + " ") + rest, |a| + 1; var end := at + |q|;
      end < |s| && s[at - 1] == ' ' && s[at..end] == q && s[end] == ' '
  {
  }

  /** The quotation stands nowhere, word by word, before the entry it quotes. */
  ghost predicate FirstAtEntry(rets: seq<Ret>, own: string, i: nat)
    requires i < |rets|
  {
    var red, at, quoted := Red(rets, own), EntryStart(rets, own, i), NormText(Quotation(i + 1, rets[i].kind));
    at <= |red| ==>
      forall x: nat :: x < |Trace(red[..at]).text| ==> !StandsWordAligned(ContextOf(red).norm.text, quoted, x)
  }

  lemma {:induction false} TameAvoidsEntry(rets: seq<Ret>, own: string, i: nat, j: nat, m: nat)
    requires i <= j < |rets| && QuotesEntry(rets, own, i, j) && m < |rets| && m != j
    ensures var red := Red(rets, own);
      Choice(ContextOf(red), rets)[m].Some? ==> Avoids(red, Choice(ContextOf(red), rets)[m].value)
  {
    hide Red, Choice, ContextOf, Avoids, Quotes, Clear, Unnamed, Quotation;
    var red := Red(rets, own);
    ChoiceIsSound(red, rets);
    if Choice(ContextOf(red), rets)[m].Some? {
      QuoteAvoidsEntries(red, rets[m].reason, Choice(ContextOf(red), rets)[m].value);
    }
  }

  /** The span of the quoted entry is free when return `j` is reached. */
  lemma {:induction false} EntryIsFree(rets: seq<Ret>, own: string, i: nat, j: nat)
    requires i <= j < |rets| && QuotesEntry(rets, own, i, j) && rets[j].reason != ""
    ensures var red := Red(rets, own);
      Free(EntrySpan(rets, own, i), Taken(Choice(ContextOf(red), rets[..j])))
  {
    hide Red, Choice, Taken, ContextOf, Avoids, Quotation, QuotesEntry, EntryAt, EntryStart;
    var red, span := Red(rets, own), EntrySpan(rets, own, i);
    var c := ContextOf(red);
    QuotedStands(rets, own, i, j);
    StandingIsHeaded(red, span.start, i + 1, rets[i].kind);
    var before := Choice(c, rets[..j]);
    forall s | s in Taken(before) ensures !Meets(span, s.start, s.end) {
      TakenFrom(before, s);
      var m :| 0 <= m < |before| && before[m] == Some(s);
      ChoiceOfFront(c, rets, m, j);
      TameAvoidsEntry(rets, own, i, j, m);
      AvoidsOne(red, s, span.start, span.start + |Decimal(i + 1)| + 2);
    }
  }

  lemma {:induction false} EntryIsUsable(rets: seq<Ret>, own: string, i: nat, j: nat)
    requires i <= j < |rets| && QuotesEntry(rets, own, i, j) && rets[j].reason != ""
    ensures EntryStart(rets, own, i) <= |Red(rets, own)| && NormText(rets[j].reason) != ""
    ensures var red, v := Red(rets, own), NormText(rets[j].reason);
      var c, q := ContextOf(red), |Trace(red[..EntryStart(rets, own, i)]).text|;
      Usable(c, Taken(Choice(c, rets[..j])), v, q) && SpanAt(c.norm, q, |v|) == EntrySpan(rets, own, i)
  {
    hide Red, Choice, Taken, Quotation, NormText, Trace, Normed, Tokens, Entries, Free, Whole, StandsAt, OnWords,
      Above, IsSpace, Tame, Clear, Skip, Keep;
    var red, at, n, k := Red(rets, own), EntryStart(rets, own, i), i + 1, rets[i].kind;
    var q := Quotation(n, k);
    QuotedStands(rets, own, i, j);
    QuotationShows(n, k);
    var x, y := red[..at], red[at + |q|..];
    assert red == x + q + y;
    SpaceIsSpace();
    PartShows(x, q, y);
    StandingIsWhole(red, at, n, k);
    EntryIsFree(rets, own, i, j);
  }

  /** So the entry is blanked instead of the quotation. */
  lemma {:induction false} EntryIsTaken(rets: seq<Ret>, own: string, i: nat, j: nat)
    requires i <= j < |rets| && QuotesEntry(rets, own, i, j) && rets[j].reason != "" && FirstAtEntry(rets, own, i)
    ensures Choice(ContextOf(Red(rets, own)), rets)[j] == Some(EntrySpan(rets, own, i))
  {
    hide Red, Choice, Taken, Quotation, NormText, Trace, Normed, Tokens, Entries, Free, Whole, StandsAt, OnWords,
      EntryStart, EntrySpan, Tame, Clear;
    EntryIsUsable(rets, own, i, j);
    var red, v := Red(rets, own), NormText(rets[j].reason);
    var c, q := ContextOf(red), |Trace(red[..EntryStart(rets, own, i)]).text|;
    var place := UsedBy(rets, j, c, q);
    assert place < q ==> !StandsWordAligned(c.norm.text, v, place);
  }

  // ---- what is left ---------------------------------------------------------------------------------------

  /** The list with the quoted entry covered. */
  function EntryCovered(rets: seq<Ret>, own: string, i: nat, j: nat): string
    requires i <= j < |rets|
  {
    Above(rets, own, i) + (" " + Dots(|Quotation(i + 1, rets[i].kind)|) + " ") + Between(rets, own, i, j)
    + rets[j].reason + Below(rets, own, j)
  }

  /** The kinds in the order in which they are left: the quoted one stands where it is quoted. */
  function KindsLeft(ks: seq<Kind>, i: nat, j: nat): seq<Kind>
    requires i <= j < |ks|
  {
    ks[..i] + ks[i + 1..j + 1] + [ks[i]] + ks[j + 1..]
  }

  lemma {:induction false} Overlapping(s: string, q: string, z: string, k: Kind, n: nat)
    requires Framed(s) && s != [] && s[|s| - 1] == ' ' && Framed(z) && z != [] && z[0] == ' '
    requires q == Quotation(n, k)
    ensures Framed(s + q + z) && Named(s + q + z, 0) == Named(s, 0) + [k] + Named(z, 0)
  {
    hide Framed, Named, Quotation, EntryText;
    var s', z' := s[..|s| - 1], z[1..];
    QuotationSpelled(n, k);
    EntryIsFramed(n, k);
    SharedSpaces(s, q, z);
    assert " " + (q + " ") == " " + q + " ";
    OverlapJoin(s', q + " ");
    OverlapJoin(s + q, z');
  }

  lemma {:induction false} SharedSpaces(s: string, q: string, z: string)
    requires s != [] && s[|s| - 1] == ' ' && z != [] && z[0] == ' '
    ensures var s', z' := s[..|s| - 1], z[1..];
      s == s' + " " && z == " " + z' && s' + " " + (q + " ") == (s + q) + " " && (s + q) + " " + z' == s + q + z
  {
  }

  lemma {:induction false} CoveredNames(rets: seq<Ret>, own: string, i: nat, j: nat)
    requires i <= j < |rets| && QuotesEntry(rets, own, i, j)
    ensures Framed(EntryCovered(rets, own, i, j))
    ensures Named(EntryCovered(rets, own, i, j), 0) == KindsLeft(RetKinds(rets), i, j)
  {
    hide Framed, Named, Above, Between, Below, Quotation, Clear, Tame;
    var a, t, z := Above(rets, own, i), Between(rets, own, i, j), Below(rets, own, j);
    var dots := " " + Dots(|Quotation(i + 1, rets[i].kind)|) + " ";
    PartsNamed(rets, own, i, j);
    BelowNamed(rets, own, i, j);
    BetweenEnds(rets, own, i, j);
    ClearPart(dots);
    Join2(a, dots);
    Join2(a + dots, t);
    Overlapping(a + dots + t, rets[j].reason, z, rets[i].kind, i + 1);
  }

  lemma {:induction false} CoveredPart(a: string, q: string, d: string, rest: string)
    requires |q| == |d| && forall i :: 0 <= i < |d| ==> d[i] == '.'
    ensures var v, s := a + (" " + d + " ") + rest, a + (" " + q + " ") + rest;
      && Veils(v, s)
      && (forall i :: 0 <= i < |s| && v[i] != s[i] ==> |a| + 1 <= i < |a| + 1 + |q|)
      && forall i :: |a| + 1 <= i < |a| + 1 + |q| ==> v[i] == '.'
  {
    var v, s := a + (" " + d + " ") + rest, a + (" " + q + " ") + rest;
    forall i | 0 <= i < |s|
      ensures if |a| + 1 <= i < |a| + 1 + |q| then v[i] == '.' else v[i] == s[i]
    {
      if |a| + 1 <= i < |a| + 1 + |q| {
        assert v[i] == d[i - |a| - 1];
      }
    }
  }

  /** Covering reaches exactly the span of the entry. */
  lemma {:induction false} EntryCoveredIs(rets: seq<Ret>, own: string, i: nat, j: nat)
    requires i <= j < |rets| && rets[j].reason != ""
    ensures var v, s, span := EntryCovered(rets, own, i, j), Red(rets, own), EntrySpan(rets, own, i);
      && Veils(v, s) && 0 <= span.start < span.end <= |s|
      && (forall x :: 0 <= x < |s| && v[x] != s[x] ==> span.start <= x < span.end)
      && forall x :: span.start <= x < span.end ==> v[x] == '.'
  {
    hide Above, Between, Below, Quotation, EntryText, Red, Veils;
    RedInParts(rets, own, i, j);
    QuotationSpelled(i + 1, rets[i].kind);
    var a, q := Above(rets, own, i), Quotation(i + 1, rets[i].kind);
    var rest, dots := Between(rets, own, i, j) + rets[j].reason + Below(rets, own, j), Dots(|q|);
    CoveredPart(a, q, dots, rest);
    assert Red(rets, own) == a + (" " + q + " ") + rest;
    assert EntryCovered(rets, own, i, j) == a + (" " + dots + " ") + rest;
    QuotedStands(rets, own, i, j);
    SameLengths(EntryCovered(rets, own, i, j), Red(rets, own));
  }

  lemma {:induction false} SpansOnCovered(rets: seq<Ret>, own: string, i: nat, j: nat, m: nat, s: Span)
    requires i <= j < |rets| && QuotesEntry(rets, own, i, j) && rets[j].reason != "" && FirstAtEntry(rets, own, i) && m < |rets|
    requires Choice(ContextOf(Red(rets, own)), rets)[m] == Some(s)
    ensures EndsOnWords(EntryCovered(rets, own, i, j), s) && Avoids(EntryCovered(rets, own, i, j), s)
  {
    hide Red, EntryCovered, Choice, ContextOf, EntrySpan, Avoids, QuotesEntry, FirstAtEntry, Quotes;
    var red, v := Red(rets, own), EntryCovered(rets, own, i, j);
    EntryCoveredIs(rets, own, i, j);
    ChoiceIsSound(red, rets);
    QuoteEnds(red, rets[m].reason, s);
    if m == j {
      EntryIsTaken(rets, own, i, j);
      DotsAvoided(v, red, s);
    } else {
      TameAvoidsEntry(rets, own, i, j, m);
      AvoidsVeiled(v, red, s);
    }
  }

  lemma {:induction false} LeftOfQuoted(rets: seq<Ret>, own: string, i: nat, j: nat)
    requires i <= j < |rets| && QuotesEntry(rets, own, i, j) && rets[j].reason != "" && FirstAtEntry(rets, own, i)
    ensures var scan := WithoutReasons(Red(rets, own), rets);
      Framed(scan) && Named(scan, 0) == KindsLeft(RetKinds(rets), i, j)
  {
    hide Red, EntryCovered, Choice, Taken, Sorted, Ascending, Blanked, ContextOf, EntrySpan, Avoids, EndsOnWords,
      QuotesEntry, FirstAtEntry, Framed, Named, KindsLeft;
    var red, v, span := Red(rets, own), EntryCovered(rets, own, i, j), EntrySpan(rets, own, i);
    var choice, spans := Choice(ContextOf(red), rets), SpansOf(red, rets);
    ChoiceIsSound(red, rets);
    SortedAscends(Taken(choice), |red|);
    forall s | s in spans ensures EndsOnWords(v, s) && Avoids(v, s) {
      TakenFrom(choice, s);
      var m :| 0 <= m < |choice| && choice[m] == Some(s);
      SpansOnCovered(rets, own, i, j, m, s);
    }
    EntryCoveredIs(rets, own, i, j);
    EntryIsTaken(rets, own, i, j);
    SpanListed(red, rets, j, span);
    var k :| 0 <= k < |spans| && spans[k] == span;
    VeiledBlank(v, red, spans);
    CoveredNames(rets, own, i, j);
    BlankKeepsNames(v, spans);
  }

  // ---- when such a list is accepted -------------------------------------------------------------------------

  ghost predicate SameKinds(ks: seq<Kind>, i: nat, j: nat) {
    forall m :: i <= m <= j && m < |ks| ==> ks[m] == ks[i]
  }

  lemma {:induction false} MovedLeavesSame(ks: seq<Kind>, i: nat, j: nat)
    requires i <= j < |ks|
    ensures KindsLeft(ks, i, j) == ks <==> SameKinds(ks, i, j)
  {
    var left := KindsLeft(ks, i, j);
    forall m | 0 <= m < |ks|
      ensures left[m] == if m < i || m > j then ks[m] else if m < j then ks[m + 1] else ks[i]
    {
    }
    if left == ks {
      StepsSame(ks, i, j, j);
    } else {
      var m :| 0 <= m < |ks| && left[m] != ks[m];
    }
  }

  lemma {:induction false} StepsSame(ks: seq<Kind>, i: nat, j: nat, n: nat)
    requires i <= n <= j < |ks| && forall m :: i <= m < j ==> ks[m + 1] == ks[m]
    ensures SameKinds(ks, i, n)
    decreases n
  {
    if i < n {
      StepsSame(ks, i, j, n - 1);
      assert ks[(n - 1) + 1] == ks[n - 1];
    }
  }

  /** A list in which one reason quotes an entry printed before it, or its own, is accepted exactly when all returns
      from the quoted one to the quoting one are of one kind: the entry is blanked, and the quotation stays and is
      taken for it. */
  lemma {:induction false} QuotedEntryAcceptedIff(rets: seq<Ret>, own: string, i: nat, j: nat)
    requires i <= j < |rets| && QuotesEntry(rets, own, i, j) && FirstAtEntry(rets, own, i)
    ensures Checked(Red(rets, own), rets) == Findings([]) <==> SameKinds(RetKinds(rets), i, j)
  {
    hide Red, Tokens, Entries, MissingReasons, AllPlain, CountsOff, WithoutReasons, Framed, Named, FirstAtEntry,
      Quotation, KindsLeft, SameKinds, Clear, Tame;
    QuotationSpelled(i + 1, rets[i].kind);
    LeftOfQuoted(rets, own, i, j);
    MovedLeavesSame(RetKinds(rets), i, j);
    if SameKinds(RetKinds(rets), i, j) {
      NamedIsAccepted(rets, own);
    } else {
      FramedEntries(WithoutReasons(Red(rets, own), rets), 0);
    }
  }

  // ---- two returns ------------------------------------------------------------------------------------------

  const FIRST := Ret(TesterFail, "", "", None, "")
  const SECOND := Ret(ReviewerReject, "", "", None, "1) tester-fail")

  lemma {:induction false} QuotationHasOne()
    ensures Quotation(1, TesterFail) == "1) tester-fail"
    ensures var v := NormText(Quotation(1, TesterFail)); v != [] && v[0] == '1'
  {
    hide Trace, NormText;
    assert Decimal(1) == "1";
    var q := Quotation(1, TesterFail);
    ShowsAt(q, 0);
    TraceNothing();
    assert q[..0] == [];
    NormIsTrace(q);
  }

  /** Nothing in front of the first entry holds a "1". */
  lemma {:induction false} NoOneBefore(p: nat)
    requires p < |Trace(HEAD + " ").text|
    ensures Trace(HEAD + " ").text[p] != '1'
  {
    hide Trace;
    var s := HEAD + " ";
    SameLength(s);
    MapIsTrue(s, p);
    var i := Trace(s).at[p];
    if i >= 0 {
      assert s[i] != '1';
    }
  }

  lemma {:induction false} FirstEntryIsFirst(rets: seq<Ret>, own: string)
    requires rets != [] && rets[0].kind == TesterFail
    ensures FirstAtEntry(rets, own, 0)
  {
    hide Trace, NormText, Red, Pieces, Tokens, Entries, TrimEnd, OnWords, Quotation, Lead, Quoted;
    var red, at := Red(rets, own), EntryStart(rets, own, 0);
    if at <= |red| {
      RedBegins(rets, own);
      QuotationHasOne();
      var v, text := NormText(Quotation(1, TesterFail)), ContextOf(red).norm.text;
      NormIsTrace(red);
      NormAgrees(red);
      TraceGrows(red, at);
      forall x: nat | x < |Trace(red[..at]).text| ensures !StandsWordAligned(text, v, x) {
        NoOneBefore(x);
        assert Trace(red).text[x] == Trace(red[..at]).text[x];
        if StandsAt(text, v, x) {
          FirstCharacter(text, v, x);
        }
      }
    }
  }

  lemma {:induction false} FirstCharacter(text: string, v: string, p: nat)
    requires v != [] && StandsAt(text, v, p)
    ensures text[p] == v[0]
  {
    assert text[p] == text[p..p + |v|][0];
  }

  lemma {:induction false} RedBegins(rets: seq<Ret>, own: string)
    requires rets != []
    ensures EntryStart(rets, own, 0) == |HEAD| + 1 <= |Red(rets, own)| && Red(rets, own)[..|HEAD| + 1] == HEAD + " "
  {
    hide Lead, Quoted, Spaced, Lines;
    assert Pieces(rets, own)[..0] == [];
    assert Red(rets, own) == (HEAD + " ") + (Spaced(Lines(rets, own)) + " " + FILL);
  }

  /** Two returns of different kinds, the second reason of which quotes the first entry: `draft` prints the list and
      the check turns it down. */
  lemma {:induction false} QuotedEntryBreaksAgreement()
    ensures Checked(Red([FIRST, SECOND], ""), [FIRST, SECOND]) != Findings([])
  {
    hide Red, Checked, Clear, Unnamed, Quotation, FirstAtEntry;
    var rets := [FIRST, SECOND];
    QuotationHasOne();
    FirstEntryIsFirst(rets, "");
    NoHyphenIsClear("");
    NothingNormalises();
    NothingIsTame("");
    assert QuotesEntry(rets, "", 0, 1);
    QuotedEntryAcceptedIff(rets, "", 0, 1);
    assert RetKinds(rets)[1] != RetKinds(rets)[0];
  }
}
