/** Which printed lists of returns the check accepts. */
module ReturnAgreement {
  import opened Options
  import opened Text
  import opened Normalise
  import opened ReturnKinds
  import opened Blanking
  import opened ReturnReasons
  import opened ReasonPlaces

  // ---- reasons that name kinds ----------------------------------------------------------------------

  /** A reason that names no kind, neither as it is nor normalised. */
  ghost predicate Tame(reason: string) {
    Clear(reason) && Unnamed(reason)
  }

  /** The reason of return `j` stands at `x`, before its own place: on word boundaries, cutting no token and no entry,
      and outside the own places of earlier reasons that name kinds. */
  ghost predicate StraysTo(rets: seq<Ret>, own: string, j: nat, x: nat)
    requires j < |rets| && NormText(rets[j].reason) != ""
  {
    var c, v := ContextOf(Red(rets, own)), NormText(rets[j].reason);
    && x < HomePlace(rets, own, j) && StandsWordAligned(c.norm.text, v, x)
    && Whole(SpanAt(c.norm, x, |v|), c.kept)
    && forall i :: 0 <= i < j && !Tame(rets[i].reason) ==>
         !Meets(SpanAt(c.norm, x, |v|), HomeSpan(rets, own, i).start, HomeSpan(rets, own, i).end)
  }

  ghost predicate StaysHome(rets: seq<Ret>, own: string, j: nat)
    requires j < |rets|
  {
    NormText(rets[j].reason) != "" ==> forall x: nat :: !StraysTo(rets, own, j, x)
  }

  /** No author and no printed item names a kind, and each reason that does stays at home. */
  ghost predicate Settled(rets: seq<Ret>, own: string) {
    && (forall j :: 0 <= j < |rets| ==> Clear(rets[j].who) && ClearItem(rets[j], own))
    && forall j :: 0 <= j < |rets| ==> Tame(rets[j].reason) || StaysHome(rets, own, j)
  }

  /** Such a reason is blanked at its own place. */
  lemma {:induction false} BlankedAtHome(rets: seq<Ret>, own: string, j: nat)
    requires Settled(rets, own) && j < |rets| && !Tame(rets[j].reason)
    ensures NormText(rets[j].reason) != ""
    ensures Choice(ContextOf(Red(rets, own)), rets)[j] == Some(HomeSpan(rets, own, j))
    decreases j
  {
    hide Red, HomeSpan, HomePlace, ContextOf, NormText, Choice, Taken, Tame, OnWords, Whole;
    if NormText(rets[j].reason) == "" {
      NothingIsTame(rets[j].reason);
    }
    var x := EveryReasonIsBlanked(rets, own, j);
    var c, v := ContextOf(Red(rets, own)), NormText(rets[j].reason);
    HomeShows(rets, own, j);
    assert !StraysTo(rets, own, j, x);
    if x < HomePlace(rets, own, j) {
      forall i | 0 <= i < j && !Tame(rets[i].reason)
        ensures !Meets(SpanAt(c.norm, x, |v|), HomeSpan(rets, own, i).start, HomeSpan(rets, own, i).end)
      {
        BlankedAtHome(rets, own, i);
        ChoiceOfFront(c, rets, i, j);
        TakenFrom(Choice(c, rets[..j]), HomeSpan(rets, own, i));
        assert Choice(c, rets[..j])[i] in Choice(c, rets[..j]);
      }
    }
  }

  lemma {:induction false} QuietIsClear(s: string)
    requires forall i :: 0 <= i < |s| ==> !Shows(s[i])
    ensures Clear(s)
  {
    hide KindAt, Shows;
    forall p: nat ensures KindAt(s, p).None? {
      if KindAt(s, p).Some? {
        NameEndsShow(s, p);
      }
    }
  }

  lemma {:induction false} NothingIsTame(reason: string)
    requires NormText(reason) == ""
    ensures Tame(reason)
  {
    hide NormText, Shows, Clear, Trace, Lower;
    forall i | 0 <= i < |reason| ensures !Shows(reason[i]) {
      if Shows(reason[i]) {
        ShowsAt(reason, i);
        NormIsTrace(reason);
      }
    }
    QuietIsClear(reason);
    forall k ensures !Within("", NormText(Name(k))) {
      NameNormalises(k);
    }
  }

  // ---- a text with some of it covered ---------------------------------------------------------------

  function Dots(n: nat): (s: string)
    ensures |s| == n && forall i :: 0 <= i < n ==> s[i] == '.'
  {
    seq(n, _ => '.')
  }

  /** `v` is `s` with some characters covered by dots. */
  ghost predicate Veils(v: string, s: string) {
    |v| == |s| && forall i :: 0 <= i < |s| ==> v[i] == s[i] || v[i] == '.'
  }

  lemma {:induction false} VeilsJoin(v: string, s: string, w: string, t: string)
    requires Veils(v, s) && Veils(w, t)
    ensures Veils(v + w, s + t)
  {
  }

  lemma {:induction false} NoDots(c: char)
    ensures IsDigit(c) || IsSpace(c) || c == ')' ==> c != '.'
  {
  }

  /** An entry that shows on the covered text is an entry of the text, and nothing of it is covered. */
  lemma {:induction false} VeiledEntry(v: string, s: string, p: nat, t: nat)
    requires Veils(v, s) && HeadedBy(v, p, t)
    ensures HeadedBy(s, p, t) && EntryAt(s, p) == EntryAt(v, p)
    ensures forall i :: p <= i < EntryAt(v, p).value.end ==> i < |v| && v[i] != '.'
  {
    hide KindAt, Name, EntryAt, Wordy, IsDigit, IsSpace;
    var q := EntryHasShape(v, p);
    var e := EntryAt(v, p).value;
    NameLetters(e.kind);
    forall i | p - 1 <= i <= e.end ensures v[i] != '.' && v[i] == s[i] {
      NoDots(v[i]);
      if t <= i < e.end {
        assert v[i] == v[t..e.end][i - t];
      }
    }
    SpelledSame(v, s, t, e.kind);
    FoldedSpace();
    ShapeIsEntry(s, p, q, t, e.kind);
    assert s[t..e.end] == v[t..e.end];
  }

  lemma {:induction false} SpelledSame(v: string, s: string, t: nat, k: Kind)
    requires KindAt(v, t) == Some(k) && |v| == |s|
    requires forall i :: t <= i < t + |Name(k)| && i < |v| ==> v[i] == s[i]
    ensures KindAt(s, t) == Some(k)
  {
    hide KindAt, Name, Folded;
    KindIff(v, t, k);
    KindIff(s, t, k);
    forall i | 0 <= i < |Name(k)| ensures Folded(s[t + i]) == Name(k)[i] {
      assert v[t + i] == s[t + i];
    }
  }

  ghost predicate InSpan(spans: seq<Span>, i: int) {
    exists k :: 0 <= k < |spans| && spans[k].start <= i < spans[k].end
  }

  /** What is blanked may as well have been covered before. */
  lemma {:induction false} VeiledBlank(v: string, s: string, spans: seq<Span>)
    requires |v| == |s| && Ascending(spans, |s|)
    requires forall i :: 0 <= i < |s| && v[i] != s[i] ==> InSpan(spans, i)
    ensures Blanked(v, spans) == Blanked(s, spans)
    decreases |spans|
  {
    if spans == [] {
      assert v == s;
    } else {
      var front, last := spans[..|spans| - 1], spans[|spans| - 1];
      forall i | 0 <= i < |s| && v[i] != s[i] ensures i < last.end && (i < last.start ==> InSpan(front, i)) {
        var k :| 0 <= k < |spans| && spans[k].start <= i < spans[k].end;
        SpanBelow(spans, spans[k], |s|);
        if k < |front| {
          assert front[k] == spans[k];
          SpanBelow(front, front[k], last.start);
        }
      }
      VeiledBlank(v[..last.start], s[..last.start], front);
      assert v[last.end..] == s[last.end..];
    }
  }

  // ---- the printed list with its returning reasons covered -------------------------------------------

  /** The reason with all its letters and digits covered, from the first to the last. */
  function Veil(s: string): (v: string)
    ensures |v| == |s|
  {
    if Skip(s) <= Keep(s) then s[..Skip(s)] + Dots(Keep(s) - Skip(s)) + s[Keep(s)..] else s
  }

  ghost function VeiledPieces(rets: seq<Ret>, own: string): (ps: seq<Piece>)
    ensures |ps| == |rets|
    ensures forall i :: 0 <= i < |rets| ==> ps[i] == Piece(rets[i].kind, Lead(rets[i], own) + VeiledReason(rets[i]))
  {
    seq(|rets|, i requires 0 <= i < |rets| => Piece(rets[i].kind, Lead(rets[i], own) + VeiledReason(rets[i])))
  }

  ghost function VeiledReason(r: Ret): (v: string)
  {
    if Tame(r.reason) then Quoted(r) else Veil(r.reason)
  }

  /** The same list, some of what stands behind its kinds covered. */
  ghost predicate SameButVeiled(qs: seq<Piece>, ps: seq<Piece>) {
    |qs| == |ps| && forall j :: 0 <= j < |ps| ==> qs[j].kind == ps[j].kind && Veils(qs[j].rest, ps[j].rest)
  }

  /** A covered character belongs to what stands behind a kind. */
  ghost predicate CoveredIn(qs: seq<Piece>, ps: seq<Piece>, i: int) {
    exists j :: 0 <= j < |ps| && CoveredAt(qs, ps, i, j)
  }

  ghost predicate CoveredAt(qs: seq<Piece>, ps: seq<Piece>, i: int, j: nat)
    requires j < |ps|
  {
    var at := RestAt(ps, j);
    at <= i < at + |ps[j].rest| && j < |qs| && |qs[j].rest| == |ps[j].rest| && qs[j].rest[i - at] != ps[j].rest[i - at]
  }

  lemma {:induction false} VeilsBody(qs: seq<Piece>, ps: seq<Piece>)
    requires SameButVeiled(qs, ps)
    ensures Veils(Body(qs), Body(ps))
    ensures forall i :: 0 <= i < |Body(ps)| && Body(qs)[i] != Body(ps)[i] ==> CoveredIn(qs, ps, i)
    decreases |ps|
  {
    hide EntryText, PieceText, Body, Veils, CoveredIn;
    if ps == [] {
      AllVeiled(HEAD);
      NoPieces();
    } else {
      var qf, pf, q, p := qs[..|ps| - 1], ps[..|ps| - 1], qs[|ps| - 1], ps[|ps| - 1];
      assert qs == qf + [q] && ps == pf + [p];
      VeilsBody(qf, pf);
      VeilsOneMore(qf, pf, q, p);
    }
  }

  lemma {:induction false} VeilsOneMore(qf: seq<Piece>, pf: seq<Piece>, q: Piece, p: Piece)
    requires |qf| == |pf| && q.kind == p.kind && Veils(q.rest, p.rest) && Veils(Body(qf), Body(pf))
    requires forall i :: 0 <= i < |Body(pf)| && Body(qf)[i] != Body(pf)[i] ==> CoveredIn(qf, pf, i)
    ensures var qs, ps := qf + [q], pf + [p];
      && Veils(Body(qs), Body(ps))
      && forall i :: 0 <= i < |Body(ps)| && Body(qs)[i] != Body(ps)[i] ==> CoveredIn(qs, ps, i)
  {
    hide EntryText, Body, Veils, CoveredIn;
    var qs, ps, e := qf + [q], pf + [p], EntryText(|pf| + 1, p.kind);
    BodySnoc(qf, q);
    BodySnoc(pf, p);
    AllVeiled(e);
    VeilsJoin(e, e, q.rest, p.rest);
    VeilsJoin(Body(qf), Body(pf), e + q.rest, e + p.rest);
    SameLengths(Body(qf), Body(pf));
    SameLengths(q.rest, p.rest);
    forall i | 0 <= i < |Body(ps)| && Body(qs)[i] != Body(ps)[i] ensures CoveredIn(qs, ps, i) {
      DiffersWhere(Body(qf), Body(pf), e, q.rest, p.rest, i);
      if i < |Body(pf)| {
        CoveredMore(qf, pf, q, p, i);
      } else {
        CoveredLast(qf, pf, q, p, i);
      }
    }
  }

  lemma {:induction false} DiffersWhere(a: string, b: string, e: string, x: string, y: string, i: nat)
    requires |a| == |b| && |x| == |y| && i < |a| + |e| + |x| && (a + (e + x))[i] != (b + (e + y))[i]
    ensures if i < |a| then a[i] != b[i] else i >= |a| + |e| && x[i - |a| - |e|] != y[i - |a| - |e|]
  {
  }

  lemma {:induction false} CoveredMore(qf: seq<Piece>, pf: seq<Piece>, q: Piece, p: Piece, i: int)
    requires |qf| == |pf| && CoveredIn(qf, pf, i)
    ensures CoveredIn(qf + [q], pf + [p], i)
  {
    hide Body, EntryText;
    var j :| 0 <= j < |pf| && CoveredAt(qf, pf, i, j);
    assert pf[..j] == (pf + [p])[..j];
    assert CoveredAt(qf + [q], pf + [p], i, j);
  }

  lemma {:induction false} CoveredLast(qf: seq<Piece>, pf: seq<Piece>, q: Piece, p: Piece, i: int)
    requires |qf| == |pf| && |q.rest| == |p.rest|
    requires var at := |Body(pf)| + |EntryText(|pf| + 1, p.kind)|;
      at <= i < at + |p.rest| && q.rest[i - at] != p.rest[i - at]
    ensures CoveredIn(qf + [q], pf + [p], i)
  {
    hide Body, EntryText;
    assert (pf + [p])[..|pf|] == pf;
    assert CoveredAt(qf + [q], pf + [p], i, |pf|);
  }

  lemma {:induction false} NoPieces()
    ensures Body([]) == HEAD
  {
  }

  lemma {:induction false} AllVeiled(s: string)
    ensures Veils(s, s)
  {
  }

  lemma {:induction false} SameLengths(v: string, s: string)
    requires Veils(v, s)
    ensures |v| == |s|
  {
  }

  lemma {:induction false} VeilsText(qs: seq<Piece>, ps: seq<Piece>)
    requires SameButVeiled(qs, ps)
    ensures Veils(TextOf(qs), TextOf(ps))
    ensures forall i :: 0 <= i < |TextOf(ps)| && TextOf(qs)[i] != TextOf(ps)[i] ==> CoveredIn(qs, ps, i)
  {
    hide Body;
    if ps != [] {
      VeilsBody(qs, ps);
      SameLengths(Body(qs), Body(ps));
      var tail := " " + FILL;
      forall i | 0 <= i < |TextOf(ps)| && TextOf(qs)[i] != TextOf(ps)[i] ensures CoveredIn(qs, ps, i) {
        DiffersInFront(Body(qs), Body(ps), tail, i);
      }
      VeilsJoin(Body(qs), Body(ps), tail, tail);
    }
  }

  lemma {:induction false} DiffersInFront(a: string, b: string, tail: string, i: nat)
    requires |a| == |b| && i < |a| + |tail| && (a + tail)[i] != (b + tail)[i]
    ensures i < |a| && a[i] != b[i]
  {
  }

  /** Both lists have their pieces at the same places. */
  lemma {:induction false} SameRestAt(qs: seq<Piece>, ps: seq<Piece>, j: nat)
    requires SameButVeiled(qs, ps) && j < |ps|
    ensures RestAt(qs, j) == RestAt(ps, j)
  {
    hide Body, EntryText;
    VeilsBody(qs[..j], ps[..j]);
  }

  // ---- the covered list -----------------------------------------------------------------------------

  lemma {:induction false} VeilCharacters(reason: string)
    ensures forall i :: 0 <= i < |reason| ==> Veil(reason)[i] == if Skip(reason) <= i < Keep(reason) then '.' else reason[i]
  {
    hide Skip, Keep, Shows;
    if Skip(reason) <= Keep(reason) {
      DottedBetween(reason, Skip(reason), Keep(reason));
    }
  }

  lemma {:induction false} VeilVeils(reason: string)
    ensures Veils(Veil(reason), reason)
  {
    hide Veil, Skip, Keep, Shows;
    VeilCharacters(reason);
  }

  lemma {:induction false} VeilIsClear(reason: string)
    ensures Clear(Veil(reason))
  {
    hide Shows, Clear, Skip, Keep, Veil;
    DotShowsNot();
    VeilCharacters(reason);
    forall i | 0 <= i < |reason| ensures !Shows(Veil(reason)[i]) {
      var c := Veil(reason)[i];
    }
    QuietIsClear(Veil(reason));
  }

  lemma {:induction false} DottedBetween(s: string, a: nat, b: nat)
    requires a <= b <= |s|
    ensures var v := s[..a] + Dots(b - a) + s[b..];
      |v| == |s| && forall i :: 0 <= i < |s| ==> v[i] == if a <= i < b then '.' else s[i]
  {
  }

  lemma {:induction false} DotShowsNot()
    ensures !Shows('.')
  {
  }

  lemma {:induction false} VeiledRest(rets: seq<Ret>, own: string, j: nat)
    requires Settled(rets, own) && j < |rets|
    ensures Clear(VeiledPieces(rets, own)[j].rest)
    ensures Veils(VeiledPieces(rets, own)[j].rest, Pieces(rets, own)[j].rest)
  {
    hide Lead, Clear, Veil, Veils, StaysHome, Unnamed;
    var r := rets[j];
    LeadIsClear(r, own);
    LeadEnds(r, own);
    VeilIsClear(r.reason);
    VeilVeils(r.reason);
    NoHyphenIsClear("");
    NoHyphenIsClear(NO_REASON);
    NothingNormalises();
    NothingIsTame("");
    ClearWords(Lead(r, own), VeiledReason(r));
    AllVeiled(Lead(r, own));
    AllVeiled(Quoted(r));
    VeilsJoin(Lead(r, own), Lead(r, own), VeiledReason(r), Quoted(r));
  }

  lemma {:induction false} VeiledList(rets: seq<Ret>, own: string)
    requires Settled(rets, own)
    ensures var qs := VeiledPieces(rets, own);
      ClearRests(qs) && SameButVeiled(qs, Pieces(rets, own)) && PieceKinds(qs) == RetKinds(rets)
  {
    hide Settled, Lead, Clear, Veils;
    forall j | 0 <= j < |rets|
      ensures Clear(VeiledPieces(rets, own)[j].rest) && Veils(VeiledPieces(rets, own)[j].rest, Pieces(rets, own)[j].rest)
    {
      VeiledRest(rets, own, j);
    }
  }

  ghost function VeiledRed(rets: seq<Ret>, own: string): string {
    TextOf(VeiledPieces(rets, own))
  }

  ghost predicate AtWildHome(rets: seq<Ret>, own: string, i: int, j: nat)
    requires j < |rets|
  {
    !Tame(rets[j].reason) && HomeSpan(rets, own, j).start <= i < HomeSpan(rets, own, j).end
  }

  lemma {:induction false} DiffersBehind(a: string, b: string, c: string, i: nat)
    requires |b| == |c| && i < |a| + |b| && (a + b)[i] != (a + c)[i]
    ensures i >= |a| && b[i - |a|] != c[i - |a|]
  {
  }

  /** What is covered is the own place of a reason that names a kind. */
  lemma {:induction false} CoveredIsHome(rets: seq<Ret>, own: string, i: int)
    requires CoveredIn(VeiledPieces(rets, own), Pieces(rets, own), i)
    ensures exists j :: 0 <= j < |rets| && AtWildHome(rets, own, i, j)
  {
    hide Lead, Clear, Tame, Veil, Skip, Keep, RestAt;
    var qs, ps := VeiledPieces(rets, own), Pieces(rets, own);
    var j :| 0 <= j < |ps| && CoveredAt(qs, ps, i, j);
    VeilCharacters(rets[j].reason);
    assert qs[j].rest == Lead(rets[j], own) + VeiledReason(rets[j]);
    assert ps[j].rest == Lead(rets[j], own) + Quoted(rets[j]);
    DiffersBehind(Lead(rets[j], own), VeiledReason(rets[j]), Quoted(rets[j]), i - RestAt(ps, j));
    NothingNormalises();
    NothingIsTame("");
    assert AtWildHome(rets, own, i, j);
  }

  /** There all is covered. */
  lemma {:induction false} HomeIsCovered(rets: seq<Ret>, own: string, j: nat, i: int)
    requires Settled(rets, own) && j < |rets| && !Tame(rets[j].reason)
    requires HomeSpan(rets, own, j).start <= i < HomeSpan(rets, own, j).end
    ensures 0 <= i < |VeiledRed(rets, own)| && VeiledRed(rets, own)[i] == '.'
  {
    hide Lead, Clear, Tame, Veil, Skip, Keep, RestAt, TextOf, Settled;
    var qs, ps := VeiledPieces(rets, own), Pieces(rets, own);
    VeiledList(rets, own);
    SameRestAt(qs, ps, j);
    RestFollowed(qs, j);
    VeilCharacters(rets[j].reason);
    var at, lead := RestAt(qs, j), Lead(rets[j], own);
    assert qs[j].rest == lead + Veil(rets[j].reason);
    assert VeiledRed(rets, own)[i] == qs[j].rest[i - at];
  }

  // ---- the printer and the check agree ----------------------------------------------------------------

  /** No span meets an entry that still shows on the covered list. */
  lemma {:induction false} SpanAvoidsShown(rets: seq<Ret>, own: string, j: nat, s: Span)
    requires Settled(rets, own) && j < |rets| && Choice(ContextOf(Red(rets, own)), rets)[j] == Some(s)
    ensures EndsOnWords(VeiledRed(rets, own), s) && Avoids(VeiledRed(rets, own), s)
  {
    hide Red, TextOf, Choice, Settled, Tame, ContextOf, HomeSpan, EntryAt, KindAt, Name, Quotes, Avoids, SameButVeiled;
    var red, v := Red(rets, own), VeiledRed(rets, own);
    VeiledList(rets, own);
    RedIsText(rets, own);
    VeilsText(VeiledPieces(rets, own), Pieces(rets, own));
    ChoiceIsSound(red, rets);
    QuoteEnds(red, rets[j].reason, s);
    assert EndsOnWords(v, s);
    if Tame(rets[j].reason) {
      TameAvoids(red, rets[j].reason, s);
      AvoidsVeiled(v, red, s);
    } else {
      BlankedAtHome(rets, own, j);
      forall i | s.start <= i < s.end ensures 0 <= i < |v| && v[i] == '.' {
        HomeIsCovered(rets, own, j, i);
      }
      DotsAvoided(v, red, s);
    }
  }

  lemma {:induction false} TameAvoids(red: string, reason: string, s: Span)
    requires Tame(reason) && Quotes(red, reason, s)
    ensures Avoids(red, s)
  {
    hide Quotes, Avoids, Unnamed, Clear;
    QuoteAvoidsEntries(red, reason, s);
  }

  lemma {:induction false} AvoidsVeiled(v: string, red: string, s: Span)
    requires Veils(v, red) && Avoids(red, s)
    ensures Avoids(v, s)
  {
    hide EntryAt, KindAt, Name, Veils;
    forall p: nat, t: nat | HeadedBy(v, p, t) ensures EntryAt(v, p).value.end <= s.start || s.end <= p {
      VeiledEntry(v, red, p, t);
      AvoidsOne(red, s, p, t);
    }
  }

  lemma {:induction false} ApartByDots(v: string, p: nat, end: nat, s: Span)
    requires p < end <= |v| && forall i :: p <= i < end ==> v[i] != '.'
    requires 0 <= s.start < s.end <= |v| && forall i :: s.start <= i < s.end ==> v[i] == '.'
    ensures end <= s.start || s.end <= p
  {
    var a, b := v[p], v[s.start];
  }

  lemma {:induction false} DotsAvoided(v: string, red: string, s: Span)
    requires Veils(v, red) && 0 <= s.start < s.end <= |v| && forall i :: s.start <= i < s.end ==> v[i] == '.'
    ensures Avoids(v, s)
  {
    hide EntryAt, KindAt, Name, Veils;
    forall p: nat, t: nat | HeadedBy(v, p, t) ensures EntryAt(v, p).value.end <= s.start || s.end <= p {
      VeiledEntry(v, red, p, t);
      var q := EntryHasShape(v, p);
      ApartByDots(v, p, EntryAt(v, p).value.end, s);
    }
  }

  lemma {:induction false} SpansAvoidShown(rets: seq<Ret>, own: string)
    requires Settled(rets, own)
    ensures forall s :: s in SpansOf(Red(rets, own), rets) ==>
      EndsOnWords(VeiledRed(rets, own), s) && Avoids(VeiledRed(rets, own), s)
  {
    hide Red, VeiledRed, Choice, Taken, Sorted, Avoids, EndsOnWords, Settled, ContextOf, Ascending;
    var red := Red(rets, own);
    var choice := Choice(ContextOf(red), rets);
    ChoiceIsSound(red, rets);
    SortedAscends(Taken(choice), |red|);
    forall s | s in SpansOf(red, rets) ensures EndsOnWords(VeiledRed(rets, own), s) && Avoids(VeiledRed(rets, own), s) {
      TakenFrom(choice, s);
      var j :| 0 <= j < |choice| && choice[j] == Some(s);
      SpanAvoidsShown(rets, own, j, s);
    }
  }

  lemma {:induction false} SpanListed(red: string, rets: seq<Ret>, j: nat, s: Span)
    requires j < |rets| && Choice(ContextOf(red), rets)[j] == Some(s)
    ensures s in SpansOf(red, rets)
  {
    hide Choice, Taken, Sorted, Ascending, ContextOf;
    var choice := Choice(ContextOf(red), rets);
    ChoiceIsSound(red, rets);
    SortedAscends(Taken(choice), |red|);
    assert choice[j] in choice;
    TakenFrom(choice, s);
  }

  /** Blanking takes all that was covered. */
  lemma {:induction false} CoveredIsBlanked(rets: seq<Ret>, own: string)
    requires Settled(rets, own)
    ensures |VeiledRed(rets, own)| == |Red(rets, own)|
    ensures Blanked(VeiledRed(rets, own), SpansOf(Red(rets, own), rets)) == WithoutReasons(Red(rets, own), rets)
  {
    hide Red, TextOf, Choice, Settled, ContextOf, HomeSpan, SpansOf, Blanked, Ascending, SameButVeiled, CoveredIn, Tame;
    var red, v := Red(rets, own), VeiledRed(rets, own);
    VeiledList(rets, own);
    RedIsText(rets, own);
    VeilsText(VeiledPieces(rets, own), Pieces(rets, own));
    forall i | 0 <= i < |red| && v[i] != red[i] ensures InSpan(SpansOf(red, rets), i) {
      CoveredIsHome(rets, own, i);
      var j :| 0 <= j < |rets| && AtWildHome(rets, own, i, j);
      BlankedAtHome(rets, own, j);
      SpanListed(red, rets, j, HomeSpan(rets, own, j));
      var k :| 0 <= k < |SpansOf(red, rets)| && SpansOf(red, rets)[k] == HomeSpan(rets, own, j);
    }
    VeiledBlank(v, red, SpansOf(red, rets));
  }

  /** The list that `draft` prints is accepted by the check for the same returns, whenever no author and no printed
      item names a kind and each reason either names none or stays at home. */
  lemma {:induction false} PrinterAndCheckerAgree(rets: seq<Ret>, own: string)
    requires Settled(rets, own)
    ensures Checked(Red(rets, own), rets) == Findings([])
  {
    hide Red, Checked, WithoutReasons, Framed, Named, SpansOf, Blanked, Avoids, EndsOnWords, Settled, Ascending,
      TextOf, SameButVeiled;
    VeiledList(rets, own);
    TextNames(VeiledPieces(rets, own));
    SpansAvoidShown(rets, own);
    CoveredIsBlanked(rets, own);
    BlankKeepsNames(VeiledRed(rets, own), SpansOf(Red(rets, own), rets));
    NamedIsAccepted(rets, own);
  }
}
