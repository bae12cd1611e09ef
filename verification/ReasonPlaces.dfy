/** Where the printed list is blanked: every reason once, at its own place or before it. Which lists `draft` prints
    and the check accepts. */
module ReasonPlaces {
  import opened Options
  import opened Text
  import opened Normalise
  import opened ReturnKinds
  import opened Blanking
  import opened ReturnReasons

  // ---- where a part of a text shows in its normalised form ----------------------------------------

  /** A character that is a letter or digit of the normalised text. */
  predicate Shows(c: char) {
    Alnum(Lower(c)[0])
  }

  /** How many characters stand before the first that shows. */
  function Skip(s: string): (n: nat)
    ensures n <= |s| && (n < |s| ==> Shows(s[n])) && forall i :: 0 <= i < n ==> !Shows(s[i])
  {
    if s == [] || Shows(s[0]) then 0 else 1 + Skip(s[1..])
  }

  /** Where the last one that shows ends. */
  function Keep(s: string): (n: nat)
    ensures n <= |s| && (n > 0 ==> Shows(s[n - 1])) && forall i :: n <= i < |s| ==> !Shows(s[i])
  {
    if s == [] || Shows(s[|s| - 1]) then |s| else Keep(s[..|s| - 1])
  }

  /** Where a letter or digit of the source shows in the normalised text. */
  lemma {:induction false} ShowsAt(s: string, i: nat)
    requires i < |s| && Shows(s[i])
    ensures var q := |Trace(s[..i]).text|;
      |Trace(s).text| == |Trace(s).at| && q < |Trace(s).text| && Trace(s).at[q] == i
      && Trace(s).text[q] == Lower(s[i])[0]
  {
    hide Trace, Lower;
    var q := |Trace(s[..i]).text|;
    SameLength(s);
    SameLength(s[..i]);
    assert s[..i + 1] == s[..i] + [s[i]];
    TraceSnoc(s[..i], s[i]);
    FeedLetter(Trace(s[..i]), s[i], i);
    TraceGrows(s, i + 1);
    MapIsTrue(s, q);
    var o := Trace(s);
    assert o.text[q] == Trace(s[..i + 1]).text[q] == Lower(s[i])[0];
    LowerIsNoSpace(s[i]);
    var k := o.at[q];
    assert |Trace(s[..k]).text| == q && |Trace(s[..k + 1]).text| >= q + 1;
    if k < i {
      TraceLonger(s, k + 1, i);
    } else if k > i {
      TraceLonger(s, i + 1, k);
    }
  }

  lemma {:induction false} TraceLonger(s: string, i: nat, j: nat)
    requires i <= j <= |s|
    ensures |Trace(s[..i]).text| <= |Trace(s[..j]).text|
  {
    hide Trace;
    assert s[..j][..i] == s[..i];
    TraceGrows(s[..j], i);
  }

  lemma {:induction false} LowerIsNoSpace(c: char)
    ensures Alnum(Lower(c)[0]) ==> Lower(c)[0] != ' '
  {
  }

  /** What does not show adds at most one space. */
  lemma {:induction false} QuietEnd(s: string, i: nat)
    requires i <= |s| && forall k :: i <= k < |s| ==> !Shows(s[k])
    ensures var t := Trace(s[..i]).text;
      Trace(s).text == t || (Trace(s).text == t + [' '] && t != [] && t[|t| - 1] != ' ')
    decreases |s|
  {
    hide Trace, Lower;
    if i == |s| {
      assert s[..i] == s;
    } else {
      var front, c := s[..|s| - 1], s[|s| - 1];
      assert s == front + [c] && front[..i] == s[..i];
      QuietEnd(front, i);
      TraceSnoc(front, c);
    }
  }

  /** A normalised text ends with the last character that shows. */
  lemma {:induction false} LastShown(part: string)
    requires NormText(part) != []
    ensures 0 < Keep(part) && |Trace(part[..Keep(part) - 1]).text| == |NormText(part)| - 1
  {
    hide Trace, Lower, NormText;
    var n, k := NormText(part), Keep(part);
    NormIsTrace(part);
    QuietEnd(part, k);
    TraceNothing();
    assert part[..0] == [];
    var f, c := part[..k - 1], part[k - 1];
    assert part[..k] == f + [c];
    SameLength(f);
    TraceSnoc(f, c);
    FeedGrows(Trace(f), c, k - 1);
    FeedLetter(Trace(f), c, k - 1);
    LowerIsNoSpace(c);
    var t, q := Trace(part[..k]).text, |Trace(f).text|;
    assert t == t[..q + 1] || t == t[..q + 1] + [' '];
    assert t[q] != ' ';
  }

  /** It begins with the first one. */
  lemma {:induction false} NothingShown(s: string)
    requires forall k :: 0 <= k < |s| ==> !Shows(s[k])
    ensures Trace(s).text == [] && NormText(s) == []
  {
    hide Trace, NormText;
    assert s[..0] == [];
    TraceNothing();
    QuietEnd(s, 0);
    NormIsTrace(s);
  }

  lemma {:induction false} SpaceBehind(part: string, c: char)
    requires IsSpace(c) && NormText(part) != []
    ensures Trace(part + [c]).text == NormText(part) + [' ']
  {
    hide Trace, NormText, IsSpace;
    NormIsTrace(part);
    TraceSnoc(part, c);
    SpaceSeparates(c);
  }

  /** Where the first and the last character of a part that show stand in the normalised text. */
  lemma {:induction false} EndsShow(x: string, part: string, y: string)
    requires AtWord(Trace(x).text) && NormText(part) != []
    ensures var o, q, n := Trace(x + part + y), |Trace(x).text|, NormText(part);
      && Skip(part) < Keep(part)
      && q + |n| <= |o.at| && o.at[q] == |x| + Skip(part) && o.at[q + |n| - 1] == |x| + Keep(part) - 1
  {
    hide Trace, NormText, Lower, Skip, Keep, Shows;
    var s, i, k := x + part + y, Skip(part), Keep(part);
    SameLength(s);
    LastShown(part);
    if i == |part| {
      NothingShown(part);
    }
    assert i < k;
    assert s[..|x| + i] == x + part[..i] && s[|x| + i] == part[i];
    NothingShown(part[..i]);
    TraceAppend(x, part[..i]);
    ShowsAt(s, |x| + i);
    assert s[..|x| + k - 1] == x + part[..k - 1] && s[|x| + k - 1] == part[k - 1];
    TraceAppend(x, part[..k - 1]);
    ShowsAt(s, |x| + k - 1);
  }

  /** A part between white space stands in the normalised text, on word boundaries, and its span goes from its first
      to its last letter or digit. */
  lemma {:induction false} PartShows(x: string, part: string, y: string)
    requires x == [] || IsSpace(x[|x| - 1])
    requires y != [] && IsSpace(y[0]) && NormText(part) != []
    ensures var norm, q, n := Normed(x + part + y), |Trace(x).text|, NormText(part);
      && StandsAt(norm.text, n, q) && OnWords(norm.text, q, q + |n|)
      && Skip(part) < Keep(part)
      && SpanAt(norm, q, |n|) == Span(|x| + Skip(part), |x| + Keep(part))
  {
    hide Trace, NormText, TrimEnd, IsSpace, Skip, Keep, OnWords;
    var s, q, n := x + part + y, |Trace(x).text|, NormText(part);
    PartStands(x, part, y);
    SeparatedIsAtWord(x);
    EndsShow(x, part, y);
    SameLength(s);
    var o, norm, e := Trace(s), Normed(s), q + |n|;
    assert norm.at[q] == o.at[q] && norm.at[e - 1] == o.at[e - 1];
  }

  lemma {:induction false} PartTraced(x: string, part: string, y: string)
    requires AtWord(Trace(x).text) && y != [] && IsSpace(y[0]) && NormText(part) != []
    ensures Trace(x).text + (NormText(part) + [' ']) <= Trace(x + part + y).text
  {
    hide Trace, NormText, IsSpace, AtWord;
    var s := x + part + y;
    SpaceBehind(part, y[0]);
    TraceAppend(x, part + [y[0]]);
    assert s[..|x| + |part| + 1] == x + (part + [y[0]]);
    TraceGrows(s, |x| + |part| + 1);
  }

  lemma {:induction false} StandsInside(a: string, n: string, traced: string, text: string)
    requires AtWord(a) && n != [] && n[|n| - 1] != ' ' && a + (n + [' ']) <= traced
    requires traced == text || traced == text + [' ']
    ensures StandsAt(text, n, |a|) && OnWords(text, |a|, |a| + |n|)
  {
    var e := |a| + |n|;
    assert traced[..e + 1] == a + (n + [' ']);
    assert traced[e - 1] == n[|n| - 1] && traced[e] == ' ';
    assert text[..e] == traced[..e] == a + n;
    assert text[|a|..e] == n;
  }

  lemma {:induction false} PartStands(x: string, part: string, y: string)
    requires x == [] || IsSpace(x[|x| - 1])
    requires y != [] && IsSpace(y[0]) && NormText(part) != []
    ensures var text, q, n := Normed(x + part + y).text, |Trace(x).text|, NormText(part);
      StandsAt(text, n, q) && OnWords(text, q, q + |n|)
  {
    hide Trace, NormText, Normed, IsSpace, AtWord, OnWords, StandsAt;
    var s := x + part + y;
    SeparatedIsAtWord(x);
    PartTraced(x, part, y);
    NormIsTrace(s);
    NormAgrees(s);
    NormIsTrace(part);
    StandsInside(Trace(x).text, NormText(part), Trace(s).text, Normed(s).text);
  }

  lemma {:induction false} SameThere(s: string, at: nat, b: string)
    requires at + |b| <= |s| && s[at..at + |b|] == b
    ensures forall i :: 0 <= i < |b| ==> s[at + i] == b[i]
  {
    forall i | 0 <= i < |b| ensures s[at + i] == b[i] {
      assert s[at..at + |b|][i] == s[at + i];
    }
  }

  // ---- a printed reason may be blanked where it is printed ----------------------------------------

  /** `s[at..end]` is printed as `draft` prints a reason. */
  ghost predicate Printed(s: string, at: nat, end: nat) {
    && 2 <= at <= end && end + 1 < |s|
    && s[at - 1] == ' ' && s[at - 2] == ':'
    && s[end] == ' ' && (IsDigit(s[end + 1]) || s[end + 1] == '<')
  }

  /** Names begin and end with a letter that shows. */
  lemma {:induction false} NameEndsShow(s: string, p: nat)
    requires KindAt(s, p).Some?
    ensures var end := p + |Name(KindAt(s, p).value)|; p < end <= |s| && Shows(s[p]) && Shows(s[end - 1])
  {
    hide KindAt, Spells;
    var k := KindAt(s, p).value;
    KindIff(s, p, k);
    CoversWord(s, p, p);
    SpellsEnds(s, p, Name(k));
  }

  lemma {:induction false} SpellsEnds(s: string, p: nat, w: string)
    requires w != [] && Spells(s, p, w) && w[0] in "trd" && w[|w| - 1] in "let"
    ensures Shows(s[p]) && Shows(s[p + |w| - 1])
  {
    assert Folded(s[p + 0]) == w[0] && Folded(s[p + (|w| - 1)]) == w[|w| - 1];
  }

  lemma {:induction false} DigitShows(c: char)
    requires IsDigit(c)
    ensures Shows(c)
  {
  }

  /** The span cuts no token and no entry. */
  lemma {:induction false} PrintedIsWhole(s: string, at: nat, end: nat, span: Span)
    requires Printed(s, at, end) && at <= span.start <= span.end <= end
    requires forall i :: at <= i < span.start || span.end <= i < end ==> !Shows(s[i])
    ensures Whole(span, ContextOf(s).kept)
  {
    hide Tokens, Entries, TokenAt, EntryAt, Normed, Shows, IsDigit;
    forall m | m in ContextOf(s).kept && Meets(span, m.start, m.end)
      ensures span.start <= m.start && m.end <= span.end
    {
      if m in Tokens(s, 0) {
        TokenListed(s, 0, m);
        TokenWithin(s, at, end, span, m);
      } else {
        EntryListedAt(s, 0, m);
        EntryWithin(s, at, end, span, m.start);
      }
    }
  }

  lemma {:induction false} EntryListedAt(s: string, i: nat, m: Match)
    requires m in Entries(s, i)
    ensures EntryAt(s, m.start) == Some(m)
    decreases |s| - i
  {
    hide EntryAt;
    if EntryAt(s, i).Some? {
      var q := EntryHasShape(s, i);
    }
    if !(EntryAt(s, i) == Some(m)) {
      EntryListedAt(s, i + 1, m);
    }
  }

  lemma {:induction false} TokenWithin(s: string, at: nat, end: nat, span: Span, m: Match)
    requires Printed(s, at, end) && at <= span.start <= span.end <= end
    requires forall i :: at <= i < span.start || span.end <= i < end ==> !Shows(s[i])
    requires TokenAt(s, m.start) == Some(m) && Meets(span, m.start, m.end)
    ensures span.start <= m.start && m.end <= span.end
  {
    hide KindAt, Name, Wordy, Shows, IsDigit;
    FoldedSpace();
    NameEndsShow(s, m.start);
    if m.start < at {
      CoversWord(s, m.start, at - 1);
    }
    if m.end > end {
      CoversWord(s, m.start, end);
    }
  }

  lemma {:induction false} EntryWithin(s: string, at: nat, end: nat, span: Span, p: nat)
    requires Printed(s, at, end) && at <= span.start <= span.end <= end
    requires forall i :: at <= i < span.start || span.end <= i < end ==> !Shows(s[i])
    requires EntryAt(s, p).Some? && Meets(span, p, EntryAt(s, p).value.end)
    ensures span.start <= p && EntryAt(s, p).value.end <= span.end
  {
    hide KindAt, Name, Wordy, Shows, EntryAt, IsDigit, IsSpace;
    FoldedSpace();
    var q := EntryHasShape(s, p);
    var e := EntryAt(s, p).value;
    NameEndsShow(s, e.at);
    DigitShows(s[p]);
    PlainPunctuation(s[at - 1]);
    PlainPunctuation(s[at - 2]);
    PlainPunctuation(s[end]);
    PlainPunctuation(s[end + 1]);
    if p < at {
      if e.at <= at - 1 {
        CoversWord(s, e.at, at - 1);
      }
    }
    if e.end > end {
      if e.at <= end {
        CoversWord(s, e.at, end);
      } else if e.at == end + 1 {
        CoversWord(s, e.at, e.at);
      }
    }
  }

  lemma {:induction false} PlainPunctuation(c: char)
    ensures c == ' ' || c == ':' ==> !IsDigit(c) && c != ')' && !Wordy(c)
    ensures c == ':' || IsDigit(c) || c == '<' ==> !IsSpace(c) && !Wordy(c)
  {
  }

  /** The letters and digits of the reason of return `j`, where `draft` prints it. */
  function HomeSpan(rets: seq<Ret>, own: string, j: nat): Span
    requires j < |rets|
  {
    Span(HomeAt(rets, own, j) + Skip(rets[j].reason), HomeAt(rets, own, j) + Keep(rets[j].reason))
  }

  /** Where they start in the normalised text. */
  function HomePlace(rets: seq<Ret>, own: string, j: nat): nat
    requires j < |rets| && NormText(rets[j].reason) != ""
  {
    NothingNormalises();
    ReasonPrinted(rets, own, j);
    |Trace(Red(rets, own)[..HomeAt(rets, own, j)]).text|
  }

  ghost predicate StandsWordAligned(text: string, v: string, p: nat) {
    StandsAt(text, v, p) && OnWords(text, p, p + |v|)
  }

  /** A reason stands in the normalised list at its own place, and cuts nothing there. */
  lemma {:induction false} HomeShows(rets: seq<Ret>, own: string, j: nat)
    requires j < |rets| && NormText(rets[j].reason) != ""
    ensures var c, v, q := ContextOf(Red(rets, own)), NormText(rets[j].reason), HomePlace(rets, own, j);
      && StandsWordAligned(c.norm.text, v, q)
      && SpanAt(c.norm, q, |v|) == HomeSpan(rets, own, j)
      && Whole(HomeSpan(rets, own, j), c.kept)
    ensures 0 <= HomeSpan(rets, own, j).start < HomeSpan(rets, own, j).end <= |Red(rets, own)|
  {
    hide Red, HomeAt, NormText, Normed, Trace, Tokens, Entries, OnWords, StandsAt, Whole, Skip, Keep, IsSpace, IsDigit,
      Lower, Quoted, TrimEnd;
    NothingNormalises();
    ReasonPrinted(rets, own, j);
    var s, at, reason := Red(rets, own), HomeAt(rets, own, j), rets[j].reason;
    var end := at + |reason|;
    SpaceIsSpace();
    assert s == s[..at] + reason + s[end..];
    PartShows(s[..at], reason, s[end..]);
    PrintedIsWhole(s, at, end, HomeSpan(rets, own, j));
  }

  lemma {:induction false} BodyLonger(ps: seq<Piece>, i: nat, j: nat)
    requires i <= j <= |ps|
    ensures |Body(ps[..i])| <= |Body(ps[..j])|
  {
    hide Body, PieceText;
    if i < j {
      BodyLonger(ps, i, j - 1);
      assert ps[..j] == ps[..j - 1] + [ps[j - 1]];
      BodySnoc(ps[..j - 1], ps[j - 1]);
    }
  }

  lemma {:induction false} PieceEnds(ps: seq<Piece>, i: nat)
    requires i < |ps|
    ensures RestAt(ps, i) + |ps[i].rest| == |Body(ps[..i + 1])|
  {
    hide EntryText, Body;
    assert ps[..i + 1] == ps[..i] + [ps[i]];
    BodySnoc(ps[..i], ps[i]);
  }

  lemma {:induction false} HomesInOrder(rets: seq<Ret>, own: string, i: nat, j: nat)
    requires i < j < |rets| && rets[i].reason != ""
    ensures HomeSpan(rets, own, i).end <= HomeSpan(rets, own, j).start
  {
    hide Lead, Body, Skip, Keep, EntryText;
    var ps := Pieces(rets, own);
    PieceEnds(ps, i);
    BodyLonger(ps, i + 1, j);
  }

  /** An earlier place ends earlier. */
  lemma {:induction false} PlacesInOrder(red: string, v: string, x: nat, y: nat)
    requires x <= y && v != [] && v[|v| - 1] != ' '
    requires StandsAt(Normed(red).text, v, x) && StandsAt(Normed(red).text, v, y)
    ensures SpanAt(Normed(red), x, |v|).end <= SpanAt(Normed(red), y, |v|).end
  {
    hide Trace, TrimEnd;
    SameLength(red);
    var o, norm, n := Trace(red), Normed(red), |v|;
    LastOf(norm.text, v, x);
    LastOf(norm.text, v, y);
    MapIsTrue(red, x + n - 1);
    MapIsTrue(red, y + n - 1);
    assert o.text[x + n - 1] == norm.text[x + n - 1] && o.text[y + n - 1] == norm.text[y + n - 1];
    if x < y {
      MapIncreases(red, x + n - 1, y + n - 1);
    }
  }

  lemma {:induction false} LastOf(text: string, v: string, p: nat)
    requires v != [] && StandsAt(text, v, p)
    ensures p + |v| <= |text| && text[p + |v| - 1] == v[|v| - 1]
  {
    assert text[p..p + |v|][|v| - 1] == text[p + |v| - 1];
  }

  // ---- every reason is blanked --------------------------------------------------------------------

  lemma {:induction false} FullFirst(reason: string)
    requires NormText(reason) != ""
    ensures Variants(reason) != [] && Variants(reason)[0] == NormText(reason)
  {
    hide NormText;
  }

  lemma {:induction false} FreeOfEarlier(c: Context, rets: seq<Ret>, j: nat, span: Span)
    requires |c.norm.text| == |c.norm.at| && j <= |rets|
    requires forall i :: 0 <= i < j && Choice(c, rets)[i].Some? ==> Choice(c, rets)[i].value.end <= span.start
    ensures Free(span, Taken(Choice(c, rets[..j])))
  {
    hide Choice, Taken;
    var before := Choice(c, rets[..j]);
    forall s | s in Taken(before) ensures s.end <= span.start {
      TakenFrom(before, s);
      var i :| 0 <= i < |before| && before[i] == Some(s);
      ChoiceOfFront(c, rets, i, j);
    }
  }

  lemma {:induction false} ChoiceOfFront(c: Context, rets: seq<Ret>, i: nat, j: nat)
    requires |c.norm.text| == |c.norm.at| && i < j <= |rets|
    ensures Choice(c, rets[..j])[i] == Choice(c, rets)[i]
  {
    hide Choice, Place, Taken, Variants;
    ChoiceAt(c, rets, i);
    ChoiceAt(c, rets[..j], i);
    assert rets[..j][..i] == rets[..i];
  }

  lemma {:induction false} NothingPlaced(c: Context, rets: seq<Ret>, j: nat)
    requires |c.norm.text| == |c.norm.at| && j < |rets| && NormText(rets[j].reason) == ""
    ensures Choice(c, rets)[j].None?
  {
    hide Choice, NormText, Taken;
    ChoiceAt(c, rets, j);
  }

  /** What the search does for return `j`: the whole reason is found at `x`, at its own place or before it, and nothing
      before `x` may be blanked. */
  ghost predicate BlankedAt(rets: seq<Ret>, own: string, j: nat, x: nat)
    requires j < |rets| && NormText(rets[j].reason) != ""
  {
    var c, v := ContextOf(Red(rets, own)), NormText(rets[j].reason);
    var chosen := Taken(Choice(c, rets[..j]));
    && x <= HomePlace(rets, own, j) && Usable(c, chosen, v, x)
    && Choice(c, rets)[j] == Some(SpanAt(c.norm, x, |v|))
    && forall y :: 0 <= y < x ==> !Usable(c, chosen, v, y)
  }

  /** Every recorded reason with a letter or digit is blanked once, whole, at the place where it is printed or before
      it - whatever authors, items and the other reasons are. */
  lemma {:induction false} EveryReasonIsBlanked(rets: seq<Ret>, own: string, j: nat) returns (x: nat)
    requires j < |rets| && NormText(rets[j].reason) != ""
    ensures BlankedAt(rets, own, j, x)
    ensures Choice(ContextOf(Red(rets, own)), rets)[j].value.end <= HomeSpan(rets, own, j).end
    decreases j
  {
    hide Red, HomeSpan, HomePlace, ContextOf, NormText, Choice, Taken, Variants, Place, Usable, FirstUse;
    var c, v := ContextOf(Red(rets, own)), NormText(rets[j].reason);
    var chosen, home := Taken(Choice(c, rets[..j])), HomePlace(rets, own, j);
    forall i | 0 <= i < j && Choice(c, rets)[i].Some?
      ensures Choice(c, rets)[i].value.end <= HomeSpan(rets, own, j).start
    {
      if NormText(rets[i].reason) == "" {
        NothingPlaced(c, rets, i);
      } else {
        NothingNormalises();
        var y := EveryReasonIsBlanked(rets, own, i);
        HomesInOrder(rets, own, i, j);
      }
    }
    HomeIsUsable(rets, own, j);
    x := UsedBy(rets, j, c, home);
    EndsByHome(rets, own, j, chosen, x);
  }

  lemma {:induction false} HomeIsUsable(rets: seq<Ret>, own: string, j: nat)
    requires j < |rets| && NormText(rets[j].reason) != ""
    requires var c := ContextOf(Red(rets, own));
      forall i :: 0 <= i < j && Choice(c, rets)[i].Some? ==> Choice(c, rets)[i].value.end <= HomeSpan(rets, own, j).start
    ensures var c := ContextOf(Red(rets, own));
      Usable(c, Taken(Choice(c, rets[..j])), NormText(rets[j].reason), HomePlace(rets, own, j))
  {
    hide Red, HomeSpan, HomePlace, ContextOf, NormText, Choice, Taken, OnWords, Whole, Free;
    var c := ContextOf(Red(rets, own));
    HomeShows(rets, own, j);
    FreeOfEarlier(c, rets, j, HomeSpan(rets, own, j));
  }

  /** The whole reason is used, at its first usable place. */
  lemma {:induction false} UsedBy(rets: seq<Ret>, j: nat, c: Context, home: nat) returns (x: nat)
    requires |c.norm.text| == |c.norm.at| && j < |rets| && NormText(rets[j].reason) != ""
    requires Usable(c, Taken(Choice(c, rets[..j])), NormText(rets[j].reason), home)
    ensures var v, chosen := NormText(rets[j].reason), Taken(Choice(c, rets[..j]));
      && x <= home && Usable(c, chosen, v, x) && Choice(c, rets)[j] == Some(SpanAt(c.norm, x, |v|))
      && forall y :: 0 <= y < x ==> !Usable(c, chosen, v, y)
  {
    hide NormText, Choice, Taken, Variants, Usable, FirstUse;
    var v, chosen := NormText(rets[j].reason), Taken(Choice(c, rets[..j]));
    FullFirst(rets[j].reason);
    ChoiceAt(c, rets, j);
    x := FirstUseIsFirst(c, chosen, v, 0);
  }

  lemma {:induction false} EndsByHome(rets: seq<Ret>, own: string, j: nat, chosen: seq<Span>, x: nat)
    requires j < |rets| && NormText(rets[j].reason) != "" && x <= HomePlace(rets, own, j)
    requires Usable(ContextOf(Red(rets, own)), chosen, NormText(rets[j].reason), x)
    ensures SpanAt(ContextOf(Red(rets, own)).norm, x, |NormText(rets[j].reason)|).end <= HomeSpan(rets, own, j).end
  {
    hide Red, HomeSpan, HomePlace, NormText, Normed, Tokens, Entries, OnWords, Whole, Free, StandsAt;
    HomeShows(rets, own, j);
    NormIsWords(rets[j].reason);
    PlacesInOrder(Red(rets, own), NormText(rets[j].reason), x, HomePlace(rets, own, j));
  }
}
