/** The return-kind names in a text: the two patterns the checks look for, and where they can and cannot match. */
module ReturnKinds {
  import opened Options
  import opened Text

  datatype Kind = TesterFail | ReviewerRequeue | DeveloperRequeue | ReviewerReject

  function Name(k: Kind): (s: string)
    ensures 11 <= |s| <= 17
  {
    match k
    case TesterFail => "tester-fail"
    case ReviewerRequeue => "reviewer-requeue"
    case DeveloperRequeue => "developer-requeue"
    case ReviewerReject => "reviewer-reject"
  }

  /** The lower-case letter a character stands for under `re.IGNORECASE`; three letters beyond ASCII count as
      "i" or "s", the Kelvin sign as "k". */
  function Folded(c: char): char {
    if 'A' <= c <= 'Z' then (c as int + 32) as char
    else if c == '\U{130}' || c == '\U{131}' then 'i'
    else if c == '\U{17f}' then 's'
    else if c == '\U{212a}' then 'k'
    else c
  }

  /** The class `[A-Za-z-]` of both patterns. */
  predicate Wordy(c: char) {
    'a' <= Folded(c) <= 'z' || c == '-'
  }

  predicate IsDigit(c: char) {
    '0' <= c <= '9'
  }

  predicate Spells(s: string, p: nat, w: string) {
    p + |w| <= |s| && forall i :: 0 <= i < |w| ==> Folded(s[p + i]) == w[i]
  }

  /** The alternatives of the pattern, tried in order. */
  function KindAt(s: string, p: nat): Option<Kind> {
    if Spells(s, p, Name(TesterFail)) then Some(TesterFail)
    else if Spells(s, p, Name(ReviewerRequeue)) then Some(ReviewerRequeue)
    else if Spells(s, p, Name(DeveloperRequeue)) then Some(DeveloperRequeue)
    else if Spells(s, p, Name(ReviewerReject)) then Some(ReviewerReject)
    else None
  }

  datatype Match = Match(start: nat, at: nat, end: nat, kind: Kind)

  /** A kind name that is not part of a longer word. */
  function TokenAt(s: string, p: nat): Option<Match> {
    if p > |s| then None
    else
      match KindAt(s, p)
      case None => None
      case Some(k) =>
        var end := p + |Name(k)|;
        if (p > 0 && Wordy(s[p - 1])) || (end < |s| && Wordy(s[end])) then None else Some(Match(p, p, end, k))
  }

  function DigitsEnd(s: string, p: nat): (q: nat)
    requires p <= |s|
    ensures p <= q <= |s| && forall i :: p <= i < q ==> IsDigit(s[i])
    ensures q < |s| ==> !IsDigit(s[q])
    decreases |s| - p
  {
    if p < |s| && IsDigit(s[p]) then DigitsEnd(s, p + 1) else p
  }

  function SpacesEnd(s: string, p: nat): (q: nat)
    requires p <= |s|
    ensures p <= q <= |s| && forall i :: p <= i < q ==> IsSpace(s[i])
    ensures q < |s| ==> !IsSpace(s[q])
    decreases |s| - p
  {
    if p < |s| && IsSpace(s[p]) then SpacesEnd(s, p + 1) else p
  }

  /** A numbered entry - digits, ")", white space, a kind name - that starts a word. */
  function EntryAt(s: string, p: nat): Option<Match> {
    if p >= |s| || (p > 0 && !IsSpace(s[p - 1])) then None
    else
      var q := DigitsEnd(s, p);
      if q == p || q >= |s| || s[q] != ')' then None
      else
        var t := SpacesEnd(s, q + 1);
        if t == q + 1 then None
        else
          match KindAt(s, t)
          case None => None
          case Some(k) =>
            var end := t + |Name(k)|;
            if end < |s| && Wordy(s[end]) then None else Some(Match(p, t, end, k))
  }

  /** All tokens, and all entries, from position `i` on. */
  function Tokens(s: string, i: nat): seq<Match>
    decreases |s| - i
  {
    if i >= |s| then []
    else (if TokenAt(s, i).Some? then [TokenAt(s, i).value] else []) + Tokens(s, i + 1)
  }

  function Entries(s: string, i: nat): seq<Match>
    decreases |s| - i
  {
    if i >= |s| then []
    else (if EntryAt(s, i).Some? then [EntryAt(s, i).value] else []) + Entries(s, i + 1)
  }

  function Kinds(ms: seq<Match>): (ks: seq<Kind>)
    ensures |ks| == |ms| && forall i :: 0 <= i < |ms| ==> ks[i] == ms[i].kind
  {
    seq(|ms|, i requires 0 <= i < |ms| => ms[i].kind)
  }

  // ---- the names -------------------------------------------------------------------------------

  /** Every name is made of letters and one or more hyphens, and starts with a letter. */
  lemma {:induction false} NameLetters(k: Kind)
    ensures forall i :: 0 <= i < |Name(k)| ==> 'a' <= Name(k)[i] <= 'z' || Name(k)[i] == '-'
    ensures 'a' <= Name(k)[0] <= 'z' && '-' in Name(k)
  {
    match k {
      case TesterFail => assert Name(k)[6] == '-';
      case ReviewerRequeue => assert Name(k)[8] == '-';
      case DeveloperRequeue => assert Name(k)[9] == '-';
      case ReviewerReject => assert Name(k)[8] == '-';
    }
  }

  lemma {:induction false} FoldedLetters(c: char)
    ensures Folded(c) == '-' ==> c == '-'
    ensures IsDigit(c) || IsSpace(c) || c == ')' ==> !Wordy(c)
    ensures 'a' <= Folded(c) <= 'z' || Folded(c) == '-' ==> Wordy(c)
  {
  }

  /** The same text, but for the case of its ASCII letters. */
  ghost predicate SameButCase(s: string, t: string) {
    |s| == |t| && forall i :: 0 <= i < |s| ==> SameLetter(s[i], t[i])
  }

  ghost predicate SameLetter(a: char, b: char) {
    a == b || ('A' <= a <= 'Z' && a as int + 32 == b as int) || ('A' <= b <= 'Z' && b as int + 32 == a as int)
  }

  lemma {:induction false} SameLetterSame(a: char, b: char)
    requires SameLetter(a, b)
    ensures Folded(a) == Folded(b) && (Wordy(a) <==> Wordy(b))
    ensures (IsDigit(a) <==> IsDigit(b)) && (IsSpace(a) <==> IsSpace(b)) && (a == ')' <==> b == ')')
  {
  }

  lemma {:induction false} SameSpelling(s: string, t: string, p: nat, w: string)
    requires SameButCase(s, t)
    ensures Spells(s, p, w) <==> Spells(t, p, w)
  {
    hide Folded, SameLetter;
    forall i | 0 <= i < |s| ensures Folded(s[i]) == Folded(t[i]) {
      SameLetterSame(s[i], t[i]);
    }
  }

  lemma {:induction false} SameRuns(s: string, t: string, p: nat)
    requires SameButCase(s, t) && p <= |s|
    ensures DigitsEnd(s, p) == DigitsEnd(t, p) && SpacesEnd(s, p) == SpacesEnd(t, p)
    decreases |s| - p
  {
    hide SameLetter, IsDigit, IsSpace;
    if p < |s| {
      SameLetterSame(s[p], t[p]);
      SameRuns(s, t, p + 1);
    }
  }

  lemma {:induction false} SameKind(s: string, t: string, p: nat)
    requires SameButCase(s, t)
    ensures KindAt(s, p) == KindAt(t, p)
  {
    hide SameButCase, Spells;
    SameSpelling(s, t, p, Name(TesterFail));
    SameSpelling(s, t, p, Name(ReviewerRequeue));
    SameSpelling(s, t, p, Name(DeveloperRequeue));
    SameSpelling(s, t, p, Name(ReviewerReject));
  }

  lemma {:induction false} SameChar(s: string, t: string, i: int)
    requires SameButCase(s, t)
    ensures |s| == |t|
    ensures 0 <= i < |s| ==> (Wordy(s[i]) <==> Wordy(t[i])) && (IsSpace(s[i]) <==> IsSpace(t[i])) && (s[i] == ')' <==> t[i] == ')')
  {
    hide SameLetter, Wordy, IsSpace;
    if 0 <= i < |s| {
      SameLetterSame(s[i], t[i]);
    }
  }

  lemma {:induction false} SameToken(s: string, t: string, p: nat)
    requires SameButCase(s, t) && p < |s|
    ensures TokenAt(s, p) == TokenAt(t, p)
  {
    hide SameButCase, Wordy, KindAt, IsSpace;
    SameKind(s, t, p);
    SameChar(s, t, p - 1);
    if KindAt(s, p).Some? {
      SameChar(s, t, p + |Name(KindAt(s, p).value)|);
    }
  }

  lemma {:induction false} SameEntry(s: string, t: string, p: nat)
    requires SameButCase(s, t) && p < |s|
    ensures EntryAt(s, p) == EntryAt(t, p)
  {
    hide SameButCase, Wordy, KindAt, DigitsEnd, SpacesEnd, IsSpace, IsDigit, Name;
    SameChar(s, t, p - 1);
    SameRuns(s, t, p);
    var q := DigitsEnd(s, p);
    SameChar(s, t, q);
    if q < |s| {
      SameRuns(s, t, q + 1);
      var r := SpacesEnd(s, q + 1);
      SameKind(s, t, r);
      if KindAt(s, r).Some? {
        SameChar(s, t, r + |Name(KindAt(s, r).value)|);
      }
    }
  }

  /** The case of a text's ASCII letters decides nothing. */
  lemma {:induction false} CaseAside(s: string, t: string, i: nat)
    requires SameButCase(s, t)
    ensures Tokens(s, i) == Tokens(t, i) && Entries(s, i) == Entries(t, i)
    decreases |s| - i
  {
    hide SameButCase, TokenAt, EntryAt;
    SameChar(s, t, i);
    if i < |s| {
      SameToken(s, t, i);
      SameEntry(s, t, i);
      CaseAside(s, t, i + 1);
    }
  }

  /** No text spells two names at one place. */
  lemma {:induction false} OneName(s: string, p: nat, k: Kind, l: Kind)
    requires Spells(s, p, Name(k)) && Spells(s, p, Name(l))
    ensures k == l
  {
    hide Folded;
    assert Name(k)[0] == Folded(s[p + 0]) == Name(l)[0];
    if |Name(k)| > 11 && |Name(l)| > 11 {
      assert Name(k)[11] == Folded(s[p + 11]) == Name(l)[11];
    }
  }

  lemma {:induction false} KindIff(s: string, p: nat, k: Kind)
    ensures KindAt(s, p) == Some(k) <==> Spells(s, p, Name(k))
  {
    hide Folded, Name, Spells;
    if Spells(s, p, Name(k)) {
      var l := KindAt(s, p).value;
      OneName(s, p, k, l);
    }
  }

  /** The characters a name covers are word characters, and the first is a letter. */
  lemma {:induction false} CoversWord(s: string, p: nat, i: nat)
    requires KindAt(s, p).Some? && p <= i < p + |Name(KindAt(s, p).value)|
    ensures p + |Name(KindAt(s, p).value)| <= |s| && Wordy(s[i])
  {
    hide Folded, Name, KindAt, Wordy;
    var k := KindAt(s, p).value;
    KindIff(s, p, k);
    NameLetters(k);
    assert Folded(s[p + (i - p)]) == Name(k)[i - p];
    FoldedLetters(s[i]);
  }

  lemma {:induction false} HasHyphen(s: string, p: nat)
    requires KindAt(s, p).Some?
    ensures '-' in s
  {
    hide Folded, Name, KindAt;
    var k := KindAt(s, p).value;
    KindIff(s, p, k);
    NameLetters(k);
    var i :| 0 <= i < |Name(k)| && Name(k)[i] == '-';
    assert Folded(s[p + i]) == '-';
    FoldedLetters(s[p + i]);
  }

  /** A name shows in the whole text as it does in a part of it that holds it. */
  lemma {:induction false} KindInPart(a: string, b: string, c: string, p: nat)
    ensures KindAt(b, p).Some? ==> KindAt(a + b + c, |a| + p) == KindAt(b, p)
    ensures KindAt(a + b + c, |a| + p).Some? && p + |Name(KindAt(a + b + c, |a| + p).value)| <= |b| ==>
      KindAt(b, p) == KindAt(a + b + c, |a| + p)
  {
    hide Folded, Name, KindAt;
    var s := a + b + c;
    assert forall i :: 0 <= i < |b| ==> s[|a| + i] == b[i];
    if KindAt(b, p).Some? {
      var k := KindAt(b, p).value;
      KindIff(b, p, k);
      KindIff(s, |a| + p, k);
      forall i | 0 <= i < |Name(k)| ensures Folded(s[|a| + p + i]) == Name(k)[i] {
        assert s[|a| + (p + i)] == b[p + i];
      }
    }
    if KindAt(s, |a| + p).Some? && p + |Name(KindAt(s, |a| + p).value)| <= |b| {
      var k := KindAt(s, |a| + p).value;
      KindIff(b, p, k);
      KindIff(s, |a| + p, k);
      forall i | 0 <= i < |Name(k)| ensures Folded(b[p + i]) == Name(k)[i] {
        assert s[|a| + (p + i)] == b[p + i];
        assert Folded(s[(|a| + p) + i]) == Name(k)[i];
      }
    }
  }

  // ---- matches do not overlap -------------------------------------------------------------------

  lemma {:induction false} TokensApart(s: string, p: nat, i: nat)
    requires TokenAt(s, p).Some? && p < i < TokenAt(s, p).value.end
    ensures TokenAt(s, i).None?
  {
    hide KindAt, Name, Wordy;
    CoversWord(s, p, i - 1);
  }

  /** The parts of an entry: digits up to `q`, ")", white space up to `t`, the name. */
  ghost predicate Shape(s: string, p: nat, q: nat, t: nat, k: Kind) {
    && p < q < |s| && (p > 0 ==> IsSpace(s[p - 1]))
    && (forall i :: p <= i < q ==> IsDigit(s[i]))
    && s[q] == ')' && q + 1 < t <= |s|
    && (forall i :: q < i < t ==> IsSpace(s[i]))
    && KindAt(s, t) == Some(k)
    && (t + |Name(k)| < |s| ==> !Wordy(s[t + |Name(k)|]))
  }

  lemma {:induction false} EntryHasShape(s: string, p: nat) returns (q: nat)
    requires EntryAt(s, p).Some?
    ensures var e := EntryAt(s, p).value;
      e.start == p && e.end == e.at + |Name(e.kind)| <= |s| && Shape(s, p, q, e.at, e.kind)
  {
    hide KindAt, Name, Wordy, IsSpace, IsDigit;
    q := DigitsEnd(s, p);
    var t := EntryAt(s, p).value.at;
    CoversWord(s, t, t);
  }

  lemma {:induction false} ShapeIsEntry(s: string, p: nat, q: nat, t: nat, k: Kind)
    requires Shape(s, p, q, t, k)
    ensures EntryAt(s, p) == Some(Match(p, t, t + |Name(k)|, k))
  {
    hide KindAt, Name, Wordy, Folded;
    assert DigitsEnd(s, p) == q;
    CoversWord(s, t, t);
    FoldedLetters(s[t]);
    assert SpacesEnd(s, q + 1) == t;
  }

  /** Inside an entry no other entry starts, and no name but its own. */
  lemma {:induction false} EntriesApart(s: string, p: nat, i: nat)
    requires EntryAt(s, p).Some? && p < i < EntryAt(s, p).value.end
    ensures EntryAt(s, i).None?
    ensures i < EntryAt(s, p).value.at ==> KindAt(s, i).None?
  {
    hide KindAt, Name, Wordy, EntryAt, Folded;
    var q := EntryHasShape(s, p);
    var e := EntryAt(s, p).value;
    assert i <= q ==> IsDigit(s[i - 1]);
    if EntryAt(s, i).Some? {
      var r := EntryHasShape(s, i);
      assert IsDigit(s[i]) && IsSpace(s[i - 1]);
      if i > e.at {
        CoversWord(s, e.at, i - 1);
        FoldedLetters(s[i - 1]);
      } else if i == e.at {
        CoversWord(s, e.at, i);
        FoldedLetters(s[i]);
      }
    }
    if i < e.at && KindAt(s, i).Some? {
      CoversWord(s, i, i);
      FoldedLetters(s[i]);
    }
  }

  lemma {:induction false} NameStartsNoEntry(s: string, p: nat)
    requires EntryAt(s, p).Some?
    ensures KindAt(s, p).None?
  {
    hide KindAt, Name, Wordy, EntryAt, Folded;
    var q := EntryHasShape(s, p);
    if KindAt(s, p).Some? {
      CoversWord(s, p, p);
      FoldedLetters(s[p]);
    }
  }

  // ---- scanning ---------------------------------------------------------------------------------

  lemma {:induction false} NoTokensIn(s: string, i: nat, j: nat)
    requires i <= j && forall x :: i <= x < j ==> TokenAt(s, x).None?
    ensures Tokens(s, i) == Tokens(s, j)
    decreases j - i
  {
    hide TokenAt;
    if i < j {
      NoTokensIn(s, i + 1, j);
    }
  }

  lemma {:induction false} NoEntriesIn(s: string, i: nat, j: nat)
    requires i <= j && forall x :: i <= x < j ==> EntryAt(s, x).None?
    ensures Entries(s, i) == Entries(s, j)
    decreases j - i
  {
    hide EntryAt;
    if i < j {
      NoEntriesIn(s, i + 1, j);
    }
  }

  lemma {:induction false} TokenEnds(s: string, i: nat)
    requires TokenAt(s, i).Some?
    ensures i < TokenAt(s, i).value.end <= |s| && TokenAt(s, i).value.start == i
  {
    hide Name, KindAt, Wordy;
    CoversWord(s, i, i);
  }

  /** Scanning on from a match goes on where it ends. */
  lemma {:induction false} TokensFrom(s: string, i: nat)
    requires i < |s|
    ensures Tokens(s, i) == match TokenAt(s, i) {
      case Some(m) => [m] + Tokens(s, m.end)
      case None => Tokens(s, i + 1)
    }
  {
    hide TokenAt;
    if TokenAt(s, i).Some? {
      var m := TokenAt(s, i).value;
      TokenEnds(s, i);
      forall x | i + 1 <= x < m.end ensures TokenAt(s, x).None? {
        TokensApart(s, i, x);
      }
      NoTokensIn(s, i + 1, m.end);
    }
  }

  lemma {:induction false} EntriesFrom(s: string, i: nat)
    requires i < |s|
    ensures Entries(s, i) == match EntryAt(s, i) {
      case Some(m) => [m] + Entries(s, m.end)
      case None => Entries(s, i + 1)
    }
  {
    hide EntryAt;
    if EntryAt(s, i).Some? {
      var m := EntryAt(s, i).value;
      var q := EntryHasShape(s, i);
      forall x | i + 1 <= x < m.end ensures EntryAt(s, x).None? {
        EntriesApart(s, i, x);
      }
      NoEntriesIn(s, i + 1, m.end);
    }
  }

  lemma {:induction false} ScannedAll(s: string)
    ensures Tokens(s, |s|) == [] && Entries(s, |s|) == []
  {
  }

  /** `finditer` over the tokens: it goes on where a match ends, and misses none. */
  method FindTokens(s: string) returns (found: seq<Match>)
    ensures found == Tokens(s, 0)
  {
    hide TokenAt, Tokens;
    found := [];
    var i := 0;
    while i < |s|
      invariant i <= |s| && found + Tokens(s, i) == Tokens(s, 0)
      decreases |s| - i
    {
      TokensFrom(s, i);
      match TokenAt(s, i)
      case Some(m) =>
        TokenEnds(s, i);
        found := found + [m];
        i := m.end;
      case None =>
        i := i + 1;
    }
    ScannedAll(s);
  }

  /** `finditer` over the entries. */
  method FindEntries(s: string) returns (found: seq<Match>)
    ensures found == Entries(s, 0)
  {
    hide EntryAt, Entries, Shape, Name;
    found := [];
    var i := 0;
    while i < |s|
      invariant i <= |s| && found + Entries(s, i) == Entries(s, 0)
      decreases |s| - i
    {
      EntriesFrom(s, i);
      match EntryAt(s, i)
      case Some(m) =>
        EntryEnds(s, i);
        found := found + [m];
        i := m.end;
      case None =>
        i := i + 1;
    }
    ScannedAll(s);
  }

  lemma {:induction false} EntryEnds(s: string, i: nat)
    requires EntryAt(s, i).Some?
    ensures i < EntryAt(s, i).value.end <= |s|
  {
    hide EntryAt;
    var q := EntryHasShape(s, i);
  }

  // ---- texts that name kinds at numbered entries only ---------------------------------------------

  /** Every place where a name is spelled, whatever stands around it. */
  function Named(s: string, i: nat): seq<Kind>
    decreases |s| - i
  {
    if i >= |s| then []
    else (if KindAt(s, i).Some? then [KindAt(s, i).value] else []) + Named(s, i + 1)
  }

  ghost predicate Clear(s: string) {
    forall p: nat :: KindAt(s, p).None?
  }

  /** The name at `t` is spelled as `draft` spells it and belongs to an entry with a space on both sides. */
  ghost predicate Headed(s: string, t: nat) {
    exists p: nat :: 1 <= p < t && HeadedBy(s, p, t)
  }

  ghost predicate HeadedBy(s: string, p: nat, t: nat)
  {
    && 1 <= p < t && p <= |s| && s[p - 1] == ' '
    && EntryAt(s, p).Some? && EntryAt(s, p).value.at == t
    && EntryAt(s, p).value.end < |s| && s[EntryAt(s, p).value.end] == ' '
    && t + |Name(EntryAt(s, p).value.kind)| <= |s|
    && s[t..t + |Name(EntryAt(s, p).value.kind)|] == Name(EntryAt(s, p).value.kind)
  }

  /** Every name spelled in `s` belongs to such an entry. */
  ghost predicate Framed(s: string) {
    forall t: nat :: KindAt(s, t).Some? ==> Headed(s, t)
  }

  lemma {:induction false} NoNamesIn(s: string, i: nat, j: nat)
    requires i <= j && forall x :: i <= x < j ==> KindAt(s, x).None?
    ensures Named(s, i) == Named(s, j)
    decreases j - i
  {
    hide KindAt;
    if i < j {
      NoNamesIn(s, i + 1, j);
    }
  }

  lemma {:induction false} HeadedIsToken(s: string, t: nat)
    requires Headed(s, t)
    ensures TokenAt(s, t).Some? && KindAt(s, t) == Some(TokenAt(s, t).value.kind)
  {
    hide KindAt, Name, EntryAt, Folded;
    var p: nat :| 1 <= p < t && HeadedBy(s, p, t);
    var q := EntryHasShape(s, p);
    FoldedLetters(s[t - 1]);
    FoldedLetters(' ');
  }

  /** In a framed text the tokens are exactly the names. */
  lemma {:induction false} FramedTokens(s: string, i: nat)
    requires Framed(s)
    ensures Kinds(Tokens(s, i)) == Named(s, i)
    decreases |s| - i
  {
    hide KindAt, TokenAt, Headed;
    if i < |s| {
      FramedTokens(s, i + 1);
      if KindAt(s, i).Some? {
        HeadedIsToken(s, i);
      } else {
        NoToken(s, i);
      }
    }
  }

  lemma {:induction false} NoToken(s: string, i: nat)
    requires KindAt(s, i).None?
    ensures TokenAt(s, i).None?
  {
  }

  /** In a framed text the entries list exactly the names. Scanning starts outside every entry. */
  lemma {:induction false} FramedEntries(s: string, i: nat)
    requires Framed(s)
    requires forall p: nat :: p < i && EntryAt(s, p).Some? ==> EntryAt(s, p).value.at < i
    ensures Kinds(Entries(s, i)) == Named(s, i)
    decreases |s| - i
  {
    hide KindAt, EntryAt, Framed;
    if i < |s| {
      match EntryAt(s, i)
      case Some(e) =>
        EntryScans(s, i);
        FramedEntries(s, e.at + 1);
      case None =>
        NameOutsideEntries(s, i);
        FramedEntries(s, i + 1);
    }
  }

  /** Scanning over one entry: it and its name are what is found up to the name. */
  lemma {:induction false} EntryScans(s: string, i: nat)
    requires EntryAt(s, i).Some?
    requires forall p: nat :: p < i && EntryAt(s, p).Some? ==> EntryAt(s, p).value.at < i
    ensures var e := EntryAt(s, i).value;
      && i < e.at < |s|
      && Entries(s, i) == [e] + Entries(s, e.at + 1)
      && Named(s, i) == [e.kind] + Named(s, e.at + 1)
      && forall p: nat :: p < e.at + 1 && EntryAt(s, p).Some? ==> EntryAt(s, p).value.at < e.at + 1
  {
    hide KindAt, EntryAt, Name, Wordy, Shape, Entries, Named;
    var e := EntryAt(s, i).value;
    var q := EntryHasShape(s, i);
    EntryScanned(s, i, q);
    NameScanned(s, i, q);
    forall p: nat | p < e.at + 1 && EntryAt(s, p).Some? ensures EntryAt(s, p).value.at < e.at + 1 {
      if i < p {
        EntriesApart(s, i, p);
      }
    }
  }

  lemma {:induction false} EntryScanned(s: string, i: nat, q: nat)
    requires EntryAt(s, i).Some? && Shape(s, i, q, EntryAt(s, i).value.at, EntryAt(s, i).value.kind)
    requires EntryAt(s, i).value.at < EntryAt(s, i).value.end
    ensures i < EntryAt(s, i).value.at <= |s|
    ensures Entries(s, i) == [EntryAt(s, i).value] + Entries(s, EntryAt(s, i).value.at + 1)
  {
    hide KindAt, EntryAt, Name, Wordy, IsDigit, IsSpace;
    var e := EntryAt(s, i).value;
    forall x | i + 1 <= x < e.at + 1 ensures EntryAt(s, x).None? {
      EntriesApart(s, i, x);
    }
    NoEntriesIn(s, i + 1, e.at + 1);
  }

  lemma {:induction false} NameScanned(s: string, i: nat, q: nat)
    requires EntryAt(s, i).Some? && Shape(s, i, q, EntryAt(s, i).value.at, EntryAt(s, i).value.kind)
    ensures i < EntryAt(s, i).value.at < |s|
    ensures Named(s, i) == [EntryAt(s, i).value.kind] + Named(s, EntryAt(s, i).value.at + 1)
  {
    hide KindAt, EntryAt, Wordy, IsDigit, IsSpace;
    var e := EntryAt(s, i).value;
    CoversWord(s, e.at, e.at);
    NameStartsNoEntry(s, i);
    var r := EntryHasShape(s, i);
    forall x | i <= x < e.at ensures KindAt(s, x).None? {
      if i < x {
        EntriesApart(s, i, x);
      }
    }
    NoNamesIn(s, i, e.at);
  }

  lemma {:induction false} NameOutsideEntries(s: string, i: nat)
    requires Framed(s) && EntryAt(s, i).None?
    requires forall p: nat :: p < i && EntryAt(s, p).Some? ==> EntryAt(s, p).value.at < i
    ensures KindAt(s, i).None?
  {
    hide KindAt, EntryAt;
    assert forall p: nat :: p < i && EntryAt(s, p).Some? ==> EntryAt(s, p).value.at != i;
    assert !Headed(s, i);
  }

  // ---- putting texts together ---------------------------------------------------------------------

  lemma {:induction false} NoHyphenIsClear(s: string)
    requires '-' !in s
    ensures Clear(s)
  {
    hide KindAt;
    forall p: nat ensures KindAt(s, p).None? {
      if KindAt(s, p).Some? {
        HasHyphen(s, p);
      }
    }
  }

  /** No name reaches across the end of `a`. */
  ghost predicate Breaks(a: string, b: string) {
    a == [] || b == [] || !Wordy(a[|a| - 1]) || !Wordy(b[0])
  }

  lemma {:induction false} NoneAcross(a: string, b: string, p: nat)
    requires Breaks(a, b) && p < |a| && KindAt(a + b, p).Some?
    ensures p + |Name(KindAt(a + b, p).value)| <= |a|
  {
    hide KindAt, Name, Wordy;
    var end := p + |Name(KindAt(a + b, p).value)|;
    CoversWord(a + b, p, p);
    if end > |a| {
      CoversWord(a + b, p, |a| - 1);
      CoversWord(a + b, p, |a|);
    }
  }

  lemma {:induction false} KindOfFront(a: string, b: string, p: nat)
    requires p < |a| && (KindAt(a + b, p).Some? ==> p + |Name(KindAt(a + b, p).value)| <= |a|)
    ensures KindAt(a + b, p) == KindAt(a, p)
  {
    hide KindAt, Name;
    KindInPart([], a, b, p);
    assert [] + a + b == a + b;
  }

  lemma {:induction false} KindOfBack(a: string, b: string, p: nat)
    ensures KindAt(a + b, |a| + p) == KindAt(b, p)
  {
    hide KindAt, Name;
    KindInPart(a, b, [], p);
    assert a + b + [] == a + b;
    if KindAt(a + b, |a| + p).Some? {
      CoversWord(a + b, |a| + p, |a| + p);
    }
  }

  lemma {:induction false} NamedBack(a: string, b: string, i: nat)
    ensures Named(a + b, |a| + i) == Named(b, i)
    decreases |b| - i
  {
    hide KindAt;
    if i < |b| {
      NamedBack(a, b, i + 1);
      KindOfBack(a, b, i);
    }
  }

  lemma {:induction false} NamedFront(a: string, b: string, i: nat)
    requires i <= |a|
    requires forall p: nat :: p < |a| && KindAt(a + b, p).Some? ==> p + |Name(KindAt(a + b, p).value)| <= |a|
    ensures Named(a + b, i) == Named(a, i) + Named(b, 0)
    decreases |a| - i
  {
    hide KindAt, Name;
    if i == |a| {
      NamedBack(a, b, 0);
    } else {
      NamedFront(a, b, i + 1);
      KindOfFront(a, b, i);
    }
  }

  /** The names of two texts side by side, when none reaches across. */
  lemma {:induction false} NamedJoin(a: string, b: string)
    requires Breaks(a, b)
    ensures Named(a + b, 0) == Named(a, 0) + Named(b, 0)
  {
    hide KindAt, Name, Wordy;
    forall p: nat | p < |a| && KindAt(a + b, p).Some?
      ensures p + |Name(KindAt(a + b, p).value)| <= |a|
    {
      NoneAcross(a, b, p);
    }
    NamedFront(a, b, 0);
  }

  lemma {:induction false} ClearNamesNothing(s: string)
    requires Clear(s)
    ensures Named(s, 0) == []
  {
    hide KindAt;
    NoNamesIn(s, 0, |s|);
  }

  lemma {:induction false} ClearJoin(a: string, b: string)
    requires Clear(a) && Clear(b) && Breaks(a, b)
    ensures Clear(a + b)
  {
    hide KindAt, Name, Breaks;
    forall p: nat ensures KindAt(a + b, p).None? {
      if p < |a| {
        if KindAt(a + b, p).Some? {
          NoneAcross(a, b, p);
        }
        KindOfFront(a, b, p);
      } else {
        KindOfBack(a, b, p - |a|);
      }
    }
  }

  lemma {:induction false} ClearIsFramed(s: string)
    requires Clear(s)
    ensures Framed(s)
  {
  }

  /** An entry shows in the whole text as it does in a part of it that holds it and the spaces around it. */
  lemma {:induction false} HeadedInPart(a: string, b: string, c: string, p: nat, t: nat)
    requires HeadedBy(b, p, t)
    ensures HeadedBy(a + b + c, |a| + p, |a| + t)
    ensures EntryAt(a + b + c, |a| + p).value.end == |a| + EntryAt(b, p).value.end
    ensures EntryAt(a + b + c, |a| + p).value.kind == EntryAt(b, p).value.kind
  {
    hide KindAt, Name, EntryAt, Folded, Wordy;
    var s, e := a + b + c, EntryAt(b, p).value;
    var q := EntryHasShape(b, p);
    assert forall i :: 0 <= i < |b| ==> s[|a| + i] == b[i];
    KindInPart(a, b, c, t);
    FoldedLetters(' ');
    assert s[|a| + e.end] == ' ';
    forall i | |a| + p <= i < |a| + q ensures IsDigit(s[i]) {
      assert s[i] == b[i - |a|];
    }
    forall i | |a| + q < i < |a| + t ensures IsSpace(s[i]) {
      assert s[i] == b[i - |a|];
    }
    assert s[|a| + q] == b[q] && s[|a| + p - 1] == b[p - 1];
    ShapeIsEntry(s, |a| + p, |a| + q, |a| + t, e.kind);
    assert s[|a| + t..|a| + e.end] == b[t..e.end];
  }

  /** Framed texts side by side are framed, when no name reaches across. */
  lemma {:induction false} FramedJoin(a: string, b: string)
    requires Framed(a) && Framed(b) && Breaks(a, b)
    ensures Framed(a + b)
  {
    hide KindAt, Name, EntryAt, Breaks, HeadedBy;
    forall t: nat | KindAt(a + b, t).Some? ensures Headed(a + b, t) {
      if t < |a| {
        NoneAcross(a, b, t);
        KindOfFront(a, b, t);
        var p: nat :| 1 <= p < t && HeadedBy(a, p, t);
        HeadedInPart([], a, b, p, t);
        assert [] + a + b == a + b;
      } else {
        KindOfBack(a, b, t - |a|);
        var p: nat :| 1 <= p < t - |a| && HeadedBy(b, p, t - |a|);
        HeadedInPart(a, b, [], p, t - |a|);
        assert a + b + [] == a + b;
        assert HeadedBy(a + b, |a| + p, t);
      }
    }
  }

  // ---- one printed entry --------------------------------------------------------------------------

  function EntryText(n: nat, k: Kind): string {
    " " + Decimal(n) + ") " + Name(k) + " "
  }

  /** No name starts inside a name. */
  lemma {:induction false} NoNameInName(k: Kind, l: Kind, j: nat)
    requires 1 <= j && j + |Name(l)| <= |Name(k)|
    ensures Name(k)[j] != Name(l)[0]
  {
  }

  /** The pieces of an entry and where they stand. */
  lemma {:induction false} EntryParts(n: nat, k: Kind)
    ensures var s, q := EntryText(n, k), 1 + |Decimal(n)|;
      && |s| == q + 3 + |Name(k)| && 1 < q
      && s[0] == ' ' && (forall i :: 1 <= i < q ==> IsDigit(s[i])) && s[q] == ')' && s[q + 1] == ' '
      && s[q + 2..q + 2 + |Name(k)|] == Name(k) && s[|s| - 1] == ' '
  {
    hide Name, Decimal;
    DecimalIsDigits(n);
    DecimalLength(n);
    var d, s, q := Decimal(n), EntryText(n, k), 1 + |Decimal(n)|;
    forall i | 1 <= i < q ensures IsDigit(s[i]) {
      assert s[i] == d[i - 1];
    }
  }

  /** In a printed entry its kind is the only name. */
  lemma {:induction false} EntryNames(n: nat, k: Kind, p: nat)
    ensures var t := 3 + |Decimal(n)|;
      KindAt(EntryText(n, k), p) == if p == t then Some(k) else None
  {
    hide Name, Decimal, KindAt, EntryText, Wordy;
    EntryParts(n, k);
    NameLetters(k);
    var s, t := EntryText(n, k), 3 + |Decimal(n)|;
    var name := Name(k);
    assert s[t..t + |name|] == name;
    if p == t {
      forall i | 0 <= i < |name| ensures Folded(s[t + i]) == name[i] {
        assert s[t..t + |name|][i] == s[t + i];
      }
      KindIff(s, t, k);
    } else if KindAt(s, p).Some? {
      var l := KindAt(s, p).value;
      CoversWord(s, p, p);
      FoldedLetters(s[p]);
      FoldedLetters(' ');
      assert p > t;
      if p + |Name(l)| == |s| {
        CoversWord(s, p, |s| - 1);
      }
      KindIff(s, p, l);
      assert Folded(s[p + 0]) == Name(l)[0];
      assert s[t..t + |name|][p - t] == s[t + (p - t)];
      NoNameInName(k, l, p - t);
    }
  }

  lemma {:induction false} EntryIsFramed(n: nat, k: Kind)
    ensures Framed(EntryText(n, k)) && Named(EntryText(n, k), 0) == [k]
  {
    hide Name, Decimal, KindAt, EntryText, EntryAt;
    var s, q, t := EntryText(n, k), 1 + |Decimal(n)|, 3 + |Decimal(n)|;
    EntryParts(n, k);
    EntryNames(n, k, t);
    FoldedLetters(' ');
    ShapeIsEntry(s, 1, q, t, k);
    assert HeadedBy(s, 1, t);
    forall p: nat ensures KindAt(s, p) == if p == t then Some(k) else None {
      EntryNames(n, k, p);
    }
    NoNamesIn(s, 0, t);
    NoNamesIn(s, t + 1, |s|);
  }
}
