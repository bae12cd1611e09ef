/** The list of returns that `draft` prints and the check that reads it back. */
module ReturnReasons {
  import opened Options
  import opened Text
  import opened Normalise
  import opened ReturnKinds
  import opened Blanking

  // ---- the printer ------------------------------------------------------------------------------

  const HEAD := "DERIVED RETURNS (queue):"
  const FILL := "<FILL: what the failing state looked like>"
  const NO_REASON := "(no reason recorded)"

  function OnText(r: Ret, own: string): string {
    if r.item != own then " on " + r.item else ""
  }

  function AtText(r: Ret): string {
    if r.attempt.Some? && r.attempt.value != 0 then " at attempt " + Decimal(r.attempt.value) else ""
  }

  function Quoted(r: Ret): string {
    if r.reason != "" then r.reason else NO_REASON
  }

  /** What follows the kind. */
  function After(r: Ret, own: string): string {
    OnText(r, own) + AtText(r) + " by " + r.who + ": " + Quoted(r)
  }

  function Line(n: nat, r: Ret, own: string): string {
    Decimal(n) + ") " + Name(r.kind) + After(r, own)
  }

  function Lines(rets: seq<Ret>, own: string): seq<string> {
    if rets == [] then []
    else Lines(rets[..|rets| - 1], own) + [Line(|rets|, rets[|rets| - 1], own)]
  }

  /** `" ".join`. */
  function Spaced(lines: seq<string>): string {
    if lines == [] then ""
    else if |lines| == 1 then lines[0]
    else Spaced(lines[..|lines| - 1]) + " " + lines[|lines| - 1]
  }

  /** The `red` text of a drafted record. */
  function Red(rets: seq<Ret>, own: string): string {
    if rets == [] then FILL else HEAD + " " + Spaced(Lines(rets, own)) + " " + FILL
  }

  method Draft(rets: seq<Ret>, own: string) returns (red: string)
    ensures red == Red(rets, own)
  {
    hide Lines, Line, Spaced, Name, Decimal;
    var lines: seq<string> := [];
    assert rets[..0] == [] && Lines([], own) == [] by {
      NoLines(own);
    }
    for n := 0 to |rets|
      invariant lines == Lines(rets[..n], own)
    {
      var r := rets[n];
      var at := if r.attempt.Some? && r.attempt.value != 0 then " at attempt " + Decimal(r.attempt.value) else "";
      var on := if r.item != own then " on " + r.item else "";
      lines := lines + [Decimal(n + 1) + ") " + Name(r.kind) + (on + at + " by " + r.who + ": " + (if r.reason != "" then r.reason else NO_REASON))];
      LinesSnoc(rets[..n], r, own);
      assert rets[..n + 1] == rets[..n] + [r];
    }
    assert rets[..|rets|] == rets;
    LinesCount(rets, own);
    if lines != [] {
      red := HEAD + " " + Spaced(lines) + " " + FILL;
    } else {
      red := FILL;
    }
  }

  /** How an entry reads: the item only when it is another one, the attempt only when there is a number above zero, and
      a note where no reason was recorded. */
  lemma {:induction false} EntryReads(n: nat, r: Ret, own: string, attempt: nat, reason: string)
    requires reason == if r.reason == "" then "(no reason recorded)" else r.reason
    requires r.attempt == Some(attempt) || (r.attempt == None && attempt == 0)
    ensures Line(n, r, own) == Decimal(n) + ") " + Name(r.kind) + After(r, own)
    ensures var tail := " by " + r.who + ": " + reason;
      After(r, own) ==
        if attempt >= 1 && r.item != own then " on " + r.item + (" at attempt " + Decimal(attempt)) + tail
        else if attempt >= 1 then " at attempt " + Decimal(attempt) + tail
        else if r.item != own then " on " + r.item + tail
        else tail
  {
    hide Decimal, Name;
    var before, tail := OnText(r, own) + AtText(r), " by " + r.who + ": " + reason;
    assert After(r, own) == before + tail;
    if attempt == 0 {
      assert before == OnText(r, own);
    } else if r.item == own {
      assert before == AtText(r);
    }
    assert "" + tail == tail;
  }

  lemma {:induction false} NoLines(own: string)
    ensures Lines([], own) == []
  {
  }

  lemma {:induction false} LinesSnoc(rets: seq<Ret>, r: Ret, own: string)
    ensures Lines(rets + [r], own)
      == Lines(rets, own) + [Decimal(|rets| + 1) + ") " + Name(r.kind) + After(r, own)]
  {
    hide Name, After;
    assert (rets + [r])[..|rets|] == rets;
  }

  lemma {:induction false} LinesCount(rets: seq<Ret>, own: string)
    ensures |Lines(rets, own)| == |rets|
  {
    if rets != [] {
      LinesCount(rets[..|rets| - 1], own);
    }
  }

  // ---- the check --------------------------------------------------------------------------------

  datatype Finding = ReasonMissing(number: nat) | CountOff(kind: Kind, named: nat, have: nat)
    | ListOff(listed: seq<Kind>, expected: seq<Kind>)

  /** The check raises when a name in the text is spelled with a letter beyond ASCII: it then looks up, under the
      lower case of what it found, a kind that is not there. */
  datatype Result = Raises | Findings(findings: seq<Finding>)

  predicate Within(hay: string, needle: string) {
    exists i :: 0 <= i <= |hay| && StandsAt(hay, needle, i)
  }

  /** The part of a reason that must be found. */
  function Wanted(reason: string): string {
    var n := NormText(reason);
    Strip(if |n| > REASON_PREFIX then n[..REASON_PREFIX] else n)
  }

  predicate Carried(red: string, reason: string) {
    Wanted(reason) != "" ==> Within(" " + NormText(red) + " ", " " + Wanted(reason))
  }

  function MissingReasons(red: string, rets: seq<Ret>): seq<Finding> {
    if rets == [] then []
    else
      var front := MissingReasons(red, rets[..|rets| - 1]);
      if Carried(red, rets[|rets| - 1].reason) then front else front + [ReasonMissing(|rets|)]
  }

  predicate Plain(s: string, m: Match) {
    m.start <= m.end <= |s| && forall i :: m.start <= i < m.end ==> s[i] as int < 128
  }

  predicate AllPlain(s: string, ms: seq<Match>) {
    forall i :: 0 <= i < |ms| ==> Plain(s, ms[i])
  }

  function Times(ks: seq<Kind>, k: Kind): nat {
    if ks == [] then 0 else Times(ks[..|ks| - 1], k) + (if ks[|ks| - 1] == k then 1 else 0)
  }

  const KINDS := [TesterFail, ReviewerRequeue, DeveloperRequeue, ReviewerReject]

  function CountsOff(kinds: seq<Kind>, named: seq<Kind>, have: seq<Kind>): seq<Finding> {
    if kinds == [] then []
    else
      var k := kinds[|kinds| - 1];
      CountsOff(kinds[..|kinds| - 1], named, have)
      + if Times(named, k) == Times(have, k) then [] else [CountOff(k, Times(named, k), Times(have, k))]
  }

  function RetKinds(rets: seq<Ret>): (ks: seq<Kind>)
    ensures |ks| == |rets| && forall i :: 0 <= i < |rets| ==> ks[i] == rets[i].kind
  {
    seq(|rets|, i requires 0 <= i < |rets| => rets[i].kind)
  }

  function Checked(red: string, rets: seq<Ret>): Result {
    var scan := WithoutReasons(red, rets);
    var tokens, listed := Tokens(scan, 0), Kinds(Entries(scan, 0));
    if !AllPlain(scan, tokens) then Raises
    else
      Findings(MissingReasons(red, rets)
               + CountsOff(KINDS, Kinds(tokens), RetKinds(rets))
               + if listed == RetKinds(rets) then [] else [ListOff(listed, RetKinds(rets))])
  }

  /** A map from kinds to how often each is in `ks`. */
  ghost predicate Tallies(tally: map<Kind, nat>, ks: seq<Kind>) {
    forall k :: k in tally && tally[k] == Times(ks, k)
  }

  lemma {:induction false} TimesSnoc(ks: seq<Kind>, k: Kind, l: Kind)
    ensures Times(ks + [k], l) == Times(ks, l) + if k == l then 1 else 0
  {
    assert (ks + [k])[..|ks|] == ks;
  }

  method Tally(ks: seq<Kind>) returns (tally: map<Kind, nat>)
    ensures Tallies(tally, ks)
  {
    tally := map[TesterFail := 0, ReviewerRequeue := 0, DeveloperRequeue := 0, ReviewerReject := 0];
    assert ks[..0] == [];
    forall l ensures l in tally && tally[l] == Times([], l) {
      match l {
        case TesterFail =>
        case ReviewerRequeue =>
        case DeveloperRequeue =>
        case ReviewerReject =>
      }
    }
    for i := 0 to |ks|
      invariant Tallies(tally, ks[..i])
    {
      forall l ensures Times(ks[..i + 1], l) == Times(ks[..i], l) + if ks[i] == l then 1 else 0 {
        assert ks[..i + 1] == ks[..i] + [ks[i]];
        TimesSnoc(ks[..i], ks[i], l);
      }
      tally := tally[ks[i] := tally[ks[i]] + 1];
    }
    assert ks[..|ks|] == ks;
  }

  lemma {:induction false} MissingSnoc(red: string, rets: seq<Ret>, r: Ret)
    ensures MissingReasons(red, rets + [r]) ==
      if Carried(red, r.reason) then MissingReasons(red, rets) else MissingReasons(red, rets) + [ReasonMissing(|rets| + 1)]
  {
    hide Carried;
    var all := rets + [r];
    assert all[..|all| - 1] == rets && all[|all| - 1] == r;
  }

  method FindMissing(red: string, rets: seq<Ret>) returns (out: seq<Finding>)
    ensures out == MissingReasons(red, rets)
  {
    hide MissingReasons, NormText, Wanted;
    var nred := " " + NormText(red) + " ";
    out := [];
    assert rets[..0] == [] && MissingReasons(red, []) == [] by {
      NoneMissing(red);
    }
    for i := 0 to |rets|
      invariant out == MissingReasons(red, rets[..i])
    {
      MissingSnoc(red, rets[..i], rets[i]);
      assert rets[..i + 1] == rets[..i] + [rets[i]];
      var reason := Wanted(rets[i].reason);
      if reason != "" {
        var p := Find(nred, " " + reason, 0);
        if p < 0 {
          out := out + [ReasonMissing(i + 1)];
        }
      }
    }
    assert rets[..|rets|] == rets;
  }

  lemma {:induction false} NoneMissing(red: string)
    ensures MissingReasons(red, []) == []
  {
  }

  method CheckReturnReasons(red: string, rets: seq<Ret>) returns (result: Result)
    ensures result == Checked(red, rets)
  {
    hide MissingReasons, WithoutReasons, Tokens, Entries, Times, Plain;
    var out := FindMissing(red, rets);
    var scan := BlankReasons(red, rets);
    var have := Tally(RetKinds(rets));
    var tokens := FindTokens(scan);
    for i := 0 to |tokens|
      invariant forall j :: 0 <= j < i ==> Plain(scan, tokens[j])
    {
      if !Plain(scan, tokens[i]) {
        return Raises;
      }
    }
    var named := Tally(Kinds(tokens));
    assert KINDS[..0] == [];
    ghost var first := out;
    for i := 0 to |KINDS|
      invariant out == first + CountsOff(KINDS[..i], Kinds(tokens), RetKinds(rets))
    {
      var k := KINDS[i];
      assert KINDS[..i + 1][..i] == KINDS[..i];
      if named[k] != have[k] {
        out := out + [CountOff(k, named[k], have[k])];
      }
    }
    assert KINDS[..|KINDS|] == KINDS;
    var entries := FindEntries(scan);
    var listed := Kinds(entries);
    if listed != RetKinds(rets) {
      out := out + [ListOff(listed, RetKinds(rets))];
    }
    result := Findings(out);
  }

  // ---- what is reported -------------------------------------------------------------------------

  /** What must be found of a normalised reason: its first 160 characters, but no space at their end. */
  ghost predicate Required(n: string, i: int) {
    0 <= i < |n| && i < 160 && (i == 159 ==> n[i] != ' ')
  }

  /** From the word start `p` on, a normalised text has what must be found of a normalised reason. */
  ghost predicate ShownAt(text: string, n: string, p: int) {
    && 0 <= p <= |text| && (p == 0 || text[p - 1] == ' ')
    && forall i :: Required(n, i) ==> p + i < |text| && text[p + i] == n[i]
  }

  ghost predicate Shown(text: string, n: string) {
    exists p :: ShownAt(text, n, p)
  }

  /** A letter or digit, once in lower case. */
  ghost predicate HasLetter(s: string) {
    exists i :: 0 <= i < |s| && Alnum(Lower(s[i])[0])
  }

  /** A reason of return `number` that has a letter or digit and that the text does not show. */
  ghost predicate Lacks(red: string, rets: seq<Ret>, number: nat) {
    && 1 <= number <= |rets| && HasLetter(rets[number - 1].reason)
    && !Shown(NormText(red), NormText(rets[number - 1].reason))
  }

  lemma {:induction false} NoLetterTraced(s: string)
    requires !HasLetter(s)
    ensures Trace(s).text == []
  {
    hide Alnum, Lower;
    if s != [] {
      var front, c := s[..|s| - 1], s[|s| - 1];
      assert forall i :: 0 <= i < |front| ==> s[i] == front[i];
      NoLetterTraced(front);
      assert !Alnum(Lower(s[|s| - 1])[0]);
    }
  }

  /** A reason normalises to nothing exactly when it has no letter or digit. */
  lemma {:induction false} EmptyIff(s: string)
    ensures NormText(s) != [] <==> HasLetter(s)
  {
    hide Trace, NormText, Alnum, Lower;
    NormIsTrace(s);
    if HasLetter(s) {
      var i :| 0 <= i < |s| && Alnum(Lower(s[i])[0]);
      var q := LetterTraced(s, i);
    } else {
      NoLetterTraced(s);
    }
  }

  lemma {:induction false} WantedIsRequired(reason: string)
    ensures Wanted(reason) <= NormText(reason)
    ensures forall i :: Required(NormText(reason), i) <==> 0 <= i < |Wanted(reason)|
    ensures NormText(reason) != [] ==> Wanted(reason) != []
  {
    hide NormText, LStrip, RStrip, IsSpace;
    WantedIsFront(reason);
    NormIsWords(reason);
    NormIsTidy(reason);
    SpaceIsSpace();
    var n := NormText(reason);
    var cut := if |n| > REASON_PREFIX then n[..REASON_PREFIX] else n;
    StripFront(cut);
    RStripIs(cut);
    assert Wanted(reason) == RStrip(cut);
    if |cut| == 160 && cut[159] == ' ' {
      assert cut[158] != ' ';
      assert !IsSpace(cut[158]);
    }
  }

  lemma {:induction false} PlaceShows(text: string, n: string, w: string, q: int)
    requires w <= n && w != [] && w[|w| - 1] != ' ' && (forall i :: Required(n, i) <==> 0 <= i < |w|)
    ensures StandsAt(" " + text + " ", " " + w, q) ==> ShownAt(text, n, q)
    ensures ShownAt(text, n, q) ==> StandsAt(" " + text + " ", " " + w, q)
  {
    hide Required;
    var padded := " " + text + " ";
    if StandsAt(padded, " " + w, q) {
      var x := padded[q..q + 1 + |w|];
      assert x[0] == (" " + w)[0];
      forall i | 0 <= i < |w| ensures q + i < |text| && text[q + i] == w[i] {
        assert x[1 + i] == (" " + w)[1 + i];
        assert x[|w|] == (" " + w)[|w|] == w[|w| - 1];
      }
      assert q > 0 ==> padded[q] == text[q - 1];
    }
    if ShownAt(text, n, q) {
      assert Required(n, |w| - 1);
      assert q + 1 + |w| <= |padded|;
      forall i | 0 <= i < 1 + |w| ensures padded[q..q + 1 + |w|][i] == (" " + w)[i] {
        if i > 0 {
          assert Required(n, i - 1);
        }
      }
      assert padded[q..q + 1 + |w|] == " " + w;
    }
  }

  lemma {:induction false} CarriedIff(red: string, reason: string)
    ensures Carried(red, reason) <==> !HasLetter(reason) || Shown(NormText(red), NormText(reason))
  {
    hide NormText, Wanted, Required, HasLetter, ShownAt, StandsAt;
    EmptyIff(reason);
    WantedIsFront(reason);
    WantedIsRequired(reason);
    var text, n, w := NormText(red), NormText(reason), Wanted(reason);
    if w != [] {
      forall q ensures StandsAt(" " + text + " ", " " + w, q) <==> ShownAt(text, n, q) {
        PlaceShows(text, n, w, q);
      }
      if Within(" " + text + " ", " " + w) {
        var q :| 0 <= q <= |" " + text + " "| && StandsAt(" " + text + " ", " " + w, q);
        assert ShownAt(text, n, q);
      } else if Shown(text, n) {
        var q :| ShownAt(text, n, q);
        PlaceInside(" " + text + " ", " " + w, q);
      }
    }
  }

  lemma {:induction false} PlaceInside(text: string, part: string, q: int)
    requires StandsAt(text, part, q)
    ensures Within(text, part)
  {
  }

  lemma {:induction false} MissingIff(red: string, rets: seq<Ret>, number: nat)
    ensures ReasonMissing(number) in MissingReasons(red, rets)
      <==> 1 <= number <= |rets| && !Carried(red, rets[number - 1].reason)
    ensures forall f :: f in MissingReasons(red, rets) ==> f.ReasonMissing?
  {
    hide Carried;
    if rets != [] {
      MissingIff(red, rets[..|rets| - 1], number);
    }
  }

  lemma {:induction false} CountsIff(kinds: seq<Kind>, named: seq<Kind>, have: seq<Kind>, k: Kind, n: nat, m: nat)
    ensures CountOff(k, n, m) in CountsOff(kinds, named, have)
      <==> k in kinds && n == multiset(named)[k] && m == multiset(have)[k] && n != m
    ensures forall f :: f in CountsOff(kinds, named, have) ==> f.CountOff?
  {
    hide Times;
    if kinds != [] {
      var front, last := kinds[..|kinds| - 1], kinds[|kinds| - 1];
      assert kinds == front + [last];
      CountsIff(front, named, have, k, n, m);
      TimesIsCount(named, last);
      TimesIsCount(have, last);
    }
  }

  lemma {:induction false} TimesIsCount(ks: seq<Kind>, k: Kind)
    ensures Times(ks, k) == multiset(ks)[k]
  {
    if ks != [] {
      TimesIsCount(ks[..|ks| - 1], k);
      assert ks == ks[..|ks| - 1] + [ks[|ks| - 1]];
    }
  }

  lemma {:induction false} AllKinds(k: Kind)
    ensures k in KINDS
  {
    match k {
      case TesterFail => assert KINDS[0] == k;
      case ReviewerRequeue => assert KINDS[1] == k;
      case DeveloperRequeue => assert KINDS[2] == k;
      case ReviewerReject => assert KINDS[3] == k;
    }
  }

  /** Exactly the reasons that the text lacks are reported, exactly the kinds that it does not name as often as the
      queue, and the list when it is another. */
  lemma {:induction false} ReportedIff(
    red: string, rets: seq<Ret>, number: nat, k: Kind, n: nat, m: nat, listed: seq<Kind>, expected: seq<Kind>)
    requires Checked(red, rets).Findings?
    ensures var found, scan := Checked(red, rets).findings, WithoutReasons(red, rets);
      && (ReasonMissing(number) in found <==> Lacks(red, rets, number))
      && (CountOff(k, n, m) in found <==>
            n == multiset(Kinds(Tokens(scan, 0)))[k] && m == multiset(RetKinds(rets))[k] && n != m)
      && (ListOff(listed, expected) in found <==>
            listed == Kinds(Entries(scan, 0)) && expected == RetKinds(rets) && listed != expected)
  {
    hide MissingReasons, CountsOff, WithoutReasons, Tokens, Entries, AllPlain, Carried, HasLetter, Shown, KINDS, NormText;
    MissingIff(red, rets, number);
    CountsIff(KINDS, Kinds(Tokens(WithoutReasons(red, rets), 0)), RetKinds(rets), k, n, m);
    AllKinds(k);
    if 1 <= number <= |rets| {
      CarriedIff(red, rets[number - 1].reason);
    }
  }

  /** A text is accepted exactly when it lacks no reason and what is left of it, spelled in ASCII, names the kinds of
      the queue's returns as often as the queue and lists them in its order. */
  lemma {:induction false} AcceptedIff(red: string, rets: seq<Ret>)
    ensures var scan := WithoutReasons(red, rets);
      Checked(red, rets) == Findings([]) <==>
        && (forall number: nat :: !Lacks(red, rets, number))
        && AllPlain(scan, Tokens(scan, 0))
        && multiset(Kinds(Tokens(scan, 0))) == multiset(RetKinds(rets))
        && Kinds(Entries(scan, 0)) == RetKinds(rets)
  {
    hide MissingReasons, CountsOff, WithoutReasons, Tokens, Entries, AllPlain, Carried, HasLetter, Shown, KINDS, NormText,
      Lacks, Kinds, RetKinds;
    var scan := WithoutReasons(red, rets);
    if AllPlain(scan, Tokens(scan, 0)) {
      var found, named, have, listed := Checked(red, rets).findings, Kinds(Tokens(scan, 0)), RetKinds(rets), Kinds(Entries(scan, 0));
      if found == [] {
        forall number: nat ensures !Lacks(red, rets, number) {
          ReportedIff(red, rets, number, TesterFail, 0, 0, [], []);
        }
        forall k: Kind ensures multiset(named)[k] == multiset(have)[k] {
          ReportedIff(red, rets, 0, k, multiset(named)[k], multiset(have)[k], [], []);
        }
        ReportedIff(red, rets, 0, TesterFail, 0, 0, listed, have);
      } else {
        match found[0] {
          case ReasonMissing(number) => ReportedIff(red, rets, number, TesterFail, 0, 0, [], []);
          case CountOff(k, n, m) => ReportedIff(red, rets, 0, k, n, m, [], []);
          case ListOff(a, c) => ReportedIff(red, rets, 0, TesterFail, 0, 0, a, c);
        }
      }
    }
  }

  /** A name spelled with U+0130, U+0131 or U+017F is a token, and the check raises on it. */
  lemma {:induction false} WideNameRaises(k: Kind, i: nat, c: char)
    requires i < |Name(k)|
    requires (Name(k)[i] == 'i' && (c == '\U{130}' || c == '\U{131}')) || (Name(k)[i] == 's' && c == '\U{17f}')
    ensures Checked(Name(k)[i := c], []) == Raises
  {
    hide KindAt, WithoutReasons, Entries, Kinds, CountsOff;
    var w, s := Name(k), Name(k)[i := c];
    NameLetters(k);
    assert Spells(s, 0, w);
    KindIs(s, 0, k);
    assert Tokens(s, 0)[0] == Match(0, 0, |s|, k);
    NothingBlanked(s);
    assert s[i] as int >= 128;
    assert !Plain(s, Tokens(s, 0)[0]);
  }

  lemma {:induction false} KindIs(s: string, p: nat, k: Kind)
    requires Spells(s, p, Name(k))
    ensures KindAt(s, p) == Some(k)
  {
    hide Spells;
    forall l | Spells(s, p, Name(l)) ensures l == k {
      OneName(s, p, k, l);
    }
  }

  lemma {:induction false} NothingBlanked(s: string)
    ensures WithoutReasons(s, []) == s
  {
  }

  // ---- what the printer prints ------------------------------------------------------------------

  /** One entry of the printed list: a kind and the text behind it. */
  datatype Piece = Piece(kind: Kind, rest: string)

  /** What stands between the kind and the reason. */
  function Lead(r: Ret, own: string): string {
    (OnText(r, own) + AtText(r) + " by ")[1..] + r.who + ": "
  }

  function Pieces(rets: seq<Ret>, own: string): (ps: seq<Piece>)
    ensures |ps| == |rets|
    ensures forall i :: 0 <= i < |rets| ==> ps[i] == Piece(rets[i].kind, Lead(rets[i], own) + Quoted(rets[i]))
  {
    seq(|rets|, i requires 0 <= i < |rets| => Piece(rets[i].kind, Lead(rets[i], own) + Quoted(rets[i])))
  }

  function PieceText(n: nat, p: Piece): string {
    EntryText(n, p.kind) + p.rest
  }

  function Body(ps: seq<Piece>): string {
    if ps == [] then HEAD else Body(ps[..|ps| - 1]) + PieceText(|ps|, ps[|ps| - 1])
  }

  /** The whole printed text. */
  function TextOf(ps: seq<Piece>): string {
    if ps == [] then FILL else Body(ps) + (" " + FILL)
  }

  function PieceKinds(ps: seq<Piece>): (ks: seq<Kind>)
    ensures |ks| == |ps| && forall i :: 0 <= i < |ps| ==> ks[i] == ps[i].kind
  {
    seq(|ps|, i requires 0 <= i < |ps| => ps[i].kind)
  }

  lemma {:induction false} AfterSpelled(r: Ret, own: string)
    ensures After(r, own) == " " + (Lead(r, own) + Quoted(r))
  {
    hide Decimal, Quoted;
    var l := OnText(r, own) + AtText(r) + " by ";
    assert l[0] == ' ';
    assert l == " " + l[1..];
    assert After(r, own) == l + r.who + ": " + Quoted(r);
  }

  lemma {:induction false} LineIsEntry(n: nat, r: Ret, own: string)
    ensures " " + Line(n, r, own) == PieceText(n, Piece(r.kind, Lead(r, own) + Quoted(r)))
  {
    hide Decimal, Name, After, Lead, Quoted;
    AfterSpelled(r, own);
    var d, k, rest := Decimal(n), Name(r.kind), Lead(r, own) + Quoted(r);
    calc {
      " " + Line(n, r, own);
      " " + (d + ") " + k + (" " + rest));
      (" " + d + ") " + k + " ") + rest;
    }
  }

  lemma {:induction false} PiecesSnoc(rets: seq<Ret>, own: string)
    requires rets != []
    ensures var front, r := rets[..|rets| - 1], rets[|rets| - 1];
      Pieces(rets, own) == Pieces(front, own) + [Piece(r.kind, Lead(r, own) + Quoted(r))]
  {
    hide Lead, Quoted;
  }

  lemma {:induction false} BodySnoc(ps: seq<Piece>, p: Piece)
    ensures Body(ps + [p]) == Body(ps) + PieceText(|ps| + 1, p)
  {
    hide PieceText;
    assert (ps + [p])[..|ps|] == ps;
  }

  lemma {:induction false} BodyIsLines(rets: seq<Ret>, own: string)
    requires rets != []
    ensures Body(Pieces(rets, own)) == HEAD + (" " + Spaced(Lines(rets, own)))
  {
    hide Line, PieceText, Lead, Quoted, Pieces;
    var front, r := rets[..|rets| - 1], rets[|rets| - 1];
    var line, before := Line(|rets|, r, own), Lines(front, own);
    LineIsEntry(|rets|, r, own);
    LinesCount(front, own);
    PiecesSnoc(rets, own);
    BodySnoc(Pieces(front, own), Piece(r.kind, Lead(r, own) + Quoted(r)));
    assert Body(Pieces(rets, own)) == Body(Pieces(front, own)) + (" " + line);
    assert Lines(rets, own) == before + [line];
    assert (before + [line])[..|before|] == before;
    if front == [] {
      assert before + [line] == [line];
    } else {
      BodyIsLines(front, own);
      assert Spaced(before + [line]) == Spaced(before) + " " + line;
      assert HEAD + (" " + Spaced(before)) + (" " + line) == HEAD + (" " + (Spaced(before) + " " + line));
    }
  }

  /** The printed text, entry by entry. */
  lemma {:induction false} RedIsText(rets: seq<Ret>, own: string)
    ensures Red(rets, own) == TextOf(Pieces(rets, own))
  {
    hide Body, Lines, Spaced, Lead, Quoted;
    if rets != [] {
      BodyIsLines(rets, own);
      var lines := Spaced(Lines(rets, own));
      assert HEAD + " " + lines + " " + FILL == (HEAD + (" " + lines)) + (" " + FILL);
    }
  }

  lemma {:induction false} ClearBack(a: string, b: string)
    requires Clear(a + b)
    ensures Clear(b)
  {
    hide KindAt;
    forall p: nat ensures KindAt(b, p).None? {
      KindOfBack(a, b, p);
    }
  }

  lemma {:induction false} SpaceBreaks(a: string, b: string)
    requires a == [] || b == [] || a[|a| - 1] == ' ' || b[0] == ' ' || b[0] == ':'
    ensures Breaks(a, b)
  {
  }

  lemma {:induction false} ClearWords(a: string, b: string)
    requires Clear(a) && Clear(b)
    requires a == [] || b == [] || a[|a| - 1] == ' ' || b[0] == ' ' || b[0] == ':'
    ensures Clear(a + b)
  {
    hide Clear, Breaks;
    SpaceBreaks(a, b);
    ClearJoin(a, b);
  }

  /** What `draft` prints of the item. */
  ghost predicate ClearItem(r: Ret, own: string) {
    r.item != own ==> Clear(r.item)
  }

  lemma {:induction false} OnAtClear(r: Ret, own: string)
    requires ClearItem(r, own)
    ensures Clear(OnText(r, own)) && Clear(AtText(r))
    ensures OnText(r, own) == "" || OnText(r, own)[0] == ' '
    ensures AtText(r) == "" || AtText(r)[0] == ' '
  {
    hide Clear, Decimal;
    NoHyphenIsClear(" on ");
    if r.item != own {
      ClearWords(" on ", r.item);
    }
    NoHyphenIsClear("");
    if r.attempt.Some? {
      DecimalIsDigits(r.attempt.value);
      NoHyphenIsClear(" at attempt " + Decimal(r.attempt.value));
    }
  }

  /** Nothing between a kind and the reason names one. */
  lemma {:induction false} LeadIsClear(r: Ret, own: string)
    requires Clear(r.who) && ClearItem(r, own)
    ensures Clear(Lead(r, own))
  {
    hide Clear, OnText, AtText;
    OnAtClear(r, own);
    NoHyphenIsClear(" by ");
    NoHyphenIsClear(": ");
    var on, at := OnText(r, own), AtText(r);
    ClearWords(on, at);
    ClearWords(on + at, " by ");
    var l := on + at + " by ";
    assert l == l[..1] + l[1..];
    ClearBack(l[..1], l[1..]);
    ClearWords(l[1..], r.who);
    ClearWords(l[1..] + r.who, ": ");
  }

  lemma {:induction false} LeadEnds(r: Ret, own: string)
    ensures |Lead(r, own)| > 2 && Lead(r, own)[|Lead(r, own)| - 1] == ' ' && Lead(r, own)[|Lead(r, own)| - 2] == ':'
  {
    hide OnText, AtText;
  }

  ghost predicate ClearRests(ps: seq<Piece>) {
    forall i :: 0 <= i < |ps| ==> Clear(ps[i].rest)
  }

  lemma {:induction false} PieceNamed(n: nat, p: Piece)
    requires Clear(p.rest)
    ensures Framed(PieceText(n, p)) && Named(PieceText(n, p), 0) == [p.kind]
    ensures PieceText(n, p) != [] && PieceText(n, p)[0] == ' '
  {
    hide Clear, Framed, Named, EntryText, Breaks;
    EntryIsFramed(n, p.kind);
    EntryParts(n, p.kind);
    ClearIsFramed(p.rest);
    ClearNamesNothing(p.rest);
    SpaceBreaks(EntryText(n, p.kind), p.rest);
    FramedJoin(EntryText(n, p.kind), p.rest);
    NamedJoin(EntryText(n, p.kind), p.rest);
  }

  lemma {:induction false} BodyNames(ps: seq<Piece>)
    requires ClearRests(ps)
    ensures Framed(Body(ps)) && Named(Body(ps), 0) == PieceKinds(ps)
  {
    hide Clear, Framed, Named, PieceText, Breaks;
    if ps == [] {
      NoHyphenIsClear(HEAD);
      ClearIsFramed(HEAD);
      ClearNamesNothing(HEAD);
      assert PieceKinds(ps) == [];
    } else {
      var front, p := ps[..|ps| - 1], ps[|ps| - 1];
      BodyNames(front);
      PieceNamed(|ps|, p);
      var body, piece := Body(front), PieceText(|ps|, p);
      SpaceBreaks(body, piece);
      FramedJoin(body, piece);
      NamedJoin(body, piece);
      assert PieceKinds(ps) == PieceKinds(front) + [p.kind];
    }
  }

  /** The printed text names the kinds of its entries, in order, each at its entry and nowhere else, when nothing
      behind a kind names one. */
  lemma {:induction false} TextNames(ps: seq<Piece>)
    requires ClearRests(ps)
    ensures Framed(TextOf(ps)) && Named(TextOf(ps), 0) == PieceKinds(ps)
  {
    hide Clear, Framed, Named, Body, Breaks, ClearRests;
    if ps == [] {
      NoHyphenIsClear(FILL);
      ClearIsFramed(FILL);
      ClearNamesNothing(FILL);
      assert PieceKinds(ps) == [];
    } else {
      NoHyphenIsClear(" " + FILL);
      ClearIsFramed(" " + FILL);
      ClearNamesNothing(" " + FILL);
      BodyNames(ps);
      SpaceBreaks(Body(ps), " " + FILL);
      FramedJoin(Body(ps), " " + FILL);
      NamedJoin(Body(ps), " " + FILL);
    }
  }

  // ---- no span takes an entry -------------------------------------------------------------------

  lemma {:induction false} SpaceSeparates(c: char)
    requires IsSpace(c) || c == ':' || c == ' '
    ensures Lower(c) == [c] && !Alnum(c)
  {
  }

  lemma {:induction false} SeparatorFed(o: Traced, c: char, i: int)
    requires Lower(c) == [c] && !Alnum(c)
    ensures AtWord(Feed(o, c, i).text)
  {
  }

  lemma {:induction false} AtWordAfter(s: string, c: char)
    requires IsSpace(c)
    ensures AtWord(Trace(s + [c]).text)
  {
    hide Trace, IsSpace, Feed, Lower, AtWord;
    TraceSnoc(s, c);
    SpaceSeparates(c);
    SeparatorFed(Trace(s), c, |s|);
  }

  /** After a separator normalising starts afresh. */
  lemma {:induction false} SeparatedIsAtWord(s: string)
    requires s == [] || IsSpace(s[|s| - 1])
    ensures AtWord(Trace(s).text)
  {
    hide Trace, IsSpace;
    if s == [] {
      TraceNothing();
    } else {
      AtWordAfter(s[..|s| - 1], s[|s| - 1]);
      assert s == s[..|s| - 1] + [s[|s| - 1]];
    }
  }

  /** A word-aligned part of a text is in its normalised form. */
  lemma {:induction false} PartIsWithin(x: string, part: string, y: string)
    requires x == [] || IsSpace(x[|x| - 1])
    requires NormText(part) != []
    ensures Within(NormText(x + part + y), NormText(part))
    ensures Within(" " + NormText(x + part + y) + " ", " " + NormText(part))
  {
    hide Trace, NormText, IsSpace;
    var s, q, n := x + part + y, |Trace(x).text|, NormText(part);
    PartInTrace(x, part, y);
    NormIsTrace(s);
    NormIsTrace(part);
    var t, whole := Trace(s).text, NormText(s);
    assert t[q + |n| - 1] == t[q..q + |n|][|n| - 1] == n[|n| - 1];
    assert q + |n| <= |whole|;
    assert whole[q..q + |n|] == t[q..q + |n|];
    assert StandsAt(whole, n, q);
    PaddedWithin(whole, n, q);
  }

  /** What starts a word is found with a space in front once the text has one. */
  lemma {:induction false} PaddedWithin(whole: string, n: string, q: nat)
    requires StandsAt(whole, n, q) && (q > 0 ==> whole[q - 1] == ' ')
    ensures Within(" " + whole + " ", " " + n)
  {
    var padded := " " + whole + " ";
    forall i | 0 <= i < 1 + |n| ensures padded[q..q + 1 + |n|][i] == (" " + n)[i] {
      if i > 0 {
        assert padded[q + i] == whole[q + i - 1] == whole[q..q + |n|][i - 1];
      }
    }
    assert padded[q..q + 1 + |n|] == " " + n;
    assert StandsAt(padded, " " + n, q);
  }

  lemma {:induction false} PartInTrace(x: string, part: string, y: string)
    requires x == [] || IsSpace(x[|x| - 1])
    ensures var t, q, n := Trace(x + part + y).text, |Trace(x).text|, NormText(part);
      q + |n| <= |t| && t[q..q + |n|] == n && (q > 0 ==> t[q - 1] == ' ')
  {
    hide Trace, NormText, IsSpace;
    SeparatedIsAtWord(x);
    TraceAppend(x, part + y);
    assert x + (part + y) == x + part + y;
    TraceGrows(part + y, |part|);
    assert (part + y)[..|part|] == part;
    NormIsTrace(part);
    var a, b, n := Trace(x).text, Trace(part + y).text, NormText(part);
    assert n <= Trace(part).text <= b;
    assert (a + b)[|a|..|a| + |n|] == b[..|n|];
  }

  lemma {:induction false} NameNormalises(k: Kind)
    ensures NormText(Name(k)) != []
  {
    hide Trace, NormText;
    NormIsTrace(Name(k));
    NameLetters(k);
    var n := Name(k);
    FirstLetter(n);
  }

  lemma {:induction false} FirstLetter(s: string)
    requires s != [] && Alnum(Lower(s[0])[0])
    ensures Trace(s).text != []
  {
    hide Trace, Lower;
    assert s[..1] == [] + [s[0]];
    TraceSnoc([], s[0]);
    TraceGrows(s, 1);
  }

  ghost predicate Avoids(s: string, span: Span) {
    forall p: nat, t: nat :: HeadedBy(s, p, t) ==> EntryAt(s, p).value.end <= span.start || span.end <= p
  }

  lemma {:induction false} EntryListed(s: string, i: nat, p: nat)
    requires i <= p && EntryAt(s, p).Some?
    ensures EntryAt(s, p).value in Entries(s, i)
    decreases p - i
  {
    if i < p {
      hide EntryAt;
      var q := EntryHasShape(s, p);
      EntryListed(s, i + 1, p);
    }
  }

  /** No kind name in the normalised reason. */
  ghost predicate Unnamed(reason: string) {
    forall k :: !Within(NormText(reason), NormText(Name(k)))
  }

  /** A span that quotes a reason naming no kind holds no entry, so it meets none. */
  lemma {:induction false} QuoteAvoidsEntries(red: string, reason: string, span: Span)
    requires Unnamed(reason) && Quotes(red, reason, span)
    ensures Avoids(red, span)
  {
    hide EntryAt, Entries, Tokens, KindAt, Name, Variants, NormText, Lower, Trace, Clear;
    forall p: nat, t: nat | HeadedBy(red, p, t)
      ensures EntryAt(red, p).value.end <= span.start || span.end <= p
    {
      var e := EntryAt(red, p).value;
      EntryListed(red, 0, p);
      var q := EntryHasShape(red, p);
      assert e in ContextOf(red).kept;
      if Meets(span, e.start, e.end) {
        assert span.start <= p && e.end <= span.end;
        EntryInQuote(red, reason, span, p, t);
      }
    }
  }

  lemma {:induction false} EntryInQuote(red: string, reason: string, span: Span, p: nat, t: nat)
    requires Quotes(red, reason, span) && HeadedBy(red, p, t)
    requires span.start <= p && EntryAt(red, p).value.end <= span.end
    ensures Within(NormText(reason), NormText(Name(EntryAt(red, p).value.kind)))
  {
    hide EntryAt, Entries, Tokens, KindAt, Name, Variants, NormText, Lower, Trace, ContextOf;
    var e := EntryAt(red, p).value;
    var q := EntryHasShape(red, p);
    var x, name, y := red[span.start..t], Name(e.kind), red[e.end..span.end];
    assert red[span.start..span.end] == x + name + y;
    assert x[|x| - 1] == red[t - 1];
    NameNormalises(e.kind);
    PartIsWithin(x, name, y);
    var v, needle := NormText(red[span.start..span.end]), NormText(name);
    VariantsAreFronts(reason, v);
    var i :| 0 <= i <= |v| && StandsAt(v, needle, i);
    assert NormText(reason)[i..i + |needle|] == v[i..i + |needle|];
    assert StandsAt(NormText(reason), needle, i);
  }

  // ---- blanking keeps the list --------------------------------------------------------------------

  lemma {:induction false} CutFramed(red: string, span: Span)
    requires 0 <= span.start < span.end <= |red| && red[span.start] != ' ' && red[span.end - 1] != ' '
    requires Framed(red) && Avoids(red, span)
    ensures Framed(red[..span.start]) && Framed(red[span.end..])
    ensures Named(red, 0) == Named(red[..span.start], 0) + Named(red[span.end..], 0)
  {
    hide EntryAt, KindAt, Name, Named, Wordy;
    var a, x, b := red[..span.start], red[span.start..span.end], red[span.end..];
    assert red == a + x + b && red == a + (x + b);
    forall t: nat | KindAt(red, t).Some? ensures Placed(a, x, b, t) {
      WhereNamed(a, x, b, t);
    }
    FrontFramed(a, x, b);
    BackFramed(a, x, b);
    NamedAround(a, x, b);
  }

  /** A name of the whole text stands with its entry in the part before the span or in the part after it. */
  ghost predicate Placed(a: string, x: string, b: string, t: nat) {
    && (t < |a| ==> Headed(a, t) && KindAt(a, t) == KindAt(a + x + b, t))
    && (t >= |a| ==> t >= |a + x| && Headed(b, t - |a + x|))
  }

  lemma {:induction false} WhereNamed(a: string, x: string, b: string, t: nat)
    requires x != [] && x[0] != ' ' && x[|x| - 1] != ' '
    requires Framed(a + x + b) && Avoids(a + x + b, Span(|a|, |a + x|)) && KindAt(a + x + b, t).Some?
    ensures Placed(a, x, b, t)
  {
    hide EntryAt, KindAt, Name, Wordy, Avoids;
    var red := a + x + b;
    assert Headed(red, t);
    var p: nat :| 1 <= p < t && HeadedBy(red, p, t);
    var e := EntryAt(red, p).value;
    var q := EntryHasShape(red, p);
    AvoidsOne(red, Span(|a|, |a + x|), p, t);
    assert red[|a|] == x[0] && red[|a + x| - 1] == x[|x| - 1];
    assert a + (x + b) == red;
    if e.end <= |a| {
      HeadedFront(a, x + b, p, t);
      assert t < |a|;
    } else {
      HeadedBack(a + x, b, p, t);
      assert HeadedBy(b, p - |a + x|, t - |a + x|);
    }
  }

  lemma {:induction false} AvoidsOne(red: string, span: Span, p: nat, t: nat)
    requires Avoids(red, span) && HeadedBy(red, p, t)
    ensures EntryAt(red, p).value.end <= span.start || span.end <= p
  {
  }

  lemma {:induction false} HeadedFront(a: string, b: string, p: nat, t: nat)
    requires HeadedBy(a + b, p, t) && EntryAt(a + b, p).value.end < |a|
    ensures t < |a| && HeadedBy(a, p, t) && KindAt(a, t) == KindAt(a + b, t)
  {
    hide EntryAt, KindAt, Name, Wordy, IsDigit, IsSpace;
    var s, e := a + b, EntryAt(a + b, p).value;
    var q := EntryHasShape(s, p);
    KindOfFront(a, b, t);
    assert forall i :: 0 <= i < |a| ==> s[i] == a[i];
    FoldedSpace();
    ShapeIsEntry(a, p, q, t, e.kind);
    assert a[t..e.end] == s[t..e.end];
  }

  lemma {:induction false} HeadedBack(a: string, b: string, p: nat, t: nat)
    requires HeadedBy(a + b, p, t) && |a| < p
    ensures |a| < p < t && HeadedBy(b, p - |a|, t - |a|)
  {
    hide EntryAt, KindAt, Name, Wordy, IsDigit, IsSpace;
    var s, e := a + b, EntryAt(a + b, p).value;
    var q := EntryHasShape(s, p);
    KindOfBack(a, b, t - |a|);
    FoldedSpace();
    forall i | 0 <= i < |b| ensures b[i] == s[|a| + i] {
    }
    forall i | p - |a| <= i < q - |a| ensures IsDigit(b[i]) {
      assert b[i] == s[|a| + i];
    }
    forall i | q - |a| < i < t - |a| ensures IsSpace(b[i]) {
      assert b[i] == s[|a| + i];
    }
    ShapeIsEntry(b, p - |a|, q - |a|, t - |a|, e.kind);
    assert b[t - |a|..e.end - |a|] == s[t..e.end];
  }

  lemma {:induction false} FoldedSpace()
    ensures !Wordy(' ')
  {
  }

  lemma {:induction false} FrontFramed(a: string, x: string, b: string)
    requires forall t: nat :: KindAt(a + x + b, t).Some? ==> Placed(a, x, b, t)
    ensures Framed(a)
  {
    hide KindAt, Headed, Name;
    forall t: nat | KindAt(a, t).Some? ensures Headed(a, t) {
      KindInPart([], a, x + b, t);
      assert [] + a + (x + b) == a + x + b;
      CoversWord(a, t, t);
      assert Placed(a, x, b, t);
    }
  }

  lemma {:induction false} BackFramed(a: string, x: string, b: string)
    requires forall t: nat :: KindAt(a + x + b, t).Some? ==> Placed(a, x, b, t)
    ensures Framed(b)
  {
    hide KindAt, Headed;
    forall t: nat | KindAt(b, t).Some? ensures Headed(b, t) {
      KindOfBack(a + x, b, t);
      assert Placed(a, x, b, |a + x| + t);
    }
  }

  lemma {:induction false} NamedAround(a: string, x: string, b: string)
    requires forall t: nat :: KindAt(a + x + b, t).Some? ==> Placed(a, x, b, t)
    ensures Named(a + x + b, 0) == Named(a, 0) + Named(b, 0)
  {
    hide KindAt, Headed, Name, Named;
    var red := a + x + b;
    assert red == a + (x + b);
    forall p: nat | p < |a| && KindAt(red, p).Some? ensures p + |Name(KindAt(red, p).value)| <= |a| {
      assert Placed(a, x, b, p);
      CoversWord(a, p, p);
    }
    NamedFront(a, x + b, 0);
    forall i | 0 <= i < |x| ensures KindAt(x + b, i).None? {
      KindOfBack(a, x + b, i);
      assert KindAt(red, |a| + i).Some? ==> Placed(a, x, b, |a| + i);
    }
    NoNamesIn(x + b, 0, |x|);
    NamedBack(x, b, 0);
  }

  ghost predicate EndsOnWords(red: string, span: Span) {
    0 <= span.start < span.end <= |red| && red[span.start] != ' ' && red[span.end - 1] != ' '
  }

  /** Blanking spans that meet no entry leaves the named kinds, each at its entry. */
  lemma {:induction false} BlankKeepsNames(red: string, spans: seq<Span>)
    requires Framed(red) && Ascending(spans, |red|)
    requires forall s :: s in spans ==> EndsOnWords(red, s) && Avoids(red, s)
    ensures Framed(Blanked(red, spans)) && Named(Blanked(red, spans), 0) == Named(red, 0)
    decreases |spans|
  {
    hide Framed, Named, Avoids, EntryAt, Breaks, Clear;
    if spans != [] {
      var front, last := spans[..|spans| - 1], spans[|spans| - 1];
      assert last in spans;
      var a, b := red[..last.start], red[last.end..];
      CutFramed(red, last);
      assert red == a + red[last.start..];
      forall s | s in front ensures EndsOnWords(a, s) && Avoids(a, s) {
        SpanBelow(front, s, last.start);
        AvoidsFront(a, red[last.start..], s);
      }
      BlankKeepsNames(a, front);
      BlankBetween(Blanked(a, front), b);
    }
  }

  lemma {:induction false} BlankBetween(a: string, b: string)
    requires Framed(a) && Framed(b)
    ensures Framed(a + BLANK + b) && Named(a + BLANK + b, 0) == Named(a, 0) + Named(b, 0)
  {
    hide Framed, Named, Breaks, Clear;
    NoHyphenIsClear(BLANK);
    ClearIsFramed(BLANK);
    ClearNamesNothing(BLANK);
    SpaceBreaks(a, BLANK);
    FramedJoin(a, BLANK);
    NamedJoin(a, BLANK);
    SpaceBreaks(a + BLANK, b);
    FramedJoin(a + BLANK, b);
    NamedJoin(a + BLANK, b);
  }

  lemma {:induction false} SpanBelow(spans: seq<Span>, s: Span, n: int)
    requires Ascending(spans, n) && s in spans
    ensures 0 <= s.start < s.end <= n
    decreases |spans|
  {
    var front, last := spans[..|spans| - 1], spans[|spans| - 1];
    if s != last {
      assert s in front;
      SpanBelow(front, s, last.start);
    }
  }

  lemma {:induction false} AvoidsFront(a: string, b: string, span: Span)
    requires Avoids(a + b, span)
    ensures Avoids(a, span)
  {
    hide EntryAt, KindAt, Name;
    forall p: nat, t: nat | HeadedBy(a, p, t) ensures EntryAt(a, p).value.end <= span.start || span.end <= p {
      HeadedInPart([], a, b, p, t);
      assert [] + a + b == a + b;
      AvoidsOne(a + b, span, p, t);
    }
  }

  // ---- the two agree ------------------------------------------------------------------------------

  lemma {:induction false} QuoteEnds(red: string, reason: string, s: Span)
    requires Quotes(red, reason, s)
    ensures EndsOnWords(red, s)
  {
    hide NormText, Variants, ContextOf, Whole;
    SpaceSeparates(' ');
  }

  lemma {:induction false} TokenListed(s: string, i: nat, m: Match)
    requires m in Tokens(s, i)
    ensures TokenAt(s, m.start) == Some(m)
    decreases |s| - i
  {
    hide TokenAt;
    if TokenAt(s, i).Some? {
      TokenEnds(s, i);
    }
    if !(TokenAt(s, i) == Some(m)) {
      TokenListed(s, i + 1, m);
    }
  }

  /** Names spelled as printed raise nothing. */
  lemma {:induction false} FramedIsPlain(s: string)
    requires Framed(s)
    ensures AllPlain(s, Tokens(s, 0))
  {
    hide Tokens, TokenAt, KindAt, Name, EntryAt, Framed;
    forall j | 0 <= j < |Tokens(s, 0)| ensures Plain(s, Tokens(s, 0)[j]) {
      var m := Tokens(s, 0)[j];
      assert m in Tokens(s, 0);
      TokenListed(s, 0, m);
      TokenInside(s, 0, m);
      TokenIsPlain(s, m);
    }
  }

  lemma {:induction false} TokenIsPlain(s: string, m: Match)
    requires Framed(s) && TokenAt(s, m.start) == Some(m) && m.start < m.end <= |s|
    ensures Plain(s, m)
  {
    hide KindAt, Name, EntryAt, Wordy;
    assert Headed(s, m.start);
    var p: nat :| 1 <= p < m.start && HeadedBy(s, p, m.start);
    var q := EntryHasShape(s, p);
    NameLetters(m.kind);
    assert s[m.start..m.end] == Name(m.kind);
    forall i | m.start <= i < m.end ensures s[i] as int < 128 {
      assert s[i] == s[m.start..m.end][i - m.start];
    }
  }

  lemma {:induction false} SameCounts(kinds: seq<Kind>, ks: seq<Kind>)
    ensures CountsOff(kinds, ks, ks) == []
  {
    if kinds != [] {
      SameCounts(kinds[..|kinds| - 1], ks);
    }
  }

  /** Where the text behind the kind of entry `j` starts. */
  function RestAt(ps: seq<Piece>, j: nat): nat
    requires j < |ps|
  {
    |Body(ps[..j])| + |EntryText(j + 1, ps[j].kind)|
  }

  lemma {:induction false} RestPrinted(ps: seq<Piece>, j: nat)
    requires j < |ps|
    ensures var at := RestAt(ps, j); at + |ps[j].rest| <= |Body(ps)| && Body(ps)[at..at + |ps[j].rest|] == ps[j].rest
    decreases |ps|
  {
    hide EntryText;
    var front, p := ps[..|ps| - 1], ps[|ps| - 1];
    var at := RestAt(ps, j);
    if j < |front| {
      RestPrinted(front, j);
      assert front[..j] == ps[..j];
      assert Body(ps)[at..at + |ps[j].rest|] == Body(front)[at..at + |ps[j].rest|];
    } else {
      assert Body(ps) == (Body(front) + EntryText(|ps|, p.kind)) + p.rest;
    }
  }

  /** What stands behind an entry: the next one or the end of the list. */
  lemma {:induction false} RestFollowed(ps: seq<Piece>, j: nat)
    requires j < |ps|
    ensures var end := RestAt(ps, j) + |ps[j].rest|; var s := TextOf(ps);
      && end + 1 < |s| && s[end] == ' ' && (IsDigit(s[end + 1]) || s[end + 1] == '<')
    ensures RestAt(ps, j) + |ps[j].rest| <= |TextOf(ps)|
    ensures TextOf(ps)[RestAt(ps, j)..RestAt(ps, j) + |ps[j].rest|] == ps[j].rest
  {
    hide EntryText, Body, IsDigit;
    RestPrinted(ps, j);
    NextEntry(ps, j);
    var at, end, tail := RestAt(ps, j), RestAt(ps, j) + |ps[j].rest|, " " + FILL;
    assert TextOf(ps)[at..end] == Body(ps)[at..end];
    assert tail[0] == ' ' && tail[1] == '<';
    if j + 1 == |ps| {
      assert TextOf(ps)[end] == tail[0] && TextOf(ps)[end + 1] == tail[1];
    }
  }

  lemma {:induction false} NextEntry(ps: seq<Piece>, j: nat)
    requires j < |ps|
    ensures var end := RestAt(ps, j) + |ps[j].rest|;
      if j + 1 == |ps| then end == |Body(ps)|
      else end + 1 < |Body(ps)| && Body(ps)[end] == ' ' && IsDigit(Body(ps)[end + 1])
    decreases |ps|
  {
    hide EntryText, IsDigit;
    var front, p := ps[..|ps| - 1], ps[|ps| - 1];
    var entry := EntryText(|ps|, p.kind);
    assert Body(ps) == Body(front) + (entry + p.rest);
    if j < |front| {
      NextEntry(front, j);
      assert front[..j] == ps[..j];
      EntryParts(|ps|, p.kind);
    }
  }

  /** Where the reason of return `j` starts in the printed list. */
  function HomeAt(rets: seq<Ret>, own: string, j: nat): nat
    requires j < |rets|
  {
    RestAt(Pieces(rets, own), j) + |Lead(rets[j], own)|
  }

  /** Every recorded reason is printed behind a colon and a space and before a space that neither white space nor a
      letter follows. */
  lemma {:induction false} ReasonPrinted(rets: seq<Ret>, own: string, j: nat)
    requires j < |rets| && rets[j].reason != ""
    ensures var s, at := Red(rets, own), HomeAt(rets, own, j); var end := at + |rets[j].reason|;
      && 2 <= at <= end && end + 1 < |s|
      && s[at..end] == rets[j].reason && s[at - 1] == ' ' && s[at - 2] == ':'
      && s[end] == ' ' && (IsDigit(s[end + 1]) || s[end + 1] == '<')
  {
    hide Lead, Red, TextOf, RestAt, IsDigit;
    RedIsText(rets, own);
    var ps, lead := Pieces(rets, own), Lead(rets[j], own);
    RestFollowed(ps, j);
    LeadEnds(rets[j], own);
    var s, start := TextOf(ps), RestAt(ps, j);
    var rest := s[start..start + |ps[j].rest|];
    assert rest == lead + rets[j].reason;
    assert s[start + |lead| - 1] == rest[|lead| - 1] && s[start + |lead| - 2] == rest[|lead| - 2];
    assert s[start + |lead|..start + |rest|] == rest[|lead|..];
  }

  lemma {:induction false} WantedIsFront(reason: string)
    ensures Wanted(reason) <= NormText(reason)
    ensures Wanted(reason) == [] || Wanted(reason)[|Wanted(reason)| - 1] != ' '
  {
    hide NormText, Strip;
    NormIsWords(reason);
    var n := NormText(reason);
    StripOfFront(if |n| > REASON_PREFIX then n[..REASON_PREFIX] else n);
  }

  lemma {:induction false} ReasonCarried(rets: seq<Ret>, own: string, j: nat)
    requires j < |rets|
    ensures Carried(Red(rets, own), rets[j].reason)
  {
    hide NormText, Wanted, Red, HomeAt;
    var reason := rets[j].reason;
    WantedIsFront(reason);
    if Wanted(reason) != "" {
      NothingNormalises();
      ReasonPrinted(rets, own, j);
      var s, at := Red(rets, own), HomeAt(rets, own, j);
      var pre, post := s[..at], s[at + |reason|..];
      assert s == pre + reason + post;
      SpaceIsSpace();
      PartIsWithin(pre, reason, post);
      ShorterWithin(" " + NormText(Red(rets, own)) + " ", " " + NormText(reason), " " + Wanted(reason));
    }
  }

  lemma {:induction false} NothingNormalises()
    ensures NormText("") == ""
  {
    StripNothing();
  }

  lemma {:induction false} ShorterWithin(hay: string, long: string, short: string)
    requires Within(hay, long) && short <= long
    ensures Within(hay, short)
  {
    var i :| 0 <= i <= |hay| && StandsAt(hay, long, i);
    assert hay[i..i + |short|] == hay[i..i + |long|][..|short|];
    assert StandsAt(hay, short, i);
  }

  lemma {:induction false} NothingMissing(red: string, rets: seq<Ret>)
    requires forall j :: 0 <= j < |rets| ==> Carried(red, rets[j].reason)
    ensures MissingReasons(red, rets) == []
  {
    hide Carried;
    if rets != [] {
      NothingMissing(red, rets[..|rets| - 1]);
    }
  }

  /** The printed list is accepted when what is left of it names exactly the queue's returns, each at its entry. */
  lemma {:induction false} NamedIsAccepted(rets: seq<Ret>, own: string)
    requires var scan := WithoutReasons(Red(rets, own), rets); Framed(scan) && Named(scan, 0) == RetKinds(rets)
    ensures Checked(Red(rets, own), rets) == Findings([])
  {
    hide Red, WithoutReasons, Framed, Named, Tokens, Entries, MissingReasons, AllPlain, CountsOff, Carried;
    var red := Red(rets, own);
    var scan := WithoutReasons(red, rets);
    FramedTokens(scan, 0);
    FramedEntries(scan, 0);
    FramedIsPlain(scan);
    forall j | 0 <= j < |rets| ensures Carried(red, rets[j].reason) {
      ReasonCarried(rets, own, j);
    }
    NothingMissing(red, rets);
    SameCounts(KINDS, RetKinds(rets));
  }
}
