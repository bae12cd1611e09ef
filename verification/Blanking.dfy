/** Taking the queue's reasons out of a text: one span per return, found through the normalised text, never sharing
    a kind name or a numbered entry with the text outside it. */
module Blanking {
  import Sorting
  import opened Options
  import opened Text
  import opened Normalise
  import opened ReturnKinds

  /** One time the item went back. */
  datatype Ret = Ret(kind: Kind, who: string, item: string, attempt: Option<nat>, reason: string)

  datatype Span = Span(start: int, end: int)

  const REASON_PREFIX: nat := 160

  const BLANK := " <reason> "

  // ---- what a reason may look like --------------------------------------------------------------

  /** `rsplit(" ", 1)[0]`. */
  function BeforeLastSpace(s: string): (r: string)
    ensures r <= s
  {
    if s == [] then [] else if s[|s| - 1] == ' ' then s[..|s| - 1] else BeforeLastSpace(s[..|s| - 1])
  }

  /** The first characters of a long reason, without the word they cut. */
  function Shortened(full: string): string
    requires |full| > REASON_PREFIX
  {
    var cut := full[..REASON_PREFIX];
    Strip(if full[REASON_PREFIX] != ' ' && ' ' in cut then BeforeLastSpace(cut) else cut)
  }

  function Variants(reason: string): seq<string> {
    var full := NormText(reason);
    if full == [] then []
    else if |full| > REASON_PREFIX && Shortened(full) != [] then [full, Shortened(full)]
    else [full]
  }

  lemma {:induction false} StripOfFront(s: string)
    requires s == [] || s[0] != ' '
    requires forall i :: 0 <= i < |s| ==> Alnum(s[i]) || s[i] == ' '
    ensures Strip(s) <= s
    ensures Strip(s) == [] || (Strip(s)[|Strip(s)| - 1] != ' ')
  {
    hide RStrip;
    SpaceIsSpace();
    assert LStrip(s) == s;
    RStripIs(s);
  }

  lemma {:induction false} NormIsWords(s: string)
    ensures forall i :: 0 <= i < |NormText(s)| ==> Alnum(NormText(s)[i]) || NormText(s)[i] == ' '
    ensures NormText(s) == [] || (NormText(s)[0] != ' ' && NormText(s)[|NormText(s)| - 1] != ' ')
  {
    hide Trace, NormText;
    NormIsTrace(s);
    TraceIsTidy(s);
    var t := Trace(s).text;
    assert forall i :: 0 <= i < |NormText(s)| ==> NormText(s)[i] == t[i];
  }

  /** Each variant is a front part of the normalised reason that begins and ends with a letter or digit. */
  lemma {:induction false} VariantsAreFronts(reason: string, v: string)
    requires v in Variants(reason)
    ensures v != [] && v <= NormText(reason) && v[0] != ' ' && v[|v| - 1] != ' '
  {
    hide NormText, Strip;
    NormIsWords(reason);
    var full := NormText(reason);
    if v != full {
      var cut := full[..REASON_PREFIX];
      var kept := if full[REASON_PREFIX] != ' ' && ' ' in cut then BeforeLastSpace(cut) else cut;
      assert kept <= full;
      StripOfFront(kept);
    }
  }

  lemma {:induction false} LastSpaceIs(s: string)
    requires ' ' in s
    ensures |BeforeLastSpace(s)| < |s| && s[|BeforeLastSpace(s)|] == ' '
    ensures forall i :: |BeforeLastSpace(s)| < i < |s| ==> s[i] != ' '
  {
    if s[|s| - 1] != ' ' {
      assert s == s[..|s| - 1] + [s[|s| - 1]];
      LastSpaceIs(s[..|s| - 1]);
    }
  }

  /** What stands before the space behind the last whole word of the first 160 characters, or those characters where no
      word ends in them. */
  ghost predicate IsShortForm(full: string, short: string) {
    && short <= full && 0 < |short| <= 160 < |full|
    && if exists i :: 0 <= i <= 160 && full[i] == ' '
       then full[|short|] == ' ' && forall i :: |short| < i <= 160 ==> full[i] != ' '
       else |short| == 160
  }

  lemma {:induction false} NormIsTidy(s: string)
    ensures forall i :: 0 < i < |NormText(s)| && NormText(s)[i] == ' ' ==> NormText(s)[i - 1] != ' '
  {
    hide Trace, NormText;
    NormIsTrace(s);
    TraceIsTidy(s);
    var t := Trace(s).text;
    assert forall i :: 0 <= i < |NormText(s)| ==> NormText(s)[i] == t[i];
  }

  lemma {:induction false} StripKeeps(s: string)
    requires s != [] && s[0] != ' ' && s[|s| - 1] != ' ' && forall i :: 0 <= i < |s| ==> Alnum(s[i]) || s[i] == ' '
    ensures Strip(s) == s
  {
    hide IsSpace;
    SpaceIsSpace();
  }

  lemma {:induction false} ShortFormIs(reason: string)
    requires |NormText(reason)| > 160
    ensures IsShortForm(NormText(reason), Shortened(NormText(reason)))
  {
    hide NormText, Strip, BeforeLastSpace;
    NormIsWords(reason);
    NormIsTidy(reason);
    var full := NormText(reason);
    var cut := full[..160];
    if full[160] != ' ' && ' ' in cut {
      LastSpaceIs(cut);
      var kept := BeforeLastSpace(cut);
      assert cut[|kept|] == full[|kept|] == ' ';
      assert kept[|kept| - 1] == full[|kept| - 1];
      StripKeeps(kept);
      assert forall i :: |kept| < i < 160 ==> full[i] == cut[i];
    } else {
      StripKeeps(cut);
      assert forall i :: 0 <= i < 160 ==> full[i] == cut[i] && cut[i] in cut;
    }
  }

  /** A reason is looked for as a whole, and a long one then by its first words. */
  lemma {:induction false} VariantsAre(reason: string)
    ensures var full := NormText(reason);
      if full == [] then Variants(reason) == []
      else if |full| <= 160 then Variants(reason) == [full]
      else |Variants(reason)| == 2 && Variants(reason)[0] == full && IsShortForm(full, Variants(reason)[1])
  {
    hide NormText, Shortened;
    if |NormText(reason)| > 160 {
      ShortFormIs(reason);
    }
  }

  // ---- the search ---------------------------------------------------------------------------------

  /** The text in normalised form with its map, and what no span may cut. */
  datatype Context = Context(norm: Traced, kept: seq<Match>)

  function ContextOf(red: string): (c: Context)
    ensures |c.norm.text| == |c.norm.at|
  {
    Context(Normed(red), Tokens(red, 0) + Entries(red, 0))
  }

  function SpanAt(norm: Traced, p: nat, n: nat): Span
    requires n > 0 && p + n <= |norm.text| == |norm.at|
  {
    Span(norm.at[p], norm.at[p + n - 1] + 1)
  }

  predicate Meets(a: Span, start: int, end: int) {
    a.start < end && start < a.end
  }

  predicate Free(span: Span, chosen: seq<Span>) {
    forall c :: c in chosen ==> !Meets(span, c.start, c.end)
  }

  /** Every token and entry lies wholly inside the span or wholly outside it. */
  predicate Whole(span: Span, kept: seq<Match>) {
    forall m :: m in kept ==> Meets(span, m.start, m.end) ==> span.start <= m.start && m.end <= span.end
  }

  predicate OnWords(text: string, p: nat, end: nat)
    requires p <= end <= |text|
  {
    (p == 0 || text[p - 1] == ' ') && (end == |text| || text[end] == ' ')
  }

  /** An occurrence of `v` that may be blanked. */
  predicate Usable(c: Context, chosen: seq<Span>, v: string, p: nat)
    requires |c.norm.text| == |c.norm.at| && v != []
  {
    && StandsAt(c.norm.text, v, p)
    && OnWords(c.norm.text, p, p + |v|)
    && Free(SpanAt(c.norm, p, |v|), chosen)
    && Whole(SpanAt(c.norm, p, |v|), c.kept)
  }

  /** The first usable occurrence from `p` on. */
  function FirstUse(c: Context, chosen: seq<Span>, v: string, p: nat): Option<Span>
    requires |c.norm.text| == |c.norm.at| && v != []
    decreases |c.norm.text| - p
  {
    if p + |v| > |c.norm.text| then None
    else if Usable(c, chosen, v, p) then Some(SpanAt(c.norm, p, |v|))
    else FirstUse(c, chosen, v, p + 1)
  }

  predicate NonEmpty(vs: seq<string>) {
    forall i :: 0 <= i < |vs| ==> vs[i] != []
  }

  /** The first variant that has one. */
  function Place(c: Context, chosen: seq<Span>, vs: seq<string>): Option<Span>
    requires |c.norm.text| == |c.norm.at| && NonEmpty(vs)
  {
    if vs == [] then None
    else if FirstUse(c, chosen, vs[0], 0).Some? then FirstUse(c, chosen, vs[0], 0)
    else Place(c, chosen, vs[1..])
  }

  function Taken(choice: seq<Option<Span>>): seq<Span> {
    if choice == [] then []
    else
      var front, last := choice[..|choice| - 1], choice[|choice| - 1];
      if last.Some? then Taken(front) + [last.value] else Taken(front)
  }

  /** For each return the span blanked for it, chosen in order, each one clear of those before it. */
  function Choice(c: Context, rets: seq<Ret>): (choice: seq<Option<Span>>)
    requires |c.norm.text| == |c.norm.at|
    ensures |choice| == |rets|
  {
    if rets == [] then []
    else
      var before := Choice(c, rets[..|rets| - 1]);
      VariantsNonEmpty(rets[|rets| - 1].reason);
      before + [Place(c, Taken(before), Variants(rets[|rets| - 1].reason))]
  }

  lemma {:induction false} VariantsNonEmpty(reason: string)
    ensures NonEmpty(Variants(reason))
  {
  }

  lemma {:induction false} TakenSnoc(choice: seq<Option<Span>>, last: Option<Span>)
    ensures Taken(choice + [last]) == if last.Some? then Taken(choice) + [last.value] else Taken(choice)
  {
    assert (choice + [last])[..|choice|] == choice;
  }

  lemma {:induction false} ChoiceSnoc(c: Context, rets: seq<Ret>, r: Ret)
    requires |c.norm.text| == |c.norm.at|
    ensures NonEmpty(Variants(r.reason))
    ensures Choice(c, rets + [r]) == Choice(c, rets) + [Place(c, Taken(Choice(c, rets)), Variants(r.reason))]
  {
    hide Place, Variants, Taken;
    VariantsNonEmpty(r.reason);
    assert (rets + [r])[..|rets|] == rets;
  }

  // ---- what a chosen span is ----------------------------------------------------------------------

  /** The first usable occurrence: it is usable, and nothing before it is. None means there is none at all. */
  lemma {:induction false} FirstUseIsFirst(c: Context, chosen: seq<Span>, v: string, p: nat) returns (q: nat)
    requires |c.norm.text| == |c.norm.at| && v != []
    ensures FirstUse(c, chosen, v, p).Some? ==>
      p <= q && Usable(c, chosen, v, q) && FirstUse(c, chosen, v, p).value == SpanAt(c.norm, q, |v|)
    ensures FirstUse(c, chosen, v, p).Some? ==> forall x :: p <= x < q ==> !Usable(c, chosen, v, x)
    ensures FirstUse(c, chosen, v, p).None? ==> forall x: nat :: p <= x ==> !Usable(c, chosen, v, x)
    decreases |c.norm.text| - p
  {
    hide OnWords, Free, Whole;
    q := p;
    if p + |v| <= |c.norm.text| && !Usable(c, chosen, v, p) {
      q := FirstUseIsFirst(c, chosen, v, p + 1);
    }
  }

  /** The variant used is the first that has a usable occurrence, at its first one. */
  lemma {:induction false} PlaceIsUsable(c: Context, chosen: seq<Span>, vs: seq<string>) returns (i: nat, p: nat)
    requires |c.norm.text| == |c.norm.at| && NonEmpty(vs) && Place(c, chosen, vs).Some?
    ensures i < |vs| && Usable(c, chosen, vs[i], p) && Place(c, chosen, vs).value == SpanAt(c.norm, p, |vs[i]|)
    ensures forall x :: 0 <= x < p ==> !Usable(c, chosen, vs[i], x)
    ensures forall j, x: nat :: 0 <= j < i ==> !Usable(c, chosen, vs[j], x)
    decreases |vs|
  {
    hide Usable, FirstUse;
    p := FirstUseIsFirst(c, chosen, vs[0], 0);
    if FirstUse(c, chosen, vs[0], 0).Some? {
      i := 0;
    } else {
      i, p := PlaceIsUsable(c, chosen, vs[1..]);
      i := i + 1;
    }
  }

  /** A return is left alone only if no variant of its reason has a usable occurrence left. */
  lemma {:induction false} UnplacedHasNoUse(c: Context, chosen: seq<Span>, vs: seq<string>, v: string, p: nat)
    requires |c.norm.text| == |c.norm.at| && NonEmpty(vs) && Place(c, chosen, vs).None? && v in vs
    ensures v != [] && !Usable(c, chosen, v, p)
    decreases |vs|
  {
    hide Usable, FirstUse;
    assert vs[0] in vs;
    if v == vs[0] {
      var q := FirstUseIsFirst(c, chosen, v, 0);
    } else {
      UnplacedHasNoUse(c, chosen, vs[1..], v, p);
    }
  }

  /** A span that blanks the reason of `r`: it begins and ends on a letter or digit, it normalises to what the reason
      may look like, and it cuts no token and no entry. */
  ghost predicate Quotes(red: string, reason: string, span: Span) {
    && 0 <= span.start < span.end <= |red|
    && Alnum(Lower(red[span.start])[0]) && Alnum(Lower(red[span.end - 1])[0])
    && NormText(red[span.start..span.end]) in Variants(reason)
    && Whole(span, ContextOf(red).kept)
  }

  lemma {:induction false} PlacedQuotes(red: string, chosen: seq<Span>, reason: string)
    requires NonEmpty(Variants(reason)) && Place(ContextOf(red), chosen, Variants(reason)).Some?
    ensures var span := Place(ContextOf(red), chosen, Variants(reason)).value;
      Quotes(red, reason, span) && Free(span, chosen)
  {
    hide Place, Variants, Tokens, Entries, Normed, NormText, Free, Whole;
    var c := ContextOf(red);
    var i, p := PlaceIsUsable(c, chosen, Variants(reason));
    var v := Variants(reason)[i];
    VariantsAreFronts(reason, v);
    var text := c.norm.text;
    assert text[p] == v[0] && text[p + |v| - 1] == v[|v| - 1];
    SpanNormalises(red, p, p + |v|);
    EndsAreLetters(red, p);
    EndsAreLetters(red, p + |v| - 1);
  }

  lemma {:induction false} EndsAreLetters(red: string, q: nat)
    requires q < |Normed(red).text| && Normed(red).text[q] != ' '
    ensures 0 <= Normed(red).at[q] < |red| && Alnum(Lower(red[Normed(red).at[q]])[0])
  {
    hide Trace, TrimEnd, Lower;
    SameLength(red);
    var o := Trace(red);
    MapIsTrue(red, q);
    TraceIsTidy(red);
    assert o.text[q] == Normed(red).text[q] && o.at[q] == Normed(red).at[q];
  }

  /** The spans are pairwise disjoint. */
  ghost predicate Apart(spans: seq<Span>) {
    forall i, j :: 0 <= i < j < |spans| ==> !Meets(spans[j], spans[i].start, spans[i].end)
  }

  ghost predicate AllProper(spans: seq<Span>, n: nat) {
    forall s :: s in spans ==> 0 <= s.start < s.end <= n
  }

  /** Each chosen span quotes the reason of its return, and no two of them meet. */
  lemma {:induction false} ChoiceIsSound(red: string, rets: seq<Ret>)
    ensures var choice := Choice(ContextOf(red), rets);
      && (forall j :: 0 <= j < |rets| && choice[j].Some? ==> Quotes(red, rets[j].reason, choice[j].value))
      && Apart(Taken(choice)) && AllProper(Taken(choice), |red|)
    decreases |rets|
  {
    hide ContextOf, Place, Variants, Taken, Choice, Quotes;
    var c := ContextOf(red);
    if rets == [] {
      NothingChosen(c);
    } else {
      var front, r := rets[..|rets| - 1], rets[|rets| - 1];
      assert rets == front + [r];
      ChoiceIsSound(red, front);
      ChoiceSnoc(c, front, r);
      var before := Choice(c, front);
      var placed := Place(c, Taken(before), Variants(r.reason));
      TakenSnoc(before, placed);
      if placed.Some? {
        PlacedQuotes(red, Taken(before), r.reason);
        QuotesProper(red, r.reason, placed.value);
      }
    }
  }

  lemma {:induction false} QuotesProper(red: string, reason: string, span: Span)
    requires Quotes(red, reason, span)
    ensures 0 <= span.start < span.end <= |red|
  {
  }

  lemma {:induction false} NothingChosen(c: Context)
    requires |c.norm.text| == |c.norm.at|
    ensures Choice(c, []) == [] && Taken([]) == []
  {
  }

  // ---- blanking -----------------------------------------------------------------------------------

  predicate Before(a: Span, b: Span) {
    a.start < b.start || (a.start == b.start && a.end <= b.end)
  }

  function Insert(spans: seq<Span>, x: Span): seq<Span> {
    Sorting.Insert(spans, x, Before)
  }

  function Sorted(spans: seq<Span>): seq<Span> {
    Sorting.Sorted(spans, Before)
  }

  /** In order, disjoint, and within the first `n` characters. */
  ghost predicate Ascending(spans: seq<Span>, n: int) {
    spans == []
    || (var last := spans[|spans| - 1];
        0 <= last.start < last.end <= n && Ascending(spans[..|spans| - 1], last.start))
  }

  function Blanked(red: string, spans: seq<Span>): string
    requires Ascending(spans, |red|)
    decreases |spans|
  {
    if spans == [] then red
    else
      var last := spans[|spans| - 1];
      Blanked(red[..last.start], spans[..|spans| - 1]) + BLANK + red[last.end..]
  }

  lemma {:induction false} AscendingWider(spans: seq<Span>, m: int, n: int)
    requires Ascending(spans, m) && m <= n
    ensures Ascending(spans, n)
  {
  }

  lemma {:induction false} AscendingSnoc(spans: seq<Span>, x: Span, n: int)
    requires 0 <= x.start < x.end <= n && Ascending(spans, x.start)
    ensures Ascending(spans + [x], n)
  {
    assert (spans + [x])[..|spans|] == spans;
  }

  /** A disjoint span finds its place. */
  lemma {:induction false} InsertAscends(spans: seq<Span>, x: Span, n: int)
    requires Ascending(spans, n) && 0 <= x.start < x.end <= n
    requires forall s :: s in spans ==> !Meets(x, s.start, s.end)
    ensures Ascending(Insert(spans, x), n)
    ensures forall s :: s in Insert(spans, x) <==> s == x || s in spans
    decreases |spans|
  {
    if spans == [] {
      AscendingSnoc([], x, n);
      assert [] + [x] == [x];
    } else {
      var front, last := spans[..|spans| - 1], spans[|spans| - 1];
      assert spans == front + [last];
      assert last in spans;
      if Before(last, x) {
        AscendingWider(front, last.start, last.end);
        AscendingSnoc(front, last, x.start);
        AscendingSnoc(spans, x, n);
      } else {
        InsertAscends(front, x, last.start);
        AscendingSnoc(Insert(front, x), last, n);
      }
    }
  }

  lemma {:induction false} SortedAscends(spans: seq<Span>, n: nat)
    requires Apart(spans) && AllProper(spans, n)
    ensures Ascending(Sorted(spans), n)
    ensures forall s :: s in Sorted(spans) <==> s in spans
  {
    if spans != [] {
      hide Insert, Ascending;
      var front, x := spans[..|spans| - 1], spans[|spans| - 1];
      assert spans == front + [x];
      assert x in spans && forall s :: s in front ==> s in spans;
      SortedAscends(front, n);
      forall s | s in Sorted(front) ensures !Meets(x, s.start, s.end) {
        var i :| 0 <= i < |front| && front[i] == s;
        assert spans[i] == s;
      }
      InsertAscends(Sorted(front), x, n);
    }
  }

  function SpansOf(red: string, rets: seq<Ret>): (spans: seq<Span>)
    ensures Ascending(spans, |red|)
  {
    ChoiceIsSound(red, rets);
    SortedAscends(Taken(Choice(ContextOf(red), rets)), |red|);
    Sorted(Taken(Choice(ContextOf(red), rets)))
  }

  /** `red` with the reasons of the returns blanked. */
  function WithoutReasons(red: string, rets: seq<Ret>): string {
    Blanked(red, SpansOf(red, rets))
  }

  // ---- the search as it runs ------------------------------------------------------------------------

  /** Where `v` does not stand there is nothing to use. */
  lemma {:induction false} SkipTo(c: Context, chosen: seq<Span>, v: string, p: nat, q: nat)
    requires |c.norm.text| == |c.norm.at| && v != [] && p <= q
    requires forall x :: p <= x < q ==> !StandsAt(c.norm.text, v, x)
    ensures FirstUse(c, chosen, v, p) == FirstUse(c, chosen, v, q)
    decreases q - p
  {
    hide OnWords, Free, Whole;
    if p < q {
      SkipTo(c, chosen, v, p + 1, q);
    }
  }

  method FindUse(norm: Traced, chosen: seq<Span>, kept: seq<Match>, v: string) returns (use: Option<Span>)
    requires |norm.text| == |norm.at| && v != []
    ensures use == FirstUse(Context(norm, kept), chosen, v, 0)
  {
    hide FirstUse, Free, Whole;
    ghost var c := Context(norm, kept);
    var start: nat := 0;
    while true
      invariant start <= |norm.text|
      invariant FirstUse(c, chosen, v, start) == FirstUse(c, chosen, v, 0)
      decreases |norm.text| - start
    {
      var p := Find(norm.text, v, start);
      if p < 0 {
        SkipTo(c, chosen, v, start, |norm.text|);
        UseStep(c, chosen, v, |norm.text|);
        return None;
      }
      SkipTo(c, chosen, v, start, p);
      UseStep(c, chosen, v, p);
      start := p + 1;
      var end := p + |v|;
      if (p > 0 && norm.text[p - 1] != ' ') || (end < |norm.text| && norm.text[end] != ' ') {
        continue;
      }
      var span := Span(norm.at[p], norm.at[end - 1] + 1);
      if !Free(span, chosen) {
        continue;
      }
      if !Whole(span, kept) {
        continue;
      }
      return Some(span);
    }
  }

  lemma {:induction false} UseStep(c: Context, chosen: seq<Span>, v: string, p: nat)
    requires |c.norm.text| == |c.norm.at| && v != []
    ensures FirstUse(c, chosen, v, p)
      == if p + |v| > |c.norm.text| then None
         else if Usable(c, chosen, v, p) then Some(SpanAt(c.norm, p, |v|))
         else FirstUse(c, chosen, v, p + 1)
  {
    hide OnWords, Free, Whole;
  }

  /** The blanking itself: choose span by span, then cut from the last span to the first. */
  method BlankReasons(red: string, rets: seq<Ret>) returns (out: string)
    ensures out == WithoutReasons(red, rets)
  {
    hide Tokens, Entries, Normed, Trace, Variants, FirstUse, Place, Taken, Choice, Sorted, Blanked, Ascending;
    var text, at := NormWithMap(red);
    var tokens := FindTokens(red);
    var entries := FindEntries(red);
    var norm, kept := Traced(text, at), tokens + entries;
    ghost var c := ContextOf(red);
    var chosen: seq<Span> := [];
    NothingChosen(c);
    assert rets[..0] == [];
    for i := 0 to |rets|
      invariant chosen == Taken(Choice(c, rets[..i]))
    {
      var vs := Variants(rets[i].reason);
      ghost var before := chosen;
      ChoiceSnoc(c, rets[..i], rets[i]);
      TakenSnoc(Choice(c, rets[..i]), Place(c, before, vs));
      assert rets[..i + 1] == rets[..i] + [rets[i]];
      var placed := PlaceReason(norm, chosen, kept, vs);
      if placed.Some? {
        chosen := chosen + [placed.value];
      }
    }
    assert rets[..|rets|] == rets;
    assert SpansOf(red, rets) == Sorted(chosen);
    out := CutAll(red, Sorted(chosen));
  }

  method PlaceReason(norm: Traced, chosen: seq<Span>, kept: seq<Match>, vs: seq<string>) returns (placed: Option<Span>)
    requires |norm.text| == |norm.at| && NonEmpty(vs)
    ensures placed == Place(Context(norm, kept), chosen, vs)
  {
    hide FirstUse;
    ghost var c := Context(norm, kept);
    placed := None;
    var j := 0;
    assert vs[0..] == vs;
    while j < |vs|
      invariant j <= |vs| && placed.None? && Place(c, chosen, vs) == Place(c, chosen, vs[j..])
    {
      assert vs[j..][1..] == vs[j + 1..];
      placed := FindUse(norm, chosen, kept, vs[j]);
      if placed.Some? {
        return;
      }
      j := j + 1;
    }
    assert vs[|vs|..] == [];
  }

  lemma {:induction false} BlankedStep(red: string, bound: int, front: seq<Span>, s: Span)
    requires 0 <= bound <= |red| && Ascending(front + [s], bound)
    ensures 0 <= s.start < s.end <= bound && Ascending(front, s.start)
    ensures Blanked(red[..bound], front + [s]) == Blanked(red[..s.start], front) + BLANK + red[s.end..bound]
  {
    assert (front + [s])[..|front|] == front;
    assert red[..bound][..s.start] == red[..s.start] && red[..bound][s.end..] == red[s.end..bound];
  }

  method CutAll(red: string, spans: seq<Span>) returns (out: string)
    requires Ascending(spans, |red|)
    ensures out == Blanked(red, spans)
  {
    hide Ascending, Blanked;
    out := red;
    var i := |spans|;
    ghost var bound, tail := |red|, "";
    assert spans[..|spans|] == spans && red[..|red|] == red;
    while i > 0
      invariant 0 <= i <= |spans| && 0 <= bound <= |red| && Ascending(spans[..i], bound)
      invariant out == red[..bound] + tail && Blanked(red, spans) == Blanked(red[..bound], spans[..i]) + tail
    {
      i := i - 1;
      var s := spans[i];
      assert spans[..i + 1] == spans[..i] + [s];
      BlankedStep(red, bound, spans[..i], s);
      KeepFront(red, bound, tail, s);
      assert Blanked(red, spans) == Blanked(red[..s.start], spans[..i]) + (BLANK + (red[s.end..bound] + tail));
      out := out[..s.start] + BLANK + out[s.end..];
      bound, tail := s.start, BLANK + (red[s.end..bound] + tail);
    }
    assert spans[..0] == [];
    BlankedNothing(red[..bound]);
  }

  lemma {:induction false} KeepFront(red: string, bound: int, tail: string, s: Span)
    requires 0 <= s.start < s.end <= bound <= |red|
    ensures (red[..bound] + tail)[..s.start] == red[..s.start]
    ensures (red[..bound] + tail)[s.end..] == red[s.end..bound] + tail
  {
  }

  lemma {:induction false} BlankedNothing(red: string)
    ensures Ascending([], |red|) && Blanked(red, []) == red
  {
  }

  // ---- what blanking leaves ---------------------------------------------------------------------------

  /** Where a character outside the spans goes. */
  function Moved(spans: seq<Span>, i: int): int {
    if spans == [] then i
    else
      var front, last := spans[..|spans| - 1], spans[|spans| - 1];
      if i >= last.end then Moved(front, last.start) + |BLANK| + (i - last.end) else Moved(front, i)
  }

  lemma {:induction false} BlankedLength(red: string, spans: seq<Span>)
    requires Ascending(spans, |red|)
    ensures |Blanked(red, spans)| == Moved(spans, |red|)
    decreases |spans|
  {
    if spans != [] {
      var last := spans[|spans| - 1];
      BlankedLength(red[..last.start], spans[..|spans| - 1]);
    }
  }

  /** A character that no span covers is in the output, where `Moved` says. */
  lemma {:induction false} Survives(red: string, spans: seq<Span>, i: nat)
    requires Ascending(spans, |red|) && i < |red|
    requires forall s :: s in spans ==> i < s.start || s.end <= i
    ensures 0 <= Moved(spans, i) < |Blanked(red, spans)| && Blanked(red, spans)[Moved(spans, i)] == red[i]
    decreases |spans|
  {
    if spans != [] {
      var front, last := spans[..|spans| - 1], spans[|spans| - 1];
      assert last in spans;
      BlankedLength(red[..last.start], front);
      if i < last.start {
        Survives(red[..last.start], front, i);
      } else {
        var x := Moved(front, last.start) + |BLANK|;
        assert Blanked(red, spans)[x..] == red[last.end..];
        assert red[last.end..][i - last.end] == red[i];
      }
    }
  }

  /** Neighbours stay neighbours as long as no span comes between them. */
  lemma {:induction false} MovesTogether(spans: seq<Span>, n: int, i: int, j: int)
    requires Ascending(spans, n) && i <= j && forall s :: s in spans ==> j < s.start || s.end <= i
    ensures Moved(spans, j) == Moved(spans, i) + (j - i)
    decreases |spans|
  {
    if spans != [] {
      var front, last := spans[..|spans| - 1], spans[|spans| - 1];
      assert last in spans;
      if j < last.start {
        MovesTogether(front, last.start, i, j);
      }
    }
  }

  /** The order of what is left is the order it had. */
  lemma {:induction false} MovesInOrder(spans: seq<Span>, n: int, i: int, j: int)
    requires Ascending(spans, n) && i < j
    requires forall s :: s in spans ==> (i < s.start || s.end <= i) && (j < s.start || s.end <= j)
    ensures Moved(spans, i) < Moved(spans, j)
    decreases |spans|
  {
    if spans != [] {
      var front, last := spans[..|spans| - 1], spans[|spans| - 1];
      assert last in spans;
      if j < last.start {
        MovesInOrder(front, last.start, i, j);
      } else if i < last.start {
        MovedBelow(front, last.start, i);
      }
    }
  }

  lemma {:induction false} MovedBelow(spans: seq<Span>, n: int, i: int)
    requires Ascending(spans, n) && i < n
    requires forall s :: s in spans ==> i < s.start || s.end <= i
    ensures Moved(spans, i) < Moved(spans, n)
    decreases |spans|
  {
    if spans != [] {
      var front, last := spans[..|spans| - 1], spans[|spans| - 1];
      assert last in spans;
      if i < last.start {
        MovedBelow(front, last.start, i);
      }
    }
  }

  lemma {:induction false} TokenInside(s: string, i: nat, m: Match)
    requires m in Tokens(s, i)
    ensures m.start < m.end <= |s|
    decreases |s| - i
  {
    hide TokenAt;
    if TokenAt(s, i).Some? {
      TokenEnds(s, i);
    }
    if i < |s| && !(TokenAt(s, i).Some? && m == TokenAt(s, i).value) {
      TokenInside(s, i + 1, m);
    }
  }

  lemma {:induction false} EntryInside(s: string, i: nat, m: Match)
    requires m in Entries(s, i)
    ensures m.start < m.end <= |s|
    decreases |s| - i
  {
    hide EntryAt;
    if EntryAt(s, i).Some? {
      var q := EntryHasShape(s, i);
    }
    if i < |s| && !(EntryAt(s, i).Some? && m == EntryAt(s, i).value) {
      EntryInside(s, i + 1, m);
    }
  }

  lemma {:induction false} TakenFrom(choice: seq<Option<Span>>, s: Span)
    ensures s in Taken(choice) <==> Some(s) in choice
    decreases |choice|
  {
    if choice != [] {
      hide Taken;
      var front, last := choice[..|choice| - 1], choice[|choice| - 1];
      assert choice == front + [last];
      TakenSnoc(front, last);
      TakenFrom(front, s);
    }
  }

  ghost predicate Inside(m: Match, span: Span) {
    span.start <= m.start && m.end <= span.end
  }

  /** Blanking is exact: every kind token and every numbered entry is wholly inside the span of one return, or it is
      in the output, character for character. */
  lemma {:induction false} BlankingIsExact(red: string, rets: seq<Ret>, m: Match)
    requires m in ContextOf(red).kept
    ensures var choice, at := Choice(ContextOf(red), rets), Moved(SpansOf(red, rets), m.start);
      || (exists j :: 0 <= j < |rets| && choice[j].Some? && Inside(m, choice[j].value))
      || (0 <= at && at + (m.end - m.start) <= |WithoutReasons(red, rets)|
          && m.start < m.end <= |red|
          && WithoutReasons(red, rets)[at..at + (m.end - m.start)] == red[m.start..m.end])
  {
    hide Tokens, Entries, Normed, Choice, Taken, Sorted, Blanked, Ascending, Moved, NormText, Variants;
    if m in Tokens(red, 0) {
      TokenInside(red, 0, m);
    } else {
      EntryInside(red, 0, m);
    }
    var choice, spans := Choice(ContextOf(red), rets), SpansOf(red, rets);
    ChoiceIsSound(red, rets);
    SortedAscends(Taken(choice), |red|);
    forall s | s in spans
      ensures (exists j :: 0 <= j < |rets| && choice[j] == Some(s)) && (Inside(m, s) || !Meets(s, m.start, m.end))
    {
      TakenFrom(choice, s);
      var j :| 0 <= j < |choice| && choice[j] == Some(s);
      assert Quotes(red, rets[j].reason, s);
    }
    if forall s :: s in spans ==> !Meets(s, m.start, m.end) {
      RangeSurvives(red, spans, m.start, m.end);
    }
  }

  lemma {:induction false} RangeSurvives(red: string, spans: seq<Span>, start: nat, end: nat)
    requires Ascending(spans, |red|) && start < end <= |red|
    requires forall s :: s in spans ==> !Meets(s, start, end) && s.start < s.end
    ensures var at := Moved(spans, start);
      0 <= at && at + (end - start) <= |Blanked(red, spans)|
      && Blanked(red, spans)[at..at + (end - start)] == red[start..end]
  {
    hide Ascending, Moved, Blanked;
    var at := Moved(spans, start);
    forall x | start <= x < end
      ensures Moved(spans, x) == at + (x - start)
      ensures 0 <= Moved(spans, x) < |Blanked(red, spans)| && Blanked(red, spans)[Moved(spans, x)] == red[x]
    {
      Survives(red, spans, x);
      MovesTogether(spans, |red|, start, x);
    }
    assert Moved(spans, end - 1) == at + (end - 1 - start);
    forall y | 0 <= y < end - start
      ensures Blanked(red, spans)[at..at + (end - start)][y] == red[start..end][y]
    {
      assert Moved(spans, start + y) == at + y;
    }
  }

  lemma {:induction false} ChoiceAt(c: Context, rets: seq<Ret>, j: nat)
    requires |c.norm.text| == |c.norm.at| && j < |rets|
    ensures NonEmpty(Variants(rets[j].reason))
    ensures Choice(c, rets)[j] == Place(c, Taken(Choice(c, rets[..j])), Variants(rets[j].reason))
    decreases |rets|
  {
    hide Choice, Place, Taken, Variants;
    var front, r := rets[..|rets| - 1], rets[|rets| - 1];
    assert rets == front + [r];
    ChoiceSnoc(c, front, r);
    if j < |front| {
      ChoiceAt(c, front, j);
      assert front[..j] == rets[..j];
    } else {
      assert rets[..j] == front;
    }
  }

  /** A reason stays only when no form of it stands anywhere it could be blanked: on word boundaries, clear of the
      spans of the returns before it, cutting no token and no entry. */
  lemma {:induction false} UnquotedStays(red: string, rets: seq<Ret>, j: nat, v: string, p: nat)
    requires j < |rets| && Choice(ContextOf(red), rets)[j].None? && v in Variants(rets[j].reason)
    ensures v != [] && !Usable(ContextOf(red), Taken(Choice(ContextOf(red), rets[..j])), v, p)
  {
    hide Choice, Place, Taken, Variants, Usable, ContextOf;
    ChoiceAt(ContextOf(red), rets, j);
    UnplacedHasNoUse(ContextOf(red), Taken(Choice(ContextOf(red), rets[..j])), Variants(rets[j].reason), v, p);
  }
}
