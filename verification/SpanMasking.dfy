/** Masking the operator's own values: in a printed path every occurrence of a denylisted literal, merged where they
    overlap; in a scanned line one report per longest hit. */
module SpanMasking {
  import Sorting
  import opened Text

  /** A denylist entry: its number and its literal in lower case. */
  datatype Entry = Entry(num: nat, lit: string)

  /** An occurrence. */
  datatype Hit = Hit(start: nat, end: nat, num: nat)

  /** A masked stretch and the entries it names, in the order they were met. */
  datatype Run = Run(start: nat, end: nat, nums: seq<nat>)

  /** What character `i` of a text lowers to - it may depend on its neighbours - except for U+0130, the only one that
      lowers to two characters. */
  type Lowering = (string, nat) -> char

  const WIDE := '\U{130}'
  const DOT := '\U{307}'

  /** `str.lower` of the first `n` characters. */
  function LowerFront(text: string, one: Lowering, n: nat): string
    requires n <= |text|
  {
    if n == 0 then ""
    else LowerFront(text, one, n - 1) + if text[n - 1] == WIDE then ['i', DOT] else [one(text, n - 1)]
  }

  function LowerText(text: string, one: Lowering): string {
    LowerFront(text, one, |text|)
  }

  ghost predicate Proper(deny: seq<Entry>) {
    forall i :: 0 <= i < |deny| ==> deny[i].lit != []
  }

  /** All occurrences of one literal from `p` on, overlapping ones too. */
  function HitsFrom(low: string, e: Entry, p: nat): seq<Hit>
    decreases |low| - p
  {
    if p + |e.lit| > |low| then []
    else (if StandsAt(low, e.lit, p) then [Hit(p, p + |e.lit|, e.num)] else []) + HitsFrom(low, e, p + 1)
  }

  /** All occurrences of all entries, entry by entry. */
  function Hits(low: string, deny: seq<Entry>): seq<Hit> {
    if deny == [] then [] else Hits(low, deny[..|deny| - 1]) + HitsFrom(low, deny[|deny| - 1], 0)
  }

  predicate Before(a: Hit, b: Hit) {
    a.start < b.start || (a.start == b.start && (a.end < b.end || (a.end == b.end && a.num <= b.num)))
  }

  function Sorted(hits: seq<Hit>): seq<Hit> {
    Sorting.Sorted(hits, Before)
  }

  /** One more occurrence: it joins the last stretch when it starts strictly before that one's end. */
  function MergeStep(runs: seq<Run>, h: Hit): seq<Run> {
    if runs != [] && h.start < runs[|runs| - 1].end then
      var last := runs[|runs| - 1];
      runs[|runs| - 1 := Run(last.start, if h.end > last.end then h.end else last.end,
                             if h.num in last.nums then last.nums else last.nums + [h.num])]
    else runs + [Run(h.start, h.end, [h.num])]
  }

  function Merge(hits: seq<Hit>): seq<Run> {
    if hits == [] then [] else MergeStep(Merge(hits[..|hits| - 1]), hits[|hits| - 1])
  }

  function RunsOf(low: string, deny: seq<Entry>): seq<Run> {
    Merge(Sorted(Hits(low, deny)))
  }

  // ---- printing -----------------------------------------------------------------------------------

  predicate UpTo(m: nat, n: nat) {
    m <= n
  }

  function SortedNums(ns: seq<nat>): seq<nat> {
    Sorting.Sorted(ns, UpTo)
  }

  /** A mask prints exactly the entries it names, in increasing order. */
  lemma {:induction false} NumsAreSorted(ns: seq<nat>)
    ensures Sorting.Rising(SortedNums(ns), UpTo) && multiset(SortedNums(ns)) == multiset(ns)
  {
    Sorting.SortedRises(ns, UpTo);
    Sorting.SortedIsPermutation(ns, UpTo);
  }

  function Plus(ns: seq<nat>): string {
    if ns == [] then ""
    else if |ns| == 1 then Decimal(ns[0])
    else Plus(ns[..|ns| - 1]) + "+" + Decimal(ns[|ns| - 1])
  }

  function MaskText(nums: seq<nat>): string {
    "<entry " + Plus(SortedNums(nums)) + ">"
  }

  lemma {:induction false} PlusParts(ns: seq<nat>)
    requires ns != []
    ensures var s, d := Plus(ns), Decimal(ns[|ns| - 1]);
      && |d| <= |s| && s[|s| - |d|..] == d && '+' !in d
      && (|ns| == 1 ==> s == d)
      && (|ns| > 1 ==> |d| < |s| && s[|s| - |d| - 1] == '+' && s[..|s| - |d| - 1] == Plus(ns[..|ns| - 1]))
  {
    hide Decimal;
    DecimalIsDigits(ns[|ns| - 1]);
  }

  lemma {:induction false} PlusTells(a: seq<nat>, b: seq<nat>)
    requires a != [] && b != [] && Plus(a) == Plus(b)
    ensures a == b
    decreases |a|
  {
    hide Plus, Decimal;
    PlusParts(a);
    PlusParts(b);
    var s, x, y := Plus(a), a[|a| - 1], b[|b| - 1];
    NoLonger(s, Decimal(x), Decimal(y));
    NoLonger(s, Decimal(y), Decimal(x));
    DecimalInjective(x, y);
    if |a| > 1 && |b| > 1 {
      PlusTells(a[..|a| - 1], b[..|b| - 1]);
    }
    assert a == a[..|a| - 1] + [x] && b == b[..|b| - 1] + [y];
  }

  /** A last number is no longer than what stands behind the last plus sign. */
  lemma {:induction false} NoLonger(s: string, d: string, e: string)
    requires |d| <= |s| && |e| <= |s| && s[|s| - |e|..] == e && '+' !in e
    requires |d| < |s| ==> s[|s| - |d| - 1] == '+'
    ensures |e| <= |d|
  {
    assert forall i :: |s| - |e| <= i < |s| ==> s[i] == e[i - (|s| - |e|)];
  }

  /** Two masks that read the same name the same entries. */
  lemma {:induction false} MaskTellsEntries(a: seq<nat>, b: seq<nat>)
    requires a != [] && b != []
    ensures MaskText(a) == MaskText(b) ==> multiset(a) == multiset(b)
  {
    hide Plus, SortedNums;
    NumsAreSorted(a);
    NumsAreSorted(b);
    assert |multiset(a)| == |a| && |multiset(b)| == |b|;
    if MaskText(a) == MaskText(b) {
      SameMiddle(Plus(SortedNums(a)), Plus(SortedNums(b)));
      PlusTells(SortedNums(a), SortedNums(b));
    }
  }

  lemma {:induction false} SameMiddle(a: string, b: string)
    requires "<entry " + a + ">" == "<entry " + b + ">"
    ensures a == b
  {
    var s, t := "<entry " + a + ">", "<entry " + b + ">";
    assert a == s[7..|s| - 1] && b == t[7..|t| - 1];
  }

  /** A slice that stops at the end of the text. */
  function Slice(s: string, i: nat, j: nat): string {
    if i >= |s| || j <= i then "" else s[i..if j <= |s| then j else |s|]
  }

  datatype Piece = Shown(text: string) | Mask(nums: seq<nat>)

  function EndOf(runs: seq<Run>): nat {
    if runs == [] then 0 else runs[|runs| - 1].end
  }

  /** What is printed up to the last stretch: the text between the stretches, and a mask for each. */
  function PiecesUpTo(path: string, runs: seq<Run>): seq<Piece> {
    if runs == [] then []
    else
      var front, r := runs[..|runs| - 1], runs[|runs| - 1];
      PiecesUpTo(path, front) + [Shown(Slice(path, EndOf(front), r.start)), Mask(r.nums)]
  }

  function Pieces(path: string, runs: seq<Run>): seq<Piece> {
    PiecesUpTo(path, runs) + [Shown(Slice(path, EndOf(runs), |path|))]
  }

  function Printed(pieces: seq<Piece>): string {
    if pieces == [] then ""
    else
      var p := pieces[|pieces| - 1];
      Printed(pieces[..|pieces| - 1]) + (if p.Shown? then p.text else MaskText(p.nums))
  }

  /** A path as it is printed. */
  function Masked(path: string, low: string, deny: seq<Entry>): string {
    Printed(Pieces(path, RunsOf(low, deny)))
  }

  lemma {:induction false} PrintedSnoc(pieces: seq<Piece>, p: Piece)
    ensures Printed(pieces + [p]) == Printed(pieces) + (if p.Shown? then p.text else MaskText(p.nums))
  {
    hide MaskText;
    assert (pieces + [p])[..|pieces|] == pieces;
  }

  lemma {:induction false} UpToSnoc(path: string, runs: seq<Run>, r: Run)
    ensures PiecesUpTo(path, runs + [r])
      == PiecesUpTo(path, runs) + [Shown(Slice(path, EndOf(runs), r.start)), Mask(r.nums)]
  {
    hide Slice;
    assert (runs + [r])[..|runs|] == runs;
  }

  lemma {:induction false} NothingPrinted(path: string)
    ensures PiecesUpTo(path, []) == [] && Printed([]) == "" && Merge([]) == []
  {
  }

  lemma {:induction false} MergeSnoc(hits: seq<Hit>, h: Hit)
    ensures Merge(hits + [h]) == MergeStep(Merge(hits), h)
  {
    hide MergeStep;
    assert (hits + [h])[..|hits|] == hits;
  }

  lemma {:induction false} NoHits(low: string, e: Entry, p: nat, q: nat)
    requires p <= q && forall x: nat :: p <= x < q ==> !StandsAt(low, e.lit, x)
    ensures HitsFrom(low, e, p) == HitsFrom(low, e, q)
    decreases q - p
  {
    hide StandsAt;
    if p < q {
      NoHits(low, e, p + 1, q);
    }
  }

  /** The search loop over the denylist. */
  method FindHits(low: string, deny: seq<Entry>) returns (hits: seq<Hit>)
    requires Proper(deny)
    ensures hits == Hits(low, deny)
  {
    hide StandsAt, HitsFrom;
    hits := [];
    assert deny[..0] == [];
    for k := 0 to |deny|
      invariant hits == Hits(low, deny[..k])
    {
      var e := deny[k];
      assert deny[..k + 1][..k] == deny[..k];
      ghost var before := hits;
      ghost var from: nat := 0;
      var start := Find(low, e.lit, 0);
      while start != -1
        invariant start == -1 || (from <= start <= |low| && StandsAt(low, e.lit, start))
        invariant forall x: nat :: from <= x && (start < 0 || x < start) ==> !StandsAt(low, e.lit, x)
        invariant hits + HitsFrom(low, e, from) == before + HitsFrom(low, e, 0)
        decreases if start < 0 then 0 else |low| + 1 - start
      {
        NoHits(low, e, from, start);
        HitAt(low, e, start);
        hits := hits + [Hit(start, start + |e.lit|, e.num)];
        from := start + 1;
        start := Find(low, e.lit, start + 1);
      }
      NoHitsAtAll(low, e, from);
    }
    assert deny[..|deny|] == deny;
  }

  lemma {:induction false} HitAt(low: string, e: Entry, p: nat)
    requires StandsAt(low, e.lit, p)
    ensures HitsFrom(low, e, p) == [Hit(p, p + |e.lit|, e.num)] + HitsFrom(low, e, p + 1)
  {
  }

  lemma {:induction false} NoHitsAtAll(low: string, e: Entry, p: nat)
    requires forall x: nat :: p <= x ==> !StandsAt(low, e.lit, x)
    ensures HitsFrom(low, e, p) == []
  {
    if p <= |low| {
      NoHits(low, e, p, |low| + 1);
    }
  }

  method ShowPath(path: string, one: Lowering, deny: seq<Entry>) returns (out: string)
    requires Proper(deny)
    ensures out == Masked(path, LowerText(path, one), deny)
  {
    hide Hits, Sorted, Merge, PiecesUpTo, Printed, MaskText, Slice, Proper, LowerText;
    var low := LowerText(path, one);
    var spans := FindHits(low, deny);
    spans := Sorted(spans);
    NothingPrinted(path);
    var merged: seq<Run> := [];
    assert spans[..0] == [];
    for k := 0 to |spans|
      invariant merged == Merge(spans[..k])
    {
      var h := spans[k];
      assert spans[..k + 1] == spans[..k] + [h];
      MergeSnoc(spans[..k], h);
      if merged != [] && h.start < merged[|merged| - 1].end {
        var last := merged[|merged| - 1];
        merged := merged[|merged| - 1 := Run(last.start, if h.end > last.end then h.end else last.end,
                                             if h.num in last.nums then last.nums else last.nums + [h.num])];
      } else {
        merged := merged + [Run(h.start, h.end, [h.num])];
      }
    }
    assert spans[..|spans|] == spans;
    out := "";
    var i := 0;
    assert merged[..0] == [];
    for k := 0 to |merged|
      invariant i == EndOf(merged[..k]) && out == Printed(PiecesUpTo(path, merged[..k]))
    {
      var r := merged[k];
      ghost var before := PiecesUpTo(path, merged[..k]);
      assert merged[..k + 1] == merged[..k] + [r];
      UpToSnoc(path, merged[..k], r);
      PrintedSnoc(before, Shown(Slice(path, i, r.start)));
      PrintedSnoc(before + [Shown(Slice(path, i, r.start))], Mask(r.nums));
      assert before + [Shown(Slice(path, i, r.start)), Mask(r.nums)]
          == before + [Shown(Slice(path, i, r.start))] + [Mask(r.nums)];
      out := out + (Slice(path, i, r.start) + MaskText(r.nums));
      i := r.end;
    }
    assert merged[..|merged|] == merged;
    PrintedSnoc(PiecesUpTo(path, merged), Shown(Slice(path, i, |path|)));
    out := out + Slice(path, i, |path|);
  }

  // ---- the occurrences ----------------------------------------------------------------------------

  /** `h` is an occurrence of a denylisted literal. */
  ghost predicate Occurs(low: string, deny: seq<Entry>, h: Hit) {
    exists e :: e in deny && h.num == e.num && StandsAt(low, e.lit, h.start) && h.end == h.start + |e.lit|
  }

  ghost predicate Covered(low: string, deny: seq<Entry>, i: int) {
    exists h :: Occurs(low, deny, h) && h.start <= i < h.end
  }

  lemma {:induction false} HitsFromAre(low: string, e: Entry, p: nat, h: Hit)
    ensures h in HitsFrom(low, e, p)
      <==> p <= h.start && h.num == e.num && StandsAt(low, e.lit, h.start) && h.end == h.start + |e.lit|
    decreases |low| - p
  {
    if p + |e.lit| <= |low| {
      HitsFromAre(low, e, p + 1, h);
    }
  }

  lemma {:induction false} HitsAre(low: string, deny: seq<Entry>, h: Hit)
    ensures h in Hits(low, deny) <==> Occurs(low, deny, h)
  {
    hide StandsAt, HitsFrom;
    if deny != [] {
      var front, e := deny[..|deny| - 1], deny[|deny| - 1];
      assert deny == front + [e];
      HitsAre(low, front, h);
      HitsFromAre(low, e, 0, h);
    }
  }

  ghost predicate Ordered(hits: seq<Hit>) {
    forall i, j :: 0 <= i < j < |hits| ==> hits[i].start <= hits[j].start
  }

  lemma {:induction false} SortedOrders(hits: seq<Hit>)
    ensures Ordered(Sorted(hits)) && forall h :: h in Sorted(hits) <==> h in hits
  {
    Sorting.SortedRises(hits, Before);
    Sorting.SortedIsPermutation(hits, Before);
    assert forall i, j :: 0 <= i < j < |Sorted(hits)| ==> Before(Sorted(hits)[i], Sorted(hits)[j]);
  }

  // ---- the masks ------------------------------------------------------------------------------------

  ghost predicate Lies(h: Hit, r: Run) {
    r.start <= h.start && h.end <= r.end
  }

  /** In order, none empty, none meeting the next. */
  ghost predicate Apart(runs: seq<Run>) {
    && (forall k :: 0 <= k < |runs| ==> runs[k].start < runs[k].end)
    && forall k :: 0 < k < |runs| ==> runs[k - 1].end <= runs[k].start
  }

  /** A mask names the entries of the hits in it, each once, and no other. */
  ghost predicate Names(r: Run, hits: seq<Hit>) {
    && (forall h :: h in hits && Lies(h, r) ==> h.num in r.nums)
    && (forall n :: n in r.nums ==> exists h :: h in hits && Lies(h, r) && h.num == n)
    && forall i, j :: 0 <= i < j < |r.nums| ==> r.nums[i] != r.nums[j]
  }

  ghost predicate Under(r: Run, hits: seq<Hit>, x: int) {
    exists h :: h in hits && Lies(h, r) && h.start <= x < h.end
  }

  ghost predicate Across(r: Run, hits: seq<Hit>, x: int) {
    exists h :: h in hits && Lies(h, r) && h.start < x < h.end
  }

  /** A mask is made of its hits: each of its characters is in one, and each place inside it is inside one. */
  ghost predicate Filled(r: Run, hits: seq<Hit>) {
    && (forall x :: r.start <= x < r.end ==> Under(r, hits, x))
    && forall x :: r.start < x < r.end ==> Across(r, hits, x)
  }

  /** Every hit lies in a mask. */
  ghost predicate AllLie(hits: seq<Hit>, runs: seq<Run>) {
    forall h :: h in hits ==> exists k :: 0 <= k < |runs| && Lies(h, runs[k])
  }

  ghost predicate Exact(hits: seq<Hit>, runs: seq<Run>) {
    && Apart(runs) && AllLie(hits, runs)
    && forall k :: 0 <= k < |runs| ==> Names(runs[k], hits) && Filled(runs[k], hits)
  }

  ghost predicate NotEmpty(hits: seq<Hit>) {
    forall h :: h in hits ==> h.start < h.end
  }

  /** No earlier hit can lie in a later mask, and the masks end where hits do. */
  lemma {:induction false} NewMaskExact(hits: seq<Hit>, runs: seq<Run>, h: Hit)
    requires Exact(hits, runs) && NotEmpty(hits) && h.start < h.end
    requires forall x :: x in hits ==> x.start <= h.start
    requires runs != [] ==> runs[|runs| - 1].end <= h.start
    ensures Exact(hits + [h], runs + [Run(h.start, h.end, [h.num])])
  {
    hide Names, Filled;
    var all, r := hits + [h], Run(h.start, h.end, [h.num]);
    var out := runs + [r];
    assert out[|runs|] == r && all[|hits|] == h && Lies(h, r);
    forall x | x in hits ensures !Lies(x, r) && exists k :: 0 <= k < |out| && Lies(x, out[k]) {
      var k :| 0 <= k < |runs| && Lies(x, runs[k]);
      RunsBelow(runs, k);
      assert out[k] == runs[k];
    }
    forall k | 0 <= k < |runs| ensures Names(runs[k], all) && Filled(runs[k], all) {
      RunsBelow(runs, k);
      NotMine(hits, runs[k], h);
    }
    OnlyMine(hits, r, h);
  }

  lemma {:induction false} RunsBelow(runs: seq<Run>, k: nat)
    requires Apart(runs) && k < |runs|
    ensures runs[k].end <= runs[|runs| - 1].end
    ensures k < |runs| - 1 ==> runs[k].end <= runs[|runs| - 1].start
    decreases |runs| - k
  {
    if k < |runs| - 1 {
      RunsBelow(runs, k + 1);
    }
  }

  /** A hit outside a mask changes nothing about it. */
  lemma {:induction false} NotMine(hits: seq<Hit>, r: Run, h: Hit)
    requires Names(r, hits) && Filled(r, hits) && !Lies(h, r)
    ensures Names(r, hits + [h]) && Filled(r, hits + [h])
  {
    var all := hits + [h];
    assert forall x :: x in all <==> x in hits || x == h;
    forall x | r.start <= x < r.end ensures Under(r, all, x) {
      assert Under(r, hits, x);
      var g :| g in hits && Lies(g, r) && g.start <= x < g.end;
      assert g in all;
    }
    forall x | r.start < x < r.end ensures Across(r, all, x) {
      assert Across(r, hits, x);
      var g :| g in hits && Lies(g, r) && g.start < x < g.end;
      assert g in all;
    }
    forall n | n in r.nums ensures exists g :: g in all && Lies(g, r) && g.num == n {
      var g :| g in hits && Lies(g, r) && g.num == n;
      assert g in all;
    }
  }

  lemma {:induction false} OnlyMine(hits: seq<Hit>, r: Run, h: Hit)
    requires r == Run(h.start, h.end, [h.num]) && h.start < h.end
    requires forall x :: x in hits ==> !Lies(x, r)
    ensures Names(r, hits + [h]) && Filled(r, hits + [h])
  {
    var all := hits + [h];
    assert all[|hits|] == h && h in all && Lies(h, r);
    assert forall x :: x in all <==> x in hits || x == h;
  }

  /** A hit that starts inside the last mask joins it. */
  lemma {:induction false} GrownMaskExact(hits: seq<Hit>, runs: seq<Run>, h: Hit)
    requires Exact(hits, runs) && NotEmpty(hits) && h.start < h.end
    requires forall x :: x in hits ==> x.start <= h.start
    requires runs != [] && h.start < runs[|runs| - 1].end && runs[|runs| - 1].start <= h.start
    ensures Exact(hits + [h], MergeStep(runs, h))
  {
    hide Names, Filled, AllLie, MergeStep;
    var out, last := MergeStep(runs, h), runs[|runs| - 1];
    var r := GrownRuns(runs, h);
    GrownLies(hits, runs, h, r);
    forall k | 0 <= k < |runs| - 1 ensures Names(out[k], hits + [h]) && Filled(out[k], hits + [h]) {
      RunsBelow(runs, k);
      NotMine(hits, runs[k], h);
    }
    JoinedNames(hits, last, r, h);
    JoinedFills(hits, last, r, h);
  }

  /** Only the last mask grows. */
  lemma {:induction false} GrownRuns(runs: seq<Run>, h: Hit) returns (r: Run)
    requires Apart(runs) && runs != [] && h.start < runs[|runs| - 1].end && runs[|runs| - 1].start <= h.start < h.end
    ensures MergeStep(runs, h) == runs[|runs| - 1 := r] && Apart(MergeStep(runs, h)) && Lies(h, r)
    ensures var last := runs[|runs| - 1];
      && r.start == last.start && r.end == (if h.end > last.end then h.end else last.end)
      && r.nums == if h.num in last.nums then last.nums else last.nums + [h.num]
  {
    r := MergeStep(runs, h)[|runs| - 1];
  }

  /** Every hit lies in a mask still, and the grown one holds no other hit than before. */
  lemma {:induction false} GrownLies(hits: seq<Hit>, runs: seq<Run>, h: Hit, r: Run)
    requires Apart(runs) && AllLie(hits, runs) && NotEmpty(hits) && runs != [] && Lies(h, r)
    requires forall x :: x in hits ==> x.start <= h.start
    requires r.start == runs[|runs| - 1].start && runs[|runs| - 1].end <= r.end && h.start < runs[|runs| - 1].end
    ensures AllLie(hits + [h], runs[|runs| - 1 := r])
    ensures forall x :: x in hits ==> (Lies(x, r) <==> Lies(x, runs[|runs| - 1]))
  {
    var last, out := runs[|runs| - 1], runs[|runs| - 1 := r];
    forall x | x in hits
      ensures (exists k :: 0 <= k < |out| && Lies(x, out[k])) && (Lies(x, r) <==> Lies(x, last))
    {
      var k :| 0 <= k < |runs| && Lies(x, runs[k]);
      RunsBelow(runs, k);
      assert Lies(x, out[k]);
    }
    assert Lies(h, out[|runs| - 1]);
  }

  lemma {:induction false} JoinedNames(hits: seq<Hit>, last: Run, r: Run, h: Hit)
    requires Names(last, hits) && Lies(h, r) && last.start == r.start && last.end <= r.end
    requires forall x :: x in hits ==> (Lies(x, r) <==> Lies(x, last))
    requires r.nums == if h.num in last.nums then last.nums else last.nums + [h.num]
    ensures Names(r, hits + [h])
  {
    var all := hits + [h];
    assert all[|hits|] == h && h in all;
    assert forall x :: x in all <==> x in hits || x == h;
    forall n | n in r.nums ensures exists g :: g in all && Lies(g, r) && g.num == n {
      if n in last.nums {
        var g :| g in hits && Lies(g, last) && g.num == n;
        assert g in all && Lies(g, r);
      } else {
        assert n == h.num;
      }
    }
  }

  lemma {:induction false} JoinedFills(hits: seq<Hit>, last: Run, r: Run, h: Hit)
    requires Filled(last, hits) && last.start <= h.start < last.end && h.start < h.end
    requires r.start == last.start && r.end == if h.end > last.end then h.end else last.end
    ensures Filled(r, hits + [h])
  {
    var all := hits + [h];
    assert all[|hits|] == h && h in all && Lies(h, r);
    forall x | r.start <= x < r.end ensures Under(r, all, x) {
      if x < last.end {
        assert Under(last, hits, x);
        var g :| g in hits && Lies(g, last) && g.start <= x < g.end;
        assert g in all && Lies(g, r);
      } else {
        assert h.start <= x < h.end;
      }
    }
    forall x | r.start < x < r.end ensures Across(r, all, x) {
      if x < last.end {
        assert Across(last, hits, x);
        var g :| g in hits && Lies(g, last) && g.start < x < g.end;
        assert g in all && Lies(g, r);
      } else {
        assert h.start < x < h.end;
      }
    }
  }

  /** The last mask starts no later than the last hit, so no later hit starts before it. */
  ghost predicate StartsBy(runs: seq<Run>, start: nat) {
    runs != [] ==> runs[|runs| - 1].start <= start
  }

  lemma {:induction false} StepIsExact(hits: seq<Hit>, runs: seq<Run>, h: Hit)
    requires Exact(hits, runs) && NotEmpty(hits) && h.start < h.end && StartsBy(runs, h.start)
    requires forall x :: x in hits ==> x.start <= h.start
    ensures Exact(hits + [h], MergeStep(runs, h)) && StartsBy(MergeStep(runs, h), h.start)
  {
    hide Exact, NotEmpty;
    if runs != [] && h.start < runs[|runs| - 1].end {
      GrownMaskExact(hits, runs, h);
    } else {
      NewMaskExact(hits, runs, h);
    }
  }

  lemma {:induction false} MergeIsExact(hits: seq<Hit>)
    requires Ordered(hits) && NotEmpty(hits)
    ensures Exact(hits, Merge(hits))
    ensures hits != [] ==> StartsBy(Merge(hits), hits[|hits| - 1].start)
    decreases |hits|
  {
    if hits == [] {
      assert Merge(hits) == [];
    } else {
      hide Merge, Exact, NotEmpty, MergeStep, Ordered;
      var front, h := hits[..|hits| - 1], hits[|hits| - 1];
      assert hits == front + [h];
      FrontNotEmpty(front, h);
      FrontOrdered(front, h);
      MergeIsExact(front);
      MergeSnoc(front, h);
      NothingPrinted("");
      if front != [] {
        assert front[|front| - 1] in front;
      }
      StepIsExact(front, Merge(front), h);
    }
  }

  lemma {:induction false} FrontOrdered(front: seq<Hit>, h: Hit)
    requires Ordered(front + [h])
    ensures Ordered(front) && forall x :: x in front ==> x.start <= h.start
  {
    var hits := front + [h];
    forall i, j | 0 <= i < j < |front| ensures front[i].start <= front[j].start {
      assert hits[i].start <= hits[j].start;
    }
    forall i | 0 <= i < |front| ensures front[i].start <= h.start {
      assert hits[i].start <= hits[|front|].start;
    }
  }

  lemma {:induction false} FrontNotEmpty(front: seq<Hit>, h: Hit)
    requires NotEmpty(front + [h])
    ensures NotEmpty(front) && h.start < h.end
  {
    assert (front + [h])[|front|] == h;
    assert forall x :: x in front ==> x in front + [h];
  }

  lemma {:induction false} HitsNotEmpty(low: string, deny: seq<Entry>)
    requires Proper(deny)
    ensures NotEmpty(Sorted(Hits(low, deny)))
  {
    hide Sorted, Hits, StandsAt;
    SortedOrders(Hits(low, deny));
    forall h | h in Sorted(Hits(low, deny)) ensures h.start < h.end {
      HitsAre(low, deny, h);
      var e :| e in deny && h.num == e.num && StandsAt(low, e.lit, h.start) && h.end == h.start + |e.lit|;
      var i :| 0 <= i < |deny| && deny[i] == e;
    }
  }

  // ---- the theorems on a printed path ---------------------------------------------------------------

  /** The masks are exact: apart from each other; each filled by occurrences that overlap, so that nothing is masked
      without need; each occurrence in one of them; each naming exactly the entries that occur in it. */
  lemma {:induction false} MasksAreExact(low: string, deny: seq<Entry>)
    requires Proper(deny)
    ensures Exact(Sorted(Hits(low, deny)), RunsOf(low, deny))
    ensures forall h :: h in Sorted(Hits(low, deny)) <==> Occurs(low, deny, h)
  {
    hide Sorted, Hits, Merge, Exact, Occurs, Proper, NotEmpty;
    SortedOrders(Hits(low, deny));
    HitsNotEmpty(low, deny);
    MergeIsExact(Sorted(Hits(low, deny)));
    forall h ensures h in Sorted(Hits(low, deny)) <==> Occurs(low, deny, h) {
      HitsAre(low, deny, h);
    }
  }

  ghost predicate InRun(runs: seq<Run>, i: int) {
    exists k :: 0 <= k < |runs| && runs[k].start <= i < runs[k].end
  }

  lemma {:induction false} HitsInRuns(hits: seq<Hit>, runs: seq<Run>, i: int)
    requires Exact(hits, runs)
    ensures InRun(runs, i) <==> exists h :: h in hits && h.start <= i < h.end
  {
    hide Apart, Names;
    if h :| h in hits && h.start <= i < h.end {
      var k :| 0 <= k < |runs| && Lies(h, runs[k]);
    }
    if InRun(runs, i) {
      var k :| 0 <= k < |runs| && runs[k].start <= i < runs[k].end;
      assert Filled(runs[k], hits);
      assert Under(runs[k], hits, i);
    }
  }

  /** A character is under a mask exactly when it is in an occurrence. */
  lemma {:induction false} UnderMaskIff(low: string, deny: seq<Entry>, i: int)
    requires Proper(deny)
    ensures Covered(low, deny, i) <==> InRun(RunsOf(low, deny), i)
  {
    hide Sorted, Hits, RunsOf, Occurs, Exact, InRun, Proper;
    MasksAreExact(low, deny);
    HitsInRuns(Sorted(Hits(low, deny)), RunsOf(low, deny), i);
  }

  /** The characters of the first `n` that no occurrence covers, in order. */
  ghost function Uncovered(path: string, low: string, deny: seq<Entry>, n: nat): string
    requires n <= |path|
  {
    if n == 0 then []
    else Uncovered(path, low, deny, n - 1) + if Covered(low, deny, n - 1) then [] else [path[n - 1]]
  }

  lemma {:induction false} ClearStretch(path: string, low: string, deny: seq<Entry>, a: nat, b: nat)
    requires a <= b <= |path| && forall i :: a <= i < b ==> !Covered(low, deny, i)
    ensures Uncovered(path, low, deny, b) == Uncovered(path, low, deny, a) + path[a..b]
    decreases b - a
  {
    hide Covered;
    if a < b {
      ClearStretch(path, low, deny, a, b - 1);
      assert path[a..b] == path[a..b - 1] + [path[b - 1]];
    }
  }

  lemma {:induction false} CoveredStretch(path: string, low: string, deny: seq<Entry>, a: nat, b: nat)
    requires a <= b <= |path| && forall i :: a <= i < b ==> Covered(low, deny, i)
    ensures Uncovered(path, low, deny, b) == Uncovered(path, low, deny, a)
    decreases b - a
  {
    hide Covered;
    if a < b {
      CoveredStretch(path, low, deny, a, b - 1);
    }
  }

  /** The text shown in the open. */
  function Open(pieces: seq<Piece>): string {
    if pieces == [] then ""
    else
      var p := pieces[|pieces| - 1];
      Open(pieces[..|pieces| - 1]) + (if p.Shown? then p.text else "")
  }

  lemma {:induction false} OpenSnoc(pieces: seq<Piece>, p: Piece)
    ensures Open(pieces + [p]) == Open(pieces) + (if p.Shown? then p.text else "")
  {
    assert (pieces + [p])[..|pieces|] == pieces;
  }

  /** The masks lie within the text. */
  lemma {:induction false} RunsInside(low: string, deny: seq<Entry>, k: nat)
    requires Proper(deny) && k < |RunsOf(low, deny)|
    ensures RunsOf(low, deny)[k].start < RunsOf(low, deny)[k].end <= |low|
  {
    hide Sorted, Hits, RunsOf, Names, Proper;
    MasksAreExact(low, deny);
    var hits, r := Sorted(Hits(low, deny)), RunsOf(low, deny)[k];
    assert Filled(r, hits);
    assert Under(r, hits, r.end - 1);
    var h :| h in hits && Lies(h, r) && h.start <= r.end - 1 < h.end;
    assert Occurs(low, deny, h);
  }

  /** A position of the lower case, or the end of the path if that comes first. */
  function Within(path: string, n: nat): (m: nat)
    ensures m <= |path| && m <= n
  {
    if n <= |path| then n else |path|
  }

  lemma {:induction false} OpenUpTo(path: string, low: string, deny: seq<Entry>, k: nat)
    requires Proper(deny) && k <= |RunsOf(low, deny)|
    ensures Open(PiecesUpTo(path, RunsOf(low, deny)[..k]))
      == Uncovered(path, low, deny, Within(path, EndOf(RunsOf(low, deny)[..k])))
    decreases k
  {
    hide RunsOf, Covered, PiecesUpTo, Open, Uncovered, Proper, Hits, Sorted, Names, Filled, AllLie, Slice;
    var runs := RunsOf(low, deny);
    if k == 0 {
      NothingOpen(path, low, deny);
    } else {
      var r, front := runs[k - 1], runs[..k - 1];
      assert runs[..k] == front + [r];
      OpenUpTo(path, low, deny, k - 1);
      RunsInside(low, deny, k - 1);
      RunsApart(low, deny, k - 1);
      var from := EndOf(front);
      GapIsClear(low, deny, k - 1);
      ClearStretch(path, low, deny, Within(path, from), Within(path, r.start));
      MaskIsCovered(low, deny, k - 1);
      CoveredStretch(path, low, deny, Within(path, r.start), Within(path, r.end));
      SliceWithin(path, from, r.start);
      OneMoreMask(path, front, r);
    }
  }

  lemma {:induction false} RunsApart(low: string, deny: seq<Entry>, k: nat)
    requires Proper(deny) && k < |RunsOf(low, deny)|
    ensures EndOf(RunsOf(low, deny)[..k]) <= RunsOf(low, deny)[k].start
  {
    hide RunsOf, Covered, Proper, Hits, Sorted, Names, Filled, AllLie;
    MasksAreExact(low, deny);
    if k > 0 {
      assert RunsOf(low, deny)[..k][k - 1] == RunsOf(low, deny)[k - 1];
    }
  }

  lemma {:induction false} OneMoreMask(path: string, front: seq<Run>, r: Run)
    ensures Open(PiecesUpTo(path, front + [r])) == Open(PiecesUpTo(path, front)) + Slice(path, EndOf(front), r.start)
  {
    hide PiecesUpTo, Open, Slice;
    UpToSnoc(path, front, r);
    var before, shown := PiecesUpTo(path, front), Shown(Slice(path, EndOf(front), r.start));
    OpenSnoc(before, shown);
    OpenSnoc(before + [shown], Mask(r.nums));
    assert before + [shown, Mask(r.nums)] == before + [shown] + [Mask(r.nums)];
  }

  lemma {:induction false} SliceWithin(s: string, i: nat, j: nat)
    requires i <= j
    ensures Slice(s, i, j) == s[Within(s, i)..Within(s, j)]
  {
  }

  lemma {:induction false} NothingOpen(path: string, low: string, deny: seq<Entry>)
    ensures Open(PiecesUpTo(path, [])) == "" && Uncovered(path, low, deny, 0) == ""
  {
  }

  lemma {:induction false} RunsAscend(runs: seq<Run>, j: nat, k: nat)
    requires Apart(runs) && j < k < |runs|
    ensures runs[j].end <= runs[k].start
    decreases k
  {
    if j < k - 1 {
      RunsAscend(runs, j, k - 1);
    }
  }

  /** Between two masks nothing is covered. */
  lemma {:induction false} GapIsClear(low: string, deny: seq<Entry>, k: nat)
    requires Proper(deny) && k < |RunsOf(low, deny)|
    ensures forall i :: EndOf(RunsOf(low, deny)[..k]) <= i < RunsOf(low, deny)[k].start ==> !Covered(low, deny, i)
  {
    hide RunsOf, Covered, Proper, Hits, Sorted, Names, Filled, AllLie;
    var runs := RunsOf(low, deny);
    MasksAreExact(low, deny);
    forall i | EndOf(runs[..k]) <= i < runs[k].start ensures !Covered(low, deny, i) {
      UnderMaskIff(low, deny, i);
      forall j | 0 <= j < |runs| ensures !(runs[j].start <= i < runs[j].end) {
        if j < k {
          if j < k - 1 {
            RunsAscend(runs, j, k - 1);
          }
        } else if j > k {
          RunsAscend(runs, k, j);
        }
      }
    }
  }

  /** After the last one nothing is. */
  lemma {:induction false} RestIsClear(low: string, deny: seq<Entry>, n: nat)
    requires Proper(deny)
    ensures forall i :: EndOf(RunsOf(low, deny)) <= i < n ==> !Covered(low, deny, i)
  {
    hide RunsOf, Covered, Proper, Hits, Sorted, Names, Filled, AllLie;
    var runs := RunsOf(low, deny);
    MasksAreExact(low, deny);
    forall i | EndOf(runs) <= i < n ensures !Covered(low, deny, i) {
      UnderMaskIff(low, deny, i);
      forall j | 0 <= j < |runs| ensures !(runs[j].start <= i < runs[j].end) {
        RunsBelow(runs, j);
      }
    }
  }

  lemma {:induction false} MaskIsCovered(low: string, deny: seq<Entry>, k: nat)
    requires Proper(deny) && k < |RunsOf(low, deny)|
    ensures forall i :: RunsOf(low, deny)[k].start <= i < RunsOf(low, deny)[k].end ==> Covered(low, deny, i)
  {
    hide RunsOf, Covered, Proper;
    var r := RunsOf(low, deny)[k];
    forall i | r.start <= i < r.end ensures Covered(low, deny, i) {
      UnderMaskIff(low, deny, i);
    }
  }

  /** What is printed of a path, whatever its lower case: the characters at those of its positions that no occurrence
      covers in the lower case, in order. */
  lemma {:induction false} PrintedAreUncovered(path: string, low: string, deny: seq<Entry>)
    requires Proper(deny)
    ensures Open(Pieces(path, RunsOf(low, deny))) == Uncovered(path, low, deny, |path|)
  {
    hide RunsOf, Covered, PiecesUpTo, Open, Uncovered, Proper, Slice;
    var runs := RunsOf(low, deny);
    assert runs[..|runs|] == runs;
    OpenUpTo(path, low, deny, |runs|);
    RestIsClear(low, deny, |path|);
    ClearStretch(path, low, deny, Within(path, EndOf(runs)), |path|);
    OpenSnoc(PiecesUpTo(path, runs), Shown(Slice(path, EndOf(runs), |path|)));
    LastSlice(path, EndOf(runs));
  }

  lemma {:induction false} LastSlice(path: string, i: nat)
    ensures Slice(path, i, |path|) == path[Within(path, i)..|path|]
  {
  }

  // ---- one report per value in a line ---------------------------------------------------------------

  /** A hit strictly inside a longer one is the same value, not a second one. */
  predicate Inner(a: Hit, hits: seq<Hit>) {
    exists b :: b in hits && b.start <= a.start && a.end <= b.end && b.end - b.start > a.end - a.start
  }

  function ReportedOf(some: seq<Hit>, hits: seq<Hit>): seq<Hit> {
    if some == [] then []
    else
      var front, a := some[..|some| - 1], some[|some| - 1];
      if Inner(a, hits) then ReportedOf(front, hits) else ReportedOf(front, hits) + [a]
  }

  /** The operator hits reported for a line. */
  function Reported(low: string, deny: seq<Entry>): seq<Hit> {
    ReportedOf(Hits(low, deny), Hits(low, deny))
  }

  method ScanLine(line: string, one: Lowering, deny: seq<Entry>) returns (found: seq<Hit>)
    requires Proper(deny)
    ensures found == Reported(LowerText(line, one), deny)
  {
    hide Hits, Proper, Inner, LowerText;
    var low := LowerText(line, one);
    var hits := FindHits(low, deny);
    found := [];
    assert hits[..0] == [];
    for i := 0 to |hits|
      invariant found == ReportedOf(hits[..i], hits)
    {
      var a := hits[i];
      assert hits[..i + 1][..i] == hits[..i];
      if Inner(a, hits) {
        continue;
      }
      found := found + [a];
    }
    assert hits[..|hits|] == hits;
  }

  lemma {:induction false} ReportedAre(some: seq<Hit>, hits: seq<Hit>, a: Hit)
    ensures a in ReportedOf(some, hits) <==> a in some && !Inner(a, hits)
  {
    hide Inner;
    if some != [] {
      ReportedAre(some[..|some| - 1], hits, a);
      assert some == some[..|some| - 1] + [some[|some| - 1]];
    }
  }

  /** From any hit, going to a longer one around it ends at one that nothing longer contains. */
  lemma {:induction false} Outermost(hits: seq<Hit>, a: Hit, bound: nat) returns (b: Hit)
    requires a in hits && forall h :: h in hits ==> h.end <= bound
    ensures b in hits && b.start <= a.start && a.end <= b.end && !Inner(b, hits)
    decreases bound - (a.end - a.start)
  {
    if Inner(a, hits) {
      var c :| c in hits && c.start <= a.start && a.end <= c.end && c.end - c.start > a.end - a.start;
      b := Outermost(hits, c, bound);
    } else {
      b := a;
    }
  }

  /** What is reported are occurrences, none strictly inside another, and every occurrence lies inside one of them. */
  lemma {:induction false} EveryOccurrenceIsReported(low: string, deny: seq<Entry>, h: Hit) returns (r: Hit)
    requires Occurs(low, deny, h)
    ensures r in Reported(low, deny) && r.start <= h.start && h.end <= r.end
  {
    hide Hits, Inner, ReportedOf;
    var hits := Hits(low, deny);
    HitsAre(low, deny, h);
    forall x | x in hits ensures x.end <= |low| {
      HitsAre(low, deny, x);
    }
    r := Outermost(hits, h, |low|);
    ReportedAre(hits, hits, r);
  }

  lemma {:induction false} ReportedIsMaximal(low: string, deny: seq<Entry>, a: Hit, h: Hit)
    requires a in Reported(low, deny) && Occurs(low, deny, h)
    ensures Occurs(low, deny, a)
    ensures !(h.start <= a.start && a.end <= h.end && h.end - h.start > a.end - a.start)
  {
    hide Hits, Occurs;
    ReportedAre(Hits(low, deny), Hits(low, deny), a);
    HitsAre(low, deny, a);
    HitsAre(low, deny, h);
  }
}
