/** When the masked form of a path hides what it should: occurrences are found in its lower case, which U+0130 makes
    longer, and masked at the same positions of the path itself. */
module PathMasking {
  import opened Text
  import opened SpanMasking

  const MIN_LITERAL := 4

  /** A denylist as it is loaded: no literal is shorter than four characters. */
  ghost predicate Loaded(deny: seq<Entry>) {
    forall i :: 0 <= i < |deny| ==> |deny[i].lit| >= MIN_LITERAL
  }

  /** A character of the path is covered when any character it lowers to is. */
  ghost predicate PathCovered(path: string, one: Lowering, deny: seq<Entry>, i: nat)
    requires i < |path|
  {
    exists j ::
      |LowerFront(path, one, i)| <= j < |LowerFront(path, one, i + 1)| && Covered(LowerText(path, one), deny, j)
  }

  /** The characters of the path that may be printed, in order. */
  ghost function MayShow(path: string, one: Lowering, deny: seq<Entry>, n: nat): string
    requires n <= |path|
  {
    if n == 0 then []
    else MayShow(path, one, deny, n - 1) + if PathCovered(path, one, deny, n - 1) then [] else [path[n - 1]]
  }

  /** The path is printed with exactly those, whatever denylist is loaded. */
  ghost predicate AlwaysExact(path: string, one: Lowering) {
    forall deny :: Loaded(deny) ==>
      Open(Pieces(path, RunsOf(LowerText(path, one), deny))) == MayShow(path, one, deny, |path|)
  }

  // ---- where the characters of a path lower to --------------------------------------------------------

  lemma {:induction false} FrontLength(path: string, one: Lowering, n: nat)
    requires n <= |path|
    ensures |LowerFront(path, one, n)| >= n
    ensures |LowerFront(path, one, n)| == n <==> WIDE !in path[..n]
  {
    if n > 0 {
      FrontLength(path, one, n - 1);
      assert path[..n] == path[..n - 1] + [path[n - 1]];
    }
  }

  lemma {:induction false} FrontGrows(path: string, one: Lowering, i: nat, n: nat)
    requires i <= n <= |path|
    ensures LowerFront(path, one, i) <= LowerFront(path, one, n)
    ensures |LowerFront(path, one, i)| + (n - i) <= |LowerFront(path, one, n)|
    decreases n
  {
    if i < n {
      FrontGrows(path, one, i, n - 1);
    }
  }

  lemma {:induction false} WideAt(path: string, one: Lowering, i: nat)
    requires i < |path| && path[i] == WIDE
    ensures var at := |LowerFront(path, one, i)|;
      at + 1 < |LowerText(path, one)| && LowerText(path, one)[at] == 'i' && LowerText(path, one)[at + 1] == DOT
  {
    FrontGrows(path, one, i + 1, |path|);
    var part := LowerFront(path, one, i + 1);
    assert part == LowerFront(path, one, i) + ['i', DOT];
    assert LowerText(path, one)[..|part|] == part;
  }

  /** Somewhere the lower case of a path with U+0130 changes from one character to the next. */
  lemma {:induction false} Changes(path: string, one: Lowering) returns (k: nat)
    requires |LowerText(path, one)| > |path|
    ensures k + 1 < |LowerText(path, one)| && LowerText(path, one)[k] != LowerText(path, one)[k + 1]
    ensures path != []
    ensures path[|path| - 1] != WIDE ==> k + 2 < |LowerText(path, one)|
    ensures path[|path| - 1] == WIDE && |LowerText(path, one)| > |path| + 1 ==> k + 3 < |LowerText(path, one)|
  {
    FrontLength(path, one, |path|);
    assert path[..|path|] == path;
    var i :| 0 <= i < |path| && path[i] == WIDE;
    i := FirstWide(path, i);
    WideAt(path, one, i);
    FrontLength(path, one, i);
    k := |LowerFront(path, one, i)|;
    FrontGrows(path, one, i + 1, |path|);
    if i + 1 < |path| {
      FrontGrows(path, one, i + 1, |path| - 1);
    }
  }

  lemma {:induction false} FirstWide(path: string, i: nat) returns (k: nat)
    requires i < |path| && path[i] == WIDE
    ensures k <= i && path[k] == WIDE && WIDE !in path[..k]
    decreases i
  {
    if WIDE in path[..i] {
      var j :| 0 <= j < i && path[..i][j] == WIDE;
      k := FirstWide(path, j);
    } else {
      k := i;
    }
  }

  // ---- comparing what is printed with what may be -----------------------------------------------------

  lemma {:induction false} SameCover(path: string, one: Lowering, deny: seq<Entry>, n: nat)
    requires n <= |path|
    requires forall i :: 0 <= i < n ==> (PathCovered(path, one, deny, i) <==> Covered(LowerText(path, one), deny, i))
    ensures MayShow(path, one, deny, n) == Uncovered(path, LowerText(path, one), deny, n)
  {
    hide Covered, PathCovered, LowerText;
    if n > 0 {
      SameCover(path, one, deny, n - 1);
    }
  }

  lemma {:induction false} MayShowStays(path: string, one: Lowering, deny: seq<Entry>, m: nat, n: nat)
    requires m <= n <= |path| && forall i :: m <= i < n ==> PathCovered(path, one, deny, i)
    ensures MayShow(path, one, deny, n) == MayShow(path, one, deny, m)
    decreases n
  {
    hide PathCovered;
    if m < n {
      MayShowStays(path, one, deny, m, n - 1);
    }
  }

  lemma {:induction false} NoneYet(path: string, one: Lowering, deny: seq<Entry>)
    ensures MayShow(path, one, deny, 0) == []
  {
  }

  lemma {:induction false} LastMayShow(path: string, one: Lowering, deny: seq<Entry>)
    requires path != [] && !PathCovered(path, one, deny, |path| - 1)
    ensures MayShow(path, one, deny, |path|) != []
  {
    hide PathCovered;
  }

  lemma {:induction false} NothingUncovered(path: string, low: string, deny: seq<Entry>)
    requires forall i :: 0 <= i < |path| ==> Covered(low, deny, i)
    ensures Uncovered(path, low, deny, |path|) == []
  {
    hide Covered;
    CoveredStretch(path, low, deny, 0, |path|);
  }

  lemma {:induction false} FirstUncovered(path: string, low: string, deny: seq<Entry>, n: nat)
    requires 0 < n <= |path| && !Covered(low, deny, 0)
    ensures Uncovered(path, low, deny, n) != []
  {
    hide Covered;
    if n > 1 {
      FirstUncovered(path, low, deny, n - 1);
    }
  }

  /** A path with another number of characters printed than may be. */
  lemma {:induction false} NotExact(path: string, one: Lowering, deny: seq<Entry>)
    requires Loaded(deny)
    requires (Uncovered(path, LowerText(path, one), deny, |path|) == []) != (MayShow(path, one, deny, |path|) == [])
    ensures !AlwaysExact(path, one)
  {
    hide RunsOf, Open, MayShow, Uncovered, LowerText;
    LoadedIsProper(deny);
    PrintedAreUncovered(path, LowerText(path, one), deny);
  }

  // ---- one literal taken from the path ------------------------------------------------------------------

  /** The denylist of one literal, the lower case from `a` to `b`. */
  function Cut(low: string, a: nat, b: nat): seq<Entry>
    requires a <= b <= |low|
  {
    [Entry(1, low[a..b])]
  }

  /** It covers its own place, and elsewhere only what the same characters cover again. */
  lemma {:induction false} CutCovers(low: string, a: nat, b: nat, i: int)
    requires a <= b <= |low|
    ensures a <= i < b ==> Covered(low, Cut(low, a, b), i)
    ensures Covered(low, Cut(low, a, b), i) ==> StandsAround(low, low[a..b], i)
  {
    var deny, lit := Cut(low, a, b), low[a..b];
    assert deny[0] in deny;
    if a <= i < b {
      assert Occurs(low, deny, Hit(a, b, 1));
    }
    if Covered(low, deny, i) {
      var h :| Occurs(low, deny, h) && h.start <= i < h.end;
      assert StandsAt(low, lit, h.start);
    }
  }

  ghost predicate StandsAround(low: string, lit: string, i: int) {
    exists p: nat :: StandsAt(low, lit, p) && p <= i < p + |lit|
  }

  /** A stretch does not stand where one of its characters is another. */
  lemma {:induction false} NotThere(low: string, a: nat, p: nat, n: nat, k: nat)
    requires a + n <= |low| && p + n <= |low| && k < n && low[p + k] != low[a + k]
    ensures !StandsAt(low, low[a..a + n], p)
  {
    assert low[p..p + n][k] == low[p + k] && low[a..a + n][k] == low[a + k];
  }

  /** Each of these stretches stands nowhere else. */
  lemma {:induction false} FrontStandsOnce(low: string, k: nat)
    requires k + 2 < |low| && low[k] != low[k + 1]
    ensures !Covered(low, Cut(low, 0, |low| - 1), |low| - 1)
  {
    hide Covered, StandsAt;
    CutCovers(low, 0, |low| - 1, |low| - 1);
    NotThere(low, 0, 1, |low| - 1, k);
    StandsInside(low);
  }

  lemma {:induction false} StandsInside(low: string)
    ensures forall lit, p {:trigger StandsAt(low, lit, p)} :: StandsAt(low, lit, p) ==> 0 <= p && p + |lit| <= |low|
  {
  }

  lemma {:induction false} BackStandsOnce(low: string, k: nat)
    requires k + 1 < |low| && low[k] != low[k + 1] && |low| > 1
    ensures !Covered(low, Cut(low, 1, |low|), 0)
  {
    hide Covered, StandsAt;
    CutCovers(low, 1, |low|, 0);
    NotThere(low, 1, 0, |low| - 1, k);
    assert low[1..1 + (|low| - 1)] == low[1..|low|];
    StandsInside(low);
  }

  lemma {:induction false} ShortFrontStandsOnce(low: string, k: nat, m: nat, i: int)
    requires k + 3 < |low| && low[k] != low[k + 1] && |low| - 2 <= i < |low|
    requires m + 2 < |low| && low[m] != low[m + 2]
    ensures !Covered(low, Cut(low, 0, |low| - 2), i)
  {
    hide Covered, StandsAt;
    CutCovers(low, 0, |low| - 2, i);
    NotThere(low, 0, 1, |low| - 2, k);
    NotThere(low, 0, 2, |low| - 2, m);
    StandsInside(low);
  }

  /** A text of two characters in turn. */
  predicate Alternates(low: string) {
    forall k {:trigger low[k]} :: 0 <= k < |low| - 2 ==> low[k] == low[k + 2]
  }

  /** The last character of the path keeps to itself: everything before it is covered, and at that length the path is. */
  lemma {:induction false} LastLeftOut(path: string, one: Lowering)
    requires |LowerText(path, one)| > |path| && |LowerText(path, one)| > MIN_LITERAL
    requires path[|path| - 1] != WIDE
    ensures !AlwaysExact(path, one)
  {
    hide LowerFront, Covered, Uncovered, MayShow;
    var low := LowerText(path, one);
    var k := Changes(path, one);
    var n := |low| - 1;
    var deny := Cut(low, 0, n);
    forall i | 0 <= i < |path| ensures Covered(low, deny, i) {
      CutCovers(low, 0, n, i);
    }
    NothingUncovered(path, low, deny);
    FrontStandsOnce(low, k);
    LastImage(path, one);
    LastMayShow(path, one, deny);
    NotExact(path, one, deny);
  }

  lemma {:induction false} LastImage(path: string, one: Lowering)
    requires path != []
    ensures |LowerFront(path, one, |path|)| == |LowerText(path, one)|
    ensures |LowerFront(path, one, |path| - 1)| + (if path[|path| - 1] == WIDE then 2 else 1) == |LowerText(path, one)|
  {
  }

  /** The first character is U+0130, and a literal begins inside what it lowers to. */
  lemma {:induction false} FirstLeftOut(path: string, one: Lowering)
    requires path != [] && path[0] == WIDE && |LowerText(path, one)| > MIN_LITERAL
    ensures !AlwaysExact(path, one)
  {
    hide LowerFront, Covered, Uncovered, MayShow;
    var low := LowerText(path, one);
    FirstImage(path, one);
    WideAt(path, one, 0);
    var deny := Cut(low, 1, |low|);
    BackStandsOnce(low, 0);
    FirstUncovered(path, low, deny, |path|);
    forall i | 0 <= i < |path| ensures PathCovered(path, one, deny, i) {
      var j := |LowerFront(path, one, i + 1)| - 1;
      ImageOf(path, one, i);
      if i > 0 {
        FrontGrows(path, one, 1, i + 1);
      }
      CutCovers(low, 1, |low|, j);
      assert Covered(LowerText(path, one), deny, j);
    }
    assert MayShow(path, one, deny, 0) == [] by {
      NoneYet(path, one, deny);
    }
    MayShowStays(path, one, deny, 0, |path|);
    NotExact(path, one, deny);
  }

  lemma {:induction false} FirstImage(path: string, one: Lowering)
    requires path != []
    ensures LowerFront(path, one, 0) == "" && |LowerFront(path, one, 1)| == if path[0] == WIDE then 2 else 1
  {
  }

  /** A character's own part of the lower case. */
  lemma {:induction false} ImageOf(path: string, one: Lowering, i: nat)
    requires i < |path|
    ensures i <= |LowerFront(path, one, i)| < |LowerFront(path, one, i + 1)| <= |LowerText(path, one)|
    ensures |LowerFront(path, one, i + 1)| == |LowerFront(path, one, i)| + if path[i] == WIDE then 2 else 1
    ensures |LowerFront(path, one, i + 1)| + (|path| - i - 1) <= |LowerText(path, one)|
  {
    FrontLength(path, one, i);
    FrontGrows(path, one, i + 1, |path|);
  }

  /** The last character is U+0130, another one comes before it, and a literal ends in front of the last. */
  lemma {:induction false} LastWideLeftOut(path: string, one: Lowering)
    requires |LowerText(path, one)| > |path| + 1 && |LowerText(path, one)| > MIN_LITERAL + 1
    requires path[|path| - 1] == WIDE && !Alternates(LowerText(path, one))
    ensures !AlwaysExact(path, one)
  {
    hide LowerFront, Covered, Uncovered, MayShow, Alternates;
    var low := LowerText(path, one);
    var k := Changes(path, one);
    var n := |low| - 2;
    var deny := Cut(low, 0, n);
    forall i | 0 <= i < |path| ensures Covered(low, deny, i) {
      CutCovers(low, 0, n, i);
    }
    NothingUncovered(path, low, deny);
    var m := Differs(low);
    ShortFrontStandsOnce(low, k, m, n);
    ShortFrontStandsOnce(low, k, m, n + 1);
    LastImage(path, one);
    LastMayShow(path, one, deny);
    NotExact(path, one, deny);
  }

  lemma {:induction false} Differs(low: string) returns (m: nat)
    requires !Alternates(low)
    ensures m + 2 < |low| && low[m] != low[m + 2]
  {
    m :| m < |low| - 2 && low[m] != low[m + 2];
  }

  // ---- where it does no harm ------------------------------------------------------------------------------

  /** Positions agree. */
  lemma {:induction false} SameLengthIsExact(path: string, one: Lowering, deny: seq<Entry>)
    requires |LowerText(path, one)| == |path|
    ensures MayShow(path, one, deny, |path|) == Uncovered(path, LowerText(path, one), deny, |path|)
  {
    hide LowerFront, Covered;
    forall i | 0 <= i < |path|
      ensures PathCovered(path, one, deny, i) <==> Covered(LowerText(path, one), deny, i)
    {
      ImageOf(path, one, i);
    }
    SameCover(path, one, deny, |path|);
  }

  /** Only the last character lowers to two, and no literal fits between them. */
  lemma {:induction false} OnlyLastIsExact(path: string, one: Lowering, deny: seq<Entry>)
    requires Loaded(deny) && |LowerText(path, one)| == |path| + 1 && path[|path| - 1] == WIDE
    ensures MayShow(path, one, deny, |path|) == Uncovered(path, LowerText(path, one), deny, |path|)
  {
    hide LowerFront;
    LowerIsLonger(path, one);
    LastImage(path, one);
    forall i | 0 <= i < |path|
      ensures PathCovered(path, one, deny, i) <==> Covered(LowerText(path, one), deny, i)
    {
      ImageOf(path, one, i);
      if i < |path| - 1 {
        FrontGrows(path, one, i + 1, |path| - 1);
      } else {
        LastTwo(LowerText(path, one), deny);
      }
    }
    SameCover(path, one, deny, |path|);
  }

  lemma {:induction false} LastTwo(low: string, deny: seq<Entry>)
    requires Loaded(deny) && |low| > 1
    ensures Covered(low, deny, |low| - 1) ==> Covered(low, deny, |low| - 2)
  {
    if Covered(low, deny, |low| - 1) {
      var h :| Occurs(low, deny, h) && h.start <= |low| - 1 < h.end;
      OccurrenceIsLong(low, deny, h);
    }
  }

  lemma {:induction false} OccurrenceIsLong(low: string, deny: seq<Entry>, h: Hit)
    requires Loaded(deny) && Occurs(low, deny, h)
    ensures h.end - h.start >= MIN_LITERAL && h.end <= |low|
  {
    var e :| e in deny && h.num == e.num && StandsAt(low, e.lit, h.start) && h.end == h.start + |e.lit|;
    var i :| 0 <= i < |deny| && deny[i] == e;
  }

  /** Only the whole can be covered. */
  lemma {:induction false} ShortIsExact(path: string, one: Lowering, deny: seq<Entry>)
    requires Loaded(deny) && |LowerText(path, one)| <= MIN_LITERAL
    ensures MayShow(path, one, deny, |path|) == Uncovered(path, LowerText(path, one), deny, |path|)
  {
    hide LowerFront, Occurs;
    var low := LowerText(path, one);
    FrontLength(path, one, |path|);
    forall i | 0 <= i < |path| ensures PathCovered(path, one, deny, i) <==> Covered(low, deny, i) {
      ImageOf(path, one, i);
      if h :| Occurs(low, deny, h) {
        OccurrenceIsLong(low, deny, h);
        assert Covered(low, deny, i) && Covered(low, deny, |LowerFront(path, one, i)|);
      }
    }
    SameCover(path, one, deny, |path|);
  }

  /** Whatever occurs covers all but the first and the last character. */
  ghost predicate MiddleCovered(low: string, deny: seq<Entry>) {
    forall h, j :: Occurs(low, deny, h) && 1 <= j <= |low| - 2 ==> Covered(low, deny, j)
  }

  lemma {:induction false} MiddleIsExact(path: string, one: Lowering, deny: seq<Entry>)
    requires MiddleCovered(LowerText(path, one), deny) && path != []
    requires path[0] != WIDE && path[|path| - 1] == WIDE && |LowerText(path, one)| > |path| + 1
    ensures MayShow(path, one, deny, |path|) == Uncovered(path, LowerText(path, one), deny, |path|)
  {
    hide LowerFront, Occurs;
    var low := LowerText(path, one);
    FirstImage(path, one);
    LastImage(path, one);
    forall i | 0 <= i < |path| ensures PathCovered(path, one, deny, i) <==> Covered(low, deny, i) {
      ImageOf(path, one, i);
      var j := |LowerFront(path, one, i)|;
      if i > 0 {
        if i < |path| - 1 {
          FrontGrows(path, one, i + 1, |path| - 1);
        }
        if h :| Occurs(low, deny, h) {
          assert Covered(low, deny, i) && Covered(low, deny, j);
        }
      }
    }
    SameCover(path, one, deny, |path|);
  }

  lemma {:induction false} FiveIsMiddle(low: string, deny: seq<Entry>)
    requires Loaded(deny) && |low| == 5
    ensures MiddleCovered(low, deny)
  {
    hide Occurs;
    forall h, j | Occurs(low, deny, h) && 1 <= j <= |low| - 2 ensures Covered(low, deny, j) {
      OccurrenceIsLong(low, deny, h);
    }
  }

  /** In a text of two characters in turn an occurrence comes again two places on, and two places before. */
  lemma {:induction false} Again(low: string, deny: seq<Entry>, h: Hit, d: int)
    requires Alternates(low) && Occurs(low, deny, h) && (d == 2 || d == -2) && 0 <= h.start + d && h.end + d <= |low|
    ensures Occurs(low, deny, Hit(h.start + d, h.end + d, h.num))
  {
    var e :| e in deny && h.num == e.num && StandsAt(low, e.lit, h.start) && h.end == h.start + |e.lit|;
    forall k | 0 <= k < |e.lit| ensures low[h.start + d + k] == e.lit[k] {
      assert low[h.start..h.end][k] == low[h.start + k];
    }
    assert low[h.start + d..h.end + d] == e.lit;
    assert StandsAt(low, e.lit, h.start + d);
  }

  lemma {:induction false} Reaches(low: string, deny: seq<Entry>, h: Hit, j: nat)
    requires Loaded(deny) && Alternates(low) && Occurs(low, deny, h) && 1 <= j <= |low| - 2
    ensures Covered(low, deny, j)
    decreases if j < h.start then h.start - j else if h.end <= j then j - h.end + 1 else 0
  {
    hide Occurs, Alternates, Loaded;
    OccurrenceIsLong(low, deny, h);
    if j < h.start {
      Again(low, deny, h, -2);
      Reaches(low, deny, Hit(h.start - 2, h.end - 2, h.num), j);
    } else if h.end <= j {
      Again(low, deny, h, 2);
      Reaches(low, deny, Hit(h.start + 2, h.end + 2, h.num), j);
    }
  }

  lemma {:induction false} AlternatingIsMiddle(low: string, deny: seq<Entry>)
    requires Loaded(deny) && Alternates(low)
    ensures MiddleCovered(low, deny)
  {
    hide Occurs, Alternates, Loaded;
    forall h, j | Occurs(low, deny, h) && 1 <= j <= |low| - 2 ensures Covered(low, deny, j) {
      Reaches(low, deny, h, j);
    }
  }

  // ---- exactly when -----------------------------------------------------------------------------------------

  /** Lower-casing keeps the length, or leaves too little for a literal to end inside what a character lowers to: four
      characters at most; or the path ends on U+0130, does not begin with it, and holds no other one, or its lower case
      has five characters or is made of two characters in turn. */
  predicate Harmless(path: string, one: Lowering) {
    var low := LowerText(path, one);
    || |low| == |path|
    || |low| <= MIN_LITERAL
    || (path[|path| - 1] == WIDE && path[0] != WIDE
        && (|low| == |path| + 1 || |low| == MIN_LITERAL + 1 || Alternates(low)))
  }

  lemma {:induction false} HarmlessIsExact(path: string, one: Lowering, deny: seq<Entry>)
    requires Harmless(path, one) && Loaded(deny)
    ensures MayShow(path, one, deny, |path|) == Uncovered(path, LowerText(path, one), deny, |path|)
  {
    hide LowerFront, LowerText, MayShow, Uncovered, Alternates, MiddleCovered, Loaded;
    LowerIsLonger(path, one);
    var low := LowerText(path, one);
    if |low| == |path| {
      SameLengthIsExact(path, one, deny);
    } else if |low| <= MIN_LITERAL {
      ShortIsExact(path, one, deny);
    } else if |low| == |path| + 1 {
      OnlyLastIsExact(path, one, deny);
    } else {
      if |low| == MIN_LITERAL + 1 {
        FiveIsMiddle(low, deny);
      } else {
        AlternatingIsMiddle(low, deny);
      }
      MiddleIsExact(path, one, deny);
    }
  }

  lemma {:induction false} LowerIsLonger(path: string, one: Lowering)
    ensures |LowerText(path, one)| >= |path|
    ensures path == [] ==> LowerText(path, one) == []
  {
    FrontLength(path, one, |path|);
  }

  /** For every path: under every denylist that can be loaded exactly the characters no occurrence covers are printed,
      in order, if and only if the path is harmless. */
  lemma {:induction false} MaskingIsExactIff(path: string, one: Lowering)
    ensures AlwaysExact(path, one) <==> Harmless(path, one)
  {
    hide LowerFront, LowerText, MayShow, Uncovered, Alternates, RunsOf, Open, Loaded;
    LowerIsLonger(path, one);
    if Harmless(path, one) {
      forall deny | Loaded(deny)
        ensures Open(Pieces(path, RunsOf(LowerText(path, one), deny))) == MayShow(path, one, deny, |path|)
      {
        HarmlessIsExact(path, one, deny);
        LoadedIsProper(deny);
        PrintedAreUncovered(path, LowerText(path, one), deny);
      }
    } else if path[|path| - 1] != WIDE {
      LastLeftOut(path, one);
    } else if path[0] == WIDE {
      FirstLeftOut(path, one);
    } else {
      LastWideLeftOut(path, one);
    }
  }

  /** A path and a literal of six letters: the mask comes one place too late, and the first letter shows. */
  lemma {:induction false} LetterShows(one: Lowering)
    requires forall i :: 0 < i < 7 ==> one(LEAKING, i) == LEAKING[i]
    ensures Loaded(SECRET)
    ensures Open(Pieces(LEAKING, RunsOf(LowerText(LEAKING, one), SECRET))) == LEAKING[..2] == [WIDE] + "s"
    ensures MayShow(LEAKING, one, SECRET, 7) == [WIDE]
  {
    hide Covered, LowerText, RunsOf, Open;
    LeakingLower(one);
    var low := LowerText(LEAKING, one);
    PrintedAreUncovered(LEAKING, low, SECRET);
    SecretCovers(low);
    ClearStretch(LEAKING, low, SECRET, 0, 2);
    CoveredStretch(LEAKING, low, SECRET, 2, 7);
    assert LEAKING[0..2] == LEAKING[..2] == [WIDE] + "s";
    SecretMayNotShow(one);
  }

  const LEAKING := [WIDE] + "secret"
  const SECRET := [Entry(1, "secret")]

  lemma {:induction false} LeakingLower(one: Lowering)
    requires forall i :: 0 < i < 7 ==> one(LEAKING, i) == LEAKING[i]
    ensures LowerFront(LEAKING, one, 1) == ['i', DOT]
    ensures forall n :: 1 <= n <= 7 ==> |LowerFront(LEAKING, one, n)| == n + 1
    ensures LowerText(LEAKING, one) == ['i', DOT] + "secret"
  {
    assert LowerFront(LEAKING, one, 1) == ['i', DOT];
    assert LowerFront(LEAKING, one, 2) == ['i', DOT] + "s";
    assert LowerFront(LEAKING, one, 3) == ['i', DOT] + "se";
    assert LowerFront(LEAKING, one, 4) == ['i', DOT] + "sec";
    assert LowerFront(LEAKING, one, 5) == ['i', DOT] + "secr";
    assert LowerFront(LEAKING, one, 6) == ['i', DOT] + "secre";
    assert LowerFront(LEAKING, one, 7) == ['i', DOT] + "secret";
  }

  lemma {:induction false} SecretCovers(low: string)
    requires low == ['i', DOT] + "secret"
    ensures forall i :: 0 <= i < 8 ==> (Covered(low, SECRET, i) <==> 2 <= i)
  {
    assert low[2..8] == "secret";
    assert SECRET == Cut(low, 2, 8);
    forall i | 0 <= i < 8 ensures Covered(low, SECRET, i) <==> 2 <= i {
      CutCovers(low, 2, 8, i);
      if Covered(low, SECRET, i) {
        var p: nat :| StandsAt(low, low[2..8], p) && p <= i < p + 6;
        assert low[p] == low[p..p + 6][0];
      }
    }
  }

  lemma {:induction false} SecretMayNotShow(one: Lowering)
    requires forall i :: 0 < i < 7 ==> one(LEAKING, i) == LEAKING[i]
    ensures MayShow(LEAKING, one, SECRET, 7) == [WIDE]
  {
    hide Covered, LowerText, LowerFront;
    LeakingLower(one);
    FirstImage(LEAKING, one);
    SecretCovers(LowerText(LEAKING, one));
    forall i | 0 <= i < 7 ensures PathCovered(LEAKING, one, SECRET, i) <==> 0 < i {
      if i > 0 {
        assert Covered(LowerText(LEAKING, one), SECRET, |LowerFront(LEAKING, one, i)|);
      }
    }
    assert MayShow(LEAKING, one, SECRET, 1) == [WIDE];
    MayShowStays(LEAKING, one, SECRET, 1, 7);
  }

  lemma {:induction false} LoadedIsProper(deny: seq<Entry>)
    requires Loaded(deny)
    ensures Proper(deny)
  {
  }
}
