/** The stall signal: which rounds of an item brought a new failure on moved code, and how many in a row did not. */
module StallDetector {
  import opened Options
  import opened Text

  /** A failing round: the signature of its failure, the branch head, and - for an item with work in the OB1
      submodule - that commit, "" when it is not recorded. */
  datatype Round = Round(sig: string, sha: string, ob1: Option<string>)

  /** What one round was judged to be. `moved` and `progress` are undecided for an unscored round. */
  datatype Entry = Entry(
    round: nat, sig: string, novel: bool, moved: Option<bool>, scored: bool, progress: Option<bool>, stallAfter: nat)

  datatype Verdict = Verdict(rounds: nat, stall: nat, threshold: nat, stalled: bool, signaturesSeen: nat, trail: seq<Entry>)

  /** What the loop carries from round to round. */
  datatype Memory = Memory(seen: set<string>, stall: nat, prevSha: string, prevOb1: string)

  const FRESH := Memory({}, 0, "", "")

  datatype Judgement = Judgement(novel: bool, moved: bool, scored: bool)

  /** Movement of the ai-stack commit decides; when it stood still on an OB1 round, the OB1 commit decides; and a
      commit that was not read decides nothing. */
  function Judge(m: Memory, r: Round, first: bool): Judgement {
    var sha := Strip(r.sha);
    var ob1 := if r.ob1.Some? then Strip(r.ob1.value) else "";
    var scored := first || (sha != "" && m.prevSha != "");
    var moved := first || sha != m.prevSha;
    if r.ob1.Some? && !first && scored && !moved then
      if ob1 != "" && m.prevOb1 != "" then Judgement(r.sig !in m.seen, ob1 != m.prevOb1, true)
      else Judgement(r.sig !in m.seen, false, false)
    else Judgement(r.sig !in m.seen, moved, scored)
  }

  function Next(m: Memory, r: Round, first: bool): Memory {
    var j := Judge(m, r, first);
    var sha, ob1 := Strip(r.sha), if r.ob1.Some? then Strip(r.ob1.value) else "";
    Memory(
      m.seen + {r.sig},
      if !j.scored then m.stall else if j.novel && j.moved then 0 else m.stall + 1,
      if sha != "" then sha else m.prevSha,
      if ob1 != "" then ob1 else m.prevOb1)
  }

  function EntryOf(m: Memory, r: Round, round: nat): Entry
    requires round >= 1
  {
    var j := Judge(m, r, round == 1);
    Entry(round, r.sig, j.novel, if j.scored then Some(j.moved) else None, j.scored,
          if j.scored then Some(j.novel && j.moved) else None, Next(m, r, round == 1).stall)
  }

  function After(rounds: seq<Round>): Memory {
    if rounds == [] then FRESH
    else Next(After(rounds[..|rounds| - 1]), rounds[|rounds| - 1], |rounds| == 1)
  }

  function Trail(rounds: seq<Round>): seq<Entry> {
    if rounds == [] then []
    else Trail(rounds[..|rounds| - 1]) + [EntryOf(After(rounds[..|rounds| - 1]), rounds[|rounds| - 1], |rounds|)]
  }

  function Evaluated(rounds: seq<Round>, threshold: nat): Verdict {
    var m := After(rounds);
    Verdict(|rounds|, m.stall, threshold, m.stall >= threshold && |rounds| > threshold, |m.seen|, Trail(rounds))
  }

  /** One more round. */
  lemma {:induction false} RoundsSnoc(rounds: seq<Round>, r: Round)
    ensures After(rounds + [r]) == Next(After(rounds), r, rounds == [])
    ensures Trail(rounds + [r]) == Trail(rounds) + [EntryOf(After(rounds), r, |rounds| + 1)]
  {
    hide Next, EntryOf;
    var all := rounds + [r];
    assert all[..|all| - 1] == rounds && all[|all| - 1] == r;
  }

  lemma {:induction false} LastRound(rounds: seq<Round>) returns (front: seq<Round>, r: Round)
    requires rounds != []
    ensures rounds == front + [r] && |front| == |rounds| - 1
    ensures forall k :: 0 <= k <= |front| ==> front[..k] == rounds[..k]
    ensures After(rounds) == Next(After(front), r, front == [])
    ensures Trail(rounds) == Trail(front) + [EntryOf(After(front), r, |rounds|)]
  {
    hide After, Trail, Next, EntryOf;
    front, r := rounds[..|rounds| - 1], rounds[|rounds| - 1];
    RoundsSnoc(front, r);
    assert rounds == front + [r];
  }

  lemma {:induction false} TrailLength(rounds: seq<Round>)
    ensures |Trail(rounds)| == |rounds|
    decreases |rounds|
  {
    hide Trail, After;
    if rounds != [] {
      var front, r := LastRound(rounds);
      TrailLength(front);
    } else {
      NoRounds();
    }
  }

  lemma {:induction false} NoRounds()
    ensures After([]) == FRESH && Trail([]) == []
  {
  }

  /** The stall test over an item's failing rounds, oldest first. */
  method Evaluate(rounds: seq<Round>, threshold: nat) returns (v: Verdict)
    ensures v == Evaluated(rounds, threshold)
  {
    hide Trail, After, Strip;
    NoRounds();
    var seen: set<string>, stall: nat, prevSha, prevOb1 := {}, 0, "", "";
    var trail: seq<Entry> := [];
    var i := 0;
    assert rounds[..0] == [];
    while i < |rounds|
      invariant 0 <= i <= |rounds|
      invariant Memory(seen, stall, prevSha, prevOb1) == After(rounds[..i])
      invariant trail == Trail(rounds[..i])
    {
      var r := rounds[i];
      RoundsSnoc(rounds[..i], r);
      assert rounds[..i + 1] == rounds[..i] + [r];
      var sha := Strip(r.sha);
      var ob1 := if r.ob1.Some? then Strip(r.ob1.value) else "";
      var novel := r.sig !in seen;
      var first := i == 0;
      var scored := first || (sha != "" && prevSha != "");
      var moved := if first then true else sha != prevSha;
      if r.ob1.Some? && !first && scored && !moved {
        if ob1 != "" && prevOb1 != "" {
          moved := ob1 != prevOb1;
        } else {
          scored := false;
        }
      }
      var progress := novel && moved;
      seen := seen + {r.sig};
      if scored {
        stall := if progress then 0 else stall + 1;
      }
      trail := trail + [Entry(i + 1, r.sig, novel, if scored then Some(moved) else None, scored,
                              if scored then Some(progress) else None, stall)];
      prevSha := if sha != "" then sha else prevSha;
      prevOb1 := if ob1 != "" then ob1 else prevOb1;
      i := i + 1;
    }
    assert rounds[..|rounds|] == rounds;
    v := Verdict(|rounds|, stall, threshold, stall >= threshold && |rounds| > threshold, |seen|, trail);
  }

  // ---- the structure of a verdict -------------------------------------------------------------

  /** What was said of the first rounds stays said when more rounds follow. */
  lemma {:induction false} PrefixKeepsTrail(rounds: seq<Round>, k: nat)
    requires k <= |rounds|
    ensures |Trail(rounds)| == |rounds| && Trail(rounds[..k]) == Trail(rounds)[..k]
    decreases |rounds|
  {
    hide Trail, After;
    TrailLength(rounds);
    if k < |rounds| {
      var front, r := LastRound(rounds);
      PrefixKeepsTrail(front, k);
    } else {
      assert rounds[..k] == rounds;
    }
  }

  /** Scored rounds without progress since the last one with progress. */
  function SinceProgress(trail: seq<Entry>): nat {
    if trail == [] then 0
    else
      var front, e := trail[..|trail| - 1], trail[|trail| - 1];
      if !e.scored then SinceProgress(front)
      else if e.progress == Some(true) then 0
      else SinceProgress(front) + 1
  }

  function ScoredRounds(trail: seq<Entry>): nat {
    if trail == [] then 0
    else ScoredRounds(trail[..|trail| - 1]) + (if trail[|trail| - 1].scored then 1 else 0)
  }

  function ProgressRounds(trail: seq<Entry>): nat {
    if trail == [] then 0
    else ProgressRounds(trail[..|trail| - 1]) + (if trail[|trail| - 1].progress == Some(true) then 1 else 0)
  }

  lemma {:induction false} CountsSnoc(trail: seq<Entry>, e: Entry)
    ensures SinceProgress(trail + [e])
      == if !e.scored then SinceProgress(trail) else if e.progress == Some(true) then 0 else SinceProgress(trail) + 1
    ensures ScoredRounds(trail + [e]) == ScoredRounds(trail) + (if e.scored then 1 else 0)
    ensures ProgressRounds(trail + [e]) == ProgressRounds(trail) + (if e.progress == Some(true) then 1 else 0)
  {
    assert (trail + [e])[..|trail|] == trail;
  }

  /** The counter is exactly the number of scored rounds without progress since the last progress. */
  lemma {:induction false} StallCounts(rounds: seq<Round>)
    ensures After(rounds).stall == SinceProgress(Trail(rounds))
  {
    if rounds != [] {
      hide Trail, After, SinceProgress, Strip;
      var front, r := LastRound(rounds);
      StallCounts(front);
      CountsSnoc(Trail(front), EntryOf(After(front), r, |rounds|));
    }
  }

  /** A round that could not be measured moves the counter neither way, though its failure counts as seen. */
  lemma {:induction false} UnscoredLeavesStall(rounds: seq<Round>, r: Round)
    requires !EntryOf(After(rounds), r, |rounds| + 1).scored
    ensures After(rounds + [r]).stall == After(rounds).stall
    ensures After(rounds + [r]).seen == After(rounds).seen + {r.sig}
  {
    hide After;
    RoundsSnoc(rounds, r);
  }

  /** The first round is always progress and no round adds more than one: the counter stays below the rounds. */
  lemma {:induction false} StallBelowRounds(rounds: seq<Round>)
    ensures After(rounds).stall <= if |rounds| == 0 then 0 else |rounds| - 1
  {
    if rounds != [] {
      hide After, Strip;
      NoRounds();
      var front, r := LastRound(rounds);
      StallBelowRounds(front);
    }
  }

  // ---- each round, from the rounds alone ------------------------------------------------------

  function Head(r: Round): string {
    Strip(r.sha)
  }

  function Ob1Head(r: Round): string {
    if r.ob1.Some? then Strip(r.ob1.value) else ""
  }

  /** `v` is the newest head that was read in the first `i` rounds, "" when none was. */
  ghost predicate HeadBefore(rounds: seq<Round>, i: nat, v: string) {
    && i <= |rounds|
    && (v == "" ==> forall j :: 0 <= j < i ==> Head(rounds[j]) == "")
    && (v != "" ==> exists j :: 0 <= j < i && Head(rounds[j]) == v && forall k :: j < k < i ==> Head(rounds[k]) == "")
  }

  /** The same of the OB1 commit. */
  ghost predicate Ob1Before(rounds: seq<Round>, i: nat, v: string) {
    && i <= |rounds|
    && (v == "" ==> forall j :: 0 <= j < i ==> Ob1Head(rounds[j]) == "")
    && (v != "" ==> exists j :: 0 <= j < i && Ob1Head(rounds[j]) == v && forall k :: j < k < i ==> Ob1Head(rounds[k]) == "")
  }

  lemma {:induction false} OneMoreHead(rounds: seq<Round>, i: nat, v: string, w: string)
    requires i < |rounds| && HeadBefore(rounds, i, v) && Ob1Before(rounds, i, w)
    ensures HeadBefore(rounds, i + 1, if Head(rounds[i]) != "" then Head(rounds[i]) else v)
    ensures Ob1Before(rounds, i + 1, if Ob1Head(rounds[i]) != "" then Ob1Head(rounds[i]) else w)
  {
    hide Head, Ob1Head;
  }

  lemma {:induction false} MemoryIs(rounds: seq<Round>, i: nat)
    requires i <= |rounds|
    ensures HeadBefore(rounds, i, After(rounds[..i]).prevSha) && Ob1Before(rounds, i, After(rounds[..i]).prevOb1)
    ensures After(rounds[..i]).seen == Signatures(rounds[..i])
  {
    hide After, Strip, Judge, Signatures;
    NoRounds();
    SeenIsSignatures(rounds[..i]);
    if i == 0 {
      assert rounds[..0] == [];
    } else {
      hide HeadBefore, Ob1Before;
      MemoryIs(rounds, i - 1);
      var m := After(rounds[..i - 1]);
      OneMoreHead(rounds, i - 1, m.prevSha, m.prevOb1);
      RoundsSnoc(rounds[..i - 1], rounds[i - 1]);
      assert rounds[..i] == rounds[..i - 1] + [rounds[i - 1]];
    }
  }

  lemma {:induction false} OneHead(rounds: seq<Round>, i: nat, v: string, w: string)
    ensures HeadBefore(rounds, i, v) && HeadBefore(rounds, i, w) ==> v == w
    ensures Ob1Before(rounds, i, v) && Ob1Before(rounds, i, w) ==> v == w
  {
    hide Head, Ob1Head;
  }

  /** A round can be judged: the first one can; a later one when its head and the one before it were read - and, on an
      unmoved head of an OB1 item, the OB1 commits as well. */
  ghost predicate Measured(rounds: seq<Round>, i: nat, head: string, ob1: string)
    requires i < |rounds|
  {
    var r := rounds[i];
    i == 0 || (Head(r) != "" && head != "" && (Head(r) != head || r.ob1.None? || (Ob1Head(r) != "" && ob1 != "")))
  }

  /** The code moved: either commit is another one than before. */
  ghost predicate Moved(rounds: seq<Round>, i: nat, head: string, ob1: string)
    requires i < |rounds|
  {
    i == 0 || Head(rounds[i]) != head || (rounds[i].ob1.Some? && Ob1Head(rounds[i]) != ob1)
  }

  ghost predicate NewFailure(rounds: seq<Round>, i: nat)
    requires i < |rounds|
  {
    forall j :: 0 <= j < i ==> rounds[j].sig != rounds[i].sig
  }

  /** A round that can be judged is progress exactly when it brought a failure no round before it had, on code that
      moved since the last one that was read; one that cannot be judged is neither. */
  lemma {:induction false} ProgressIff(rounds: seq<Round>, i: nat, head: string, ob1: string)
    requires i < |rounds| && HeadBefore(rounds, i, head) && Ob1Before(rounds, i, ob1)
    ensures |Trail(rounds)| == |rounds|
    ensures var e := Trail(rounds)[i];
      && e.round == i + 1 && e.sig == rounds[i].sig && (e.novel <==> NewFailure(rounds, i))
      && (e.scored <==> Measured(rounds, i, head, ob1))
      && e.moved == (if e.scored then Some(Moved(rounds, i, head, ob1)) else None)
      && e.progress == (if e.scored then Some(NewFailure(rounds, i) && Moved(rounds, i, head, ob1)) else None)
      && e.stallAfter == SinceProgress(Trail(rounds)[..i + 1])
  {
    hide After, Trail, HeadBefore, Ob1Before, SinceProgress, Strip;
    TrailLength(rounds);
    PrefixKeepsTrail(rounds, i + 1);
    var front, r := rounds[..i], rounds[i];
    assert rounds[..i + 1] == front + [r];
    RoundsSnoc(front, r);
    TrailLength(front);
    MemoryIs(rounds, i);
    OneHead(rounds, i, head, After(front).prevSha);
    OneHead(rounds, i, ob1, After(front).prevOb1);
    StallCounts(rounds[..i + 1]);
    SeenBefore(rounds, i);
  }

  lemma {:induction false} SeenBefore(rounds: seq<Round>, i: nat)
    requires i < |rounds|
    ensures rounds[i].sig !in Signatures(rounds[..i]) <==> NewFailure(rounds, i)
  {
    if rounds[i].sig in Signatures(rounds[..i]) {
      var r :| r in rounds[..i] && r.sig == rounds[i].sig;
    } else {
      forall j | 0 <= j < i ensures rounds[j].sig != rounds[i].sig {
        assert rounds[..i][j] in rounds[..i];
      }
    }
  }

  /** An item with failing rounds is reported exactly when at least `threshold` rounds that could be judged brought no
      progress since the last one that did. */
  lemma {:induction false} StalledIff(rounds: seq<Round>, threshold: nat)
    ensures Evaluated(rounds, threshold).stalled <==> rounds != [] && SinceProgress(Trail(rounds)) >= threshold
    ensures Evaluated(rounds, threshold).signaturesSeen == |Signatures(rounds)|
  {
    hide After, Trail, SinceProgress;
    StallCounts(rounds);
    StallBelowRounds(rounds);
    SeenIsSignatures(rounds);
  }

  // ---- completeness ---------------------------------------------------------------------------

  function Signatures(rounds: seq<Round>): set<string> {
    set r | r in rounds :: r.sig
  }

  lemma {:induction false} SignaturesSnoc(rounds: seq<Round>, r: Round)
    ensures Signatures(rounds + [r]) == Signatures(rounds) + {r.sig}
  {
    assert (rounds + [r])[|rounds|] == r;
    assert forall x :: x in rounds ==> x in rounds + [r];
  }

  lemma {:induction false} SeenIsSignatures(rounds: seq<Round>)
    ensures After(rounds).seen == Signatures(rounds)
  {
    if rounds != [] {
      hide After, Signatures, Judge;
      var front, r := LastRound(rounds);
      SeenIsSignatures(front);
      SignaturesSnoc(front, r);
    }
  }

  /** Every round of progress brought a signature no round before it had. */
  lemma {:induction false} ProgressNeedsNovelty(rounds: seq<Round>)
    ensures ProgressRounds(Trail(rounds)) <= |After(rounds).seen|
  {
    if rounds != [] {
      hide After, Trail, ProgressRounds, EntryOf, Next, Signatures;
      var front, r := LastRound(rounds);
      ProgressNeedsNovelty(front);
      CountsSnoc(Trail(front), EntryOf(After(front), r, |rounds|));
      OneMore(After(front).seen, r.sig);
      OnlyNoveltyIsProgress(After(front), r, |rounds|);
    }
  }

  lemma {:induction false} OnlyNoveltyIsProgress(m: Memory, r: Round, round: nat)
    requires round >= 1
    ensures EntryOf(m, r, round).progress == Some(true) ==> r.sig !in m.seen
    ensures Next(m, r, round == 1).seen == m.seen + {r.sig}
  {
    hide Strip;
  }

  lemma {:induction false} OneMore(seen: set<string>, sig: string)
    ensures |seen + {sig}| == if sig in seen then |seen| else |seen| + 1
  {
    if sig in seen {
      assert seen + {sig} == seen;
    }
  }

  ghost predicate NeverStalled(rounds: seq<Round>, threshold: nat) {
    forall k :: 0 <= k <= |rounds| ==> !Evaluated(rounds[..k], threshold).stalled
  }

  lemma {:induction false} NeverStalledBefore(rounds: seq<Round>, front: seq<Round>, threshold: nat)
    requires NeverStalled(rounds, threshold) && |front| <= |rounds|
    requires forall k :: 0 <= k <= |front| ==> front[..k] == rounds[..k]
    ensures NeverStalled(front, threshold)
  {
    hide Evaluated;
    forall k | 0 <= k <= |front| ensures !Evaluated(front[..k], threshold).stalled {
      assert front[..k] == rounds[..k];
    }
  }

  lemma {:induction false} StallBelowThreshold(rounds: seq<Round>, threshold: nat)
    requires threshold >= 1 && NeverStalled(rounds, threshold)
    ensures After(rounds).stall < threshold
  {
    hide After, Trail;
    StallBelowRounds(rounds);
    assert rounds[..|rounds|] == rounds;
    assert !Evaluated(rounds, threshold).stalled;
  }

  /** What a round does to the counts. */
  lemma {:induction false} OneRound(m: Memory, r: Round, round: nat)
    requires round >= 1
    ensures var e, stall := EntryOf(m, r, round), Next(m, r, round == 1).stall;
      && (e.progress == Some(true) ==> e.scored && stall == 0)
      && (e.scored && e.progress != Some(true) ==> stall == m.stall + 1)
      && (!e.scored ==> stall == m.stall && e.progress != Some(true))
    ensures round == 1 && m == FRESH ==> EntryOf(m, r, round).scored && EntryOf(m, r, round).progress == Some(true)
  {
  }

  lemma {:induction false} QuietRoundsAreFew(rounds: seq<Round>, threshold: nat)
    requires threshold >= 1 && NeverStalled(rounds, threshold) && rounds != []
    ensures After(rounds).stall < threshold
    ensures ScoredRounds(Trail(rounds)) + (threshold - 1 - After(rounds).stall) <= ProgressRounds(Trail(rounds)) * threshold
    decreases |rounds|
  {
    hide After, Trail, ScoredRounds, ProgressRounds, EntryOf, Next, NeverStalled;
    StallBelowThreshold(rounds, threshold);
    var front, r := LastRound(rounds);
    CountsSnoc(Trail(front), EntryOf(After(front), r, |rounds|));
    OneRound(After(front), r, |rounds|);
    NoRounds();
    if front == [] {
      NoCounts();
    } else {
      NeverStalledBefore(rounds, front, threshold);
      QuietRoundsAreFew(front, threshold);
      var p := ProgressRounds(Trail(front));
      assert (p + 1) * threshold == p * threshold + threshold;
    }
  }

  lemma {:induction false} NoCounts()
    ensures ScoredRounds([]) == 0 && ProgressRounds([]) == 0
  {
  }

  /** The detector is complete: more than m*threshold scored rounds that show at most m distinct failures have a
      prefix it reports as stalled. No cycle of old failures runs on unseen. */
  lemma {:induction false} StallIsSeen(rounds: seq<Round>, threshold: nat, m: nat)
    requires threshold >= 1 && |Signatures(rounds)| <= m && ScoredRounds(Trail(rounds)) > m * threshold
    ensures exists k :: 0 <= k <= |rounds| && Evaluated(rounds[..k], threshold).stalled
  {
    hide After, Trail, ScoredRounds, Signatures, Evaluated;
    NotNeverStalled(rounds, threshold, m);
  }

  lemma {:induction false} NotNeverStalled(rounds: seq<Round>, threshold: nat, m: nat)
    requires threshold >= 1 && |Signatures(rounds)| <= m && ScoredRounds(Trail(rounds)) > m * threshold
    ensures !NeverStalled(rounds, threshold)
  {
    hide After, Trail, ScoredRounds, ProgressRounds, Signatures, NeverStalled;
    if NeverStalled(rounds, threshold) {
      NoRounds();
      NoCounts();
      QuietRoundsAreFew(rounds, threshold);
      ProgressNeedsNovelty(rounds);
      SeenIsSignatures(rounds);
      TimesMonotone(ProgressRounds(Trail(rounds)), m, threshold);
    }
  }

  lemma {:induction false} TimesMonotone(a: nat, b: nat, t: nat)
    requires a <= b
    ensures a * t <= b * t
  {
  }

  /** The bound is tight: one failure repeated on read commits is progress once and is reported after exactly
      `threshold` more rounds, never earlier. */
  lemma {:induction false} RepeatsStallOnTime(rounds: seq<Round>, threshold: nat)
    requires threshold >= 1 && rounds != []
    requires forall i :: 0 <= i < |rounds| ==>
      rounds[i].sig == rounds[0].sig && rounds[i].ob1.None? && Strip(rounds[i].sha) != ""
    ensures After(rounds).stall == |rounds| - 1 && After(rounds).prevSha != "" && After(rounds).seen == {rounds[0].sig}
    ensures Evaluated(rounds, threshold).stalled <==> |rounds| > threshold
    decreases |rounds|
  {
    hide After, Trail, Strip;
    var front, r := LastRound(rounds);
    NoRounds();
    assert r == rounds[|rounds| - 1];
    if front != [] {
      assert forall i :: 0 <= i < |front| ==> front[i] == rounds[i];
      RepeatsStallOnTime(front, threshold);
    }
  }
}
