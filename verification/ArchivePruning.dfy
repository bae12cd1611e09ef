/** Pruning of the secrets backups: beyond the newest few, an archive stays only while it holds a file that no newer
    archive has. */
module ArchivePruning {
  import opened Options
  import opened Replay

  /** What there is of one archive: its body, its checksum and its listing with the paths in it, and whether that can be
      read. */
  datatype Archive = Archive(body: bool, sha: bool, listing: Option<set<string>>, readable: bool)

  /** A complete archive and the paths its listing is read as. */
  datatype Set = Set(stamp: nat, files: set<string>)

  /** A listing that cannot be read counts as naming no path. */
  function FilesOf(a: Archive): set<string>
    requires a.listing.Some?
  {
    if a.readable then a.listing.value else {}
  }

  predicate Complete(a: Archive) {
    a.body && a.sha && a.listing.Some?
  }

  /** The complete archives of a directory, newest first. `dir` lists what is there in the order of the names, which
      carry the time: an archive's stamp is its place in that order. */
  function CompleteSets(dir: seq<Archive>): seq<Set> {
    if dir == [] then []
    else
      var front, a := dir[..|dir| - 1], dir[|dir| - 1];
      (if Complete(a) then [Set(|front|, FilesOf(a))] else []) + CompleteSets(front)
  }

  /** The paths any of them is read to hold. */
  function Paths(sets: seq<Set>): set<string> {
    if sets == [] then {} else Paths(sets[..|sets| - 1]) + sets[|sets| - 1].files
  }

  /** An archive stays when it is among the `retain` newest or holds a path that no newer archive holds. */
  predicate Stays(newer: seq<Set>, s: Set, retain: nat) {
    |newer| < retain || s.files - Paths(newer) != {}
  }

  function Survivors(sets: seq<Set>, retain: nat): seq<Set> {
    if sets == [] then []
    else
      var newer, s := sets[..|sets| - 1], sets[|sets| - 1];
      if Stays(newer, s, retain) then Survivors(newer, retain) + [s] else Survivors(newer, retain)
  }

  function Victims(sets: seq<Set>, retain: nat): seq<Set> {
    if sets == [] then []
    else
      var newer, s := sets[..|sets| - 1], sets[|sets| - 1];
      if Stays(newer, s, retain) then Victims(newer, retain) else Victims(newer, retain) + [s]
  }

  // ---- deleting -----------------------------------------------------------------------------------

  datatype Part = Body | Sha | Listing

  datatype Unlink = Unlink(stamp: nat, part: Part)

  function Without(a: Archive, part: Part): Archive {
    match part
    case Body => a.(body := false)
    case Sha => a.(sha := false)
    case Listing => a.(listing := None)
  }

  function Do(dir: seq<Archive>, op: Unlink): (r: seq<Archive>)
    ensures |r| == |dir|
  {
    if op.stamp < |dir| then dir[op.stamp := Without(dir[op.stamp], op.part)] else dir
  }

  function Parts(stamp: nat): seq<Unlink> {
    [Unlink(stamp, Body), Unlink(stamp, Sha), Unlink(stamp, Listing)]
  }

  /** The deletions of one pruning, in order. */
  function Plan(victims: seq<Set>): seq<Unlink> {
    if victims == [] then [] else Plan(victims[..|victims| - 1]) + Parts(victims[|victims| - 1].stamp)
  }

  function PlanOf(dir: seq<Archive>, retain: nat): seq<Unlink> {
    Plan(Victims(CompleteSets(dir), retain))
  }

  lemma {:induction false} SetsSnoc(sets: seq<Set>, s: Set, retain: nat)
    ensures Paths(sets + [s]) == Paths(sets) + s.files
    ensures Survivors(sets + [s], retain) == Survivors(sets, retain) + if Stays(sets, s, retain) then [s] else []
    ensures Victims(sets + [s], retain) == Victims(sets, retain) + if Stays(sets, s, retain) then [] else [s]
  {
    hide Stays;
    assert (sets + [s])[..|sets|] == sets;
  }

  lemma {:induction false} NoSets(retain: nat)
    ensures Paths([]) == {} && Survivors([], retain) == [] && Victims([], retain) == []
  {
  }

  lemma {:induction false} PlanSnoc(victims: seq<Set>, s: Set)
    ensures Plan(victims + [s]) == Plan(victims) + Parts(s.stamp)
  {
    hide Parts;
    assert (victims + [s])[..|victims|] == victims;
  }

  lemma {:induction false} PlanOnlyGrows(sets: seq<Set>, i: nat, retain: nat)
    requires i <= |sets|
    ensures Plan(Victims(sets[..i], retain)) <= Plan(Victims(sets, retain))
    decreases |sets|
  {
    hide Plan, Victims, Parts, Stays;
    if i == |sets| {
      assert sets[..i] == sets;
    } else {
      var front, s := sets[..|sets| - 1], sets[|sets| - 1];
      assert sets == front + [s] && front[..i] == sets[..i];
      PlanOnlyGrows(front, i, retain);
      SetsSnoc(front, s, retain);
      if Stays(front, s, retain) {
        assert Victims(front, retain) + [] == Victims(front, retain);
      } else {
        PlanSnoc(Victims(front, retain), s);
      }
    }
  }

  class OutDir {
    var dir: seq<Archive>

    constructor (dir: seq<Archive>)
      ensures this.dir == dir
    {
      this.dir := dir;
    }

    method FindComplete() returns (sets: seq<Set>)
      ensures sets == CompleteSets(dir)
    {
      sets := [];
      assert dir[..0] == [];
      for i := 0 to |dir|
        invariant sets == CompleteSets(dir[..i])
      {
        assert dir[..i + 1][..i] == dir[..i];
        if dir[i].body && dir[i].sha && dir[i].listing.Some? {
          sets := [Set(i, FilesOf(dir[i]))] + sets;
        }
      }
      assert dir[..|dir|] == dir;
    }

    method Remove(op: Unlink)
      modifies this
      ensures dir == Do(old(dir), op)
    {
      if op.stamp < |dir| {
        dir := dir[op.stamp := Without(dir[op.stamp], op.part)];
      }
    }

    /** Deletes the three files of one archive; `left` deletions still succeed. */
    method RemoveAll(stamp: nat, left: nat) returns (rest: nat, ok: bool)
      modifies this
      ensures ok <==> left >= 3
      ensures ok ==> rest == left - 3
      ensures dir == DoAll(old(dir), Parts(stamp)[..Least(left, 3)], Do)
    {
      hide DoAll, Do;
      ghost var was, parts := dir, Parts(stamp);
      rest := left;
      assert DoAll(was, [], Do) == was by {
        DoNothing(was, Do);
      }
      var i := 0;
      assert parts[..0] == [];
      while i < 3
        invariant 0 <= i <= 3 && rest == left - i && dir == DoAll(was, parts[..i], Do)
      {
        if rest == 0 {
          return rest, false;
        }
        assert parts[..i + 1] == parts[..i] + [parts[i]];
        DoAllSnoc(was, parts[..i], parts[i], Do);
        Remove(Parts(stamp)[i]);
        rest := rest - 1;
        i := i + 1;
      }
      ok := true;
    }

    /** Deletes what no longer has to stay. `unlinks` deletions succeed; the one after them fails and ends it. */
    method Prune(retain: nat, unlinks: nat) returns (done: bool)
      modifies this
      ensures done <==> |PlanOf(old(dir), retain)| <= unlinks
      ensures dir == DoAll(old(dir), PlanOf(old(dir), retain)[..Least(unlinks, |PlanOf(old(dir), retain)|)], Do)
    {
      hide CompleteSets, Paths, Survivors, Victims, Plan, DoAll, Parts;
      ghost var was := dir;
      var sets := FindComplete();
      ghost var plan := Plan(Victims(sets, retain));
      var covered: set<string> := {};
      var left := unlinks;
      NoSets(retain);
      NoPlan();
      DoNothing(was, Do);
      assert sets[..0] == [] && plan[..0] == [];
      var i := 0;
      while i < |sets| && i < retain
        invariant i <= |sets| && i <= retain && dir == was
        invariant covered == Paths(sets[..i]) && Victims(sets[..i], retain) == []
      {
        assert sets[..i + 1] == sets[..i] + [sets[i]];
        SetsSnoc(sets[..i], sets[i], retain);
        covered := covered + sets[i].files;
        i := i + 1;
      }
      while i < |sets|
        invariant i <= |sets| && (i < |sets| ==> i >= retain)
        invariant covered == Paths(sets[..i])
        invariant |Plan(Victims(sets[..i], retain))| + left == unlinks
        invariant dir == DoAll(was, Plan(Victims(sets[..i], retain)), Do)
      {
        var s := sets[i];
        ghost var planned := Plan(Victims(sets[..i], retain));
        assert sets[..i + 1] == sets[..i] + [s];
        SetsSnoc(sets[..i], s, retain);
        PlanOnlyGrows(sets, i + 1, retain);
        var unique := s.files - covered;
        if unique != {} {
          covered := covered + s.files;
          assert Victims(sets[..i], retain) + [] == Victims(sets[..i], retain);
        } else {
          assert forall p :: p in s.files && p !in covered ==> p in unique;
          assert covered + s.files == covered;
          PlanSnoc(Victims(sets[..i], retain), s);
          ThreeParts(s.stamp);
          var ok: bool;
          ghost var had := left;
          left, ok := RemoveAll(s.stamp, left);
          ghost var n := Least(had, 3);
          DoAllMore(was, planned, Parts(s.stamp)[..n], Do);
          assert plan[..|planned| + n] == planned + Parts(s.stamp)[..n];
          if !ok {
            return false;
          }
          assert Parts(s.stamp)[..3] == Parts(s.stamp);
        }
        i := i + 1;
      }
      assert sets[..|sets|] == sets && plan[..|plan|] == plan;
      done := true;
    }
  }

  lemma {:induction false} NoPlan()
    ensures Plan([]) == []
  {
  }

  lemma {:induction false} ThreeParts(stamp: nat)
    ensures |Parts(stamp)| == 3
  {
  }

  // ---- what survives ------------------------------------------------------------------------------

  /** Whatever the newest archive that holds a path is, it stays. */
  lemma {:induction false} NewestCopySurvives(sets: seq<Set>, retain: nat, i: nat, path: string)
    requires i < |sets| && path in sets[i].files && path !in Paths(sets[..i])
    ensures sets[i] in Survivors(sets, retain)
    decreases |sets|
  {
    hide Survivors, Paths;
    var newer, s := sets[..|sets| - 1], sets[|sets| - 1];
    assert sets == newer + [s];
    SetsSnoc(newer, s, retain);
    assert newer[..i] == sets[..i] || i == |newer|;
    if i < |newer| {
      NewestCopySurvives(newer, retain, i, path);
    } else {
      assert path in s.files - Paths(newer);
    }
  }

  /** No path is lost that a listing was read to name. */
  lemma {:induction false} NoPathIsLost(sets: seq<Set>, retain: nat)
    ensures Paths(Survivors(sets, retain)) == Paths(sets)
  {
    if sets != [] {
      hide Survivors, Paths;
      var newer, s := sets[..|sets| - 1], sets[|sets| - 1];
      assert sets == newer + [s];
      SetsSnoc(newer, s, retain);
      NoPathIsLost(newer, retain);
      if Stays(newer, s, retain) {
        SetsSnoc(Survivors(newer, retain), s, retain);
      } else {
        assert Survivors(newer, retain) + [] == Survivors(newer, retain);
        assert forall p :: p in s.files ==> p !in s.files - Paths(newer) ==> p in Paths(newer);
      }
    } else {
      NoSets(retain);
    }
  }

  ghost predicate HoldsLast(sets: seq<Set>, k: nat)
    requires k < |sets|
  {
    sets[k].files - Paths(sets[..k]) != {}
  }

  lemma {:induction false} FewAllStay(sets: seq<Set>, retain: nat)
    requires |sets| <= retain
    ensures Survivors(sets, retain) == sets
  {
    if sets != [] {
      FewAllStay(sets[..|sets| - 1], retain);
      assert sets == sets[..|sets| - 1] + [sets[|sets| - 1]];
    }
  }

  /** Each archive kept beyond the retained ones holds a path that no newer surviving archive holds. */
  lemma {:induction false} EachExtraHoldsALastCopy(sets: seq<Set>, retain: nat, k: nat)
    requires retain <= k < |Survivors(sets, retain)|
    ensures HoldsLast(Survivors(sets, retain), k)
    decreases |sets|
  {
    hide Survivors, Paths;
    NoSets(retain);
    var newer, s := sets[..|sets| - 1], sets[|sets| - 1];
    assert sets == newer + [s];
    SetsSnoc(newer, s, retain);
    var before, all := Survivors(newer, retain), Survivors(sets, retain);
    if k < |before| {
      EachExtraHoldsALastCopy(newer, retain, k);
      assert all[..k] == before[..k] && all[k] == before[k];
    } else {
      assert all[..k] == before;
      NoPathIsLost(newer, retain);
      if |newer| < retain {
        FewAllStay(newer, retain);
      }
    }
  }

  /** Adding a set that holds something new adds at least one path. */
  lemma {:induction false} MorePaths(sets: seq<Set>, s: Set)
    requires s.files - Paths(sets) != {}
    ensures |Paths(sets) + s.files| >= |Paths(sets)| + 1
  {
    hide Paths;
    var before := Paths(sets);
    var path :| path in s.files - before;
    SubsetSize(before + {path}, before + s.files);
  }

  lemma {:induction false} SubsetSize(a: set<string>, b: set<string>)
    requires a <= b
    ensures |a| <= |b|
    decreases a
  {
    if a != {} {
      var x :| x in a;
      SubsetSize(a - {x}, b - {x});
    }
  }

  /** So there are at most as many of those as there are paths the retained archives do not hold. */
  lemma {:induction false} FewExtras(sets: seq<Set>, retain: nat)
    requires |sets| >= retain
    ensures |Survivors(sets, retain)| - retain <= |Paths(sets)| - |Paths(sets[..retain])|
    decreases |sets|
  {
    hide Survivors, Paths;
    if |sets| == retain {
      FewAllStay(sets, retain);
      assert sets[..retain] == sets;
    } else {
      var newer, s := sets[..|sets| - 1], sets[|sets| - 1];
      assert sets == newer + [s] && newer[..retain] == sets[..retain];
      SetsSnoc(newer, s, retain);
      FewExtras(newer, retain);
      if Stays(newer, s, retain) {
        MorePaths(newer, s);
      } else {
        SubsetSize(Paths(newer), Paths(sets));
      }
    }
  }

  lemma {:induction false} AllStay(sets: seq<Set>, retain: nat, n: nat)
    requires n <= |sets| && forall k :: retain <= k < |sets| ==> HoldsLast(sets, k)
    ensures Survivors(sets[..n], retain) == sets[..n]
  {
    hide Survivors, Paths;
    if n == 0 {
      NoSets(retain);
    } else {
      AllStay(sets, retain, n - 1);
      assert n - 1 >= retain ==> HoldsLast(sets, n - 1);
      assert sets[..n] == sets[..n - 1] + [sets[n - 1]];
      SetsSnoc(sets[..n - 1], sets[n - 1], retain);
    }
  }

  /** Pruning what was pruned deletes nothing. */
  lemma {:induction false} PruningTwiceIsOnce(sets: seq<Set>, retain: nat)
    ensures Survivors(Survivors(sets, retain), retain) == Survivors(sets, retain)
  {
    hide Survivors, HoldsLast;
    var kept := Survivors(sets, retain);
    forall k | retain <= k < |kept| ensures HoldsLast(kept, k) {
      EachExtraHoldsALastCopy(sets, retain, k);
    }
    AllStay(kept, retain, |kept|);
    assert kept[..|kept|] == kept;
  }

  // ---- on the directory, at every point -------------------------------------------------------------

  ghost predicate Descending(sets: seq<Set>, n: nat) {
    && (forall i :: 0 <= i < |sets| ==> sets[i].stamp < n)
    && forall i, j :: 0 <= i < j < |sets| ==> sets[j].stamp < sets[i].stamp
  }

  lemma {:induction false} CompleteDescend(dir: seq<Archive>)
    ensures Descending(CompleteSets(dir), |dir|)
  {
    if dir != [] {
      CompleteDescend(dir[..|dir| - 1]);
    }
  }

  lemma {:induction false} CompleteAre(dir: seq<Archive>, s: Set)
    ensures s in CompleteSets(dir) <==>
      s.stamp < |dir| && Complete(dir[s.stamp]) && s.files == FilesOf(dir[s.stamp])
  {
    if dir != [] {
      hide Complete;
      var front := dir[..|dir| - 1];
      CompleteAre(front, s);
      if s.stamp < |front| {
        assert front[s.stamp] == dir[s.stamp];
      }
    }
  }

  /** Each archive either survives or is a victim. */
  lemma {:induction false} OneOrOther(sets: seq<Set>, retain: nat, n: nat, s: Set)
    requires Descending(sets, n)
    ensures s in sets <==> s in Survivors(sets, retain) || s in Victims(sets, retain)
    ensures s in Survivors(sets, retain) ==> forall v :: v in Victims(sets, retain) ==> v.stamp != s.stamp
    decreases |sets|
  {
    hide Survivors, Victims, Paths, Stays;
    if sets == [] {
      NoSets(retain);
    } else {
      var newer, last := sets[..|sets| - 1], sets[|sets| - 1];
      assert sets == newer + [last];
      SetsSnoc(newer, last, retain);
      OneOrOther(newer, retain, n, s);
      forall v | v in Victims(newer, retain) ensures v.stamp != last.stamp {
        OneOrOther(newer, retain, n, v);
        var i :| 0 <= i < |newer| && newer[i] == v;
        assert sets[i] == v;
      }
      if s in Survivors(newer, retain) {
        var i :| 0 <= i < |newer| && newer[i] == s;
        assert sets[i] == s;
      }
    }
  }

  lemma {:induction false} PlanHits(victims: seq<Set>, op: Unlink)
    requires op in Plan(victims)
    ensures exists v :: v in victims && v.stamp == op.stamp
  {
    var front, last := victims[..|victims| - 1], victims[|victims| - 1];
    assert victims == front + [last];
    if op in Plan(front) {
      PlanHits(front, op);
    } else {
      assert op in Parts(last.stamp);
      assert last in victims;
    }
  }

  lemma {:induction false} UntouchedStays(dir: seq<Archive>, ops: seq<Unlink>, stamp: nat)
    requires stamp < |dir| && forall op :: op in ops ==> op.stamp != stamp
    ensures |DoAll(dir, ops, Do)| == |dir|
    ensures DoAll(dir, ops, Do)[stamp] == dir[stamp]
  {
    if ops != [] {
      hide Without;
      var front, last := ops[..|ops| - 1], ops[|ops| - 1];
      assert ops == front + [last];
      UntouchedStays(dir, front, stamp);
    }
  }

  /** However far the deletions got, every survivor is there untouched - so no path is lost at any point. */
  lemma {:induction false} SurvivorsAreUntouched(dir: seq<Archive>, retain: nat, n: nat, s: Set)
    requires n <= |PlanOf(dir, retain)| && s in Survivors(CompleteSets(dir), retain)
    ensures s.stamp < |dir| == |DoAll(dir, PlanOf(dir, retain)[..n], Do)|
    ensures DoAll(dir, PlanOf(dir, retain)[..n], Do)[s.stamp] == dir[s.stamp]
    ensures s in CompleteSets(DoAll(dir, PlanOf(dir, retain)[..n], Do))
  {
    hide CompleteSets, Survivors, Victims, Plan, DoAll, Paths;
    var sets := CompleteSets(dir);
    CompleteDescend(dir);
    OneOrOther(sets, retain, |dir|, s);
    CompleteAre(dir, s);
    var ops := PlanOf(dir, retain)[..n];
    forall op | op in ops ensures op.stamp != s.stamp {
      PlanHits(Victims(sets, retain), op);
    }
    UntouchedStays(dir, ops, s.stamp);
    CompleteAre(DoAll(dir, ops, Do), s);
  }

  ghost predicate AtMost(a: Archive, b: Archive) {
    && (a.body ==> b.body) && (a.sha ==> b.sha) && (a.listing.Some? ==> a.listing == b.listing)
    && a.readable == b.readable
  }

  /** Deletions only take away, and each takes its part away for good. */
  lemma {:induction false} OnlyTakesAway(dir: seq<Archive>, ops: seq<Unlink>, stamp: nat)
    requires stamp < |dir|
    ensures |DoAll(dir, ops, Do)| == |dir|
    ensures AtMost(DoAll(dir, ops, Do)[stamp], dir[stamp])
    ensures Unlink(stamp, Body) in ops ==> !DoAll(dir, ops, Do)[stamp].body
    ensures Unlink(stamp, Sha) in ops ==> !DoAll(dir, ops, Do)[stamp].sha
    ensures Unlink(stamp, Listing) in ops ==> DoAll(dir, ops, Do)[stamp].listing.None?
  {
    if ops != [] {
      var front, last := ops[..|ops| - 1], ops[|ops| - 1];
      assert ops == front + [last];
      OnlyTakesAway(dir, front, stamp);
    }
  }

  lemma {:induction false} PlanTakes(victims: seq<Set>, v: Set)
    requires v in victims
    ensures forall part :: Unlink(v.stamp, part) in Plan(victims)
  {
    var front, last := victims[..|victims| - 1], victims[|victims| - 1];
    assert victims == front + [last];
    if v in front {
      PlanTakes(front, v);
    } else {
      var parts := Parts(last.stamp);
      assert parts[0] == Unlink(v.stamp, Body) && parts[1] == Unlink(v.stamp, Sha) && parts[2] == Unlink(v.stamp, Listing);
      forall part: Part ensures Unlink(v.stamp, part) in parts {
        match part {
          case Body =>
          case Sha =>
          case Listing =>
        }
      }
    }
  }

  lemma {:induction false} SameMembersSame(a: seq<Set>, b: seq<Set>, m: nat, n: nat)
    requires Descending(a, m) && Descending(b, n) && forall s :: s in a <==> s in b
    ensures a == b
    decreases |a|
  {
    assert b != [] ==> b[0] in b;
    if a != [] {
      assert a[0] in b;
      assert b != [];
      assert b[0] in a;
      assert a[0] == b[0];
      forall s ensures s in a[1..] <==> s in b[1..] {
        assert s in a[1..] <==> s in a && s != a[0];
        assert s in b[1..] <==> s in b && s != b[0];
      }
      SameMembersSame(a[1..], b[1..], m, n);
      assert a == [a[0]] + a[1..] && b == [b[0]] + b[1..];
    }
  }

  lemma {:induction false} SurvivorsDescend(sets: seq<Set>, retain: nat, n: nat)
    requires Descending(sets, n)
    ensures Descending(Survivors(sets, retain), n)
    ensures forall s :: s in Survivors(sets, retain) ==> s in sets
    decreases |sets|
  {
    hide Survivors, Stays, Paths, Victims;
    if sets == [] {
      NoSets(retain);
    } else {
      var newer, last := sets[..|sets| - 1], sets[|sets| - 1];
      assert sets == newer + [last];
      SetsSnoc(newer, last, retain);
      SurvivorsDescend(newer, retain, n);
      forall i | 0 <= i < |Survivors(newer, retain)| ensures last.stamp < Survivors(newer, retain)[i].stamp {
        var s := Survivors(newer, retain)[i];
        assert s in newer;
        var j :| 0 <= j < |newer| && newer[j] == s;
        assert sets[j] == s;
      }
    }
  }

  lemma {:induction false} SameDirectory(dir: seq<Archive>, ops: seq<Unlink>)
    ensures |DoAll(dir, ops, Do)| == |dir|
  {
    if ops != [] {
      SameDirectory(dir, ops[..|ops| - 1]);
    }
  }

  /** A pruning that runs to its end leaves exactly the survivors. */
  lemma {:induction false} PrunedIsSurvivors(dir: seq<Archive>, retain: nat)
    ensures CompleteSets(DoAll(dir, PlanOf(dir, retain), Do)) == Survivors(CompleteSets(dir), retain)
  {
    hide CompleteSets, Survivors, Victims, Plan, DoAll, Descending;
    var sets, plan := CompleteSets(dir), PlanOf(dir, retain);
    var after := DoAll(dir, plan, Do);
    CompleteDescend(dir);
    CompleteDescend(after);
    SameDirectory(dir, plan);
    SurvivorsDescend(sets, retain, |dir|);
    forall s ensures s in CompleteSets(after) <==> s in Survivors(sets, retain) {
      OneOrOther(sets, retain, |dir|, s);
      CompleteAre(after, s);
      CompleteAre(dir, s);
      if s.stamp < |dir| {
        OnlyTakesAway(dir, plan, s.stamp);
      }
      if s in Survivors(sets, retain) {
        SurvivorsAreUntouched(dir, retain, |plan|, s);
        assert plan[..|plan|] == plan;
      }
      if s in Victims(sets, retain) {
        PlanTakes(Victims(sets, retain), s);
      }
    }
    SameMembersSame(CompleteSets(after), Survivors(sets, retain), |after|, |dir|);
  }

  // ---- on the directory alone -----------------------------------------------------------------------

  /** A complete archive whose listing names `path`. */
  ghost predicate Holds(dir: seq<Archive>, i: int, path: string) {
    0 <= i < |dir| && Complete(dir[i]) && path in dir[i].listing.value
  }

  /** The listing of archive `i` can be read and names a path that no newer readable listing names. */
  ghost predicate IsLastCopy(dir: seq<Archive>, i: int, path: string) {
    Holds(dir, i, path) && dir[i].readable && forall j :: i < j < |dir| && dir[j].readable ==> !Holds(dir, j, path)
  }

  /** How many complete archives are newer. */
  function Newer(dir: seq<Archive>, i: nat): nat
    decreases |dir|
  {
    if i + 1 >= |dir| then 0
    else Newer(dir[..|dir| - 1], i) + if Complete(dir[|dir| - 1]) then 1 else 0
  }

  /** One of the `retain` newest complete archives, or one with the last copy of a path. */
  ghost predicate MustStay(dir: seq<Archive>, retain: nat, i: nat) {
    && i < |dir| && Complete(dir[i])
    && (Newer(dir, i) < retain || exists path :: IsLastCopy(dir, i, path))
  }

  /** The directory after the first `n` deletions. */
  function After(dir: seq<Archive>, retain: nat, n: nat): seq<Archive> {
    DoAll(dir, PlanOf(dir, retain)[..Least(n, |PlanOf(dir, retain)|)], Do)
  }

  lemma {:induction false} PathsHas(sets: seq<Set>, path: string)
    ensures path in Paths(sets) <==> exists s :: s in sets && path in s.files
  {
    if sets != [] {
      var front, last := sets[..|sets| - 1], sets[|sets| - 1];
      assert sets == front + [last] && last in sets;
      PathsHas(front, path);
    }
  }

  lemma {:induction false} PlaceOf(dir: seq<Archive>, i: nat)
    requires i < |dir| && Complete(dir[i])
    ensures Newer(dir, i) < |CompleteSets(dir)|
    ensures CompleteSets(dir)[Newer(dir, i)] == Set(i, FilesOf(dir[i]))
    decreases |dir|
  {
    hide Complete;
    if i + 1 < |dir| {
      PlaceOf(dir[..|dir| - 1], i);
    }
  }

  /** What the archives newer than `i` were read to hold. */
  lemma {:induction false} NewerPaths(dir: seq<Archive>, i: nat, path: string)
    requires i < |dir| && Complete(dir[i])
    requires Newer(dir, i) <= |CompleteSets(dir)|
    ensures path in Paths(CompleteSets(dir)[..Newer(dir, i)])
      <==> exists j :: i < j < |dir| && dir[j].readable && Holds(dir, j, path)
  {
    hide Paths, CompleteSets, Newer;
    PlaceOf(dir, i);
    CompleteDescend(dir);
    var sets, k := CompleteSets(dir), Newer(dir, i);
    PathsHas(sets[..k], path);
    if path in Paths(sets[..k]) {
      var s :| s in sets[..k] && path in s.files;
      CompleteAre(dir, s);
      assert Holds(dir, s.stamp, path);
    }
    if j :| i < j < |dir| && dir[j].readable && Holds(dir, j, path) {
      var s := Set(j, FilesOf(dir[j]));
      CompleteAre(dir, s);
      var l :| 0 <= l < |sets| && sets[l] == s;
      assert sets[..k][l] == s;
    }
  }

  lemma {:induction false} StaysAt(sets: seq<Set>, retain: nat, n: nat, k: nat)
    requires k < |sets| && Descending(sets, n)
    ensures sets[k] in Survivors(sets, retain) <==> Stays(sets[..k], sets[k], retain)
    decreases |sets|
  {
    hide Survivors, Stays;
    var newer, last := sets[..|sets| - 1], sets[|sets| - 1];
    assert sets == newer + [last];
    SetsSnoc(newer, last, retain);
    SurvivorsDescend(newer, retain, n);
    if k < |newer| {
      StaysAt(newer, retain, n, k);
      assert newer[..k] == sets[..k];
      assert last.stamp != sets[k].stamp;
    } else {
      assert forall j :: 0 <= j < |newer| ==> newer[j] == sets[j] && newer[j].stamp > last.stamp;
      assert sets[..k] == newer;
    }
  }

  /** The loop keeps exactly those that must stay. */
  lemma {:induction false} SurvivorIff(dir: seq<Archive>, retain: nat, i: nat)
    requires i < |dir| && Complete(dir[i])
    ensures Set(i, FilesOf(dir[i])) in Survivors(CompleteSets(dir), retain) <==> MustStay(dir, retain, i)
  {
    hide Paths, CompleteSets, Newer, Survivors, Holds, Descending;
    PlaceOf(dir, i);
    CompleteDescend(dir);
    var sets, k := CompleteSets(dir), Newer(dir, i);
    StaysAt(sets, retain, |dir|, k);
    var files := FilesOf(dir[i]);
    forall path ensures path in files <==> dir[i].readable && Holds(dir, i, path) {
      ReadsHolds(dir, i, path);
    }
    forall path ensures path in files - Paths(sets[..k]) <==> IsLastCopy(dir, i, path) {
      NewerPaths(dir, i, path);
    }
    if files - Paths(sets[..k]) != {} {
      var path :| path in files - Paths(sets[..k]);
      assert IsLastCopy(dir, i, path);
    }
  }

  lemma {:induction false} ReadsHolds(dir: seq<Archive>, i: nat, path: string)
    requires i < |dir| && Complete(dir[i])
    ensures path in FilesOf(dir[i]) <==> dir[i].readable && Holds(dir, i, path)
  {
  }

  /** However far the deletions got, an archive that must stay is as it was, and so is one that was not complete. A
      pruning that runs to its end deletes all three files of every other. */
  lemma {:induction false} PruneLeaves(dir: seq<Archive>, retain: nat, n: nat, i: nat)
    requires i < |dir|
    ensures |After(dir, retain, n)| == |dir| && AtMost(After(dir, retain, n)[i], dir[i])
    ensures !Complete(dir[i]) || MustStay(dir, retain, i) ==> After(dir, retain, n)[i] == dir[i]
    ensures n >= |PlanOf(dir, retain)| && Complete(dir[i]) && !MustStay(dir, retain, i) ==>
      After(dir, retain, n)[i] == Archive(false, false, None, dir[i].readable)
  {
    hide CompleteSets, Survivors, Victims, Plan, DoAll, MustStay, Descending, Do;
    var sets, plan := CompleteSets(dir), PlanOf(dir, retain);
    var ops := plan[..Least(n, |plan|)];
    OnlyTakesAway(dir, ops, i);
    if !Complete(dir[i]) {
      forall op | op in ops ensures op.stamp != i {
        PlanHits(Victims(sets, retain), op);
        var v :| v in Victims(sets, retain) && v.stamp == op.stamp;
        CompleteDescend(dir);
        OneOrOther(sets, retain, |dir|, v);
        CompleteAre(dir, v);
      }
      UntouchedStays(dir, ops, i);
    } else {
      var s := Set(i, FilesOf(dir[i]));
      SurvivorIff(dir, retain, i);
      if MustStay(dir, retain, i) {
        SurvivorsAreUntouched(dir, retain, Least(n, |plan|), s);
      } else if n >= |plan| {
        assert ops == plan;
        CompleteDescend(dir);
        CompleteAre(dir, s);
        OneOrOther(sets, retain, |dir|, s);
        PlanTakes(Victims(sets, retain), s);
      }
    }
  }

  /** The newest readable archive with the path. */
  lemma {:induction false} NewestReader(dir: seq<Archive>, i: nat, path: string) returns (j: nat)
    requires i < |dir| && dir[i].readable && Holds(dir, i, path)
    ensures IsLastCopy(dir, j, path)
    decreases |dir| - i
  {
    hide Holds;
    j := i;
    if k :| i < k < |dir| && dir[k].readable && Holds(dir, k, path) {
      j := NewestReader(dir, k, path);
    }
  }

  /** At every point of a pruning each path that a readable listing of a complete archive named is named by a readable
      listing of a complete archive. */
  lemma {:induction false} ReadPathsAreKept(
    dir: seq<Archive>, retain: nat, n: nat, i: nat, path: string) returns (j: nat)
    requires i < |dir| && dir[i].readable && Holds(dir, i, path)
    ensures Holds(After(dir, retain, n), j, path) && After(dir, retain, n)[j].readable
  {
    hide After, Complete, Newer;
    j := NewestReader(dir, i, path);
    PruneLeaves(dir, retain, n, j);
  }

  /** Each path of an archive that cannot be read and is not among the newest ones stands in the listing of one that can
      or is. */
  ghost predicate UnreadHoldsNothingMore(dir: seq<Archive>, retain: nat) {
    forall i: nat, path :: Holds(dir, i, path) && !dir[i].readable && Newer(dir, i) >= retain ==>
      exists j: nat :: Holds(dir, j, path) && (dir[j].readable || Newer(dir, j) < retain)
  }

  ghost predicate NothingIsLost(dir: seq<Archive>, after: seq<Archive>) {
    forall i: nat, path :: Holds(dir, i, path) ==> exists j: nat :: Holds(after, j, path)
  }

  /** A pruning that runs to its end loses no path that a complete archive held, if and only if the archives it cannot
      read hold nothing more. */
  lemma {:induction false} PrunedKeepsPathsIff(dir: seq<Archive>, retain: nat, n: nat)
    requires n >= |PlanOf(dir, retain)|
    ensures NothingIsLost(dir, After(dir, retain, n)) <==> UnreadHoldsNothingMore(dir, retain)
  {
    hide After, Newer, PlanOf;
    var after := After(dir, retain, n);
    if UnreadHoldsNothingMore(dir, retain) {
      forall i: nat, path | Holds(dir, i, path) ensures exists j: nat :: Holds(after, j, path) {
        PathStays(dir, retain, n, i, path);
      }
    }
    if NothingIsLost(dir, after) {
      forall i: nat, path | Holds(dir, i, path) && !dir[i].readable && Newer(dir, i) >= retain
        ensures exists j: nat :: Holds(dir, j, path) && (dir[j].readable || Newer(dir, j) < retain)
      {
        var j: nat :| Holds(after, j, path);
        PruneLeaves(dir, retain, n, 0);
        PruneLeaves(dir, retain, n, j);
        assert Holds(dir, j, path);
      }
    }
  }

  lemma {:induction false} PathStays(dir: seq<Archive>, retain: nat, n: nat, i: nat, path: string)
    requires UnreadHoldsNothingMore(dir, retain) && Holds(dir, i, path)
    ensures exists j: nat :: Holds(After(dir, retain, n), j, path)
  {
    hide After, Newer, PlanOf;
    var k := i;
    if !dir[i].readable && Newer(dir, i) >= retain {
      k :| Holds(dir, k, path) && (dir[k].readable || Newer(dir, k) < retain);
    }
    if dir[k].readable {
      var j := ReadPathsAreKept(dir, retain, n, k, path);
    } else {
      PruneLeaves(dir, retain, n, k);
      assert MustStay(dir, retain, k);
      assert Holds(After(dir, retain, n), k, path);
    }
  }

  /** An archive whose listing cannot be read is deleted with the last copy it holds. */
  lemma {:induction false} UnreadCopyIsLost(path: string)
    ensures var dir := [Archive(true, true, Some({path}), false), Archive(true, true, Some({}), true)];
      Holds(dir, 0, path) && forall j :: !Holds(After(dir, 1, 3), j, path)
  {
    hide After;
    var older, newer := Archive(true, true, Some({path}), false), Archive(true, true, Some({}), true);
    var dir := [older, newer];
    assert dir[..1] == [older];
    assert Newer(dir, 0) == Newer([older], 0) + 1;
    assert !MustStay(dir, 1, 0);
    assert Holds(dir, 0, path);
    PlanOfTwo(older, newer);
    PruneLeaves(dir, 1, 3, 0);
    PruneLeaves(dir, 1, 3, 1);
  }

  lemma {:induction false} PlanOfTwo(older: Archive, newer: Archive)
    requires Complete(older) && Complete(newer)
    ensures |PlanOf([older, newer], 1)| <= 3
  {
    hide FilesOf, Paths;
    var dir := [older, newer];
    assert dir[..1] == [older] && [older][..0] == [];
    var a, b := Set(1, FilesOf(newer)), Set(0, FilesOf(older));
    assert CompleteSets([older]) == [b];
    assert CompleteSets(dir) == [a, b];
    NoSets(1);
    NoPlan();
    SetsSnoc([], a, 1);
    assert [] + [a] == [a];
    SetsSnoc([a], b, 1);
    assert [a] + [b] == [a, b];
    PlanSnoc([], b);
    assert [] + [b] == [b];
  }
}
